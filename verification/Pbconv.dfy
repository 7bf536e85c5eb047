/** Conversion of the protocol's values to protobuf messages and back: a
    normalisation with an explicit normal form (a2a-pb/src/pbconv.rs). */
module Pbconv {
  import opened Wrappers
  import opened Types

  // ---------------------------------------------------------------------
  // Protobuf messages
  // ---------------------------------------------------------------------

  datatype Kind =
    | NullValue
    | BoolValue(b: bool)
    | NumberValue(d: Double)
    | StringValue(s: string)
    | ListValue(values: seq<PbValue>)
    | StructValue(fields: map<string, PbValue>)

  datatype PbValue = PbValue(kind: Option<Kind>)

  type PbStruct = map<string, PbValue>

  datatype PbTimestamp = PbTimestamp(seconds: int, nanos: int)

  datatype PbContent = PbText(text: string) | PbRaw(raw: seq<Byte>) | PbUrl(url: string) | PbData(data: PbValue)

  datatype PbPart = PbPart(content: Option<PbContent>, filename: string, mediaType: string, metadata: Option<PbStruct>)

  datatype PbMessage = PbMessage(
    messageId: string, contextId: string, taskId: string, role: int, parts: seq<PbPart>,
    metadata: Option<PbStruct>, extensions: seq<string>, referenceTaskIds: seq<string>)

  datatype PbTaskStatus = PbTaskStatus(state: int, message: Option<PbMessage>, timestamp: Option<PbTimestamp>)

  datatype PbArtifact = PbArtifact(
    artifactId: string, name: string, description: string, parts: seq<PbPart>,
    metadata: Option<PbStruct>, extensions: seq<string>)

  datatype PbTask = PbTask(
    id: string, contextId: string, status: Option<PbTaskStatus>, artifacts: seq<PbArtifact>,
    history: seq<PbMessage>, metadata: Option<PbStruct>)

  datatype PbStatusUpdate = PbStatusUpdate(
    taskId: string, contextId: string, status: Option<PbTaskStatus>, metadata: Option<PbStruct>)

  datatype PbArtifactUpdate = PbArtifactUpdate(
    taskId: string, contextId: string, artifact: Option<PbArtifact>, append: bool, lastChunk: bool,
    metadata: Option<PbStruct>)

  datatype PbPayload =
    | PbTaskPayload(task: PbTask)
    | PbMessagePayload(message: PbMessage)
    | PbStatusPayload(status: PbStatusUpdate)
    | PbArtifactPayload(artifact: PbArtifactUpdate)

  datatype PbStreamResponse = PbStreamResponse(payload: Option<PbPayload>)

  datatype PbListTasksRequest = PbListTasksRequest(
    tenant: string, contextId: string, status: int, pageSize: Option<int>, pageToken: string,
    historyLength: Option<int>, statusTimestampAfter: Option<PbTimestamp>, includeArtifacts: Option<bool>)

  datatype ListTasksRequest = ListTasksRequest(
    contextId: Option<string>, status: Option<TaskState>, pageSize: Option<int>, pageToken: Option<string>,
    historyLength: Option<int>, statusTimestampAfter: Option<Timestamp>, includeArtifacts: Option<bool>,
    tenant: Option<string>)

  // ---------------------------------------------------------------------
  // Numbers
  // ---------------------------------------------------------------------

  /** 2^53, up to which every integer is a double. */
  const MAX_EXACT_INTEGER := 9_007_199_254_740_992

  function Abs(n: int): nat {
    if n < 0 then -n else n
  }

  /** The spacing of doubles around m: the least power of two, from u up, with
      m below 2^53 times it. */
  function Spacing(m: nat, u: nat): (spacing: nat)
    requires u > 0
    ensures spacing >= u && m < MAX_EXACT_INTEGER * spacing
    ensures m < MAX_EXACT_INTEGER * u ==> spacing == u
    ensures spacing > u ==> 2 * m >= MAX_EXACT_INTEGER * spacing
    decreases m + 1 - u
  {
    if m < MAX_EXACT_INTEGER * u then u else Spacing(m, 2 * u)
  }

  /** m to the nearest multiple of u, a tie to the even one. */
  function NearestMultiple(m: nat, u: nat): (r: nat)
    requires u > 0
    ensures 2 * Abs(r - m) <= u
  {
    var q, rest := m / u, m % u;
    assert m == q * u + rest;
    if 2 * rest < u || (2 * rest == u && q % 2 == 0) then q * u else q * u + u
  }

  /** The double nearest to an integer, as the integer it is: rounding of
      binary64 by ties to even. */
  function Rounded(n: int): int {
    var m: int := NearestMultiple(Abs(n), Spacing(Abs(n), 1));
    if n < 0 then -m else m
  }

  function Pow2(e: nat): (p: nat)
    ensures p > 0
  {
    if e == 0 then 1 else 2 * Pow2(e - 1)
  }

  /** v is q times the e-th power of two, and q fits the 53 bits of a double. */
  predicate IsScaled(v: int, q: int, e: nat) {
    Abs(q) <= MAX_EXACT_INTEGER && v == q * Pow2(e)
  }

  /** The integers among the doubles (in the range of an i64 or u64 no exponent
      is too large). */
  ghost predicate IsDouble(v: int) {
    exists q, e :: IsScaled(v, q, e)
  }

  lemma {:induction false} SpacingIsPower(m: nat, e: nat) returns (k: nat)
    ensures k >= e && Spacing(m, Pow2(e)) == Pow2(k)
    decreases m + 1 - Pow2(e)
  {
    if m < MAX_EXACT_INTEGER * Pow2(e) {
      k := e;
    } else {
      assert Pow2(e + 1) == 2 * Pow2(e);
      k := SpacingIsPower(m, e + 1);
    }
  }

  lemma {:induction false} PowersDivide(k: nat, e: nat)
    requires k <= e
    ensures Pow2(e) == Pow2(e - k) * Pow2(k)
  {
    if k < e { PowersDivide(k, e - 1); }
  }

  /** No other multiple is nearer. */
  lemma NearestOfMultiples(m: nat, u: nat, q: int)
    requires u > 0
    ensures Abs(NearestMultiple(m, u) - m) <= Abs(q * u - m)
  {
    var d := q - m / u;
    assert m == (m / u) * u + m % u;
    assert q * u - m == d * u - m % u by { assert q * u == (m / u) * u + d * u; }
    if d >= 1 { assert d * u >= u; } else { assert d * u <= 0; }
  }

  /** A double of smaller spacing is below all those of the spacing around m. */
  lemma FinerIsSmaller(q: int, e: nat, k: nat)
    requires Abs(q) <= MAX_EXACT_INTEGER && e < k
    ensures 2 * (q * Pow2(e)) <= MAX_EXACT_INTEGER * Pow2(k)
  {
    PowersDivide(e, k);
    assert Pow2(k - e) == 2 * Pow2(k - e - 1);
    Scales(2, Pow2(k - e), Pow2(e));
    Scales(q, MAX_EXACT_INTEGER, Pow2(e));
  }

  lemma Scales(a: int, b: int, u: nat)
    requires a <= b
    ensures a * u <= b * u
  {
  }

  lemma Regroups(a: int, b: int, c: int)
    ensures a * (b * c) == (a * b) * c
  {
  }

  /** No double is nearer to m. */
  lemma NearestOfDoubles(m: nat, q: int, e: nat)
    requires Abs(q) <= MAX_EXACT_INTEGER
    ensures Abs(NearestMultiple(m, Spacing(m, 1)) - m) <= Abs(q * Pow2(e) - m)
  {
    var k := SpacingIsPower(m, 0);
    var u := Spacing(m, 1);
    if e >= k {
      PowersDivide(k, e);
      Regroups(q, Pow2(e - k), u);
      NearestOfMultiples(m, u, q * Pow2(e - k));
    } else {
      FinerIsSmaller(q, e, k);
      assert 2 * m >= MAX_EXACT_INTEGER * u;
      NearestOfMultiples(m, u, MAX_EXACT_INTEGER / 2);
    }
  }

  lemma QuotientBelow(m: nat, u: nat, bound: nat)
    requires u > 0 && m < bound * u
    ensures m / u < bound
  {
    assert m == (m / u) * u + m % u;
    if m / u >= bound { Scales(bound, m / u, u); }
  }

  /** The multiple below or the one above. */
  lemma NearestIsMultiple(m: nat, u: nat) returns (q: nat)
    requires u > 0
    ensures NearestMultiple(m, u) == q * u && m / u <= q <= m / u + 1
  {
    q := m / u;
    assert (q + 1) * u == q * u + u;
    if NearestMultiple(m, u) != q * u { q := q + 1; }
  }

  lemma MultipleIsDouble(m: nat)
    ensures IsDouble(NearestMultiple(m, Spacing(m, 1)))
  {
    var k := SpacingIsPower(m, 0);
    QuotientBelow(m, Spacing(m, 1), MAX_EXACT_INTEGER);
    var q := NearestIsMultiple(m, Spacing(m, 1));
    assert IsScaled(NearestMultiple(m, Spacing(m, 1)), q, k);
  }

  lemma DoublesMirror(v: int)
    requires IsDouble(v)
    ensures IsDouble(-v)
  {
    var q, e :| IsScaled(v, q, e);
    assert -v == (-q) * Pow2(e);
    assert IsScaled(-v, -q, e);
  }

  /** The rounding of an integer is a double, and no double is nearer; so
      integers up to 2^53 are left as they are. */
  lemma RoundedIsNearest(n: int)
    ensures IsDouble(Rounded(n))
    ensures forall v :: IsDouble(v) ==> Abs(Rounded(n) - n) <= Abs(v - n)
    ensures Abs(n) <= MAX_EXACT_INTEGER ==> Rounded(n) == n
  {
    MultipleIsDouble(Abs(n));
    if n < 0 { DoublesMirror(-Rounded(n)); }
    forall v | IsDouble(v) ensures Abs(Rounded(n) - n) <= Abs(v - n) {
      var w := if n < 0 then -v else v;
      if n < 0 { DoublesMirror(v); }
      var q, e :| IsScaled(w, q, e);
      NearestOfDoubles(Abs(n), q, e);
    }
    SmallIsExact(n);
  }

  lemma SmallIsExact(n: int)
    ensures Abs(n) <= MAX_EXACT_INTEGER ==> Rounded(n) == n
  {
    if Abs(n) == MAX_EXACT_INTEGER {
      assert Spacing(Abs(n), 1) == Spacing(Abs(n), 2) == 2;
    }
  }

  function AsDouble(number: Number): Double {
    match number
    case Int(n) => Finite(Rounded(n) as real)
    case Float(d) => d
  }

  predicate ExactInteger(v: real) {
    v == v.Floor as real && Abs(v.Floor) <= MAX_EXACT_INTEGER
  }

  /** `json_number`: a whole number within 2^53 as an integer, any other finite
      one as it is, nothing for the rest. */
  function JsonNumber(d: Double): Option<Number> {
    match d
    case Finite(v) => if ExactInteger(v) then Some(Int(v.Floor)) else Some(Float(d))
    case NegativeZero => Some(Int(0))
    case _ => None
  }

  // ---------------------------------------------------------------------
  // JSON values
  // ---------------------------------------------------------------------

  function ToPbValue(j: Json): PbValue {
    PbValue(Some(
      match j
      case Null => NullValue
      case Bool(b) => BoolValue(b)
      case Number(number) => NumberValue(AsDouble(number))
      case Str(s) => StringValue(s)
      case Array(items) => ListValue(seq(|items|, i requires 0 <= i < |items| => ToPbValue(items[i])))
      case Object(fields) => StructValue(map k | k in fields :: ToPbValue(fields[k]))))
  }

  function FromPbValue(v: PbValue): Json {
    match v.kind
    case None => Null
    case Some(NullValue) => Null
    case Some(BoolValue(b)) => Bool(b)
    case Some(NumberValue(d)) => if JsonNumber(d).Some? then Number(JsonNumber(d).value) else Null
    case Some(StringValue(s)) => Str(s)
    case Some(ListValue(values)) => Array(seq(|values|, i requires 0 <= i < |values| => FromPbValue(values[i])))
    case Some(StructValue(fields)) => Object(map k | k in fields :: FromPbValue(fields[k]))
  }

  function NormalNumber(number: Number): Number {
    match number
    case Int(n) =>
      if Abs(Rounded(n)) <= MAX_EXACT_INTEGER then Int(Rounded(n)) else Float(Finite(Rounded(n) as real))
    case Float(NegativeZero) => Int(0)
    case Float(Finite(v)) => if ExactInteger(v) then Int(v.Floor) else number
  }

  function NormalJson(j: Json): Json {
    match j
    case Number(number) => Number(NormalNumber(number))
    case Array(items) => Array(seq(|items|, i requires 0 <= i < |items| => NormalJson(items[i])))
    case Object(fields) => Object(map k | k in fields :: NormalJson(fields[k]))
    case _ => j
  }

  /** A normal number is an integer within 2^53 or a double that is none. */
  predicate IsNormalNumber(number: Number) {
    match number
    case Int(n) => Abs(n) <= MAX_EXACT_INTEGER
    case Float(d) => d.Finite? && !ExactInteger(d.v)
  }

  predicate IsNormalJson(j: Json) {
    match j
    case Number(number) => IsNormalNumber(number)
    case Array(items) => forall i :: 0 <= i < |items| ==> IsNormalJson(items[i])
    case Object(fields) => forall k :: k in fields ==> IsNormalJson(fields[k])
    case _ => true
  }

  lemma NumberTrip(number: Number)
    ensures JsonNumber(AsDouble(number)) == Some(NormalNumber(number))
    ensures IsNormalNumber(NormalNumber(number))
    ensures NormalNumber(number) == number <==> IsNormalNumber(number)
  {
    if number.Int? {
      SmallIsExact(number.n);
      assert (Rounded(number.n) as real).Floor == Rounded(number.n);
    }
  }

  /** An integer comes back as the same integer if and only if it is within
      2^53. */
  lemma IntegerSurvives(n: JsonInt)
    ensures FromPbValue(ToPbValue(Number(Int(n)))) == Number(Int(n)) <==> Abs(n) <= MAX_EXACT_INTEGER
  {
    NumberTrip(Int(n));
  }

  /** There and back gives the normal form; it is normal; and exactly the normal
      values are left as they are. */
  lemma {:induction false} JsonTrip(j: Json)
    ensures FromPbValue(ToPbValue(j)) == NormalJson(j)
    ensures IsNormalJson(NormalJson(j))
    ensures NormalJson(j) == j <==> IsNormalJson(j)
  {
    match j
    case Number(number) => NumberTrip(number);
    case Array(items) =>
      forall i | 0 <= i < |items|
        ensures FromPbValue(ToPbValue(items[i])) == NormalJson(items[i])
        ensures IsNormalJson(NormalJson(items[i]))
        ensures NormalJson(items[i]) == items[i] <==> IsNormalJson(items[i])
      {
        JsonTrip(items[i]);
      }
      ArrayTrip(items);
    case Object(fields) =>
      forall k | k in fields
        ensures FromPbValue(ToPbValue(fields[k])) == NormalJson(fields[k])
        ensures IsNormalJson(NormalJson(fields[k]))
        ensures NormalJson(fields[k]) == fields[k] <==> IsNormalJson(fields[k])
      {
        JsonTrip(fields[k]);
      }
      ObjectComesBack(fields);
      ObjectIsNormal(fields);
    case _ =>
  }

  lemma ArrayTrip(items: seq<Json>)
    requires forall i :: 0 <= i < |items| ==>
               && FromPbValue(ToPbValue(items[i])) == NormalJson(items[i])
               && IsNormalJson(NormalJson(items[i]))
               && (NormalJson(items[i]) == items[i] <==> IsNormalJson(items[i]))
    ensures FromPbValue(ToPbValue(Array(items))) == NormalJson(Array(items))
    ensures IsNormalJson(NormalJson(Array(items)))
    ensures NormalJson(Array(items)) == Array(items) <==> IsNormalJson(Array(items))
  {
    var normal := NormalJson(Array(items)).items;
    if normal == items {
      forall i | 0 <= i < |items| ensures IsNormalJson(items[i]) { assert normal[i] == items[i]; }
    }
    if IsNormalJson(Array(items)) { assert normal == items; }
    assert FromPbValue(ToPbValue(Array(items))).items == normal;
  }

  lemma ObjectComesBack(fields: map<string, Json>)
    requires forall k :: k in fields ==> FromPbValue(ToPbValue(fields[k])) == NormalJson(fields[k])
    ensures FromPbValue(ToPbValue(Object(fields))) == NormalJson(Object(fields))
  {
    var there := ToPbValue(Object(fields)).kind.value.fields;
    assert there.Keys == fields.Keys;
    assert FromPbValue(ToPbValue(Object(fields))).fields == NormalJson(Object(fields)).fields;
  }

  lemma ObjectIsNormal(fields: map<string, Json>)
    requires forall k :: k in fields ==>
               IsNormalJson(NormalJson(fields[k])) && (NormalJson(fields[k]) == fields[k] <==> IsNormalJson(fields[k]))
    ensures IsNormalJson(NormalJson(Object(fields)))
    ensures NormalJson(Object(fields)) == Object(fields) <==> IsNormalJson(Object(fields))
  {
    var normal := NormalJson(Object(fields)).fields;
    if normal == fields {
      forall k | k in fields ensures IsNormalJson(fields[k]) { assert normal[k] == fields[k]; }
    }
    if IsNormalJson(Object(fields)) { assert normal == fields; }
  }

  // ---------------------------------------------------------------------
  // Small pieces
  // ---------------------------------------------------------------------

  function ToPbStruct(metadata: Metadata): PbStruct {
    map k | k in metadata :: ToPbValue(metadata[k])
  }

  function FromPbStruct(s: PbStruct): Metadata {
    map k | k in s :: FromPbValue(s[k])
  }

  function ToPbMetadata(metadata: Option<Metadata>): Option<PbStruct> {
    if metadata.None? then None else Some(ToPbStruct(metadata.value))
  }

  function FromPbMetadata(s: Option<PbStruct>): Option<Metadata> {
    if s.None? then None else Some(FromPbStruct(s.value))
  }

  function NormalMetadata(metadata: Option<Metadata>): Option<Metadata> {
    if metadata.None? then None else Some(map k | k in metadata.value :: NormalJson(metadata.value[k]))
  }

  predicate IsNormalMetadata(metadata: Option<Metadata>) {
    metadata.Some? ==> forall k :: k in metadata.value ==> IsNormalJson(metadata.value[k])
  }

  lemma MetadataTrip(metadata: Option<Metadata>)
    ensures FromPbMetadata(ToPbMetadata(metadata)) == NormalMetadata(metadata)
    ensures IsNormalMetadata(NormalMetadata(metadata))
    ensures NormalMetadata(metadata) == metadata <==> IsNormalMetadata(metadata)
  {
    if metadata.Some? {
      JsonTrip(Object(metadata.value));
      var normal := NormalMetadata(metadata).value;
      assert NormalJson(Object(metadata.value)) == Object(normal);
      assert FromPbStruct(ToPbStruct(metadata.value))
          == FromPbValue(ToPbValue(Object(metadata.value))).fields;
    }
  }

  function EmptyToNone(s: string): Option<string> {
    if s == "" then None else Some(s)
  }

  function ListToNone<T>(s: seq<T>): Option<seq<T>> {
    if s == [] then None else Some(s)
  }

  function FalseToNone(b: bool): Option<bool> {
    if b then Some(true) else None
  }

  /** An empty string or list is absent. */
  function NonEmpty<T>(s: Option<seq<T>>): Option<seq<T>> {
    if s.Some? && s.value == [] then None else s
  }

  function OnlyTrue(b: Option<bool>): Option<bool> {
    if b == Some(false) then None else b
  }

  predicate Full<T>(s: Option<seq<T>>) {
    s.Some? ==> s.value != []
  }

  const PROTO_TIMESTAMP_MIN_SECONDS := -62_135_596_800
  const PROTO_TIMESTAMP_MAX_SECONDS := 253_402_300_799

  predicate InProtoRange(t: Timestamp) {
    PROTO_TIMESTAMP_MIN_SECONDS <= t.seconds <= PROTO_TIMESTAMP_MAX_SECONDS
  }

  function ToPbTimestamp(t: Timestamp): Option<PbTimestamp> {
    if InProtoRange(t) then Some(PbTimestamp(t.seconds, t.nanos)) else None
  }

  function ToPbOptTimestamp(t: Option<Timestamp>): Option<PbTimestamp> {
    if t.None? then None else ToPbTimestamp(t.value)
  }

  function FromPbTimestamp(t: PbTimestamp): Option<Timestamp> {
    // A negative count of nanoseconds is no instant once cast to unsigned.
    if IsInstant(t.seconds, t.nanos) then Some(Instant(t.seconds, t.nanos)) else None
  }

  function FromPbOptTimestamp(t: Option<PbTimestamp>): Option<Timestamp> {
    if t.None? then None else FromPbTimestamp(t.value)
  }

  /** An instant protobuf has no timestamp for is absent. */
  function NormalTimestamp(t: Option<Timestamp>): Option<Timestamp> {
    if t.Some? && !InProtoRange(t.value) then None else t
  }

  predicate IsNormalTimestamp(t: Option<Timestamp>) {
    t.Some? ==> InProtoRange(t.value)
  }

  lemma TimestampTrip(t: Option<Timestamp>)
    ensures FromPbOptTimestamp(ToPbOptTimestamp(t)) == NormalTimestamp(t)
    ensures NormalTimestamp(t) == t <==> IsNormalTimestamp(t)
  {
  }

  function ToPbRole(role: Role): int {
    match role case RoleUnspecified => 0 case User => 1 case Agent => 2
  }

  function FromPbRole(v: int): Role {
    if v == 1 then User else if v == 2 then Agent else RoleUnspecified
  }

  function ToPbState(state: TaskState): int {
    match state
    case StateUnspecified => 0
    case Submitted => 1
    case Working => 2
    case Completed => 3
    case Failed => 4
    case Canceled => 5
    case InputRequired => 6
    case Rejected => 7
    case AuthRequired => 8
  }

  function FromPbState(v: int): TaskState {
    if v == 1 then Submitted
    else if v == 2 then Working
    else if v == 3 then Completed
    else if v == 4 then Failed
    else if v == 5 then Canceled
    else if v == 6 then InputRequired
    else if v == 7 then Rejected
    else if v == 8 then AuthRequired
    else StateUnspecified
  }

  lemma EnumTrips(role: Role, state: TaskState)
    ensures FromPbRole(ToPbRole(role)) == role && FromPbState(ToPbState(state)) == state
    ensures ToPbState(state) == 0 <==> state == StateUnspecified
  {
  }

  // ---------------------------------------------------------------------
  // Parts and messages
  // ---------------------------------------------------------------------

  function ToPbPart(p: Part): PbPart {
    PbPart(
      Some(match p.content
           case Text(t) => PbText(t)
           case Raw(r) => PbRaw(r)
           case Url(u) => PbUrl(u)
           case Data(d) => PbData(ToPbValue(d))),
      p.filename.UnwrapOr(""), p.mediaType.UnwrapOr(""), ToPbMetadata(p.metadata))
  }

  function FromPbPart(p: PbPart): Part {
    Part(
      (match p.content
       case Some(PbText(t)) => Text(t)
       case Some(PbRaw(r)) => Raw(r)
       case Some(PbUrl(u)) => Url(u)
       case Some(PbData(d)) => Data(FromPbValue(d))
       case None => Text("")),
      EmptyToNone(p.filename), EmptyToNone(p.mediaType), FromPbMetadata(p.metadata))
  }

  function NormalPart(p: Part): Part {
    Part(if p.content.Data? then Data(NormalJson(p.content.data)) else p.content,
         NonEmpty(p.filename), NonEmpty(p.mediaType), NormalMetadata(p.metadata))
  }

  predicate IsNormalPart(p: Part) {
    && (p.content.Data? ==> IsNormalJson(p.content.data))
    && Full(p.filename) && Full(p.mediaType) && IsNormalMetadata(p.metadata)
  }

  lemma PartTrip(p: Part)
    ensures FromPbPart(ToPbPart(p)) == NormalPart(p)
    ensures IsNormalPart(NormalPart(p))
    ensures NormalPart(p) == p <==> IsNormalPart(p)
  {
    if p.content.Data? { JsonTrip(p.content.data); }
    MetadataTrip(p.metadata);
  }

  function ToPbParts(parts: seq<Part>): seq<PbPart> {
    seq(|parts|, i requires 0 <= i < |parts| => ToPbPart(parts[i]))
  }

  function FromPbParts(parts: seq<PbPart>): seq<Part> {
    seq(|parts|, i requires 0 <= i < |parts| => FromPbPart(parts[i]))
  }

  function NormalParts(parts: seq<Part>): seq<Part> {
    seq(|parts|, i requires 0 <= i < |parts| => NormalPart(parts[i]))
  }

  predicate AreNormalParts(parts: seq<Part>) {
    forall i :: 0 <= i < |parts| ==> IsNormalPart(parts[i])
  }

  lemma PartsTrip(parts: seq<Part>)
    ensures FromPbParts(ToPbParts(parts)) == NormalParts(parts)
    ensures AreNormalParts(NormalParts(parts))
    ensures NormalParts(parts) == parts <==> AreNormalParts(parts)
  {
    forall i | 0 <= i < |parts|
      ensures FromPbPart(ToPbPart(parts[i])) == NormalPart(parts[i])
      ensures IsNormalPart(NormalPart(parts[i]))
      ensures NormalPart(parts[i]) == parts[i] <==> IsNormalPart(parts[i])
    {
      PartTrip(parts[i]);
    }
    if NormalParts(parts) == parts {
      forall i | 0 <= i < |parts| ensures IsNormalPart(parts[i]) { assert NormalParts(parts)[i] == parts[i]; }
    }
  }

  function ToPbMessage(m: Message): PbMessage {
    PbMessage(m.messageId, m.contextId.UnwrapOr(""), m.taskId.UnwrapOr(""), ToPbRole(m.role), ToPbParts(m.parts),
              ToPbMetadata(m.metadata), m.extensions.UnwrapOr([]), m.referenceTaskIds.UnwrapOr([]))
  }

  function FromPbMessage(m: PbMessage): Message {
    Message(m.messageId, EmptyToNone(m.contextId), EmptyToNone(m.taskId), FromPbRole(m.role), FromPbParts(m.parts),
            FromPbMetadata(m.metadata), ListToNone(m.extensions), ListToNone(m.referenceTaskIds))
  }

  function NormalMessage(m: Message): Message {
    m.(contextId := NonEmpty(m.contextId), taskId := NonEmpty(m.taskId), parts := NormalParts(m.parts),
       metadata := NormalMetadata(m.metadata), extensions := NonEmpty(m.extensions),
       referenceTaskIds := NonEmpty(m.referenceTaskIds))
  }

  predicate IsNormalMessage(m: Message) {
    && Full(m.contextId) && Full(m.taskId) && AreNormalParts(m.parts) && IsNormalMetadata(m.metadata)
    && Full(m.extensions) && Full(m.referenceTaskIds)
  }

  lemma MessageTrip(m: Message)
    ensures FromPbMessage(ToPbMessage(m)) == NormalMessage(m)
    ensures IsNormalMessage(NormalMessage(m))
    ensures NormalMessage(m) == m <==> IsNormalMessage(m)
  {
    PartsTrip(m.parts);
    MetadataTrip(m.metadata);
  }

  // ---------------------------------------------------------------------
  // Statuses and artifacts
  // ---------------------------------------------------------------------

  function ToPbStatus(s: TaskStatus): PbTaskStatus {
    PbTaskStatus(ToPbState(s.state), if s.message.None? then None else Some(ToPbMessage(s.message.value)),
                 ToPbOptTimestamp(s.timestamp))
  }

  function FromPbStatus(s: PbTaskStatus): TaskStatus {
    TaskStatus(FromPbState(s.state), if s.message.None? then None else Some(FromPbMessage(s.message.value)),
               FromPbOptTimestamp(s.timestamp))
  }

  /** A status that is not there at all. */
  const UNKNOWN_STATUS := TaskStatus(StateUnspecified, None, None)

  function FromPbOptStatus(s: Option<PbTaskStatus>): TaskStatus {
    if s.None? then UNKNOWN_STATUS else FromPbStatus(s.value)
  }

  function NormalStatus(s: TaskStatus): TaskStatus {
    TaskStatus(s.state, if s.message.None? then None else Some(NormalMessage(s.message.value)),
               NormalTimestamp(s.timestamp))
  }

  predicate IsNormalStatus(s: TaskStatus) {
    (s.message.Some? ==> IsNormalMessage(s.message.value)) && IsNormalTimestamp(s.timestamp)
  }

  lemma StatusTrip(s: TaskStatus)
    ensures FromPbOptStatus(Some(ToPbStatus(s))) == NormalStatus(s)
    ensures IsNormalStatus(NormalStatus(s))
    ensures NormalStatus(s) == s <==> IsNormalStatus(s)
  {
    if s.message.Some? { MessageTrip(s.message.value); }
    TimestampTrip(s.timestamp);
  }

  function ToPbArtifact(a: Artifact): PbArtifact {
    PbArtifact(a.artifactId, a.name.UnwrapOr(""), a.description.UnwrapOr(""), ToPbParts(a.parts),
               ToPbMetadata(a.metadata), a.extensions.UnwrapOr([]))
  }

  function FromPbArtifact(a: PbArtifact): Artifact {
    Artifact(a.artifactId, EmptyToNone(a.name), EmptyToNone(a.description), FromPbParts(a.parts),
             FromPbMetadata(a.metadata), ListToNone(a.extensions))
  }

  function NormalArtifact(a: Artifact): Artifact {
    a.(name := NonEmpty(a.name), description := NonEmpty(a.description), parts := NormalParts(a.parts),
       metadata := NormalMetadata(a.metadata), extensions := NonEmpty(a.extensions))
  }

  predicate IsNormalArtifact(a: Artifact) {
    && Full(a.name) && Full(a.description) && AreNormalParts(a.parts) && IsNormalMetadata(a.metadata)
    && Full(a.extensions)
  }

  lemma ArtifactTrip(a: Artifact)
    ensures FromPbArtifact(ToPbArtifact(a)) == NormalArtifact(a)
    ensures IsNormalArtifact(NormalArtifact(a))
    ensures NormalArtifact(a) == a <==> IsNormalArtifact(a)
  {
    PartsTrip(a.parts);
    MetadataTrip(a.metadata);
  }

  // ---------------------------------------------------------------------
  // Tasks
  // ---------------------------------------------------------------------

  function ToPbArtifacts(s: seq<Artifact>): seq<PbArtifact> {
    seq(|s|, i requires 0 <= i < |s| => ToPbArtifact(s[i]))
  }

  function FromPbArtifacts(s: seq<PbArtifact>): seq<Artifact> {
    seq(|s|, i requires 0 <= i < |s| => FromPbArtifact(s[i]))
  }

  function NormalArtifacts(s: seq<Artifact>): seq<Artifact> {
    seq(|s|, i requires 0 <= i < |s| => NormalArtifact(s[i]))
  }

  function ToPbMessages(s: seq<Message>): seq<PbMessage> {
    seq(|s|, i requires 0 <= i < |s| => ToPbMessage(s[i]))
  }

  function FromPbMessages(s: seq<PbMessage>): seq<Message> {
    seq(|s|, i requires 0 <= i < |s| => FromPbMessage(s[i]))
  }

  function NormalMessages(s: seq<Message>): seq<Message> {
    seq(|s|, i requires 0 <= i < |s| => NormalMessage(s[i]))
  }

  lemma ArtifactsTrip(s: seq<Artifact>)
    ensures FromPbArtifacts(ToPbArtifacts(s)) == NormalArtifacts(s)
    ensures forall i :: 0 <= i < |s| ==> IsNormalArtifact(NormalArtifacts(s)[i])
    ensures NormalArtifacts(s) == s <==> forall i :: 0 <= i < |s| ==> IsNormalArtifact(s[i])
  {
    forall i | 0 <= i < |s|
      ensures FromPbArtifact(ToPbArtifact(s[i])) == NormalArtifact(s[i]) && IsNormalArtifact(NormalArtifact(s[i]))
      ensures NormalArtifact(s[i]) == s[i] <==> IsNormalArtifact(s[i])
    {
      ArtifactTrip(s[i]);
    }
    if NormalArtifacts(s) == s {
      forall i | 0 <= i < |s| ensures IsNormalArtifact(s[i]) { assert NormalArtifacts(s)[i] == s[i]; }
    }
  }

  lemma MessagesTrip(s: seq<Message>)
    ensures FromPbMessages(ToPbMessages(s)) == NormalMessages(s)
    ensures forall i :: 0 <= i < |s| ==> IsNormalMessage(NormalMessages(s)[i])
    ensures NormalMessages(s) == s <==> forall i :: 0 <= i < |s| ==> IsNormalMessage(s[i])
  {
    forall i | 0 <= i < |s|
      ensures FromPbMessage(ToPbMessage(s[i])) == NormalMessage(s[i]) && IsNormalMessage(NormalMessage(s[i]))
      ensures NormalMessage(s[i]) == s[i] <==> IsNormalMessage(s[i])
    {
      MessageTrip(s[i]);
    }
    if NormalMessages(s) == s {
      forall i | 0 <= i < |s| ensures IsNormalMessage(s[i]) { assert NormalMessages(s)[i] == s[i]; }
    }
  }

  function ToPbTask(t: Task): PbTask {
    PbTask(t.id, t.contextId, Some(ToPbStatus(t.status)), ToPbArtifacts(t.artifacts.UnwrapOr([])),
           ToPbMessages(t.history.UnwrapOr([])), ToPbMetadata(t.metadata))
  }

  function FromPbTask(t: PbTask): Task {
    Task(t.id, t.contextId, FromPbOptStatus(t.status),
         if t.artifacts == [] then None else Some(FromPbArtifacts(t.artifacts)),
         if t.history == [] then None else Some(FromPbMessages(t.history)),
         FromPbMetadata(t.metadata))
  }

  function NormalTask(t: Task): Task {
    t.(status := NormalStatus(t.status),
       artifacts := NonEmpty(if t.artifacts.None? then None else Some(NormalArtifacts(t.artifacts.value))),
       history := NonEmpty(if t.history.None? then None else Some(NormalMessages(t.history.value))),
       metadata := NormalMetadata(t.metadata))
  }

  predicate IsNormalTask(t: Task) {
    && IsNormalStatus(t.status) && Full(t.artifacts) && Full(t.history) && IsNormalMetadata(t.metadata)
    && (t.artifacts.Some? ==> forall i :: 0 <= i < |t.artifacts.value| ==> IsNormalArtifact(t.artifacts.value[i]))
    && (t.history.Some? ==> forall i :: 0 <= i < |t.history.value| ==> IsNormalMessage(t.history.value[i]))
  }

  lemma TaskTrip(t: Task)
    ensures FromPbTask(ToPbTask(t)) == NormalTask(t)
    ensures IsNormalTask(NormalTask(t))
    ensures NormalTask(t) == t <==> IsNormalTask(t)
  {
    StatusTrip(t.status);
    MetadataTrip(t.metadata);
    if t.artifacts.Some? { ArtifactsTrip(t.artifacts.value); }
    if t.history.Some? { MessagesTrip(t.history.value); }
  }

  // ---------------------------------------------------------------------
  // Requests and streamed events
  // ---------------------------------------------------------------------

  function ToPbListTasksRequest(r: ListTasksRequest): PbListTasksRequest {
    PbListTasksRequest(
      r.tenant.UnwrapOr(""), r.contextId.UnwrapOr(""), if r.status.None? then 0 else ToPbState(r.status.value),
      r.pageSize, r.pageToken.UnwrapOr(""), r.historyLength, ToPbOptTimestamp(r.statusTimestampAfter),
      r.includeArtifacts)
  }

  function FromPbListTasksRequest(r: PbListTasksRequest): ListTasksRequest {
    ListTasksRequest(
      EmptyToNone(r.contextId), if r.status == 0 then None else Some(FromPbState(r.status)),
      if r.pageSize.Some? && r.pageSize.value > 0 then r.pageSize else None,
      EmptyToNone(r.pageToken), r.historyLength, FromPbOptTimestamp(r.statusTimestampAfter), r.includeArtifacts,
      EmptyToNone(r.tenant))
  }

  /** A non-positive page size and an unspecified status are absent as well. */
  function NormalListTasksRequest(r: ListTasksRequest): ListTasksRequest {
    ListTasksRequest(
      NonEmpty(r.contextId), if r.status == Some(StateUnspecified) then None else r.status,
      if r.pageSize.Some? && r.pageSize.value <= 0 then None else r.pageSize, NonEmpty(r.pageToken),
      r.historyLength, NormalTimestamp(r.statusTimestampAfter), r.includeArtifacts, NonEmpty(r.tenant))
  }

  predicate IsNormalListTasksRequest(r: ListTasksRequest) {
    && Full(r.contextId) && Full(r.pageToken) && Full(r.tenant)
    && r.status != Some(StateUnspecified) && (r.pageSize.Some? ==> r.pageSize.value > 0)
    && IsNormalTimestamp(r.statusTimestampAfter)
  }

  lemma ListTasksRequestTrip(r: ListTasksRequest)
    ensures FromPbListTasksRequest(ToPbListTasksRequest(r)) == NormalListTasksRequest(r)
    ensures IsNormalListTasksRequest(NormalListTasksRequest(r))
    ensures NormalListTasksRequest(r) == r <==> IsNormalListTasksRequest(r)
  {
    EnumTrips(User, r.status.UnwrapOr(Working));
    TimestampTrip(r.statusTimestampAfter);
  }

  function ToPbStatusUpdate(e: StatusUpdate): PbStatusUpdate {
    PbStatusUpdate(e.taskId, e.contextId, Some(ToPbStatus(e.status)), ToPbMetadata(e.metadata))
  }

  function FromPbStatusUpdate(e: PbStatusUpdate): StatusUpdate {
    StatusUpdate(e.taskId, e.contextId, FromPbOptStatus(e.status), FromPbMetadata(e.metadata))
  }

  function ToPbArtifactUpdate(e: ArtifactUpdate): PbArtifactUpdate {
    PbArtifactUpdate(e.taskId, e.contextId, Some(ToPbArtifact(e.artifact)), e.append.UnwrapOr(false),
                     e.lastChunk.UnwrapOr(false), ToPbMetadata(e.metadata))
  }

  function FromPbArtifactUpdate(e: PbArtifactUpdate): ArtifactUpdate {
    ArtifactUpdate(e.taskId, e.contextId,
                   if e.artifact.None? then Artifact("", None, None, [], None, None)
                   else FromPbArtifact(e.artifact.value),
                   FalseToNone(e.append), FalseToNone(e.lastChunk), FromPbMetadata(e.metadata))
  }

  function ToPbStreamResponse(r: StreamResponse): PbStreamResponse {
    PbStreamResponse(Some(
      match r
      case TaskEvent(t) => PbTaskPayload(ToPbTask(t))
      case MessageEvent(m) => PbMessagePayload(ToPbMessage(m))
      case StatusEvent(s) => PbStatusPayload(ToPbStatusUpdate(s))
      case ArtifactEvent(a) => PbArtifactPayload(ToPbArtifactUpdate(a))))
  }

  function FromPbStreamResponse(r: PbStreamResponse): Option<StreamResponse> {
    match r.payload
    case Some(PbTaskPayload(t)) => Some(TaskEvent(FromPbTask(t)))
    case Some(PbMessagePayload(m)) => Some(MessageEvent(FromPbMessage(m)))
    case Some(PbStatusPayload(s)) => Some(StatusEvent(FromPbStatusUpdate(s)))
    case Some(PbArtifactPayload(a)) => Some(ArtifactEvent(FromPbArtifactUpdate(a)))
    case None => None
  }

  function NormalStreamResponse(r: StreamResponse): StreamResponse {
    match r
    case TaskEvent(t) => TaskEvent(NormalTask(t))
    case MessageEvent(m) => MessageEvent(NormalMessage(m))
    case StatusEvent(s) => StatusEvent(s.(status := NormalStatus(s.status), metadata := NormalMetadata(s.metadata)))
    case ArtifactEvent(a) =>
      ArtifactEvent(a.(artifact := NormalArtifact(a.artifact), append := OnlyTrue(a.append),
                       lastChunk := OnlyTrue(a.lastChunk), metadata := NormalMetadata(a.metadata)))
  }

  predicate IsNormalStreamResponse(r: StreamResponse) {
    match r
    case TaskEvent(t) => IsNormalTask(t)
    case MessageEvent(m) => IsNormalMessage(m)
    case StatusEvent(s) => IsNormalStatus(s.status) && IsNormalMetadata(s.metadata)
    case ArtifactEvent(a) =>
      && IsNormalArtifact(a.artifact) && IsNormalMetadata(a.metadata)
      && a.append != Some(false) && a.lastChunk != Some(false)
  }

  /** For every streamed event, there and back gives its normal form, which is
      normal; exactly the normal events are left as they are. */
  lemma StreamResponseTrip(r: StreamResponse)
    ensures FromPbStreamResponse(ToPbStreamResponse(r)) == Some(NormalStreamResponse(r))
    ensures IsNormalStreamResponse(NormalStreamResponse(r))
    ensures NormalStreamResponse(r) == r <==> IsNormalStreamResponse(r)
  {
    match r
    case TaskEvent(t) => TaskTrip(t);
    case MessageEvent(m) => MessageTrip(m);
    case StatusEvent(s) => StatusTrip(s.status); MetadataTrip(s.metadata);
    case ArtifactEvent(a) => ArtifactTrip(a.artifact); MetadataTrip(a.metadata);
  }

  /** A second trip changes nothing the first has left. */
  lemma SecondTripChangesNothing(r: StreamResponse)
    ensures var once := FromPbStreamResponse(ToPbStreamResponse(r));
            once.Some? && FromPbStreamResponse(ToPbStreamResponse(once.value)) == once
  {
    StreamResponseTrip(r);
    StreamResponseTrip(NormalStreamResponse(r));
  }

  /** Nothing a subscription turns on is lost on the way: which event it is and
      whether it is terminal. */
  lemma TripKeepsTerminal(r: StreamResponse)
    ensures var back := FromPbStreamResponse(ToPbStreamResponse(r));
            back.Some? && IsTerminalEvent(back.value) == IsTerminalEvent(r)
  {
    StreamResponseTrip(r);
  }

  // ---------------------------------------------------------------------
  // The protobuf side alone
  // ---------------------------------------------------------------------

  /** The numbers of the states and roles, in the order of a2a.proto. */
  const STATES_BY_NUMBER := [
    StateUnspecified, Submitted, Working, Completed, Failed, Canceled, InputRequired, Rejected, AuthRequired]

  const ROLES_BY_NUMBER := [RoleUnspecified, User, Agent]

  /** Each state and role has its number, and any other number is read as
      unspecified. */
  lemma NumbersAreTheProtos(n: int)
    ensures if 0 <= n < |STATES_BY_NUMBER| then FromPbState(n) == STATES_BY_NUMBER[n] && ToPbState(STATES_BY_NUMBER[n]) == n
            else FromPbState(n) == StateUnspecified
    ensures if 0 <= n < |ROLES_BY_NUMBER| then FromPbRole(n) == ROLES_BY_NUMBER[n] && ToPbRole(ROLES_BY_NUMBER[n]) == n
            else FromPbRole(n) == RoleUnspecified
  {
  }

  /** A string that is absent, or present and empty, is the empty string. */
  predicate Carries(field: string, value: Option<string>) {
    field == match value case None => "" case Some(s) => s
  }

  lemma PartFields(p: Part)
    ensures var b := ToPbPart(p);
            && Carries(b.filename, p.filename) && Carries(b.mediaType, p.mediaType)
            && b.metadata == ToPbMetadata(p.metadata)
            && match p.content
               case Text(t) => b.content == Some(PbText(t))
               case Raw(r) => b.content == Some(PbRaw(r))
               case Url(u) => b.content == Some(PbUrl(u))
               case Data(d) => b.content == Some(PbData(ToPbValue(d)))
  {
  }

  lemma MessageFields(m: Message)
    ensures var b := ToPbMessage(m);
            && b.messageId == m.messageId && Carries(b.contextId, m.contextId) && Carries(b.taskId, m.taskId)
            && FromPbRole(b.role) == m.role
            && |b.parts| == |m.parts| && (forall i :: 0 <= i < |m.parts| ==> b.parts[i] == ToPbPart(m.parts[i]))
            && b.metadata == ToPbMetadata(m.metadata)
            && b.extensions == m.extensions.UnwrapOr([]) && b.referenceTaskIds == m.referenceTaskIds.UnwrapOr([])
  {
    EnumTrips(m.role, Working);
  }

  lemma StatusFields(s: TaskStatus)
    ensures var b := ToPbStatus(s);
            && FromPbState(b.state) == s.state
            && (b.message.Some? <==> s.message.Some?) && (s.message.Some? ==> b.message.value == ToPbMessage(s.message.value))
            && (b.timestamp.Some? <==> s.timestamp.Some? && InProtoRange(s.timestamp.value))
            && (b.timestamp.Some? ==>
                  b.timestamp.value.seconds == s.timestamp.value.seconds && b.timestamp.value.nanos == s.timestamp.value.nanos)
  {
    EnumTrips(User, s.state);
  }

  lemma ArtifactFields(a: Artifact)
    ensures var b := ToPbArtifact(a);
            && b.artifactId == a.artifactId && Carries(b.name, a.name) && Carries(b.description, a.description)
            && |b.parts| == |a.parts| && (forall i :: 0 <= i < |a.parts| ==> b.parts[i] == ToPbPart(a.parts[i]))
            && b.metadata == ToPbMetadata(a.metadata) && b.extensions == a.extensions.UnwrapOr([])
  {
  }

  lemma TaskFields(t: Task)
    ensures var b := ToPbTask(t);
            && b.id == t.id && b.contextId == t.contextId && b.status == Some(ToPbStatus(t.status))
            && |b.artifacts| == |t.artifacts.UnwrapOr([])|
            && (forall i :: 0 <= i < |b.artifacts| ==> b.artifacts[i] == ToPbArtifact(t.artifacts.value[i]))
            && |b.history| == |t.history.UnwrapOr([])|
            && (forall i :: 0 <= i < |b.history| ==> b.history[i] == ToPbMessage(t.history.value[i]))
            && b.metadata == ToPbMetadata(t.metadata)
  {
  }

  lemma UpdateFields(e: StatusUpdate, a: ArtifactUpdate)
    ensures var b := ToPbStatusUpdate(e);
            && b.taskId == e.taskId && b.contextId == e.contextId && b.status == Some(ToPbStatus(e.status))
            && b.metadata == ToPbMetadata(e.metadata)
    ensures var b := ToPbArtifactUpdate(a);
            && b.taskId == a.taskId && b.contextId == a.contextId && b.artifact == Some(ToPbArtifact(a.artifact))
            && (b.append <==> a.append == Some(true)) && (b.lastChunk <==> a.lastChunk == Some(true))
            && b.metadata == ToPbMetadata(a.metadata)
  {
  }

  lemma ListTasksRequestFields(r: ListTasksRequest)
    ensures var b := ToPbListTasksRequest(r);
            && Carries(b.tenant, r.tenant) && Carries(b.contextId, r.contextId) && Carries(b.pageToken, r.pageToken)
            && FromPbState(b.status) == r.status.UnwrapOr(StateUnspecified)
            && b.pageSize == r.pageSize && b.historyLength == r.historyLength && b.includeArtifacts == r.includeArtifacts
            && (b.statusTimestampAfter.Some? <==> r.statusTimestampAfter.Some? && InProtoRange(r.statusTimestampAfter.value))
  {
    EnumTrips(User, r.status.UnwrapOr(Working));
  }

  /** A JSON value of each kind becomes the protobuf value of that kind, element by
      element and field by field. */
  lemma ValueKinds(j: Json)
    ensures var b := ToPbValue(j).kind;
            match j
            case Null => b == Some(NullValue)
            case Bool(v) => b == Some(BoolValue(v))
            case Number(Int(n)) => b == Some(NumberValue(Finite(Rounded(n) as real)))
            case Number(Float(d)) => b == Some(NumberValue(d))
            case Str(s) => b == Some(StringValue(s))
            case Array(items) =>
              && b.Some? && b.value.ListValue? && |b.value.values| == |items|
              && forall i :: 0 <= i < |items| ==> b.value.values[i] == ToPbValue(items[i])
            case Object(fields) =>
              && b.Some? && b.value.StructValue? && b.value.fields.Keys == fields.Keys
              && forall k :: k in fields ==> b.value.fields[k] == ToPbValue(fields[k])
  {
  }

  /** A streamed event fills the payload of its kind. */
  lemma PayloadKinds(r: StreamResponse)
    ensures ToPbStreamResponse(r).payload
         == Some(match r
                 case TaskEvent(t) => PbTaskPayload(ToPbTask(t))
                 case MessageEvent(m) => PbMessagePayload(ToPbMessage(m))
                 case StatusEvent(e) => PbStatusPayload(ToPbStatusUpdate(e))
                 case ArtifactEvent(e) => PbArtifactPayload(ToPbArtifactUpdate(e)))
  {
  }

  /** Days from the first day of year 1 to that of the given year. */
  function DaysBefore(year: nat): int
    requires year > 0
  {
    365 * (year - 1) + (year - 1) / 4 - (year - 1) / 100 + (year - 1) / 400
  }

  /** A timestamp fits protobuf's exactly from the start of year 1 to the end of
      year 9999. */
  lemma ProtoRangeIsYears(t: Timestamp)
    ensures InProtoRange(t)
            <==> DaysBefore(1) * 86_400 <= t.seconds + DaysBefore(1970) * 86_400 < DaysBefore(10_000) * 86_400
  {
  }
}
