/** Choosing a transport for an agent card (a2a-client/src/factory.rs). */
module Negotiation {
  import opened Wrappers
  import opened Types
  import opened Decimal
  import opened Sorting

  datatype Interface = Interface(url: string, binding: string, version: string, tenant: Option<string>)

  datatype TransportKey = TransportKey(protocol: string, major: nat)

  /** What stands before the first dot. */
  function FirstPiece(version: string): string {
    if version == "" || version[0] == '.' then "" else [version[0]] + FirstPiece(version[1..])
  }

  /** `TransportKey::from_interface`: a version that does not start with a number
      counts as version 1. */
  function KeyOf(iface: Interface): TransportKey {
    TransportKey(iface.binding, ParsedU64(FirstPiece(iface.version)).UnwrapOr(1))
  }

  const USIZE_MAX := 0xFFFF_FFFF_FFFF_FFFF

  /** The first position of the binding in the preferences; unlisted ones rank
      last. */
  function Rank(preferred: seq<string>, binding: string): nat {
    if binding !in preferred then USIZE_MAX else PositionOf(preferred, binding)
  }

  function PositionOf(preferred: seq<string>, binding: string): (i: nat)
    requires binding in preferred
    ensures i < |preferred| && preferred[i] == binding && binding !in preferred[..i]
  {
    if preferred[0] == binding then 0
    else
      assert preferred == [preferred[0]] + preferred[1..];
      var i := PositionOf(preferred[1..], binding);
      assert preferred[..i + 1] == [preferred[0]] + preferred[1..][..i];
      1 + i
  }

  /** An interface with a factory, by its place in the card. */
  datatype Candidate = Candidate(rank: nat, index: nat)

  datatype Client<X> = Client(transport: X, tenant: Option<string>, iface: Interface)

  /** Everything a negotiation depends on. */
  datatype Setting<!F, !X> = Setting(
    factories: map<TransportKey, F>,
    preferred: seq<string>,
    interfaces: seq<Interface>,  // in the card's order
    create: (nat, F, Interface) -> Result<X, A2AError>)  // at each place of the card
  {
    predicate Supported(i: nat) {
      i < |interfaces| && KeyOf(interfaces[i]) in factories
    }

    function Created(i: nat): Result<X, A2AError>
      requires Supported(i)
    {
      create(i, factories[KeyOf(interfaces[i])], interfaces[i])
    }

    /** The client over a working interface; an empty tenant counts as none. */
    function ClientOf(i: nat): Client<X>
      requires Supported(i) && Created(i).Ok?
    {
      var tenant := interfaces[i].tenant;
      Client(Created(i).value, if tenant == Some("") then None else tenant, interfaces[i])
    }

    predicate Works(i: nat) {
      Supported(i) && Created(i).Ok?
    }

    function RankOf(i: nat): nat
      requires i < |interfaces|
    {
      Rank(preferred, interfaces[i].binding)
    }

    /** Preference first, the card's order second. */
    predicate Before(i: nat, j: nat)
      requires i < |interfaces| && j < |interfaces|
    {
      RankOf(i) < RankOf(j) || (RankOf(i) == RankOf(j) && i < j)
    }

    /** The interface the negotiation must settle on. */
    ghost predicate Best(i: nat) {
      Works(i) && forall j: nat :: Works(j) && j != i ==> Before(i, j)
    }

    /** The supported interface tried last. */
    ghost predicate LastTried(i: nat) {
      Supported(i) && forall j: nat :: Supported(j) && j != i ==> Before(j, i)
    }
  }

  function RankLe(a: Candidate, b: Candidate): bool {
    a.rank <= b.rank
  }

  function IndexLess(a: Candidate, b: Candidate): bool {
    a.index < b.index
  }

  ghost predicate Listed(candidates: seq<Candidate>, i: nat) {
    exists k :: 0 <= k < |candidates| && candidates[k].index == i
  }

  /** One candidate for each supported interface among the first n. */
  ghost predicate Candidates<F, X>(setting: Setting<F, X>, candidates: seq<Candidate>, n: nat) {
    && (forall c :: c in candidates ==>
          c.index < n && setting.Supported(c.index) && c.rank == setting.RankOf(c.index))
    && (forall i: nat :: i < n && setting.Supported(i) ==> Listed(candidates, i))
  }

  ghost predicate InCardOrder(candidates: seq<Candidate>) {
    forall i, j :: 0 <= i < j < |candidates| ==> IndexLess(candidates[i], candidates[j])
  }

  /** The candidates in the order they are tried. */
  ghost predicate Ranked<F, X>(setting: Setting<F, X>, candidates: seq<Candidate>) {
    && Candidates(setting, candidates, |setting.interfaces|)
    && forall i, j :: 0 <= i < j < |candidates| ==> setting.Before(candidates[i].index, candidates[j].index)
  }

  lemma SortKeepsTheCandidates(candidates: seq<Candidate>)
    requires InCardOrder(candidates)
    ensures forall c :: c in Sorted(candidates, RankLe) <==> c in candidates
    ensures InOrder(Sorted(candidates, RankLe), RankLe)
    ensures TiesInOrder(Sorted(candidates, RankLe), RankLe, IndexLess)
  {
    SortedIs(candidates, RankLe);
    SortedIsStable(candidates, RankLe, IndexLess);
    forall c ensures c in Sorted(candidates, RankLe) <==> c in candidates {
      assert c in multiset(Sorted(candidates, RankLe)) <==> c in multiset(candidates);
    }
  }

  lemma SortingRanks<F, X>(setting: Setting<F, X>, candidates: seq<Candidate>)
    requires Candidates(setting, candidates, |setting.interfaces|) && InCardOrder(candidates)
    ensures Ranked(setting, Sorted(candidates, RankLe))
  {
    var sorted := Sorted(candidates, RankLe);
    SortKeepsTheCandidates(candidates);
    forall i: nat | i < |setting.interfaces| && setting.Supported(i) ensures Listed(sorted, i) {
      var k :| 0 <= k < |candidates| && candidates[k].index == i;
      assert candidates[k] in sorted;
    }
    forall i, j | 0 <= i < j < |sorted| ensures setting.Before(sorted[i].index, sorted[j].index) {
      assert sorted[i] in candidates && sorted[j] in candidates;
      assert RankLe(sorted[i], sorted[j]);
      assert RankLe(sorted[j], sorted[i]) ==> IndexLess(sorted[i], sorted[j]);
    }
  }

  lemma OneMore<F, X>(setting: Setting<F, X>, candidates: seq<Candidate>, n: nat)
    requires Candidates(setting, candidates, n) && InCardOrder(candidates) && setting.Supported(n)
    ensures var more := candidates + [Candidate(setting.RankOf(n), n)];
            Candidates(setting, more, n + 1) && InCardOrder(more)
  {
    var more := candidates + [Candidate(setting.RankOf(n), n)];
    assert more[|candidates|].index == n;
    forall i: nat | i < n && setting.Supported(i) ensures Listed(more, i) {
      assert Listed(candidates, i);
      var k :| 0 <= k < |candidates| && candidates[k].index == i;
      assert more[k].index == i;
    }
    forall c | c in more ensures c in candidates || c == Candidate(setting.RankOf(n), n) { }
  }

  /** The candidates in the card's order. */
  method Collect<F(!new), X>(setting: Setting<F, X>) returns (candidates: seq<Candidate>)
    ensures Candidates(setting, candidates, |setting.interfaces|) && InCardOrder(candidates)
  {
    candidates := [];
    var n := 0;
    while n < |setting.interfaces|
      invariant 0 <= n <= |setting.interfaces|
      invariant Candidates(setting, candidates, n) && InCardOrder(candidates)
    {
      if setting.Supported(n) {
        OneMore(setting, candidates, n);
        candidates := candidates + [Candidate(setting.RankOf(n), n)];
      }
      n := n + 1;
    }
  }

  /** `create_from_card_selecting`. */
  method CreateFromCard<F(!new), X>(setting: Setting<F, X>)
    returns (made: Result<Client<X>, A2AError>, ghost chosen: nat)
    ensures made.Ok? <==> exists i: nat :: setting.Works(i)
    ensures made.Ok? ==>
              && setting.Best(chosen) && (forall i: nat :: setting.Best(i) ==> i == chosen)
              && made.value.transport == setting.Created(chosen).value
              && made.value.iface == setting.interfaces[chosen]
              && made.value.tenant == (if setting.interfaces[chosen].tenant == Some("") then None
                                       else setting.interfaces[chosen].tenant)
    ensures made.Err? ==>
              if exists i: nat :: setting.Supported(i)
              then setting.LastTried(chosen) && setting.Created(chosen) == Err(made.error)
              else made.error.code == UNSUPPORTED_OPERATION
  {
    var candidates := Collect(setting);
    if candidates == [] {
      return Err(Error(UNSUPPORTED_OPERATION)), 0;
    }
    SortingRanks(setting, candidates);
    SortedIs(candidates, RankLe);
    assert |multiset(candidates)| == |multiset(Sorted(candidates, RankLe))|;
    made, chosen := TryInOrder(setting, Sorted(candidates, RankLe));
    if made.Ok? {
      forall i: nat | setting.Best(i) ensures i == chosen { BestIsUnique(setting, i, chosen); }
    }
  }

  /** None of the first n candidates works. */
  ghost predicate NoneWorks<F, X>(setting: Setting<F, X>, candidates: seq<Candidate>, n: nat)
    requires n <= |candidates|
  {
    forall k :: 0 <= k < n ==> !setting.Works(candidates[k].index)
  }

  /** Tries the candidates one after another until a factory succeeds. */
  method TryInOrder<F(!new), X>(setting: Setting<F, X>, candidates: seq<Candidate>)
    returns (made: Result<Client<X>, A2AError>, ghost chosen: nat)
    requires Ranked(setting, candidates) && candidates != []
    ensures setting.Supported(chosen)
    ensures made.Ok? ==> setting.Best(chosen) && made == Ok(setting.ClientOf(chosen))
    ensures made.Err? ==>
              && (forall i: nat :: !setting.Works(i))
              && setting.LastTried(chosen) && setting.Created(chosen) == Err(made.error)
  {
    var lastError := Error(INTERNAL_ERROR);
    var n := 0;
    while n < |candidates|
      invariant 0 <= n <= |candidates|
      invariant NoneWorks(setting, candidates, n)
      invariant n > 0 ==> setting.Created(candidates[n - 1].index) == Err(lastError)
    {
      var index := candidates[n].index;
      CandidateIsSupported(setting, candidates, n);
      var transport := setting.Created(index);
      if transport.Ok? {
        FirstWorkingIsBest(setting, candidates, n);
        return Ok(setting.ClientOf(index)), index;
      }
      lastError := transport.error;
      n := n + 1;
    }
    LastIsLastTried(setting, candidates);
    return Err(lastError), candidates[|candidates| - 1].index;
  }

  lemma CandidateIsSupported<F, X>(setting: Setting<F, X>, candidates: seq<Candidate>, n: nat)
    requires Ranked(setting, candidates) && n < |candidates|
    ensures setting.Supported(candidates[n].index)
  {
    assert candidates[n] in candidates;
  }

  lemma FirstWorkingIsBest<F, X>(setting: Setting<F, X>, candidates: seq<Candidate>, n: nat)
    requires Ranked(setting, candidates) && n < |candidates| && setting.Works(candidates[n].index)
    requires NoneWorks(setting, candidates, n)
    ensures setting.Best(candidates[n].index)
  {
    var chosen := candidates[n].index;
    forall j: nat | setting.Works(j) && j != chosen ensures setting.Before(chosen, j) {
      assert Listed(candidates, j);
      var k :| 0 <= k < |candidates| && candidates[k].index == j;
    }
  }

  lemma LastIsLastTried<F, X>(setting: Setting<F, X>, candidates: seq<Candidate>)
    requires Ranked(setting, candidates) && candidates != []
    ensures setting.LastTried(candidates[|candidates| - 1].index)
    ensures NoneWorks(setting, candidates, |candidates|) ==> forall j: nat :: !setting.Works(j)
  {
    var last := |candidates| - 1;
    assert candidates[last] in candidates;
    forall j: nat | setting.Supported(j)
      ensures j != candidates[last].index ==> setting.Before(j, candidates[last].index)
      ensures exists k :: 0 <= k < |candidates| && candidates[k].index == j
    {
      assert Listed(candidates, j);
      var k :| 0 <= k < |candidates| && candidates[k].index == j;
    }
  }

  /** The answer is determined: there is at most one best interface. */
  lemma BestIsUnique<F, X>(setting: Setting<F, X>, i: nat, j: nat)
    requires setting.Best(i) && setting.Best(j)
    ensures i == j
  {
  }

  /** With no preferences the card's order decides. */
  lemma CardOrderDecides<F, X>(setting: Setting<F, X>, i: nat)
    requires setting.preferred == []
    ensures setting.Best(i) <==> setting.Works(i) && forall j: nat :: j < i ==> !setting.Works(j)
  {
    if setting.Works(i) && forall j: nat :: j < i ==> !setting.Works(j) {
      forall j: nat | setting.Works(j) && j != i ensures setting.Before(i, j) { }
    }
  }

  /** A listed binding ranks before every unlisted one. */
  lemma ListedBeforeUnlisted<F, X>(setting: Setting<F, X>, i: nat, j: nat)
    requires |setting.preferred| <= USIZE_MAX && i < |setting.interfaces| && j < |setting.interfaces|
    requires setting.interfaces[i].binding in setting.preferred
    requires setting.interfaces[j].binding !in setting.preferred
    ensures setting.Before(i, j)
  {
  }

  /** The version of an interface plays no part in its rank: of two working
      interfaces of one binding the card's first wins, however old. */
  lemma VersionDoesNotRank<F, X>(setting: Setting<F, X>, i: nat, j: nat)
    requires i < j && setting.Works(i) && setting.Works(j)
    requires setting.interfaces[i].binding == setting.interfaces[j].binding
    ensures !setting.Best(j)
  {
    assert setting.Before(i, j);
  }

  // ---------------------------------------------------------------------
  // Preference in the caller's own terms
  // ---------------------------------------------------------------------

  /** Interface i has the p-th preferred binding, and no working interface has one
      preferred to it. */
  ghost predicate MostPreferred<F, X>(setting: Setting<F, X>, i: nat, p: nat) {
    && i < |setting.interfaces| && p < |setting.preferred|
    && setting.interfaces[i].binding == setting.preferred[p]
    && forall j: nat :: setting.Works(j) ==> setting.interfaces[j].binding !in setting.preferred[..p]
  }

  /** No working interface earlier in the card has the same binding. */
  ghost predicate FirstOfItsBinding<F, X>(setting: Setting<F, X>, i: nat) {
    forall j: nat :: j < i && setting.Works(j) ==>
      i < |setting.interfaces| && setting.interfaces[j].binding != setting.interfaces[i].binding
  }

  lemma RankOfPreferred<F, X>(setting: Setting<F, X>, i: nat, p: nat)
    requires setting.Works(i) && MostPreferred(setting, i, p)
    ensures setting.RankOf(i) == p
    ensures forall j: nat :: setting.Works(j) && setting.interfaces[j].binding in setting.preferred ==>
              && setting.RankOf(j) >= p
              && (setting.RankOf(j) == p ==> setting.interfaces[j].binding == setting.interfaces[i].binding)
  {
    assert setting.interfaces[i].binding !in setting.preferred[..p];
    PositionIsFirst(setting.preferred, setting.interfaces[i].binding, p);
    forall j: nat | setting.Works(j) && setting.interfaces[j].binding in setting.preferred
      ensures setting.RankOf(j) >= p
      ensures setting.RankOf(j) == p ==> setting.interfaces[j].binding == setting.interfaces[i].binding
    {
      var q := PositionOf(setting.preferred, setting.interfaces[j].binding);
      assert forall k :: 0 <= k < p ==> setting.preferred[..p][k] == setting.preferred[k];
    }
  }

  lemma PositionIsFirst(preferred: seq<string>, binding: string, p: nat)
    requires p < |preferred| && preferred[p] == binding && binding !in preferred[..p]
    ensures PositionOf(preferred, binding) == p
  {
    var q := PositionOf(preferred, binding);
    assert forall k :: 0 <= k < p ==> preferred[..p][k] == preferred[k];
    assert forall k :: 0 <= k < q ==> preferred[..q][k] == preferred[k];
  }

  /** If some working interface has a listed binding, the chosen one has the
      binding listed first among those that work, and comes first in the card among
      the working interfaces of that binding. */
  lemma PreferenceDecides<F, X>(setting: Setting<F, X>, i: nat, listed: nat)
    requires |setting.preferred| <= USIZE_MAX
    requires setting.Works(listed) && setting.interfaces[listed].binding in setting.preferred
    ensures setting.Best(i)
            <==> setting.Works(i) && FirstOfItsBinding(setting, i) && exists p :: MostPreferred(setting, i, p)
  {
    if setting.Best(i) {
      BestIsPreferred(setting, i, listed);
    }
    forall p | setting.Works(i) && FirstOfItsBinding(setting, i) && MostPreferred(setting, i, p)
      ensures setting.Best(i)
    {
      RankOfPreferred(setting, i, p);
      forall j: nat | setting.Works(j) && j != i ensures setting.Before(i, j) {
        if setting.interfaces[j].binding in setting.preferred {
          assert setting.RankOf(j) >= p;
        }
      }
    }
  }

  lemma NotBefore(preferred: seq<string>, binding: string, p: nat)
    requires p <= |preferred| && (binding in preferred ==> p <= PositionOf(preferred, binding))
    ensures binding !in preferred[..p]
  {
    if binding in preferred {
      var q := PositionOf(preferred, binding);
      assert preferred[..p] <= preferred[..q];
    }
  }

  lemma BestIsPreferred<F, X>(setting: Setting<F, X>, i: nat, listed: nat)
    requires |setting.preferred| <= USIZE_MAX && setting.Best(i)
    requires setting.Works(listed) && setting.interfaces[listed].binding in setting.preferred
    ensures FirstOfItsBinding(setting, i) && exists p :: MostPreferred(setting, i, p)
  {
    assert i == listed || setting.Before(i, listed);
    var p := PositionOf(setting.preferred, setting.interfaces[i].binding);
    forall j: nat | setting.Works(j) ensures setting.interfaces[j].binding !in setting.preferred[..p] {
      assert i == j || setting.Before(i, j);
      NotBefore(setting.preferred, setting.interfaces[j].binding, p);
    }
    assert MostPreferred(setting, i, p);
    forall j: nat | j < i && setting.Works(j) ensures setting.interfaces[j].binding != setting.interfaces[i].binding {
      assert setting.Before(i, j);
    }
  }

  /** If none does, the card's order decides. */
  lemma UnlistedByCardOrder<F, X>(setting: Setting<F, X>, i: nat)
    requires forall j: nat :: setting.Works(j) ==> setting.interfaces[j].binding !in setting.preferred
    ensures setting.Best(i) <==> setting.Works(i) && forall j: nat :: j < i ==> !setting.Works(j)
  {
    if setting.Works(i) && forall j: nat :: j < i ==> !setting.Works(j) {
      forall j: nat | setting.Works(j) && j != i ensures setting.Before(i, j) { }
    }
  }

  /** A version that is a number, alone or before a dot, names the factory of its
      binding and that major version. */
  lemma VersionNamesFactory(iface: Interface, major: nat, rest: string)
    requires iface.version == Printed(major) + rest && (rest == "" || rest[0] == '.')
    requires major < 0x1_0000_0000_0000_0000
    ensures KeyOf(iface) == TransportKey(iface.binding, major)
  {
    PieceBeforeDot(Printed(major), rest);
    PrintedParses(major);
  }

  lemma {:induction false} PieceBeforeDot(piece: string, rest: string)
    requires '.' !in piece && (rest == "" || rest[0] == '.')
    ensures FirstPiece(piece + rest) == piece
  {
    if piece == "" {
      assert piece + rest == rest;
    } else {
      assert (piece + rest)[1..] == piece[1..] + rest;
      PieceBeforeDot(piece[1..], rest);
    }
  }

  /** One that is not counts as version 1. */
  lemma OtherVersionsAreOne(iface: Interface, piece: string, rest: string)
    requires iface.version == piece + rest && '.' !in piece && (rest == "" || rest[0] == '.')
    requires forall n, sign, zeros :: n < 0x1_0000_0000_0000_0000 ==> !IsNumeralOf(piece, sign, zeros, n)
    ensures KeyOf(iface) == TransportKey(iface.binding, 1)
  {
    PieceBeforeDot(piece, rest);
    if ParsedU64(piece).Some? { ParsesExactly(piece, ParsedU64(piece).value); }
  }
}
