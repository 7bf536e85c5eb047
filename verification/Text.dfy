/** What the parser takes for UTF-8 and for white space, by code points
    (section 3.9 of the Unicode standard; Rust's `str::from_utf8` and `str::trim`). */
module Text {
  import opened Types
  import opened Sse

  /** A Unicode scalar value: any code point but a surrogate. */
  predicate IsScalar(c: nat) {
    c < 0xD800 || 0xE000 <= c < 0x11_0000
  }

  function Encoded(c: nat): (bytes: Bytes)
    requires IsScalar(c)
    ensures 1 <= |bytes| <= 4
  {
    if c < 0x80 then [c as Byte]
    else if c < 0x800 then [(0xC0 + c / 64) as Byte, (0x80 + c % 64) as Byte]
    else if c < 0x1_0000 then
      [(0xE0 + c / 4096) as Byte, (0x80 + c / 64 % 64) as Byte, (0x80 + c % 64) as Byte]
    else
      [(0xF0 + c / 262144) as Byte, (0x80 + c / 4096 % 64) as Byte, (0x80 + c / 64 % 64) as Byte, (0x80 + c % 64) as Byte]
  }

  function EncodedAll(chars: seq<nat>): Bytes
    requires forall k :: 0 <= k < |chars| ==> IsScalar(chars[k])
  {
    if chars == [] then [] else Encoded(chars[0]) + EncodedAll(chars[1..])
  }

  /** The scalar value of the first character. */
  function Decoded(s: Bytes): nat
    requires CharLength(s) > 0
  {
    if CharLength(s) == 1 then s[0] as int
    else if CharLength(s) == 2 then (s[0] as int - 0xC0) * 64 + (s[1] as int - 0x80)
    else if CharLength(s) == 3 then (s[0] as int - 0xE0) * 4096 + (s[1] as int - 0x80) * 64 + (s[2] as int - 0x80)
    else
      (s[0] as int - 0xF0) * 262144 + (s[1] as int - 0x80) * 4096 + (s[2] as int - 0x80) * 64 + (s[3] as int - 0x80)
  }

  lemma Sextets(high: nat, low: nat)
    requires low < 64
    ensures (high * 64 + low) / 64 == high && (high * 64 + low) % 64 == low
  {
  }

  lemma DecodedEncodesTwo(s: Bytes)
    requires CharLength(s) == 2
    ensures IsScalar(Decoded(s)) && Encoded(Decoded(s)) == s[..2]
  {
    Sextets(s[0] as int - 0xC0, s[1] as int - 0x80);
    assert s[..2] == [s[0], s[1]];
  }

  lemma DecodedEncodesThree(s: Bytes)
    requires CharLength(s) == 3
    ensures IsScalar(Decoded(s)) && Encoded(Decoded(s)) == s[..3]
  {
    var a, b, c := s[0] as int - 0xE0, s[1] as int - 0x80, s[2] as int - 0x80;
    Sextets(a * 64 + b, c);
    Sextets(a, b);
    Shifts(Decoded(s));
    assert s[..3] == [s[0], s[1], s[2]];
  }

  lemma DecodedEncodesFour(s: Bytes)
    requires CharLength(s) == 4
    ensures IsScalar(Decoded(s)) && Encoded(Decoded(s)) == s[..4]
  {
    var a, b, c, d := s[0] as int - 0xF0, s[1] as int - 0x80, s[2] as int - 0x80, s[3] as int - 0x80;
    Sextets(a * 4096 + b * 64 + c, d);
    Sextets(a * 64 + b, c);
    Sextets(a, b);
    Shifts(Decoded(s));
    assert s[..4] == [s[0], s[1], s[2], s[3]];
  }

  lemma Shifts(c: nat)
    ensures c / 4096 == c / 64 / 64 && c / 262144 == c / 64 / 64 / 64
  {
  }

  lemma DecodedEncodes(s: Bytes)
    requires CharLength(s) > 0
    ensures IsScalar(Decoded(s)) && Encoded(Decoded(s)) == s[..CharLength(s)]
  {
    var n := CharLength(s);
    if n == 1 { assert s[..1] == [s[0]]; }
    else if n == 2 { DecodedEncodesTwo(s); }
    else if n == 3 { DecodedEncodesThree(s); }
    else { DecodedEncodesFour(s); }
  }

  lemma CharLengthOfStart(start: Bytes, rest: Bytes)
    requires CharLength(start) == |start| > 0
    ensures CharLength(start + rest) == |start|
  {
    CharLengthOfPrefix(start, rest);
  }

  lemma EncodedAlone(c: nat)
    requires IsScalar(c)
    ensures CharLength(Encoded(c)) == |Encoded(c)|
  {
  }

  lemma EncodedIsChar(c: nat, rest: Bytes)
    requires IsScalar(c)
    ensures CharLength(Encoded(c) + rest) == |Encoded(c)|
  {
    EncodedAlone(c);
    CharLengthOfStart(Encoded(c), rest);
  }

  lemma {:induction false} Utf8Decodes(s: Bytes) returns (chars: seq<nat>)
    requires Utf8(s)
    ensures (forall k :: 0 <= k < |chars| ==> IsScalar(chars[k])) && s == EncodedAll(chars)
    decreases |s|
  {
    if s == [] { return []; }
    var n := CharLength(s);
    DecodedEncodes(s);
    var later := Utf8Decodes(s[n..]);
    chars := [Decoded(s)] + later;
    assert chars[1..] == later && s == s[..n] + s[n..];
  }

  lemma {:induction false} EncodingIsUtf8(chars: seq<nat>)
    requires forall k :: 0 <= k < |chars| ==> IsScalar(chars[k])
    ensures Utf8(EncodedAll(chars))
  {
    if chars != [] {
      var later := EncodedAll(chars[1..]);
      EncodingIsUtf8(chars[1..]);
      EncodedIsChar(chars[0], later);
      assert (Encoded(chars[0]) + later)[|Encoded(chars[0])|..] == later;
    }
  }

  ghost predicate Encodes(s: Bytes, chars: seq<nat>) {
    (forall k :: 0 <= k < |chars| ==> IsScalar(chars[k])) && s == EncodedAll(chars)
  }

  /** Text is taken for UTF-8 exactly when it is the encoding of scalar values. */
  lemma Utf8Exactly(s: Bytes)
    ensures Utf8(s) <==> exists chars :: Encodes(s, chars)
  {
    if Utf8(s) {
      var chars := Utf8Decodes(s);
      assert Encodes(s, chars);
    }
    forall chars | Encodes(s, chars) ensures Utf8(s) { EncodingIsUtf8(chars); }
  }

  /** The characters with the White_Space property. */
  predicate IsSpace(c: nat) {
    || 0x09 <= c <= 0x0D || c == 0x20 || c == 0x85 || c == 0xA0 || c == 0x1680
    || 0x2000 <= c <= 0x200A || c == 0x2028 || c == 0x2029 || c == 0x202F || c == 0x205F || c == 0x3000
  }

  lemma SpaceExactly(c: nat, rest: Bytes)
    requires IsScalar(c)
    ensures SpaceLength(Encoded(c) + rest) == if IsSpace(c) then |Encoded(c)| else 0
  {
    var s := Encoded(c) + rest;
    assert forall k :: 0 <= k < |Encoded(c)| ==> s[k] == Encoded(c)[k];
  }

  /** Text is blank exactly when all its characters are white space. */
  lemma {:induction false} BlankExactly(chars: seq<nat>)
    requires forall k :: 0 <= k < |chars| ==> IsScalar(chars[k])
    ensures Blank(EncodedAll(chars)) <==> forall k :: 0 <= k < |chars| ==> IsSpace(chars[k])
  {
    if chars != [] {
      var later := EncodedAll(chars[1..]);
      BlankExactly(chars[1..]);
      SpaceExactly(chars[0], later);
      assert (Encoded(chars[0]) + later)[|Encoded(chars[0])|..] == later;
      assert chars == [chars[0]] + chars[1..];
    }
  }
}
