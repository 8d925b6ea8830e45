/**
  Text as Rust strings hold it: Unicode scalar values, stored as UTF-8
  (section 3.9 of the Unicode Standard, table 3-6).
 */
module Utf8Text {
  import opened Bytes

  /** A text is a sequence of Unicode scalar values. */
  type Text = seq<nat>

  const CODE_POINTS: nat := 0x110000

  function Utf8Char(c: nat): (r: seq<Byte>) {
    if c < 0x80 then [c]
    else if c < 0x800 then [0xC0 + c / 64, 0x80 + c % 64]
    else if c < 0x10000 then [0xE0 + c / 4096, 0x80 + c / 64 % 64, 0x80 + c % 64]
    else [0xF0 + c / 262144 % 8, 0x80 + c / 4096 % 64, 0x80 + c / 64 % 64, 0x80 + c % 64]
  }

  function Utf8(t: Text): (r: seq<Byte>) { if t == [] then [] else Utf8Char(t[0]) + Utf8(t[1..]) }

  // ---- Reading it again ---------------------------------------------------------------------------------------

  ghost predicate IsTrail(b: Byte) { 0x80 <= b < 0xC0 }

  /** A byte that is not the first of its character adds six bits. */
  ghost function Add6(high: nat, b: nat): (c: nat)
    requires b >= 0x80
  {
    64 * high + (b - 0x80)
  }

  /** The first character of `s` and the bytes it takes; the first byte tells how many. */
  ghost function FirstChar(s: seq<Byte>): (r: Option<(nat, nat)>)
    ensures r.Some? ==> 1 <= r.value.1 <= |s|
  {
    if s == [] then None
    else if s[0] < 0x80 then Some((s[0], 1))
    else if 0xC0 <= s[0] < 0xE0 && |s| >= 2 && IsTrail(s[1]) then Some((Add6(s[0] - 0xC0, s[1]), 2))
    else if 0xE0 <= s[0] < 0xF0 && |s| >= 3 && IsTrail(s[1]) && IsTrail(s[2]) then
      Some((Add6(Add6(s[0] - 0xE0, s[1]), s[2]), 3))
    else if 0xF0 <= s[0] < 0xF8 && |s| >= 4 && IsTrail(s[1]) && IsTrail(s[2]) && IsTrail(s[3]) then
      Some((Add6(Add6(Add6(s[0] - 0xF0, s[1]), s[2]), s[3]), 4))
    else None
  }

  ghost function Decoded(s: seq<Byte>): (r: Option<Text>) {
    if s == [] then Some([])
    else
      var first := FirstChar(s);
      if first.None? then None
      else
        var rest := Decoded(s[first.value.1..]);
        if rest.None? then None else Some([first.value.0] + rest.value)
  }

  lemma SixBits(c: nat)
    ensures c == c / 64 * 64 + c % 64 && c / 64 == c / 4096 * 64 + c / 64 % 64
            && c / 4096 == c / 262144 * 64 + c / 4096 % 64
  {
    assert c / 64 / 64 == c / 4096 && c / 4096 / 64 == c / 262144;
  }

  lemma CharReads(c: nat, more: seq<Byte>)
    requires c < CODE_POINTS
    ensures FirstChar(Utf8Char(c) + more) == Some((c, |Utf8Char(c)|))
  {
    SixBits(c);
  }

  /** Decoding the bytes of a text gives the text. */
  lemma {:induction false} TextRoundTrip(t: Text)
    requires forall i :: 0 <= i < |t| ==> t[i] < CODE_POINTS
    ensures Decoded(Utf8(t)) == Some(t)
    decreases |t|
  {
    if t != [] {
      var c, rest, bytes := t[0], Utf8(t[1..]), Utf8(t);
      assert bytes == Utf8Char(c) + rest && bytes != [];
      CharReads(c, rest);
      TextRoundTrip(t[1..]);
      assert bytes[|Utf8Char(c)|..] == rest;
      assert t == [c] + t[1..];
    }
  }

  /** A zero byte stands for the character zero only. */
  lemma {:induction false} ZeroInText(t: Text)
    ensures 0 in Utf8(t) <==> 0 in t
    decreases |t|
  {
    if t != [] {
      ZeroInText(t[1..]);
      assert 0 in Utf8Char(t[0]) <==> t[0] == 0;
      assert 0 in t <==> t[0] == 0 || 0 in t[1..];
    }
  }

  /** A text has as many bytes as characters exactly when all of it is ASCII. */
  lemma {:induction false} AsciiLength(t: Text)
    ensures |t| <= |Utf8(t)|
    ensures |Utf8(t)| == |t| <==> forall i :: 0 <= i < |t| ==> t[i] < 0x80
    decreases |t|
  {
    if t != [] {
      AsciiLength(t[1..]);
      assert (forall i :: 0 <= i < |t| ==> t[i] < 0x80)
        <==> t[0] < 0x80 && forall i :: 0 <= i < |t[1..]| ==> t[1..][i] < 0x80 by {
        assert forall i :: 0 < i < |t| ==> t[i] == t[1..][i - 1];
      }
    }
  }
}
