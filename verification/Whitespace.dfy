/**
  `str::trim` on texts given as sequences of Unicode scalar values.
 */
module Whitespace {

  /** The Unicode White_Space property. */
  predicate IsWhitespace(c: nat) {
    9 <= c <= 13 || c == 0x20 || c == 0x85 || c == 0xA0 || c == 0x1680 || 0x2000 <= c <= 0x200A
    || c == 0x2028 || c == 0x2029 || c == 0x202F || c == 0x205F || c == 0x3000
  }

  function TrimStart(s: seq<nat>): (r: seq<nat>) {
    if |s| > 0 && IsWhitespace(s[0]) then TrimStart(s[1..]) else s
  }

  function TrimEnd(s: seq<nat>): (r: seq<nat>) {
    if |s| > 0 && IsWhitespace(s[|s| - 1]) then TrimEnd(s[..|s| - 1]) else s
  }

  function Trim(s: seq<nat>): (r: seq<nat>) { TrimEnd(TrimStart(s)) }

  // ---- What trimming means --------------------------------------------------------------------------------

  /** The code points with the White_Space property, as the Unicode Character Database lists them. */
  const WHITE_SPACE: set<nat> := {
    0x9, 0xA, 0xB, 0xC, 0xD, 0x20, 0x85, 0xA0, 0x1680, 0x2000, 0x2001, 0x2002, 0x2003, 0x2004, 0x2005, 0x2006, 0x2007,
    0x2008, 0x2009, 0x200A, 0x2028, 0x2029, 0x202F, 0x205F, 0x3000}

  ghost predicate Blank(s: seq<nat>) { forall i :: 0 <= i < |s| ==> s[i] in WHITE_SPACE }

  lemma WhitespaceListed(c: nat)
    ensures IsWhitespace(c) <==> c in WHITE_SPACE
  {
  }

  lemma {:induction false} StartTrimmed(s: seq<nat>) returns (k: nat)
    ensures k <= |s| && TrimStart(s) == s[k..] && Blank(s[..k])
    ensures k < |s| ==> s[k] !in WHITE_SPACE
    decreases |s|
  {
    k := 0;
    if |s| > 0 {
      WhitespaceListed(s[0]);
      if IsWhitespace(s[0]) {
        var j := StartTrimmed(s[1..]);
        k := j + 1;
        assert s[..k] == [s[0]] + s[1..][..j];
      }
    }
  }

  lemma {:induction false} EndTrimmed(s: seq<nat>) returns (k: nat)
    ensures k <= |s| && TrimEnd(s) == s[..k] && Blank(s[k..])
    ensures k > 0 ==> s[k - 1] !in WHITE_SPACE
    decreases |s|
  {
    k := |s|;
    if |s| > 0 {
      var last := |s| - 1;
      WhitespaceListed(s[last]);
      if IsWhitespace(s[last]) {
        k := EndTrimmed(s[..last]);
        assert s[..last][..k] == s[..k] && s[k..] == s[..last][k..] + [s[last]];
      }
    }
  }

  /** What is trimmed off is blank, and what is left neither begins nor ends with white space. */
  lemma TrimMeans(s: seq<nat>) returns (a: nat, b: nat)
    ensures a <= b <= |s| && Trim(s) == s[a..b] && Blank(s[..a]) && Blank(s[b..])
    ensures a < b ==> s[a] !in WHITE_SPACE && s[b - 1] !in WHITE_SPACE
  {
    a := StartTrimmed(s);
    var rest := s[a..];
    var k := EndTrimmed(rest);
    b := a + k;
    assert rest[..k] == s[a..b] && rest[k..] == s[b..];
    if k > 0 { assert s[a] == rest[0] && s[b - 1] == rest[k - 1]; }
  }
}
