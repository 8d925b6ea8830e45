/**
  Which file names the exFAT engine accepts. A name comes in as Unicode code points; it is
  trimmed, and what is left must be 1 to 255 printable ASCII characters other than the
  reserved ones, and not "." or "..".
 */
module ExFatNames {
  import opened Bytes
  import opened ExFatEntrySet
  import opened ExFatLayout
  import opened ExFatReading
  import opened Utf8Text
  import opened Whitespace

  predicate IsReserved(c: nat) {
    c == '"' as int || c == '*' as int || c == '/' as int || c == ':' as int || c == '<' as int
    || c == '>' as int || c == '?' as int || c == '\\' as int || c == '|' as int
  }

  // The characters of section 7.7.3 of the exFAT specification that a name must not hold.
  const RESERVED: set<nat> := {0x22, 0x2A, 0x2F, 0x3A, 0x3C, 0x3E, 0x3F, 0x5C, 0x7C}

  ghost predicate GoodCharacter(c: nat) { 0x20 <= c < 0x7F && c !in RESERVED }

  /** "." and "..". */
  ghost predicate DotName(s: seq<nat>) { (|s| == 1 || |s| == 2) && forall i :: 0 <= i < |s| ==> s[i] == 0x2E }

  /** The names the engine accepts, after trimming. */
  ghost predicate ValidName(s: seq<nat>) {
    1 <= |s| <= 255 && !DotName(s) && forall i :: 0 <= i < |s| ==> GoodCharacter(s[i])
  }

  /** The first character that is no good, which decides between the last two errors. */
  ghost predicate FirstBad(s: seq<nat>, i: nat) {
    i < |s| && !GoodCharacter(s[i]) && forall j :: 0 <= j < i ==> GoodCharacter(s[j])
  }

  /** The name the engine works with, if it accepts the text. */
  ghost function NameOf(text: seq<nat>): (r: Option<Name>)
    ensures r.Some? ==> PlainName(r.value) && NotDotName(r.value)
  {
    if ValidName(Trim(text)) then Some(Trim(text)) else None
  }

  /** `exfat_validate_name`. */
  method ValidateName(name: seq<nat>) returns (r: Result<Name>)
    ensures r.Ok? <==> NameOf(name).Some?
    ensures r.Ok? ==> r.value == NameOf(name).value
    ensures r == Err(InvalidName) <==> |Trim(name)| == 0 || DotName(Trim(name))
    ensures r == Err(NameTooLong) <==> !DotName(Trim(name)) && |Utf8(Trim(name))| > 255
    ensures r == Err(NameNotAscii) || r == Err(NameCharacter) ==>
      exists i: nat :: FirstBad(Trim(name), i) && (r == Err(NameCharacter) <==> Trim(name)[i] in RESERVED)
    ensures r.Err? ==> r.error in {InvalidName, NameTooLong, NameNotAscii, NameCharacter}
  {
    var trimmed := Trim(name);
    AsciiLength(trimmed);
    if |trimmed| == 0 || trimmed == ['.' as int] || trimmed == ['.' as int, '.' as int] { return Err(InvalidName); }
    if |Utf8(trimmed)| > 255 { return Err(NameTooLong); }
    var out: Name := [];
    for i := 0 to |trimmed|
      invariant |out| == i && forall j :: 0 <= j < i ==> out[j] == trimmed[j] && GoodCharacter(trimmed[j])
    {
      var c := trimmed[i];
      if c < 0x20 || c >= 0x7F { return Err(NameNotAscii); }
      if IsReserved(c) { return Err(NameCharacter); }
      out := out + [c];
    }
    assert out == trimmed;
    return Ok(out);
  }
}
