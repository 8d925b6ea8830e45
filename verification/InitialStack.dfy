/**
  The first stack of a Linux program: strings at the top, a word table below them. Reading the
  table the way a process does gives back the arguments, the environment and the auxiliary
  vector that went in.
 */
module InitialStack {
  import opened Bytes
  import opened Utf8Text
  import opened Whitespace

  const STACK_SIZE: nat := 128 * 1024

  // ---- Text as bytes --------------------------------------------------------------------------------------

  /** What a C reader sees of a string. */
  function UpToNul(s: seq<Byte>): (r: seq<Byte>) { if s == [] || s[0] == 0 then [] else [s[0]] + UpToNul(s[1..]) }

  /** A C reader sees all of a string exactly when it holds no zero. */
  lemma {:induction false} SeenWhole(s: seq<Byte>)
    ensures UpToNul(s) == s <==> 0 !in s
    ensures |UpToNul(s)| <= |s|
    decreases |s|
  {
    if s != [] { SeenWhole(s[1..]); }
  }

  function CString(t: Text): (r: seq<Byte>) { Utf8(t) + [0] }

  // ---- What goes on the stack -----------------------------------------------------------------------------

  function Ascii(s: string): (t: Text) { seq(|s|, i requires 0 <= i < |s| => s[i] as nat) }

  const DEFAULT_ENV: seq<string> := [
    "LANG=C", "TERM=goos", "PATH=/", "GOOS=1", "REDUXOS=1", "XDG_RUNTIME_DIR=/run/user/0",
    "WAYLAND_DISPLAY=wayland-0", "XDG_SESSION_TYPE=wayland", "DISPLAY=:0", "GDK_BACKEND=wayland,x11",
    "QT_QPA_PLATFORM=wayland;xcb", "SDL_VIDEODRIVER=wayland", "WINIT_UNIX_BACKEND=wayland", "MOZ_ENABLE_WAYLAND=1"]

  function Defaults(n: nat): (ts: seq<Text>)
    requires n <= |DEFAULT_ENV|
    ensures |ts| == n && forall i :: 0 <= i < n ==> ts[i] == Ascii(DEFAULT_ENV[i])
  {
    seq(n, i requires 0 <= i < n => Ascii(DEFAULT_ENV[i]))
  }

  /** The part of an assignment before its `=`, all of it when there is none. */
  function KeyOf(t: Text): (k: Text) { if t == [] || t[0] == '=' as nat then [] else [t[0]] + KeyOf(t[1..]) }

  predicate Overrides(extra: Text, item: Text) { Trim(extra) != [] && KeyOf(Trim(extra)) == KeyOf(item) }

  predicate Overridden(extras: seq<Text>, item: Text) { exists i :: 0 <= i < |extras| && Overrides(extras[i], item) }

  /** The items, trimmed, without the blank ones. */
  function Trimmed(items: seq<Text>): (r: seq<Text>) {
    if items == [] then []
    else
      var last := Trim(items[|items| - 1]);
      Trimmed(items[..|items| - 1]) + (if last == [] then [] else [last])
  }

  /** The defaults that no extra item overrides. */
  function Kept(defaults: seq<Text>, extras: seq<Text>): (r: seq<Text>) {
    if defaults == [] then []
    else
      var last := defaults[|defaults| - 1];
      Kept(defaults[..|defaults| - 1], extras) + (if Overridden(extras, last) then [] else [last])
  }

  function EnvOf(extras: seq<Text>): (r: seq<Text>) { Kept(Defaults(|DEFAULT_ENV|), extras) + Trimmed(extras) }

  function Arg0(argv: seq<Text>): (t: Text) {
    if argv != [] && Trim(argv[0]) != [] then Trim(argv[0]) else Ascii("/app")
  }

  function ArgsOf(argv: seq<Text>): (r: seq<Text>) { if Trimmed(argv) == [] then [Arg0(argv)] else Trimmed(argv) }

  function ExecOf(execfn: Text, argv: seq<Text>): (t: Text) { if Trim(execfn) == [] then Arg0(argv) else Trim(execfn) }

  /** The name of the program: as given, or the first argument, or `/app`. */
  lemma NameMeans(execfn: Text, argv: seq<Text>)
    ensures !Blank(execfn) ==> ExecOf(execfn, argv) == Trim(execfn)
    ensures Blank(execfn) && argv != [] && !Blank(argv[0]) ==> ExecOf(execfn, argv) == Trim(argv[0])
    ensures Blank(execfn) && (argv == [] || Blank(argv[0])) ==> ExecOf(execfn, argv) == [0x2F, 0x61, 0x70, 0x70]
  {
    TrimsToNothing(execfn);
    if argv != [] { TrimsToNothing(argv[0]); }
    assert Ascii("/app") == [0x2F, 0x61, 0x70, 0x70];
  }

  lemma TrimsToNothing(t: Text)
    ensures Trim(t) == [] <==> Blank(t)
  {
    var a, b := TrimMeans(t);
    if a == b {
      assert t == t[..a] + t[b..];
    } else {
      assert t[a] !in WHITE_SPACE && Trim(t)[0] == t[a];
    }
  }

  lemma {:induction false} KeyMeans(t: Text) returns (k: nat)
    ensures k <= |t| && KeyOf(t) == t[..k] && 0x3D !in t[..k] && (k < |t| ==> t[k] == 0x3D)
  {
    k := 0;
    if t != [] && t[0] != 0x3D {
      var j := KeyMeans(t[1..]);
      k := j + 1;
      assert t[..k] == [t[0]] + t[1..][..j];
    }
  }

  lemma {:induction false} KeyIs(t: Text, k: nat)
    requires k <= |t| && 0x3D !in t[..k] && (k < |t| ==> t[k] == 0x3D)
    ensures KeyOf(t) == t[..k]
  {
    if k > 0 {
      assert t[0] == t[..k][0] && t[..k] == [t[0]] + t[1..][..k - 1];
      KeyIs(t[1..], k - 1);
    }
  }

  /** An item `key=value` is overridden by an item that, trimmed, is the key or begins with it and an `=`. */
  lemma OverridesMeans(extra: Text, key: Text, value: Text)
    requires 0x3D !in key && key != []
    ensures var x := Trim(extra);
            Overrides(extra, key + [0x3D] + value) <==>
              x == key || (|x| > |key| && x[..|key|] == key && x[|key|] == 0x3D)
  {
    var x, item := Trim(extra), key + [0x3D] + value;
    assert item[..|key|] == key;
    KeyIs(item, |key|);
    if x == key {
      assert x[..|x|] == x;
      KeyIs(x, |x|);
    } else if |x| > |key| && x[..|key|] == key && x[|key|] == 0x3D {
      KeyIs(x, |key|);
    } else {
      var k := KeyMeans(x);
    }
  }

  /** Exactly the defaults without an overriding item are kept. */
  lemma {:induction false} KeptMeans(defaults: seq<Text>, extras: seq<Text>, item: Text)
    ensures item in Kept(defaults, extras) <==> item in defaults && !Overridden(extras, item)
    decreases |defaults|
  {
    if defaults != [] {
      KeptMeans(defaults[..|defaults| - 1], extras, item);
      assert defaults == defaults[..|defaults| - 1] + [defaults[|defaults| - 1]];
    }
  }

  // ---- Blocks on the stack --------------------------------------------------------------------------------

  /** Bytes placed at an offset of the stack. */
  datatype Block = Block(at: nat, data: seq<Byte>)

  ghost predicate Holds(bytes: seq<Byte>, b: Block) {
    b.at + |b.data| <= |bytes| && bytes[b.at..b.at + |b.data|] == b.data
  }

  /** `b` lies wholly below `a`. */
  ghost predicate Below(b: Block, a: Block) { b.at + |b.data| <= a.at }

  ghost predicate Laid(bytes: seq<Byte>, top: nat, blocks: seq<Block>) {
    && top <= |bytes|
    && (forall i {:trigger Holds(bytes, blocks[i])} :: 0 <= i < |blocks| ==>
        Holds(bytes, blocks[i]) && top <= blocks[i].at)
    && forall i, j {:trigger Below(blocks[j], blocks[i])} :: 0 <= i < j < |blocks| ==> Below(blocks[j], blocks[i])
  }

  /** Writing below the top disturbs no block. */
  lemma WriteBelow(bytes: seq<Byte>, top: nat, blocks: seq<Block>, start: nat, data: seq<Byte>)
    requires Laid(bytes, top, blocks) && start + |data| <= top
    ensures Laid(Splice(bytes, start, data), top, blocks)
  {
    var after := Splice(bytes, start, data);
    forall i {:trigger Holds(after, blocks[i])} | 0 <= i < |blocks|
        ensures Holds(after, blocks[i]) && top <= blocks[i].at {
      assert Holds(bytes, blocks[i]);
      var b := blocks[i];
      assert after[b.at..b.at + |b.data|] == bytes[b.at..b.at + |b.data|];
    }
  }

  lemma PlacedBelow(bytes: seq<Byte>, top: nat, blocks: seq<Block>, start: nat, data: seq<Byte>)
    requires Laid(bytes, top, blocks) && start + |data| <= top
    ensures Laid(Splice(bytes, start, data), start, blocks + [Block(start, data)])
  {
    var after, all := Splice(bytes, start, data), blocks + [Block(start, data)];
    WriteBelow(bytes, top, blocks, start, data);
    forall i {:trigger Holds(after, all[i])} | 0 <= i < |all| ensures Holds(after, all[i]) && start <= all[i].at {
      if i < |blocks| {
        assert Holds(after, blocks[i]);
      } else {
        assert after[start..start + |data|] == data;
      }
    }
    forall i, j {:trigger Below(all[j], all[i])} | 0 <= i < j < |all| ensures Below(all[j], all[i]) {
      if j < |blocks| {
        assert Below(blocks[j], blocks[i]);
      } else {
        assert Holds(bytes, blocks[i]);
      }
    }
  }

  // ---- The builder ----------------------------------------------------------------------------------------

  /** The bytes `texts` take as C strings. */
  function Need(texts: seq<Text>): (n: nat) {
    if texts == [] then 0 else Need(texts[..|texts| - 1]) + |CString(texts[|texts| - 1])|
  }

  lemma {:induction false} NeedJoins(a: seq<Text>, b: seq<Text>)
    ensures Need(a + b) == Need(a) + Need(b)
    decreases |b|
  {
    if b == [] {
      assert a + b == a;
    } else {
      NeedJoins(a, b[..|b| - 1]);
      assert (a + b)[..|a + b| - 1] == a + b[..|b| - 1];
    }
  }

  /** Pointer `i` names block `from + i`, which holds text `i` as a C string. */
  ghost predicate PointsAt(base: nat, ptrs: seq<nat>, blocks: seq<Block>, from: nat, texts: seq<Text>, i: nat)
    requires i < |ptrs| == |texts| && from + |texts| <= |blocks|
  {
    ptrs[i] == base + blocks[from + i].at && blocks[from + i].data == CString(texts[i])
  }

  /** The pointers name the blocks from `from` on, which hold the texts as C strings. */
  ghost predicate Points(base: nat, ptrs: seq<nat>, blocks: seq<Block>, from: nat, texts: seq<Text>) {
    && |ptrs| == |texts| && from + |texts| <= |blocks|
    && forall i {:trigger PointsAt(base, ptrs, blocks, from, texts, i)} :: 0 <= i < |ptrs| ==>
        PointsAt(base, ptrs, blocks, from, texts, i)
  }

  lemma PointsNext(base: nat, ptrs: seq<nat>, blocks: seq<Block>, from: nat, texts: seq<Text>, at: nat, text: Text)
    requires Points(base, ptrs, blocks, from, texts) && from + |texts| == |blocks|
    ensures Points(base, ptrs + [base + at], blocks + [Block(at, CString(text))], from, texts + [text])
  {
    var ps, bs, ts := ptrs + [base + at], blocks + [Block(at, CString(text))], texts + [text];
    forall i {:trigger PointsAt(base, ps, bs, from, ts, i)} | 0 <= i < |ps|
        ensures PointsAt(base, ps, bs, from, ts, i) {
      if i < |ptrs| { assert PointsAt(base, ptrs, blocks, from, texts, i); }
    }
  }

  /** Another block leaves the pointers as they are. */
  lemma PointsStill(base: nat, ptrs: seq<nat>, blocks: seq<Block>, from: nat, texts: seq<Text>, b: Block)
    requires Points(base, ptrs, blocks, from, texts)
    ensures Points(base, ptrs, blocks + [b], from, texts)
  {
    var bs := blocks + [b];
    forall i {:trigger PointsAt(base, ptrs, bs, from, texts, i)} | 0 <= i < |ptrs|
        ensures PointsAt(base, ptrs, bs, from, texts, i) {
      assert PointsAt(base, ptrs, blocks, from, texts, i);
    }
  }

  class Stack {
    const base: nat
    var bytes: seq<Byte>
    var top: nat
    ghost var blocks: seq<Block>

    /** An allocation is not at address zero and lies within the address space. */
    ghost predicate Valid()
      reads this
    {
      0 < base && base + STACK_SIZE <= U64 && |bytes| == STACK_SIZE && Laid(bytes, top, blocks)
    }

    constructor (at: nat)
      requires 0 < at && at + STACK_SIZE <= U64
      ensures Valid() && base == at && top == STACK_SIZE && blocks == []
    {
      base := at;
      bytes := Zeros(STACK_SIZE);
      top := STACK_SIZE;
      blocks := [];
    }

    /** `stack_place_cstr`. */
    method PlaceText(text: Text) returns (r: Option<nat>)
      requires Valid()
      modifies this
      ensures Valid()
      ensures r.Some? <==> |CString(text)| <= old(top)
      ensures r.Some? ==>
                top == old(top) - |CString(text)| && blocks == old(blocks) + [Block(top, CString(text))]
                && r.value == base + top
      ensures r.None? ==> top == old(top) && blocks == old(blocks)
    {
      var data := CString(text);
      if top < |data| { return None; }
      var start := top - |data|;
      PlacedBelow(bytes, top, blocks, start, data);
      bytes := Splice(bytes, start, data);
      top := start;
      blocks := blocks + [Block(start, data)];
      return Some(base + start);
    }

    /** `stack_place_aligned_bytes` for an alignment of 16. */
    method PlaceAligned(data: seq<Byte>) returns (r: Option<nat>)
      requires Valid()
      modifies this
      ensures Valid()
      ensures r.Some? <==> |data| <= old(top)
      ensures r.Some? ==>
                top == Down16(old(top) - |data|) && blocks == old(blocks) + [Block(top, data)] && r.value == base + top
    {
      if top < |data| { return None; }
      var start := Down16(top - |data|);
      PlacedBelow(bytes, top, blocks, start, data);
      bytes := Splice(bytes, start, data);
      top := start;
      blocks := blocks + [Block(start, data)];
      return Some(base + start);
    }

    /** The next string of a list; its address joins the others. */
    method PlaceNext(ptrs: seq<nat>, text: Text, ghost top0: nat, ghost blocks0: seq<Block>, ghost texts: seq<Text>)
      returns (r: Option<seq<nat>>)
      requires Valid() && Added(base, top0, blocks0, top, blocks, ptrs, texts)
      modifies this
      ensures Valid()
      ensures r.Some? <==> Need(texts + [text]) <= top0
      ensures r.Some? ==> Added(base, top0, blocks0, top, blocks, r.value, texts + [text])
    {
      NeedNext(texts, text);
      ghost var was := blocks;
      var ptr := PlaceText(text);
      if ptr.None? { return None; }
      PointsNext(base, ptrs, was, |blocks0|, texts, top, text);
      return Some(ptrs + [ptr.value]);
    }

    /** The default environment, without the overridden items. */
    method PlaceDefaults(defaults: seq<Text>, extras: seq<Text>) returns (r: Option<seq<nat>>)
      requires Valid()
      modifies this
      ensures Valid()
      ensures r.Some? <==> Need(Kept(defaults, extras)) <= old(top)
      ensures r.Some? ==> Added(base, old(top), old(blocks), top, blocks, r.value, Kept(defaults, extras))
    {
      var ptrs: seq<nat> := [];
      for i := 0 to |defaults|
        invariant Valid() && Added(base, old(top), old(blocks), top, blocks, ptrs, Kept(defaults[..i], extras))
      {
        KeptStep(defaults, i, extras);
        var overridden := IsOverridden(extras, defaults[i]);
        if !overridden {
          var next := PlaceNext(ptrs, defaults[i], old(top), old(blocks), Kept(defaults[..i], extras));
          if next.None? {
            KeptGrows(defaults, i + 1, extras);
            return None;
          }
          ptrs := next.value;
        }
      }
      assert defaults[..|defaults|] == defaults;
      return Some(ptrs);
    }

    /** The items that are not blank, trimmed. */
    method PlaceTrimmed(items: seq<Text>) returns (r: Option<seq<nat>>)
      requires Valid()
      modifies this
      ensures Valid()
      ensures r.Some? <==> Need(Trimmed(items)) <= old(top)
      ensures r.Some? ==> Added(base, old(top), old(blocks), top, blocks, r.value, Trimmed(items))
    {
      var ptrs: seq<nat> := [];
      for i := 0 to |items|
        invariant Valid() && Added(base, old(top), old(blocks), top, blocks, ptrs, Trimmed(items[..i]))
      {
        var next := PlaceItem(items, i, ptrs, old(top), old(blocks));
        if next.None? { return None; }
        ptrs := next.value;
      }
      assert items[..|items|] == items;
      return Some(ptrs);
    }

    /** The next item, unless it is blank. */
    method PlaceItem(items: seq<Text>, i: nat, ptrs: seq<nat>, ghost top0: nat, ghost blocks0: seq<Block>)
      returns (r: Option<seq<nat>>)
      requires i < |items| && Valid() && Added(base, top0, blocks0, top, blocks, ptrs, Trimmed(items[..i]))
      modifies this
      ensures Valid()
      ensures r.Some? ==> Added(base, top0, blocks0, top, blocks, r.value, Trimmed(items[..i + 1]))
      ensures r.None? ==> Need(Trimmed(items)) > top0
    {
      var text := Trim(items[i]);
      TrimmedStep(items, i);
      if text == [] { return Some(ptrs); }
      r := PlaceNext(ptrs, text, top0, blocks0, Trimmed(items[..i]));
      TrimmedGrows(items, i + 1);
    }

    method PlaceEnv(extras: seq<Text>) returns (r: Option<seq<nat>>)
      requires Valid()
      modifies this
      ensures Valid()
      ensures r.Some? <==> Need(EnvOf(extras)) <= old(top)
      ensures r.Some? ==> Added(base, old(top), old(blocks), top, blocks, r.value, EnvOf(extras))
    {
      var defaults := Defaults(|DEFAULT_ENV|);
      NeedJoins(Kept(defaults, extras), Trimmed(extras));
      var first := PlaceDefaults(defaults, extras);
      if first.None? { return None; }
      ghost var top1, blocks1 := top, blocks;
      var second := PlaceTrimmed(extras);
      if second.None? { return None; }
      AddedJoins(base, old(top), old(blocks), top1, blocks1, top, blocks, first.value, second.value,
          Kept(defaults, extras), Trimmed(extras));
      return Some(first.value + second.value);
    }

    method PlaceArgs(argv: seq<Text>) returns (r: Option<seq<nat>>)
      requires Valid()
      modifies this
      ensures Valid()
      ensures r.Some? <==> Need(ArgsOf(argv)) <= old(top)
      ensures r.Some? ==> Added(base, old(top), old(blocks), top, blocks, r.value, ArgsOf(argv))
    {
      var ptrs := PlaceTrimmed(argv);
      if ptrs.None? {
        NeedsSome(Trimmed(argv));
        return None;
      }
      if ptrs.value != [] { return ptrs; }
      assert Trimmed(argv) == [];
      r := PlaceNext([], Arg0(argv), old(top), old(blocks), []);
      assert [] + [Arg0(argv)] == ArgsOf(argv);
    }

    /** All strings, in the order of the source: the program's name, the environment, the arguments. */
    method PlaceStrings(argv: seq<Text>, execfn: Text, extras: seq<Text>) returns (r: Option<(nat, seq<nat>, seq<nat>)>)
      requires Valid()
      modifies this
      ensures Valid()
      ensures r.Some? <==> Need(AllTexts(argv, execfn, extras)) <= old(top)
      ensures r.Some? ==> |r.value.1| == |EnvOf(extras)| && |r.value.2| == |ArgsOf(argv)|
      ensures r.Some? ==>
                Added(base, old(top), old(blocks), top, blocks, [r.value.0] + r.value.1 + r.value.2,
                AllTexts(argv, execfn, extras))
    {
      var exec := ExecOf(execfn, argv);
      ghost var env, args := EnvOf(extras), ArgsOf(argv);
      NeedNext([], exec);
      NeedJoins([exec], env);
      NeedJoins([exec] + env, args);
      var name := PlaceText(exec);
      if name.None? { return None; }
      ghost var top1, blocks1 := top, blocks;
      var envPtrs := PlaceEnv(extras);
      if envPtrs.None? { return None; }
      AddedJoins(base, old(top), old(blocks), top1, blocks1, top, blocks, [name.value], envPtrs.value, [exec], env);
      ghost var top2, blocks2 := top, blocks;
      var argPtrs := PlaceArgs(argv);
      if argPtrs.None? { return None; }
      AddedJoins(base, old(top), old(blocks), top2, blocks2, top, blocks, [name.value] + envPtrs.value, argPtrs.value,
          [exec] + env, args);
      return Some((name.value, envPtrs.value, argPtrs.value));
    }

    /** The word table, below everything placed. */
    method WriteWords(start: nat, words: seq<nat>)
      requires Valid() && start + 8 * |words| <= top && forall i :: 0 <= i < |words| ==> words[i] < U64
      modifies this`bytes
      ensures Valid() && WordsAt(bytes, start, words)
    {
      var cursor := start;
      for i := 0 to |words|
        invariant Valid() && cursor == start + 8 * i && WordsAt(bytes, start, words[..i])
      {
        WriteBelow(bytes, top, blocks, cursor, LeBytes(words[i], 8));
        WordWritten(bytes, start, words[..i], words[i]);
        assert words[..i] + [words[i]] == words[..i + 1];
        bytes := Splice(bytes, cursor, LeBytes(words[i], 8));
        cursor := cursor + 8;
      }
      assert words[..|words|] == words;
    }
  }

  /** `texts` have been placed as C strings on top of what was there, and `ptrs` point at them. */
  ghost predicate Added(base: nat, top0: nat, blocks0: seq<Block>, top: nat, blocks: seq<Block>, ptrs: seq<nat>,
                        texts: seq<Text>) {
    && blocks0 <= blocks && |blocks| == |blocks0| + |texts| && Need(texts) + top == top0
    && Points(base, ptrs, blocks, |blocks0|, texts)
  }

  lemma PointsJoin(base: nat, from: nat, blocks1: seq<Block>, blocks2: seq<Block>, ps: seq<nat>, qs: seq<nat>,
                   a: seq<Text>, b: seq<Text>)
    requires blocks1 <= blocks2 && from + |a| == |blocks1|
    requires Points(base, ps, blocks1, from, a) && Points(base, qs, blocks2, |blocks1|, b)
    ensures Points(base, ps + qs, blocks2, from, a + b)
  {
    var ptrs, texts := ps + qs, a + b;
    forall i {:trigger PointsAt(base, ptrs, blocks2, from, texts, i)} | 0 <= i < |ptrs|
        ensures PointsAt(base, ptrs, blocks2, from, texts, i) {
      if i < |ps| {
        assert PointsAt(base, ps, blocks1, from, a, i) && blocks2[from + i] == blocks1[from + i];
        assert ptrs[i] == ps[i] && texts[i] == a[i];
      } else {
        assert PointsAt(base, qs, blocks2, |blocks1|, b, i - |ps|);
        assert ptrs[i] == qs[i - |ps|] && texts[i] == b[i - |a|];
      }
    }
  }

  lemma AddedJoins(base: nat, top0: nat, blocks0: seq<Block>, top1: nat, blocks1: seq<Block>, top2: nat,
                   blocks2: seq<Block>,
                   ps: seq<nat>, qs: seq<nat>, a: seq<Text>, b: seq<Text>)
    requires Added(base, top0, blocks0, top1, blocks1, ps, a) && Added(base, top1, blocks1, top2, blocks2, qs, b)
    ensures Added(base, top0, blocks0, top2, blocks2, ps + qs, a + b)
  {
    NeedJoins(a, b);
    PointsJoin(base, |blocks0|, blocks1, blocks2, ps, qs, a, b);
  }

  /** Every string placed on the stack, in order. */
  function AllTexts(argv: seq<Text>, execfn: Text, extras: seq<Text>): (r: seq<Text>) {
    [ExecOf(execfn, argv)] + EnvOf(extras) + ArgsOf(argv)
  }

  lemma NeedsSome(texts: seq<Text>)
    requires Need(texts) > 0
    ensures texts != []
  {
  }

  lemma NeedNext(texts: seq<Text>, text: Text)
    ensures Need(texts + [text]) == Need(texts) + |CString(text)|
  {
    assert (texts + [text])[..|texts|] == texts;
  }

  lemma NeedPrefix(a: seq<Text>, b: seq<Text>)
    requires a <= b
    ensures Need(a) <= Need(b)
  {
    assert b == a + b[|a|..];
    NeedJoins(a, b[|a|..]);
  }

  lemma KeptStep(defaults: seq<Text>, i: nat, extras: seq<Text>)
    requires i < |defaults|
    ensures Kept(defaults[..i + 1], extras)
            == if Overridden(extras, defaults[i]) then Kept(defaults[..i], extras)
            else Kept(defaults[..i], extras) + [defaults[i]]
  {
    assert defaults[..i + 1][..i] == defaults[..i];
  }

  lemma {:induction false} KeptGrows(defaults: seq<Text>, i: nat, extras: seq<Text>)
    requires i <= |defaults|
    ensures Need(Kept(defaults[..i], extras)) <= Need(Kept(defaults, extras))
    decreases |defaults| - i
  {
    if i == |defaults| {
      assert defaults[..i] == defaults;
    } else {
      KeptStep(defaults, i, extras);
      NeedPrefix(Kept(defaults[..i], extras), Kept(defaults[..i + 1], extras));
      KeptGrows(defaults, i + 1, extras);
    }
  }

  lemma TrimmedStep(items: seq<Text>, i: nat)
    requires i < |items|
    ensures Trimmed(items[..i + 1])
            == if Trim(items[i]) == [] then Trimmed(items[..i]) else Trimmed(items[..i]) + [Trim(items[i])]
  {
    assert items[..i + 1][..i] == items[..i];
  }

  lemma {:induction false} TrimmedGrows(items: seq<Text>, i: nat)
    requires i <= |items|
    ensures Need(Trimmed(items[..i])) <= Need(Trimmed(items))
    decreases |items| - i
  {
    if i == |items| {
      assert items[..i] == items;
    } else {
      TrimmedStep(items, i);
      NeedPrefix(Trimmed(items[..i]), Trimmed(items[..i + 1]));
      TrimmedGrows(items, i + 1);
    }
  }

  /** The search for an overriding item. */
  method IsOverridden(extras: seq<Text>, item: Text) returns (b: bool)
    ensures b <==> Overridden(extras, item)
  {
    for i := 0 to |extras|
      invariant forall j :: 0 <= j < i ==> !Overrides(extras[j], item)
    {
      var text := Trim(extras[i]);
      if text != [] && KeyOf(text) == KeyOf(item) { return true; }
    }
    return false;
  }

  function Down16(v: nat): (r: nat)
    ensures r <= v < r + 16 && r % 16 == 0
  {
    v - v % 16
  }

  // ---- Words ----------------------------------------------------------------------------------------------

  ghost predicate WordAt(bytes: seq<Byte>, off: nat, w: nat) { off + 8 <= |bytes| && LeAt(bytes, off, 8) == w }

  ghost predicate WordsAt(bytes: seq<Byte>, off: nat, words: seq<nat>)
    decreases |words|
  {
    words == [] || (WordAt(bytes, off, words[0]) && WordsAt(bytes, off + 8, words[1..]))
  }

  lemma WordKept(bytes: seq<Byte>, after: seq<Byte>, off: nat, w: nat)
    requires WordAt(bytes, off, w) && off + 8 <= |after| && forall p :: off <= p < off + 8 ==> after[p] == bytes[p]
    ensures WordAt(after, off, w)
  {
    LeSame(bytes, after, off, 8);
  }

  lemma WordNew(bytes: seq<Byte>, off: nat, w: nat)
    requires off + 8 <= |bytes| && w < U64
    ensures WordAt(Splice(bytes, off, LeBytes(w, 8)), off, w)
  {
    var after, image := Splice(bytes, off, LeBytes(w, 8)), LeBytes(w, 8);
    assert forall j :: 0 <= j < 8 ==> after[off + j] == image[j];
    Le64RoundTrip(after, off, w);
  }

  lemma {:induction false} WordAppended(bytes: seq<Byte>, off: nat, words: seq<nat>, w: nat)
    requires WordsAt(bytes, off, words) && WordAt(bytes, off + 8 * |words|, w)
    ensures WordsAt(bytes, off, words + [w])
    decreases |words|
  {
    if words != [] {
      WordAppended(bytes, off + 8, words[1..], w);
      assert (words + [w])[1..] == words[1..] + [w];
    }
  }

  lemma {:induction false} WordsKept(bytes: seq<Byte>, after: seq<Byte>, off: nat, words: seq<nat>)
    requires WordsAt(bytes, off, words) && off + 8 * |words| <= |after|
             && forall p :: off <= p < off + 8 * |words| && p < |bytes| ==> after[p] == bytes[p]
    ensures WordsAt(after, off, words)
    decreases |words|
  {
    if words != [] {
      WordKept(bytes, after, off, words[0]);
      WordsKept(bytes, after, off + 8, words[1..]);
    }
  }

  lemma WordWritten(bytes: seq<Byte>, off: nat, words: seq<nat>, w: nat)
    requires off + 8 * |words| + 8 <= |bytes| && WordsAt(bytes, off, words) && w < U64
    ensures WordsAt(Splice(bytes, off + 8 * |words|, LeBytes(w, 8)), off, words + [w])
  {
    var at := off + 8 * |words|;
    var after := Splice(bytes, at, LeBytes(w, 8));
    WordsKept(bytes, after, off, words);
    WordNew(bytes, at, w);
    WordAppended(after, off, words, w);
  }

  // ---- Reading as a process does (System V AMD64 ABI, section 3.4.1) --------------------------------------

  /** The C string at an offset. */
  function CStrAt(bytes: seq<Byte>, off: nat): (r: Option<seq<Byte>>)
    decreases |bytes| - off
  {
    if off >= |bytes| then None
    else if bytes[off] == 0 then Some([])
    else
      var rest := CStrAt(bytes, off + 1);
      if rest.None? then None else Some([bytes[off]] + rest.value)
  }

  /** The pointers from an offset up to the null one. */
  function PointersAt(bytes: seq<Byte>, off: nat): (r: Option<seq<nat>>)
    decreases |bytes| - off
  {
    if off + 8 > |bytes| then None
    else if LeAt(bytes, off, 8) == 0 then Some([])
    else
      var rest := PointersAt(bytes, off + 8);
      if rest.None? then None else Some([LeAt(bytes, off, 8)] + rest.value)
  }

  /** The auxiliary vector from an offset up to its null entry. */
  function PairsAt(bytes: seq<Byte>, off: nat): (r: Option<seq<(nat, nat)>>)
    decreases |bytes| - off
  {
    if off + 16 > |bytes| then None
    else if LeAt(bytes, off, 8) == 0 then Some([])
    else
      var rest := PairsAt(bytes, off + 16);
      if rest.None? then None else Some([(LeAt(bytes, off, 8), LeAt(bytes, off + 8, 8))] + rest.value)
  }

  function StringsAt(bytes: seq<Byte>, base: nat, ptrs: seq<nat>): (r: Option<seq<seq<Byte>>>) {
    if ptrs == [] then Some([])
    else
      var first := if ptrs[0] < base then None else CStrAt(bytes, ptrs[0] - base);
      var rest := StringsAt(bytes, base, ptrs[1..]);
      if first.None? || rest.None? then None else Some([first.value] + rest.value)
  }

  /** What a process finds on its stack. */
  datatype View = View(args: seq<seq<Byte>>, env: seq<seq<Byte>>, aux: seq<(nat, nat)>)

  datatype Tables = Tables(args: seq<nat>, env: seq<nat>, aux: seq<(nat, nat)>)

  /** The word table at an offset: the count, the argument pointers, the environment pointers, the auxiliary vector. */
  function TablesAt(bytes: seq<Byte>, at: nat): (r: Option<Tables>) {
    if at + 8 > |bytes| then None
    else
      var args := PointersAt(bytes, at + 8);
      if args.None? || |args.value| != LeAt(bytes, at, 8) then None
      else
        var envAt := at + 8 + 8 * (|args.value| + 1);
        var env := PointersAt(bytes, envAt);
        if env.None? then None
        else
          var aux := PairsAt(bytes, envAt + 8 * (|env.value| + 1));
          if aux.None? then None else Some(Tables(args.value, env.value, aux.value))
  }

  function ReadBack(bytes: seq<Byte>, base: nat, sp: nat): (r: Option<View>) {
    var t := if sp < base then None else TablesAt(bytes, sp - base);
    if t.None? then None
    else
      var args, env := StringsAt(bytes, base, t.value.args), StringsAt(bytes, base, t.value.env);
      if args.None? || env.None? then None else Some(View(args.value, env.value, t.value.aux))
  }

  // ---- What is read is what was written -------------------------------------------------------------------

  lemma {:induction false} CStrRead(bytes: seq<Byte>, off: nat, data: seq<Byte>)
    requires off + |data| < |bytes| && bytes[off + |data|] == 0
             && forall i :: 0 <= i < |data| ==> bytes[off + i] == data[i]
    ensures CStrAt(bytes, off) == Some(UpToNul(data))
    decreases |data|
  {
    if data != [] {
      assert bytes[off + 0] == data[0];
      forall i | 0 <= i < |data[1..]| ensures bytes[off + 1 + i] == data[1..][i] {
        assert bytes[off + (i + 1)] == data[i + 1];
      }
      CStrRead(bytes, off + 1, data[1..]);
    }
  }

  lemma {:induction false} PointersRead(bytes: seq<Byte>, off: nat, ptrs: seq<nat>, rest: seq<nat>)
    requires WordsAt(bytes, off, ptrs + [0] + rest) && forall i :: 0 <= i < |ptrs| ==> ptrs[i] != 0
    ensures PointersAt(bytes, off) == Some(ptrs) && WordsAt(bytes, off + 8 * (|ptrs| + 1), rest)
    decreases |ptrs|
  {
    var words := ptrs + [0] + rest;
    if ptrs == [] {
      assert words[1..] == rest;
    } else {
      assert words[0] == ptrs[0] && words[1..] == ptrs[1..] + [0] + rest && ptrs == [ptrs[0]] + ptrs[1..];
      PointersRead(bytes, off + 8, ptrs[1..], rest);
    }
  }

  function Flat(pairs: seq<(nat, nat)>): (r: seq<nat>) {
    if pairs == [] then [] else [pairs[0].0, pairs[0].1] + Flat(pairs[1..])
  }

  lemma {:induction false} PairsRead(bytes: seq<Byte>, off: nat, pairs: seq<(nat, nat)>)
    requires WordsAt(bytes, off, Flat(pairs) + [0, 0]) && forall i :: 0 <= i < |pairs| ==> pairs[i].0 != 0
    ensures PairsAt(bytes, off) == Some(pairs)
    decreases |pairs|
  {
    var words := Flat(pairs) + [0, 0];
    assert WordAt(bytes, off + 8, words[1..][0]);
    if pairs != [] {
      assert words[1..][1..] == Flat(pairs[1..]) + [0, 0] && pairs == [pairs[0]] + pairs[1..];
      PairsRead(bytes, off + 16, pairs[1..]);
    }
  }

  /** What C readers see of the texts. */
  function Seen(texts: seq<Text>): (r: seq<seq<Byte>>)
    ensures |r| == |texts| && forall i :: 0 <= i < |texts| ==> r[i] == UpToNul(Utf8(texts[i]))
  {
    seq(|texts|, i requires 0 <= i < |texts| => UpToNul(Utf8(texts[i])))
  }

  /** Readers see the texts themselves exactly when none holds a zero. */
  lemma SeenExactly(texts: seq<Text>)
    ensures (forall i :: 0 <= i < |texts| ==> Seen(texts)[i] == Utf8(texts[i])) <==>
              (forall i :: 0 <= i < |texts| ==> 0 !in texts[i])
  {
    forall i | 0 <= i < |texts| ensures Seen(texts)[i] == Utf8(texts[i]) <==> 0 !in texts[i] {
      SeenWhole(Utf8(texts[i]));
      ZeroInText(texts[i]);
    }
  }

  lemma BlockRead(bytes: seq<Byte>, at: nat, t: Text)
    requires Holds(bytes, Block(at, CString(t)))
    ensures CStrAt(bytes, at) == Some(UpToNul(Utf8(t)))
  {
    var data := CString(t);
    forall i | 0 <= i < |data| ensures bytes[at + i] == data[i] { assert bytes[at..at + |data|][i] == data[i]; }
    var n := |Utf8(t)|;
    assert bytes[at + n] == data[n] == 0;
    forall i | 0 <= i < n ensures bytes[at + i] == Utf8(t)[i] { assert data[i] == Utf8(t)[i]; }
    CStrRead(bytes, at, Utf8(t));
  }

  ghost predicate TextAt(bytes: seq<Byte>, base: nat, ptr: nat, t: Text) {
    ptr >= base && Holds(bytes, Block(ptr - base, CString(t)))
  }

  lemma {:induction false} StringsRead(bytes: seq<Byte>, base: nat, ptrs: seq<nat>, texts: seq<Text>)
    requires TextsAt(bytes, base, ptrs, texts)
    ensures StringsAt(bytes, base, ptrs) == Some(Seen(texts))
    decreases |ptrs|
  {
    if ptrs != [] {
      TextsAfter(bytes, base, ptrs, texts);
      BlockRead(bytes, ptrs[0] - base, texts[0]);
      StringsRead(bytes, base, ptrs[1..], texts[1..]);
      SeenAfter(texts);
    }
  }

  lemma TextsAfter(bytes: seq<Byte>, base: nat, ptrs: seq<nat>, texts: seq<Text>)
    requires TextsAt(bytes, base, ptrs, texts) && ptrs != []
    ensures TextAt(bytes, base, ptrs[0], texts[0]) && TextsAt(bytes, base, ptrs[1..], texts[1..])
  {
    forall i | 0 <= i < |ptrs| - 1 ensures TextAt(bytes, base, ptrs[1..][i], texts[1..][i]) {
      assert TextAt(bytes, base, ptrs[i + 1], texts[i + 1]);
    }
  }

  lemma SeenAfter(texts: seq<Text>)
    requires texts != []
    ensures Seen(texts) == [UpToNul(Utf8(texts[0]))] + Seen(texts[1..])
  {
  }

  function Words(argPtrs: seq<nat>, envPtrs: seq<nat>, aux: seq<(nat, nat)>): (r: seq<nat>) {
    [|argPtrs|] + (argPtrs + [0] + (envPtrs + [0] + (Flat(aux) + [0, 0])))
  }

  ghost predicate TextsAt(bytes: seq<Byte>, base: nat, ptrs: seq<nat>, texts: seq<Text>) {
    |ptrs| == |texts| && forall i :: 0 <= i < |ptrs| ==> TextAt(bytes, base, ptrs[i], texts[i])
  }

  lemma TablesRead(bytes: seq<Byte>, at: nat, args: seq<nat>, env: seq<nat>, aux: seq<(nat, nat)>)
    requires WordsAt(bytes, at, Words(args, env, aux))
    requires (forall i :: 0 <= i < |args| ==> args[i] != 0) && (forall i :: 0 <= i < |env| ==> env[i] != 0)
             && forall i :: 0 <= i < |aux| ==> aux[i].0 != 0
    ensures TablesAt(bytes, at) == Some(Tables(args, env, aux))
  {
    var tail := Flat(aux) + [0, 0];
    var words := Words(args, env, aux);
    assert WordAt(bytes, at, words[0]) && words[1..] == args + [0] + (env + [0] + tail);
    PointersRead(bytes, at + 8, args, env + [0] + tail);
    PointersRead(bytes, at + 8 + 8 * (|args| + 1), env, tail);
    PairsRead(bytes, at + 8 + 8 * (|args| + 1) + 8 * (|env| + 1), aux);
  }

  lemma NoneIsNull(bytes: seq<Byte>, base: nat, ptrs: seq<nat>, texts: seq<Text>)
    requires 0 < base && TextsAt(bytes, base, ptrs, texts)
    ensures forall i :: 0 <= i < |ptrs| ==> ptrs[i] != 0
  {
    forall i | 0 <= i < |ptrs| ensures ptrs[i] != 0 { assert TextAt(bytes, base, ptrs[i], texts[i]); }
  }

  /** The tables and strings together read back. */
  lemma StackRead(bytes: seq<Byte>, base: nat, at: nat, argPtrs: seq<nat>, args: seq<Text>, envPtrs: seq<nat>,
                  env: seq<Text>, aux: seq<(nat, nat)>)
    requires WordsAt(bytes, at, Words(argPtrs, envPtrs, aux)) && 0 < base
    requires TextsAt(bytes, base, argPtrs, args) && TextsAt(bytes, base, envPtrs, env)
             && forall i :: 0 <= i < |aux| ==> aux[i].0 != 0
    ensures ReadBack(bytes, base, base + at) == Some(View(Seen(args), Seen(env), aux))
  {
    NoneIsNull(bytes, base, argPtrs, args);
    NoneIsNull(bytes, base, envPtrs, env);
    TablesRead(bytes, at, argPtrs, envPtrs, aux);
    StringsRead(bytes, base, argPtrs, args);
    StringsRead(bytes, base, envPtrs, env);
  }

  // ---- The whole stack ------------------------------------------------------------------------------------

  type Address = a: nat | a < U64

  /** What the loaded program and its interpreter contribute to the auxiliary vector. */
  datatype Launch = Launch(phdr: Address, phent: Address, phnum: Address, interpBias: Address, entry: Address)

  const AT_PHDR: nat := 3
  const AT_PHENT: nat := 4
  const AT_PHNUM: nat := 5
  const AT_PAGESZ: nat := 6
  const AT_BASE: nat := 7
  const AT_FLAGS: nat := 8
  const AT_ENTRY: nat := 9
  const AT_UID: nat := 11
  const AT_EUID: nat := 12
  const AT_GID: nat := 13
  const AT_EGID: nat := 14
  const AT_SECURE: nat := 23
  const AT_RANDOM: nat := 25
  const AT_EXECFN: nat := 31

  function Aux(l: Launch, random: nat, execfn: nat): (r: seq<(nat, nat)>) {
    [(AT_PHDR, l.phdr), (AT_PHENT, l.phent), (AT_PHNUM, l.phnum), (AT_PAGESZ, 4096), (AT_BASE, l.interpBias),
     (AT_FLAGS, 0), (AT_ENTRY, l.entry), (AT_UID, 0), (AT_EUID, 0), (AT_GID, 0), (AT_EGID, 0), (AT_SECURE, 0),
     (AT_RANDOM, random), (AT_EXECFN, execfn)]
  }

  /** What a process finds under a key of its auxiliary vector: the value of the first entry with that key. */
  ghost function AuxValue(pairs: seq<(nat, nat)>, key: nat): (v: Option<nat>) {
    if pairs == [] then None
    else if pairs[0].0 == key then Some(pairs[0].1)
    else AuxValue(pairs[1..], key)
  }

  lemma {:induction false} AuxFinds(pairs: seq<(nat, nat)>, i: nat)
    requires i < |pairs| && forall j :: 0 <= j < i ==> pairs[j].0 != pairs[i].0
    ensures AuxValue(pairs, pairs[i].0) == Some(pairs[i].1)
  {
    if i > 0 { AuxFinds(pairs[1..], i - 1); }
  }

  ghost predicate KeysOnce(pairs: seq<(nat, nat)>) { forall i, j :: 0 <= i < j < |pairs| ==> pairs[i].0 != pairs[j].0 }

  lemma AuxKeysOnce(l: Launch, random: nat, execfn: nat)
    ensures KeysOnce(Aux(l, random, execfn))
  {
  }

  lemma {:induction false} FlatBound(pairs: seq<(nat, nat)>)
    requires forall i :: 0 <= i < |pairs| ==> pairs[i].0 < U64 && pairs[i].1 < U64
    ensures |Flat(pairs)| == 2 * |pairs| && forall i :: 0 <= i < |Flat(pairs)| ==> Flat(pairs)[i] < U64
  {
    if pairs != [] { FlatBound(pairs[1..]); }
  }

  lemma WordsBound(args: seq<nat>, env: seq<nat>, l: Launch, random: nat, execfn: nat)
    requires |args| < U64 && random < U64 && execfn < U64
    requires (forall i :: 0 <= i < |args| ==> args[i] < U64) && forall i :: 0 <= i < |env| ==> env[i] < U64
    ensures var words := Words(args, env, Aux(l, random, execfn));
            |words| == |args| + |env| + 33 && forall i :: 0 <= i < |words| ==> words[i] < U64
  {
    FlatBound(Aux(l, random, execfn));
  }

  lemma PointsHold(bytes: seq<Byte>, base: nat, top: nat, blocks: seq<Block>, ptrs: seq<nat>, texts: seq<Text>)
    requires Laid(bytes, top, blocks) && Points(base, ptrs, blocks, 0, texts)
    ensures TextsAt(bytes, base, ptrs, texts)
  {
    forall i | 0 <= i < |ptrs| ensures TextAt(bytes, base, ptrs[i], texts[i]) {
      assert Holds(bytes, blocks[i]) && PointsAt(base, ptrs, blocks, 0, texts, i);
      assert blocks[i] == Block(ptrs[i] - base, CString(texts[i]));
    }
  }

  lemma TextsSplit(bytes: seq<Byte>, base: nat, ps: seq<nat>, qs: seq<nat>, a: seq<Text>, b: seq<Text>)
    requires |ps| == |a| && TextsAt(bytes, base, ps + qs, a + b)
    ensures TextsAt(bytes, base, ps, a) && TextsAt(bytes, base, qs, b)
  {
    forall i | 0 <= i < |ps| ensures TextAt(bytes, base, ps[i], a[i]) {
      assert TextAt(bytes, base, (ps + qs)[i], (a + b)[i]);
    }
    forall i | 0 <= i < |qs| ensures TextAt(bytes, base, qs[i], b[i]) {
      assert TextAt(bytes, base, (ps + qs)[|ps| + i], (a + b)[|ps| + i]);
    }
  }

  datatype Built = Built(bytes: seq<Byte>, sp: nat, argc: nat, envc: nat, auxc: nat)

  /** Strings, seed and table fit the stack. */
  ghost predicate Room(argv: seq<Text>, execfn: Text, extras: seq<Text>) {
    var need := Need(AllTexts(argv, execfn, extras));
    need + 16 <= STACK_SIZE && 8 * (|ArgsOf(argv)| + |EnvOf(extras)| + 33) <= Down16(STACK_SIZE - need - 16)
  }

  /** A process that starts at `sp` finds these arguments, environment, auxiliary vector and program name. */
  ghost predicate ReadsAs(bytes: seq<Byte>, base: nat, sp: nat, exec: Text, env: seq<Text>, args: seq<Text>,
                          aux: seq<(nat, nat)>, name: nat) {
    && base <= sp && (sp - base) % 16 == 0 && ReadBack(bytes, base, sp) == Some(View(Seen(args), Seen(env), aux))
    && name >= base && CStrAt(bytes, name - base) == Some(UpToNul(Utf8(exec)))
  }

  /** Strings and seed lie apart from each other and above `end`. */
  ghost predicate ApartAbove(bytes: seq<Byte>, end: nat, texts: seq<Text>, seed: seq<Byte>, seedAt: int,
                             blocks: seq<Block>) {
    && Laid(bytes, end, blocks) && |blocks| == |texts| + 1
    && blocks[|texts|].at == seedAt && blocks[|texts|].data == seed && seedAt % 16 == 0
    && forall i {:trigger blocks[i]} :: 0 <= i < |texts| ==> blocks[i].data == CString(texts[i])
  }

  ghost predicate RightStack(b: Built, base: nat, l: Launch, seed: seq<Byte>, exec: Text, env: seq<Text>,
                             args: seq<Text>, random: nat, name: nat, blocks: seq<Block>) {
    && b.argc == |args| && b.envc == |env| && b.auxc == 14
    && ReadsAs(b.bytes, base, b.sp, exec, env, args, Aux(l, random, name), name)
    && ApartAbove(b.bytes, b.sp - base + 8 * (|args| + |env| + 33), [exec] + env + args, seed, random - base, blocks)
  }

  /** Strings and seed are in place, the pointers known. */
  ghost predicate Ready(base: nat, bytes: seq<Byte>, top: nat, blocks: seq<Block>, texts: seq<Text>, name: nat,
                        env: seq<nat>, args: seq<nat>, random: nat, seed: seq<Byte>) {
    && 0 < base && base + STACK_SIZE <= U64 && |bytes| == STACK_SIZE && Laid(bytes, top, blocks)
    && Points(base, [name] + env + args, blocks, 0, texts) && |blocks| == |texts| + 1
    && random == base + top && top % 16 == 0 && blocks[|blocks| - 1] == Block(top, seed)
  }

  lemma {:induction false} NeedsEach(texts: seq<Text>)
    ensures |texts| <= Need(texts)
    decreases |texts|
  {
    if texts != [] { NeedsEach(texts[..|texts| - 1]); }
  }

  lemma PtrBound(base: nat, bytes: seq<Byte>, top: nat, blocks: seq<Block>, ptrs: seq<nat>, texts: seq<Text>, i: nat)
    requires base + |bytes| <= U64 && Laid(bytes, top, blocks) && Points(base, ptrs, blocks, 0, texts) && i < |ptrs|
    ensures base + top <= ptrs[i] < U64
  {
    assert PointsAt(base, ptrs, blocks, 0, texts, i);
    assert Holds(bytes, blocks[i]);
    assert |CString(texts[i])| > 0;
  }

  lemma PlacedBound(base: nat, bytes: seq<Byte>, top: nat, blocks: seq<Block>, texts: seq<Text>, name: nat,
                    env: seq<nat>, args: seq<nat>, random: nat, seed: seq<Byte>)
    requires Ready(base, bytes, top, blocks, texts, name, env, args, random, seed) && Need(texts) <= STACK_SIZE
    ensures |args| < U64 && random < U64 && name < U64
    ensures (forall i :: 0 <= i < |args| ==> args[i] < U64) && forall i :: 0 <= i < |env| ==> env[i] < U64
  {
    var ptrs := [name] + env + args;
    NeedsEach(texts);
    PtrBound(base, bytes, top, blocks, ptrs, texts, 0);
    forall i | 0 <= i < |env| ensures env[i] < U64 { PtrBound(base, bytes, top, blocks, ptrs, texts, 1 + i); }
    forall i | 0 <= i < |args| ensures args[i] < U64 {
      PtrBound(base, bytes, top, blocks, ptrs, texts, 1 + |env| + i);
    }
  }

  /** The words do not touch what is in place. */
  lemma StackReadsBack(base: nat, bytes: seq<Byte>, top: nat, blocks: seq<Block>, exec: Text, env: seq<Text>,
                       args: seq<Text>,
                       name: nat, envPtrs: seq<nat>, argPtrs: seq<nat>, random: nat, seed: seq<Byte>, at: nat,
                           aux: seq<(nat, nat)>)
    requires |envPtrs| == |env| && |argPtrs| == |args|
             && Ready(base, bytes, top, blocks, [exec] + env + args, name, envPtrs, argPtrs, random, seed)
    requires WordsAt(bytes, at, Words(argPtrs, envPtrs, aux)) && forall i :: 0 <= i < |aux| ==> aux[i].0 != 0
    requires at % 16 == 0
    ensures ReadsAs(bytes, base, base + at, exec, env, args, aux, name)
  {
    PointsHold(bytes, base, top, blocks, [name] + envPtrs + argPtrs, [exec] + env + args);
    TextsSplit(bytes, base, [name] + envPtrs, argPtrs, [exec] + env, args);
    TextsSplit(bytes, base, [name], envPtrs, [exec], env);
    assert TextAt(bytes, base, [name][0], [exec][0]);
    BlockRead(bytes, name - base, exec);
    StackRead(bytes, base, at, argPtrs, args, envPtrs, env, aux);
  }

  lemma LaidAbove(base: nat, bytes: seq<Byte>, top: nat, blocks: seq<Block>, texts: seq<Text>, name: nat, env: seq<nat>,
                  args: seq<nat>, random: nat, seed: seq<Byte>, end: nat)
    requires Ready(base, bytes, top, blocks, texts, name, env, args, random, seed) && end <= top
    ensures ApartAbove(bytes, end, texts, seed, random - base, blocks)
  {
    var ptrs := [name] + env + args;
    forall i {:trigger blocks[i]} | 0 <= i < |texts| ensures blocks[i].data == CString(texts[i]) {
      assert PointsAt(base, ptrs, blocks, 0, texts, i);
    }
    forall i {:trigger Holds(bytes, blocks[i])} | 0 <= i < |blocks|
        ensures Holds(bytes, blocks[i]) && end <= blocks[i].at {
      assert Holds(bytes, blocks[i]);
    }
  }

  lemma AuxKeys(l: Launch, random: nat, name: nat)
    ensures forall i :: 0 <= i < |Aux(l, random, name)| ==> Aux(l, random, name)[i].0 != 0
  {
  }

  lemma RightStackHolds(base: nat, bytes: seq<Byte>, top: nat, blocks: seq<Block>, l: Launch, seed: seq<Byte>,
                        exec: Text, env: seq<Text>, args: seq<Text>,
                        name: nat, envPtrs: seq<nat>, argPtrs: seq<nat>, random: nat, at: nat)
    requires |envPtrs| == |env| && |argPtrs| == |args|
    requires Ready(base, bytes, top, blocks, [exec] + env + args, name, envPtrs, argPtrs, random, seed)
    requires at % 16 == 0 && at + 8 * (|args| + |env| + 33) <= top
    requires WordsAt(bytes, at, Words(argPtrs, envPtrs, Aux(l, random, name)))
    ensures RightStack(Built(bytes, base + at, |args|, |env|, 14), base, l, seed, exec, env, args, random, name, blocks)
  {
    var end := at + 8 * (|args| + |env| + 33);
    assert ReadsAs(bytes, base, base + at, exec, env, args, Aux(l, random, name), name) by {
      AuxKeys(l, random, name);
      StackReadsBack(base, bytes, top, blocks, exec, env, args, name, envPtrs, argPtrs, random, seed, at,
          Aux(l, random, name));
    }
    assert ApartAbove(bytes, end, [exec] + env + args, seed, random - base, blocks) by {
      LaidAbove(base, bytes, top, blocks, [exec] + env + args, name, envPtrs, argPtrs, random, seed, end);
    }
    Rightly(Built(bytes, base + at, |args|, |env|, 14), base, l, seed, exec, env, args, random, name, blocks, end);
  }

  lemma Rightly(b: Built, base: nat, l: Launch, seed: seq<Byte>, exec: Text, env: seq<Text>, args: seq<Text>,
                random: nat, name: nat, blocks: seq<Block>, end: nat)
    requires b.argc == |args| && b.envc == |env| && b.auxc == 14 && end == b.sp - base + 8 * (|args| + |env| + 33)
    requires ReadsAs(b.bytes, base, b.sp, exec, env, args, Aux(l, random, name), name)
             && ApartAbove(b.bytes, end, [exec] + env + args, seed, random - base, blocks)
    ensures RightStack(b, base, l, seed, exec, env, args, random, name, blocks)
  {
  }

  /** The strings, and below them the seed. */
  method PlaceAll(s: Stack, argv: seq<Text>, execfn: Text, extras: seq<Text>, seed: seq<Byte>)
    returns (r: Option<(nat, seq<nat>, seq<nat>, nat)>)
    requires s.Valid() && s.blocks == [] && s.top == STACK_SIZE && |seed| == 16
    modifies s
    ensures s.Valid() && (r.Some? <==> Need(AllTexts(argv, execfn, extras)) + 16 <= STACK_SIZE)
    ensures r.Some? ==>
              && |r.value.1| == |EnvOf(extras)| && |r.value.2| == |ArgsOf(argv)|
              && s.top == Down16(STACK_SIZE - Need(AllTexts(argv, execfn, extras)) - 16)
              && Ready(s.base, s.bytes, s.top, s.blocks, AllTexts(argv, execfn, extras), r.value.0, r.value.1,
                r.value.2, r.value.3, seed)
  {
    var placed := s.PlaceStrings(argv, execfn, extras);
    if placed.None? { return None; }
    ghost var ptrs, texts := [placed.value.0] + placed.value.1 + placed.value.2, AllTexts(argv, execfn, extras);
    ghost var was := s.blocks;
    assert Added(s.base, STACK_SIZE, [], s.top, was, ptrs, texts);
    var random := s.PlaceAligned(seed);
    if random.None? { return None; }
    PointsStill(s.base, ptrs, was, 0, texts, Block(s.top, seed));
    return Some((placed.value.0, placed.value.1, placed.value.2, random.value));
  }

  /**
    `build_linux_initial_stack`, for any address the allocator may return and any 16 seed bytes:
    it succeeds exactly when everything fits.
   */
  method Build(base: nat, l: Launch, argv: seq<Text>, execfn: Text, extras: seq<Text>, seed: seq<Byte>)
    returns (r: Option<Built>, ghost random: nat, ghost name: nat, ghost blocks: seq<Block>)
    requires 0 < base && base + STACK_SIZE <= U64 && |seed| == 16
    ensures r.Some? <==> Room(argv, execfn, extras)
    ensures r.Some? ==>
              RightStack(r.value, base, l, seed, ExecOf(execfn, argv), EnvOf(extras), ArgsOf(argv), random, name,
              blocks)
  {
    random, name, blocks := 0, 0, [];
    var s := new Stack(base);
    var placed := PlaceAll(s, argv, execfn, extras, seed);
    if placed.None? { return None, random, name, blocks; }
    var (namePtr, envPtrs, argPtrs, randomPtr) := placed.value;
    var words := Words(argPtrs, envPtrs, Aux(l, randomPtr, namePtr));
    PlacedBound(base, s.bytes, s.top, s.blocks, AllTexts(argv, execfn, extras), namePtr, envPtrs, argPtrs,
        randomPtr, seed);
    WordsBound(argPtrs, envPtrs, l, randomPtr, namePtr);
    if s.top < 8 * |words| { return None, random, name, blocks; }
    var at := Down16(s.top - 8 * |words|);
    s.WriteWords(at, words);
    random, name, blocks := randomPtr, namePtr, s.blocks;
    RightStackHolds(base, s.bytes, s.top, s.blocks, l, seed, ExecOf(execfn, argv), EnvOf(extras), ArgsOf(argv), name,
        envPtrs, argPtrs, random, at);
    return Some(Built(s.bytes, base + at, |argPtrs|, |envPtrs|, 14)), random, name, blocks;
  }

  /** Entry `i` of the vector is the only one with its key. */
  lemma AuxEntry(l: Launch, random: nat, name: nat, aux: seq<(nat, nat)>, i: nat, key: nat, value: nat)
    requires aux == Aux(l, random, name) && i < |aux| && aux[i] == (key, value)
    ensures AuxValue(aux, key) == Some(value)
  {
    AuxKeysOnce(l, random, name);
    AuxFinds(aux, i);
  }

  /**
    What a process finds in its auxiliary vector, by the key numbers of the System V AMD64 ABI, section 3.4.3: where
    the program headers are, their size and number (3, 4, 5), the page size (6), the bias of the interpreter (7), the
    entry of the program itself (9), zeros for flags and identity (8, 11 to 14, 23), and two addresses (25, 31).
   */
  ghost predicate AuxSays(aux: seq<(nat, nat)>, l: Launch, random: nat, name: nat) {
    && AuxValue(aux, 3) == Some(l.phdr) && AuxValue(aux, 4) == Some(l.phent) && AuxValue(aux, 5) == Some(l.phnum)
    && AuxValue(aux, 6) == Some(4096) && AuxValue(aux, 7) == Some(l.interpBias) && AuxValue(aux, 9) == Some(l.entry)
    && AuxValue(aux, 8) == AuxValue(aux, 11) == AuxValue(aux, 12) == AuxValue(aux, 13) == Some(0)
    && AuxValue(aux, 14) == AuxValue(aux, 23) == Some(0)
    && AuxValue(aux, 25) == Some(random) && AuxValue(aux, 31) == Some(name)
  }

  lemma AuxSaid(l: Launch, random: nat, name: nat, aux: seq<(nat, nat)>)
    requires aux == Aux(l, random, name)
    ensures AuxSays(aux, l, random, name)
  {
    AuxEntry(l, random, name, aux, 0, 3, l.phdr);
    AuxEntry(l, random, name, aux, 1, 4, l.phent);
    AuxEntry(l, random, name, aux, 2, 5, l.phnum);
    AuxEntry(l, random, name, aux, 3, 6, 4096);
    AuxEntry(l, random, name, aux, 4, 7, l.interpBias);
    AuxEntry(l, random, name, aux, 5, 8, 0);
    AuxEntry(l, random, name, aux, 6, 9, l.entry);
    AuxEntry(l, random, name, aux, 7, 11, 0);
    AuxEntry(l, random, name, aux, 8, 12, 0);
    AuxEntry(l, random, name, aux, 9, 13, 0);
    AuxEntry(l, random, name, aux, 10, 14, 0);
    AuxEntry(l, random, name, aux, 11, 23, 0);
    AuxEntry(l, random, name, aux, 12, 25, random);
    AuxEntry(l, random, name, aux, 13, 31, name);
  }

  /**
    A process reads every value out of its auxiliary vector under its key, each key once and no other; the last two
    are the address of the sixteen seed bytes and of the program's name.
   */
  lemma AuxReadBack(b: Built, base: nat, l: Launch, seed: seq<Byte>, exec: Text, env: seq<Text>, args: seq<Text>,
                    random: nat, name: nat, blocks: seq<Block>)
    requires RightStack(b, base, l, seed, exec, env, args, random, name, blocks)
    ensures ReadBack(b.bytes, base, b.sp).Some?
    ensures var aux := ReadBack(b.bytes, base, b.sp).value.aux;
            |aux| == 14 && KeysOnce(aux) && AuxSays(aux, l, random, name)
    ensures base <= random && random - base + |seed| <= |b.bytes|
            && b.bytes[random - base..random - base + |seed|] == seed
    ensures base <= name && CStrAt(b.bytes, name - base) == Some(UpToNul(Utf8(exec)))
  {
    AuxKeysOnce(l, random, name);
    AuxSaid(l, random, name, Aux(l, random, name));
    assert Holds(b.bytes, blocks[|[exec] + env + args|]);
  }

  /** Texts without a zero come back whole: the bytes a process finds decode to the text that was put in. */
  lemma TextsComeBack(b: Built, base: nat, l: Launch, seed: seq<Byte>, exec: Text, env: seq<Text>, args: seq<Text>,
                      random: nat, name: nat, blocks: seq<Block>, i: nat)
    requires RightStack(b, base, l, seed, exec, env, args, random, name, blocks)
    ensures ReadBack(b.bytes, base, b.sp).Some?
    ensures var view := ReadBack(b.bytes, base, b.sp).value;
            && |view.args| == |args| && |view.env| == |env|
            && (i < |args| && Plain(args[i]) ==> Decoded(view.args[i]) == Some(args[i]))
            && (i < |env| && Plain(env[i]) ==> Decoded(view.env[i]) == Some(env[i]))
  {
    if i < |args| && Plain(args[i]) { PlainComesBack(args[i]); }
    if i < |env| && Plain(env[i]) { PlainComesBack(env[i]); }
  }

  ghost predicate Plain(t: Text) { forall i :: 0 <= i < |t| ==> 0 < t[i] < CODE_POINTS }

  lemma PlainComesBack(t: Text)
    requires Plain(t)
    ensures Decoded(UpToNul(Utf8(t))) == Some(t)
  {
    ZeroInText(t);
    SeenWhole(Utf8(t));
    TextRoundTrip(t);
  }

  /**
    The offset of the stack pointer is a multiple of 16, so the pointer itself is one, as the ABI wants
    it, exactly when the allocator's address is; a plain byte vector does not ask for that.
   */
  lemma AlignedIffBase(b: Built, base: nat, l: Launch, seed: seq<Byte>, exec: Text, env: seq<Text>, args: seq<Text>,
                       random: nat, name: nat, blocks: seq<Block>)
    requires RightStack(b, base, l, seed, exec, env, args, random, name, blocks)
    ensures b.sp % 16 == 0 <==> base % 16 == 0
    ensures random % 16 == 0 <==> base % 16 == 0
  {
    SameRest(base, b.sp - base);
    SameRest(base, random - base);
  }

  lemma SameRest(base: nat, at: int)
    requires at % 16 == 0
    ensures (base + at) % 16 == 0 <==> base % 16 == 0
  {
  }
}
