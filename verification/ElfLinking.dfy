/**
  The pass that resolves what an image does not define itself. Together with the collected
  symbol table it links the images: the slot of an undefined symbol ends up with the value of
  the first image that exports the name.
 */
module ElfLinking {
  import opened Bytes
  import opened ElfLoader
  import opened ElfReloc
  import opened ElfSymbols

  /** Bytes stored in the image, no definition found, an error, or none of this pass's business. */
  datatype Effect = Put(off: nat, bytes: seq<Byte>) | Undefined | Wrong | Skipped

  /** What becomes of an entry, and whether it enters the total. */
  datatype Outcome = Outcome(effect: Effect, counted: bool)

  /** The byte of memory at an address, which may lie in the image itself. */
  type Memory = (seq<Byte>, nat) -> Byte

  /** The symbol behind an entry of the image. */
  function SymbolOf(im: Image, e: Entry): (r: Option<Symbol>) {
    ReadSymbol(im.raw, im.segs, im.dyn.symtab, im.dyn.syment, e.sym)
  }

  /** The definition the table has for the symbol's name. */
  function Provided(im: Image, decode: Decoder, t: seq<Global>, sym: Symbol): (r: Option<Global>) {
    var name := if sym.nameOff == 0 then None else NameOf(im, decode, sym);
    if name.None? then None else Find(t, name.value)
  }

  predicate Linkable(kind: nat) { BySymbol(kind) || kind == R_X86_64_COPY }

  /** The bytes from `base` on, as they are when the image holds `image`. */
  function Peeked(memory: Memory, image: seq<Byte>, base: nat, len: nat): (b: seq<Byte>)
    ensures |b| == len
  {
    seq(len, i requires 0 <= i < len => memory(image, base + i))
  }

  /** What a COPY stores: the symbol's bytes from where they are defined. */
  function CopyOutcome(memory: Memory, image: seq<Byte>, off: nat, base: nat, size: nat): (o: Effect) {
    if size == 0 then Put(off, [])
    else if base == 0 || off + size > |image| then Wrong
    else Put(off, Peeked(memory, image, base, size))
  }

  /** What another entry by symbol stores: the definition's value and the addend. */
  function WordOutcome(imageLen: nat, off: nat, value: int): (o: Effect) {
    if Fits(value).None? || off + WORD > imageLen then Wrong else Put(off, LeBytes(value, WORD))
  }

  const WORD: nat := 8

  /** The effect of an entry whose definition has been found. */
  function FoundEffect(memory: Memory, image: seq<Byte>, kind: nat, off: nat, base: nat, size: nat,
                       addend: int): (e: Effect)
    ensures Lands(e, |image|)
  {
    if kind == R_X86_64_COPY then CopyOutcome(memory, image, off, base, size)
        else WordOutcome(|image|, off, base + addend)
  }

  /** The outcome of an entry on an image as it stands. */
  function OutcomeOn(im: Image, decode: Decoder, t: seq<Global>, spanStart: nat, memory: Memory, image: seq<Byte>,
                     e: Entry): (o: Outcome)
    ensures Lands(o.effect, |image|)
  {
    var sym := SymbolOf(im, e);
    if !Linkable(e.kind) then Outcome(Skipped, false)
    else if e.offset < spanStart || sym.None? then Outcome(Wrong, false)
    else if sym.value.shndx != 0 && e.kind != R_X86_64_COPY then Outcome(Skipped, false)
    else
      var found := Provided(im, decode, t, sym.value);
      if found.None? then Outcome(Undefined, true)
      else Outcome(FoundEffect(memory, image, e.kind, e.offset - spanStart, found.value.value, sym.value.size,
          e.addend), true)
  }

  // ---- The effect of many entries -------------------------------------------------------------------------

  ghost predicate Lands(e: Effect, len: nat) { e.Put? && e.bytes != [] ==> e.off + |e.bytes| <= len }

  ghost predicate AllLand(os: seq<Outcome>, len: nat) { forall i :: 0 <= i < |os| ==> Lands(os[i].effect, len) }

  function OnePut(image: seq<Byte>, e: Effect): (r: seq<Byte>)
    requires Lands(e, |image|)
    ensures |r| == |image|
  {
    if e.Put? && e.bytes != [] then Splice(image, e.off, e.bytes) else image
  }

  /** The image after all of these, in order. */
  ghost function PutAll(image: seq<Byte>, os: seq<Outcome>): (r: seq<Byte>)
    requires AllLand(os, |image|)
    ensures |r| == |image|
  {
    if os == [] then image
    else
      assert Lands(os[|os| - 1].effect, |image|);
      OnePut(PutAll(image, os[..|os| - 1]), os[|os| - 1].effect)
  }

  /** The entries of a table, from `cursor` on. */
  ghost function Entries(raw: Raw, cursor: nat, end: nat, ent: nat): (es: seq<Entry>)
    requires ent >= 24 && end <= |raw|
    decreases |raw| - cursor
  {
    if cursor + ent > end then [] else [EntryAt(raw, cursor)] + Entries(raw, cursor + ent, end, ent)
  }

  /** What an entry does to an image. */
  type Step = (seq<Byte>, Entry) -> Outcome

  ghost predicate Steady(step: Step) {
    forall image, e {:trigger step(image, e)} :: Lands(step(image, e).effect, |image|)
  }

  function LinkStep(im: Image, decode: Decoder, t: seq<Global>, spanStart: nat, memory: Memory): (step: Step)
    ensures Steady(step)
  {
    (image: seq<Byte>, e: Entry) => OutcomeOn(im, decode, t, spanStart, memory, image, e)
  }

  /** The outcomes on the entries in table order, each on the image the ones before have left. */
  ghost function Outcomes(step: Step, image: seq<Byte>, es: seq<Entry>): (os: seq<Outcome>)
    requires Steady(step)
    ensures |os| == |es| && AllLand(os, |image|)
  {
    if es == [] then []
    else
      var done := Outcomes(step, image, es[..|es| - 1]);
      done + [step(PutAll(image, done), es[|es| - 1])]
  }

  predicate Writes(e: Effect, p: nat) { e.Put? && e.off <= p < e.off + |e.bytes| }

  /** Outcome `i` is the last one that stores a byte at `p`. */
  ghost predicate LastPut(os: seq<Outcome>, i: nat, p: nat) {
    i < |os| && Writes(os[i].effect, p) && forall j :: i < j < |os| ==> !Writes(os[j].effect, p)
  }

  /** No later outcome stores where outcome `i` does. */
  ghost predicate LastThere(os: seq<Outcome>, i: nat) {
    i < |os| && forall p: nat :: Writes(os[i].effect, p) ==> LastPut(os, i, p)
  }

  lemma {:induction false} LastPutStands(image: seq<Byte>, os: seq<Outcome>, i: nat, p: nat)
    requires AllLand(os, |image|) && LastPut(os, i, p) && p < |image|
    ensures PutAll(image, os)[p] == os[i].effect.bytes[p - os[i].effect.off]
    decreases |os|
  {
    assert Lands(os[|os| - 1].effect, |image|);
    if i < |os| - 1 {
      assert !Writes(os[|os| - 1].effect, p);
      LastPutStands(image, os[..|os| - 1], i, p);
    }
  }

  // ---- Counting -----------------------------------------------------------------------------------------------

  /** The counters after an outcome. */
  function AfterOutcome(c: Counters, o: Outcome): (r: Counters) {
    var d := if o.counted then c.(total := Bump(c.total)) else c;
    match o.effect
    case Put(_, _) => d.(applied := Bump(d.applied))
    case Undefined => d.(unsupported := Bump(d.unsupported))
    case Wrong => d.(errors := Bump(d.errors))
    case Skipped => d
  }

  ghost function AfterOutcomes(c: Counters, os: seq<Outcome>): (r: Counters) {
    if os == [] then c else AfterOutcome(AfterOutcomes(c, os[..|os| - 1]), os[|os| - 1])
  }

  method CountOutcome(stats: Stats, o: Outcome)
    modifies stats
    ensures stats.Now() == AfterOutcome(old(stats.Now()), o)
  {
    if o.counted { stats.total := Bump(stats.total); }
    match o.effect {
      case Put(_, _) => stats.applied := Bump(stats.applied);
      case Undefined => stats.unsupported := Bump(stats.unsupported);
      case Wrong => stats.errors := Bump(stats.errors);
      case Skipped =>
    }
  }

  // ---- The pass -----------------------------------------------------------------------------------------------

  method FindProvider(im: Image, decode: Decoder, t: seq<Global>, sym: Symbol) returns (r: Option<Global>)
    ensures r == Provided(im, decode, t, sym)
  {
    if sym.nameOff == 0 { return None; }
    var bytes := ReadDynamicString(im.raw, im.segs, im.dyn.strtab, im.dyn.strtabSize, sym.nameOff);
    if bytes.None? { return None; }
    r := LookupGlobal(t, decode(bytes.value));
  }

  /** Bytes put one by one into an array make a splice. */
  method PutBytes(image: array<Byte>, off: nat, bytes: seq<Byte>)
    requires off + |bytes| <= image.Length
    modifies image
    ensures image[..] == Splice(old(image[..]), off, bytes)
  {
    for i := 0 to |bytes|
      invariant forall p :: 0 <= p < image.Length ==>
                image[p] == if off <= p < off + i then bytes[p - off] else old(image[p])
    {
      image[off + i] := bytes[i];
    }
  }

  /** `runtime_copy_from_ptr_to_image`; the bytes are those of memory before the copy. */
  method CopyToImage(image: array<Byte>, off: nat, base: nat, len: nat, memory: Memory) returns (ok: bool)
    requires len > 0
    modifies image
    ensures var e := CopyOutcome(memory, old(image[..]), off, base, len);
            ok == e.Put? && image[..] == OnePut(old(image[..]), e)
  {
    if base == 0 || off + len > image.Length { return false; }
    PutBytes(image, off, Peeked(memory, image[..], base, len));
    return true;
  }

  method StoreWord(image: array<Byte>, off: nat, value: int) returns (ok: bool)
    modifies image
    ensures var e := WordOutcome(image.Length, off, value); ok == e.Put? && image[..] == OnePut(old(image[..]), e)
  {
    if value < 0 || value >= U64 { return false; }
    ok := WriteWord(image, off, value);
  }

  /** An image and the counters before and after an outcome. */
  ghost predicate Did(before: seq<Byte>, after: seq<Byte>, was: Counters, now: Counters, o: Outcome) {
    Lands(o.effect, |before|) && after == OnePut(before, o.effect) && now == AfterOutcome(was, o)
  }

  lemma OutcomeFound(im: Image, decode: Decoder, t: seq<Global>, spanStart: nat, memory: Memory, image: seq<Byte>,
                     e: Entry, sym: Symbol, found: Global)
    requires Linkable(e.kind) && spanStart <= e.offset && SymbolOf(im, e) == Some(sym)
    requires (sym.shndx == 0 || e.kind == R_X86_64_COPY) && Provided(im, decode, t, sym) == Some(found)
    ensures OutcomeOn(im, decode, t, spanStart, memory, image, e)
         == Outcome(FoundEffect(memory, image, e.kind, e.offset - spanStart, found.value, sym.size, e.addend), true)
  {
  }

  /** One turn of the loop. */
  method LinkEntry(image: array<Byte>, im: Image, decode: Decoder, t: seq<Global>, spanStart: nat, memory: Memory,
                   e: Entry, stats: Stats)
    modifies image, stats
    ensures Did(old(image[..]), image[..], old(stats.Now()), stats.Now(),
                OutcomeOn(im, decode, t, spanStart, memory, old(image[..]), e))
  {
    if !Linkable(e.kind) { return; }
    var sym := SymbolOf(im, e);
    if e.offset < spanStart || sym.None? {
      CountOutcome(stats, Outcome(Wrong, false));
      return;
    }
    if sym.value.shndx != 0 && e.kind != R_X86_64_COPY { return; }
    var found := FindProvider(im, decode, t, sym.value);
    if found.None? {
      CountOutcome(stats, Outcome(Undefined, true));
      return;
    }
    OutcomeFound(im, decode, t, spanStart, memory, image[..], e, sym.value, found.value);
    LinkFound(image, memory, e.kind, e.offset - spanStart, found.value.value, sym.value.size, e.addend, stats);
  }

  /** The definition has been found. */
  method LinkFound(image: array<Byte>, memory: Memory, kind: nat, off: nat, base: nat, size: nat, addend: int,
                   stats: Stats)
    modifies image, stats
    ensures Did(old(image[..]), image[..], old(stats.Now()), stats.Now(),
                Outcome(FoundEffect(memory, old(image[..]), kind, off, base, size, addend), true))
  {
    var ok := StoreFound(image, memory, kind, off, base, size, addend);
    CountOutcome(stats, Outcome(if ok then Put(off, []) else Wrong, true));
  }

  method StoreFound(image: array<Byte>, memory: Memory, kind: nat, off: nat, base: nat, size: nat, addend: int)
    returns (ok: bool)
    modifies image
    ensures var e := FoundEffect(memory, old(image[..]), kind, off, base, size, addend);
            ok == e.Put? && image[..] == OnePut(old(image[..]), e)
  {
    if kind != R_X86_64_COPY {
      ok := StoreWord(image, off, base + addend);
    } else if size == 0 {
      ok := true;
    } else {
      ok := CopyToImage(image, off, base, size, memory);
    }
  }

  ghost predicate Linked(before: seq<Byte>, after: seq<Byte>, was: Counters, now: Counters, os: seq<Outcome>) {
    AllLand(os, |before|) && after == PutAll(before, os) && now == AfterOutcomes(was, os)
  }

  lemma LinkedOne(before: seq<Byte>, after: seq<Byte>, was: Counters, now: Counters, os: seq<Outcome>, o: Outcome)
    requires Linked(before, after, was, now, os) && Lands(o.effect, |before|)
    ensures Linked(before, OnePut(after, o.effect), was, AfterOutcome(now, o), os + [o])
  {
    assert (os + [o])[..|os|] == os;
  }

  /** The loop stands at `cursor`: `n` entries are behind it. */
  ghost predicate LinkingAt(raw: Raw, cursor: nat, end: nat, ent: nat, es: seq<Entry>, n: nat) {
    ent >= 24 && end <= |raw| && n <= |es| && es[n..] == Entries(raw, cursor, end, ent)
  }

  lemma NextEntry(raw: Raw, cursor: nat, end: nat, ent: nat, es: seq<Entry>, n: nat)
    requires LinkingAt(raw, cursor, end, ent, es, n) && cursor + ent <= end
    ensures n < |es| && es[n] == EntryAt(raw, cursor) && LinkingAt(raw, cursor + ent, end, ent, es, n + 1)
  {
    assert es[n..] == [EntryAt(raw, cursor)] + Entries(raw, cursor + ent, end, ent);
    assert es[n] == es[n..][0] && es[n + 1..] == es[n..][1..];
  }

  /** The entries behind the loop have had their outcomes. */
  ghost predicate Behind(step: Step, before: seq<Byte>, after: seq<Byte>, was: Counters, now: Counters,
                         es: seq<Entry>) {
    Steady(step) && Linked(before, after, was, now, Outcomes(step, before, es))
  }

  lemma BehindOne(step: Step, before: seq<Byte>, after: seq<Byte>, after': seq<Byte>, was: Counters, now: Counters,
                  now': Counters, es: seq<Entry>, n: nat)
    requires n < |es| && Behind(step, before, after, was, now, es[..n])
    requires Did(after, after', now, now', step(after, es[n]))
    ensures Behind(step, before, after', was, now', es[..n + 1])
  {
    var some, done := es[..n + 1], Outcomes(step, before, es[..n]);
    assert some[..|some| - 1] == es[..n];
    LinkedOne(before, after, was, now, done, step(after, es[n]));
  }

  /** The loop of `runtime_apply_global_rela_for_image` over a table in range. */
  method LinkTable(image: array<Byte>, im: Image, decode: Decoder, t: seq<Global>, spanStart: nat, memory: Memory,
                   start: nat, end: nat, ent: nat, stats: Stats)
    requires ent >= 24 && start <= end <= |im.raw| && |im.raw| + ent < U64
    modifies image, stats
    ensures Linked(old(image[..]), image[..], old(stats.Now()), stats.Now(),
                   Outcomes(LinkStep(im, decode, t, spanStart, memory), old(image[..]),
                     Entries(im.raw, start, end, ent)))
  {
    var cursor := start;
    ghost var before, was, n := image[..], stats.Now(), 0;
    ghost var es, step := Entries(im.raw, start, end, ent), LinkStep(im, decode, t, spanStart, memory);
    while cursor + ent <= end
      invariant LinkingAt(im.raw, cursor, end, ent, es, n)
      invariant Behind(step, before, image[..], was, stats.Now(), es[..n])
      decreases |im.raw| - cursor
    {
      NextEntry(im.raw, cursor, end, ent, es, n);
      ghost var after, now := image[..], stats.Now();
      LinkEntry(image, im, decode, t, spanStart, memory, EntryAt(im.raw, cursor), stats);
      BehindOne(step, before, after, image[..], was, now, stats.Now(), es, n);
      n := n + 1;
      cursor := cursor + ent;
    }
    assert es[..n] == es;
  }

  // ---- What linking means --------------------------------------------------------------------------------

  /** The entry names a symbol, `sym`, and the image's own pass leaves it to this one. */
  ghost predicate Imports(im: Image, decode: Decoder, e: Entry, sym: Symbol, name: string) {
    && Linkable(e.kind) && SymbolOf(im, e) == Some(sym) && (sym.shndx == 0 || e.kind == R_X86_64_COPY)
    && sym.nameOff != 0 && NameOf(im, decode, sym) == Some(name)
  }

  /** An entry by symbol is written by the image's own pass or by the linking pass, never by both. */
  lemma OnePassWrites(im: Image, decode: Decoder, t: seq<Global>, c: Context, memory: Memory, image: seq<Byte>,
                      e: Entry)
    requires c.segs == im.segs && c.symtab == im.dyn.symtab && c.syment == im.dyn.syment
    ensures !(Judge(im.raw, c, |image|, e).Apply?
            && OutcomeOn(im, decode, t, c.spanStart, memory, image, e).effect.Put?)
  {
  }

  /** Entry `i` was met by the image the entries before it have left, and a definition at `base` was found. */
  ghost predicate MetAs(memory: Memory, before: seq<Byte>, os: seq<Outcome>, i: nat, kind: nat, off: nat, base: nat,
                        size: nat, addend: int) {
    && i < |os| && AllLand(os, |before|) && AllLand(os[..i], |before|)
    && os[i].effect == FoundEffect(memory, PutAll(before, os[..i]), kind, off, base, size, addend)
  }

  ghost predicate HoldsWord(image: seq<Byte>, off: nat, value: int) {
    off + 8 <= |image| && LeAt(image, off, 8) == value
  }

  /** What an outcome stored is still there if it is the last that stored there. */
  lemma StoredStands(image: seq<Byte>, os: seq<Outcome>, i: nat)
    requires AllLand(os, |image|) && i < |os| && os[i].effect.Put? && os[i].effect.bytes != []
    requires LastThere(os, i)
    ensures var e := os[i].effect;
            e.off + |e.bytes| <= |image| && PutAll(image, os)[e.off..e.off + |e.bytes|] == e.bytes
  {
    assert Lands(os[i].effect, |image|);
    var e, after := os[i].effect, PutAll(image, os);
    forall q | 0 <= q < |e.bytes| ensures after[e.off..e.off + |e.bytes|][q] == e.bytes[q] {
      StoredByte(image, os, i, q);
    }
  }

  lemma StoredByte(image: seq<Byte>, os: seq<Outcome>, i: nat, q: nat)
    requires AllLand(os, |image|) && LastThere(os, i) && os[i].effect.Put? && q < |os[i].effect.bytes|
    ensures var e := os[i].effect; e.off + |e.bytes| <= |image| && PutAll(image, os)[e.off + q] == e.bytes[q]
  {
    assert Lands(os[i].effect, |image|);
    assert Writes(os[i].effect, os[i].effect.off + q);
    LastPutStands(image, os, i, os[i].effect.off + q);
  }

  // ---- Each entry on the image the ones before have left -----------------------------------------------

  /** Entry `i` of a table stands at `start + i * ent`. */
  lemma {:induction false} EntryIs(raw: Raw, start: nat, end: nat, ent: nat, i: nat)
    requires ent >= 24 && end <= |raw|
    ensures i < |Entries(raw, start, end, ent)| <==> start + i * ent + ent <= end
    ensures i < |Entries(raw, start, end, ent)| ==>
              Entries(raw, start, end, ent)[i] == EntryAt(raw, start + i * ent)
    decreases i
  {
    if i > 0 {
      if start + ent <= end { EntryIs(raw, start + ent, end, ent, i - 1); }
      assert start + ent + (i - 1) * ent == start + i * ent;
    }
  }

  lemma {:induction false} OutcomesPrefix(step: Step, image: seq<Byte>, es: seq<Entry>, i: nat)
    requires Steady(step) && i <= |es|
    ensures Outcomes(step, image, es)[..i] == Outcomes(step, image, es[..i])
    decreases |es|
  {
    if i < |es| {
      OutcomesPrefix(step, image, es[..|es| - 1], i);
      assert es[..|es| - 1][..i] == es[..i];
    } else {
      assert es[..i] == es;
    }
  }

  /** Outcome `i` of the pass is that of entry `i` on the image the entries before it have left. */
  lemma OutcomeAt(step: Step, image: seq<Byte>, es: seq<Entry>, os: seq<Outcome>, i: nat)
    requires Steady(step) && os == Outcomes(step, image, es) && i < |es|
    ensures AllLand(os[..i], |image|) && os[i] == step(PutAll(image, os[..i]), es[i])
  {
    var some := es[..i + 1];
    OutcomesPrefix(step, image, es, i);
    OutcomesPrefix(step, image, es, i + 1);
    assert some[..|some| - 1] == es[..i];
    assert os[i] == os[..i + 1][i];
  }

  /** Whatever image exports the name, the outcome follows from the definition the table has. */
  lemma ImportedFound(im: Image, decode: Decoder, t: seq<Global>, spanStart: nat, memory: Memory, image: seq<Byte>,
                      e: Entry, sym: Symbol, name: string, base: nat, off: nat)
    requires Imports(im, decode, e, sym, name) && Find(t, name).Some? && Find(t, name).value.value == base
             && e.offset == spanStart + off
    ensures OutcomeOn(im, decode, t, spanStart, memory, image, e)
            == Outcome(FoundEffect(memory, image, e.kind, off, base, sym.size, e.addend), true)
  {
  }

  /** What the pass makes of entry `i` when the table has a definition. */
  lemma EntryMet(im: Image, decode: Decoder, t: seq<Global>, spanStart: nat, memory: Memory, before: seq<Byte>,
                 es: seq<Entry>, os: seq<Outcome>, i: nat, sym: Symbol, name: string, base: nat, off: nat)
    requires os == Outcomes(LinkStep(im, decode, t, spanStart, memory), before, es) && i < |es|
    requires Imports(im, decode, es[i], sym, name) && Find(t, name).Some? && Find(t, name).value.value == base
             && es[i].offset == spanStart + off
    ensures MetAs(memory, before, os, i, es[i].kind, off, base, sym.size, es[i].addend)
  {
    OutcomeAt(LinkStep(im, decode, t, spanStart, memory), before, es, os, i);
    ImportedFound(im, decode, t, spanStart, memory, PutAll(before, os[..i]), es[i], sym, name, base, off);
  }

  /** The first image in loading order that exports the name has it at `base`. */
  ghost predicate FirstAt(images: seq<Image>, decode: Decoder, k: nat, j: nat, name: string, base: nat) {
    FirstProvider(images, decode, k, j, name) && ExportsOf(images[k], decode)[j].value == base
  }

  /** In the pass of the image, with the symbols of all images, entry `i` imports a name first defined at `base`. */
  ghost predicate Resolves(images: seq<Image>, decode: Decoder, im: Image, spanStart: nat, memory: Memory,
                           before: seq<Byte>, es: seq<Entry>, os: seq<Outcome>, i: nat, sym: Symbol, name: string,
                           k: nat, j: nat, base: nat, off: nat) {
    && os == Outcomes(LinkStep(im, decode, CollectAll([], images, decode), spanStart, memory), before, es)
    && i < |es| && Imports(im, decode, es[i], sym, name) && es[i].offset == spanStart + off
    && FirstAt(images, decode, k, j, name, base)
  }

  /** And the pass takes that definition. */
  lemma FromFirst(images: seq<Image>, decode: Decoder, im: Image, spanStart: nat, memory: Memory, before: seq<Byte>,
                  es: seq<Entry>, os: seq<Outcome>, i: nat, sym: Symbol, name: string, k: nat, j: nat, base: nat,
                  off: nat)
    requires Resolves(images, decode, im, spanStart, memory, before, es, os, i, sym, name, k, j, base, off)
    ensures MetAs(memory, before, os, i, es[i].kind, off, base, sym.size, es[i].addend)
  {
    FirstProviderWins([], images, decode, k, j, name);
    EntryMet(im, decode, CollectAll([], images, decode), spanStart, memory, before, es, os, i, sym, name, base, off);
  }

  /**
    After the pass of `LinkTable`, the slot of an imported symbol holds the value of the first image in
    loading order that exports the name, plus the addend, unless a later entry writes there.
   */
  lemma SlotHoldsFirstProvider(images: seq<Image>, decode: Decoder, im: Image, spanStart: nat, memory: Memory,
                               before: seq<Byte>, es: seq<Entry>, os: seq<Outcome>, i: nat, sym: Symbol, name: string,
                               k: nat, j: nat, base: nat, off: nat)
    requires Resolves(images, decode, im, spanStart, memory, before, es, os, i, sym, name, k, j, base, off)
    requires BySymbol(es[i].kind) && off + WORD <= |before| && 0 <= base + es[i].addend < U64 && LastThere(os, i)
    ensures HoldsWord(PutAll(before, os), off, base + es[i].addend)
  {
    FromFirst(images, decode, im, spanStart, memory, before, es, os, i, sym, name, k, j, base, off);
    FoundIsStored(before, os, i, memory, es[i].kind, off, base, sym.size, es[i].addend);
  }

  lemma FoundIsStored(before: seq<Byte>, os: seq<Outcome>, i: nat, memory: Memory, kind: nat, off: nat, base: nat,
                      size: nat, addend: int)
    requires MetAs(memory, before, os, i, kind, off, base, size, addend) && LastThere(os, i)
    requires BySymbol(kind) && off + WORD <= |before| && 0 <= base + addend < U64
    ensures HoldsWord(PutAll(before, os), off, base + addend)
  {
    WordEffect(memory, PutAll(before, os[..i]), kind, off, base, size, addend);
    StoredWord(before, os, i, off, base + addend);
  }

  lemma WordEffect(memory: Memory, image: seq<Byte>, kind: nat, off: nat, base: nat, size: nat, addend: int)
    requires BySymbol(kind) && off + WORD <= |image| && 0 <= base + addend < U64
    ensures FoundEffect(memory, image, kind, off, base, size, addend) == Put(off, LeBytes(base + addend, WORD))
  {
  }

  lemma StoredWord(before: seq<Byte>, os: seq<Outcome>, i: nat, off: nat, value: nat)
    requires AllLand(os, |before|) && i < |os| && value < U64 && os[i].effect == Put(off, LeBytes(value, WORD))
    requires LastThere(os, i)
    ensures HoldsWord(PutAll(before, os), off, value)
  {
    StoredStands(before, os, i);
    WordBack(PutAll(before, os), off, value);
  }

  lemma WordBack(after: seq<Byte>, off: nat, value: nat)
    requires off + 8 <= |after| && value < U64 && after[off..off + 8] == LeBytes(value, 8)
    ensures LeAt(after, off, 8) == value
  {
    var word := LeBytes(value, 8);
    forall q | 0 <= q < 8 ensures after[off + q] == word[q] { assert after[off..off + 8][q] == after[off + q]; }
    Le64RoundTrip(after, off, value);
  }

  /** And the place of a COPY holds the bytes that image had for the symbol when the entry was met. */
  lemma CopyHoldsFirstProvider(images: seq<Image>, decode: Decoder, im: Image, spanStart: nat, memory: Memory,
                               before: seq<Byte>, es: seq<Entry>, os: seq<Outcome>, i: nat, sym: Symbol, name: string,
                               k: nat, j: nat, base: nat, off: nat)
    requires Resolves(images, decode, im, spanStart, memory, before, es, os, i, sym, name, k, j, base, off)
    requires es[i].kind == R_X86_64_COPY && 0 < sym.size && off + sym.size <= |before| && base > 0 && LastThere(os, i)
    ensures AllLand(os[..i], |before|)
            && PutAll(before, os)[off..off + sym.size] == Peeked(memory, PutAll(before, os[..i]), base, sym.size)
  {
    FromFirst(images, decode, im, spanStart, memory, before, es, os, i, sym, name, k, j, base, off);
    CopyIsStored(before, os, i, memory, off, base, sym.size, es[i].addend);
  }

  lemma CopyIsStored(before: seq<Byte>, os: seq<Outcome>, i: nat, memory: Memory, off: nat, base: nat, size: nat,
                     addend: int)
    requires MetAs(memory, before, os, i, R_X86_64_COPY, off, base, size, addend) && LastThere(os, i)
    requires 0 < size && off + size <= |before| && base > 0
    ensures PutAll(before, os)[off..off + size] == Peeked(memory, PutAll(before, os[..i]), base, size)
  {
    StoredStands(before, os, i);
  }

  // ---- A COPY of what the program itself defines ---------------------------------------------------------

  /** Memory holds the image from `at` on. */
  ghost predicate Mapped(memory: Memory, image: seq<Byte>, at: nat) {
    Peeked(memory, image, at, |image|) == image
  }

  /** When entry `i` is met, the image is in memory with offset `off` at `base`, and `size` bytes there lie in it. */
  ghost predicate MappedWhenMet(memory: Memory, before: seq<Byte>, os: seq<Outcome>, i: nat, base: nat, off: nat,
                                size: nat) {
    && i < |os| && AllLand(os[..i], |before|) && off < base && Mapped(memory, PutAll(before, os[..i]), base - off)
    && off + size <= |before|
  }

  /** Outcome `i` counts as applied and leaves the image as it is. */
  ghost predicate ChangesNothing(before: seq<Byte>, os: seq<Outcome>, i: nat) {
    && i < |os| && os[i].effect.Put? && AllLand(os[..i], |before|) && AllLand(os[..i + 1], |before|)
    && PutAll(before, os[..i + 1]) == PutAll(before, os[..i])
  }

  /**
    The program is collected first, and its own table normally defines the symbol of a COPY at the
    place the copy goes to. The entry is then resolved to itself: it counts as applied and
    no byte of the image changes, so the initial value of the library's variable never arrives.
   */
  lemma CopyOntoItself(images: seq<Image>, decode: Decoder, im: Image, spanStart: nat, memory: Memory,
                       before: seq<Byte>, es: seq<Entry>, os: seq<Outcome>, i: nat, sym: Symbol, name: string,
                       k: nat, j: nat, base: nat, off: nat)
    requires Resolves(images, decode, im, spanStart, memory, before, es, os, i, sym, name, k, j, base, off)
    requires es[i].kind == R_X86_64_COPY && MappedWhenMet(memory, before, os, i, base, off, sym.size)
    ensures ChangesNothing(before, os, i)
  {
    FromFirst(images, decode, im, spanStart, memory, before, es, os, i, sym, name, k, j, base, off);
    CopyChangesNothing(before, os, i, memory, base, off, sym.size, es[i].addend);
  }

  lemma CopyChangesNothing(before: seq<Byte>, os: seq<Outcome>, i: nat, memory: Memory, base: nat, off: nat, size: nat,
                           addend: int)
    requires MetAs(memory, before, os, i, R_X86_64_COPY, off, base, size, addend)
    requires MappedWhenMet(memory, before, os, i, base, off, size)
    ensures ChangesNothing(before, os, i)
  {
    CopyOwn(memory, PutAll(before, os[..i]), base - off, off, size, addend);
    assert os[..i + 1][..i] == os[..i];
  }

  lemma CopyOwn(memory: Memory, image: seq<Byte>, at: nat, off: nat, size: nat, addend: int)
    requires Mapped(memory, image, at) && off + size <= |image| && at > 0
    ensures var e := FoundEffect(memory, image, R_X86_64_COPY, off, at + off, size, addend);
            e.Put? && OnePut(image, e) == image
  {
    var own := Peeked(memory, image, at + off, size);
    forall q {:trigger own[q]} | 0 <= q < size ensures own[q] == image[off + q] {
      var p := off + q;
      assert memory(image, at + p) == Peeked(memory, image, at, |image|)[p];
    }
    assert Splice(image, off, own) == image;
  }
}
