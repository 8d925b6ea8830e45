/**
  The pass over a table of relocations with addends. Its effect on the image is a sequence of
  eight-byte writes decided by the file alone, so the last write to a byte stands, a second pass
  changes nothing, and every entry is counted once.
 */
module ElfReloc {
  import opened Bytes
  import opened ElfLoader

  const R_X86_64_64: nat := 1
  const R_X86_64_COPY: nat := 5
  const R_X86_64_GLOB_DAT: nat := 6
  const R_X86_64_JUMP_SLOT: nat := 7
  const R_X86_64_RELATIVE: nat := 8

  datatype Symbol = Symbol(nameOff: nat, info: nat, shndx: nat, value: nat, size: nat)

  /** What a relocation refers to: the image's segments, span and bias, and the symbol table. */
  datatype Context = Context(segs: seq<Segment>, spanStart: nat, bias: nat, symtab: nat, syment: nat)

  // ---- Symbols ------------------------------------------------------------------------------------------

  /** `runtime_read_dynsym_entry`. */
  function ReadSymbol(raw: Raw, segs: seq<Segment>, symtab: nat, syment: nat, index: nat): (r: Option<Symbol>) {
    if symtab == 0 || syment < 24 || symtab + index * syment >= U64 then None
    else
      var off := Lookup(segs, 0, symtab + index * syment);
      if off.None? || !InRange(|raw|, off.value, syment) then None
      else Some(Symbol(LeAt(raw, off.value, 4), raw[off.value + 4], LeAt(raw, off.value + 6, 2),
          LeAt(raw, off.value + 8, 8), LeAt(raw, off.value + 16, 8)))
  }

  /** The 24 bytes of a symbol in the ELF64 layout; the byte of its visibility is not read. */
  function SymbolBytes(sym: Symbol, other: Byte): (b: seq<Byte>)
    requires sym.info < 256
  {
    LeBytes(sym.nameOff, 4) + [sym.info, other] + LeBytes(sym.shndx, 2) + LeBytes(sym.value, 8) + LeBytes(sym.size, 8)
  }

  ghost predicate SymbolFits(sym: Symbol) {
    sym.nameOff < U32 && sym.info < 256 && sym.shndx < U16 && sym.value < U64 && sym.size < U64
  }

  /** Symbol `index` of a table of entries of at least 24 bytes reads as what was encoded there. */
  lemma SymbolRoundTrip(raw: Raw, segs: seq<Segment>, symtab: nat, syment: nat, index: nat, off: nat, sym: Symbol,
                        other: Byte)
    requires symtab != 0 && syment >= 24 && symtab + index * syment < U64 && SymbolFits(sym)
    requires Lookup(segs, 0, symtab + index * syment) == Some(off) && off + syment <= |raw|
    requires raw[off..off + 24] == SymbolBytes(sym, other)
    ensures ReadSymbol(raw, segs, symtab, syment, index) == Some(sym)
  {
    var b := SymbolBytes(sym, other);
    assert b[0..4] == LeBytes(sym.nameOff, 4) && b[6..8] == LeBytes(sym.shndx, 2) && b[8..16] == LeBytes(sym.value, 8)
        && b[16..24] == LeBytes(sym.size, 8);
    assert raw[off + 4] == raw[off..off + 24][4] == sym.info;
    assert sym.nameOff < Pow256(4) && sym.shndx < Pow256(2) by { PowersOf256(); }
    FieldRead(raw, off, b, 0, sym.nameOff, 4);
    FieldRead(raw, off, b, 6, sym.shndx, 2);
    WordRead(raw, off, b, 8, sym.value);
    WordRead(raw, off, b, 16, sym.size);
  }

  /** `runtime_resolve_dyn_symbol_value`. */
  function Resolve(bias: nat, sym: Symbol): (r: Option<nat>) {
    if sym.shndx == 0 || bias + sym.value >= U64 then None else Some(bias + sym.value)
  }

  // ---- One entry ------------------------------------------------------------------------------------------

  datatype Entry = Entry(offset: nat, kind: nat, sym: nat, addend: int)

  function Signed(v: nat): (i: int) { if v >= 0x8000_0000_0000_0000 then v - U64 else v }

  function EntryAt(raw: Raw, cursor: nat): (e: Entry)
    requires cursor + 24 <= |raw|
  {
    var info := LeAt(raw, cursor + 8, 8);
    Entry(LeAt(raw, cursor, 8), info % U32, info / U32, Signed(LeAt(raw, cursor + 16, 8)))
  }

  /** The 24 bytes of an entry with addend: offset, type in the low and symbol in the high half of the info, addend. */
  function RelaBytes(e: Entry): (b: seq<Byte>)
    requires e.kind < U32 && e.sym < U32
  {
    LeBytes(e.offset, 8) + LeBytes(e.sym * U32 + e.kind, 8)
        + LeBytes(if e.addend < 0 then Max(e.addend + U64, 0) else e.addend, 8)
  }

  /** Reading an entry gives back what was encoded. */
  lemma EntryRoundTrip(raw: Raw, cursor: nat, e: Entry)
    requires e.kind < U32 && e.sym < U32 && e.offset < U64 && -0x8000_0000_0000_0000 <= e.addend < 0x8000_0000_0000_0000
    requires cursor + 24 <= |raw| && raw[cursor..cursor + 24] == RelaBytes(e)
    ensures EntryAt(raw, cursor) == e
  {
    var b, info := RelaBytes(e), e.sym * U32 + e.kind;
    var addend: nat := if e.addend < 0 then e.addend + U64 else e.addend;
    assert b[0..8] == LeBytes(e.offset, 8) && b[8..16] == LeBytes(info, 8) && b[16..24] == LeBytes(addend, 8);
    WordRead(raw, cursor, b, 0, e.offset);
    WordRead(raw, cursor, b, 8, info);
    WordRead(raw, cursor, b, 16, addend);
    InfoParts(e.sym, e.kind);
  }

  lemma InfoParts(sym: nat, kind: nat)
    requires kind < U32
    ensures (sym * U32 + kind) % U32 == kind && (sym * U32 + kind) / U32 == sym
  {
  }

  /** What becomes of an entry. */
  datatype Verdict = Apply(off: nat, value: nat) | Unsupported | Failed | Copied

  function Fits(v: int): (r: Option<nat>) { if 0 <= v < U64 then Some(v) else None }

  predicate BySymbol(kind: nat) { kind == R_X86_64_64 || kind == R_X86_64_GLOB_DAT || kind == R_X86_64_JUMP_SLOT }

  /** The value a relocation by symbol stores, if there is one. */
  function SymbolValue(raw: Raw, c: Context, e: Entry): (r: Option<nat>) {
    var sym := ReadSymbol(raw, c.segs, c.symtab, c.syment, e.sym);
    var base := if sym.Some? then Resolve(c.bias, sym.value) else None;
    if base.Some? then Fits(base.value + e.addend) else None
  }

  /** What the file asks for, before the slot is known to lie in the image. */
  function Wanted(raw: Raw, c: Context, e: Entry): (v: Verdict)
    ensures v.Apply? ==> v.value < U64
  {
    if e.offset < c.spanStart then Failed
    else if e.kind == R_X86_64_COPY then Copied
    else if e.kind == R_X86_64_RELATIVE then
      var value := Fits(c.bias + e.addend);
      if value.None? then Failed else Apply(e.offset - c.spanStart, value.value)
    else if BySymbol(e.kind) then
      var value := SymbolValue(raw, c, e);
      if value.None? then Unsupported else Apply(e.offset - c.spanStart, value.value)
    else Unsupported
  }

  /** The verdict depends on the file and on the image's length only. */
  function Judge(raw: Raw, c: Context, imageLen: nat, e: Entry): (v: Verdict)
    ensures v.Apply? ==> v.off + 8 <= imageLen && v.value < U64
  {
    var v := Wanted(raw, c, e);
    if v.Apply? && v.off + 8 > imageLen then Failed else v
  }

  // ---- When an entry is applied ---------------------------------------------------------------------------

  /** The eight bytes at the entry's address lie in the image. */
  ghost predicate SlotInside(c: Context, imageLen: nat, e: Entry) {
    c.spanStart <= e.offset && e.offset - c.spanStart + 8 <= imageLen
  }

  /** RELATIVE (8): bias and addend are stored exactly when the slot lies in the image and the sum in 64 bits. */
  lemma RelativeExactly(raw: Raw, c: Context, imageLen: nat, e: Entry)
    requires e.kind == 8
    ensures Judge(raw, c, imageLen, e)
         == if SlotInside(c, imageLen, e) && 0 <= c.bias + e.addend < U64
            then Apply(e.offset - c.spanStart, c.bias + e.addend) else Failed
  {
  }

  /** The symbol of the entry can be read, is defined, and its address and the sum with the addend fit 64 bits. */
  ghost predicate SymbolFound(raw: Raw, c: Context, e: Entry) {
    var sym := ReadSymbol(raw, c.segs, c.symtab, c.syment, e.sym);
    && sym.Some? && sym.value.shndx != 0 && c.bias + sym.value.value < U64
    && 0 <= c.bias + sym.value.value + e.addend < U64
  }

  /** 64, GLOB_DAT and JUMP_SLOT (1, 6, 7): symbol and addend are stored exactly when symbol and slot are there. */
  lemma SymbolicExactly(raw: Raw, c: Context, imageLen: nat, e: Entry)
    requires e.kind == 1 || e.kind == 6 || e.kind == 7
    ensures Judge(raw, c, imageLen, e)
         == if e.offset < c.spanStart then Failed
            else if !SymbolFound(raw, c, e) then Unsupported
            else if !SlotInside(c, imageLen, e) then Failed
            else Apply(e.offset - c.spanStart,
                       c.bias + ReadSymbol(raw, c.segs, c.symtab, c.syment, e.sym).value.value + e.addend)
  {
  }

  /** COPY (5) is left to the linker, and every other kind is unsupported; neither needs its slot. */
  lemma OtherKindsExactly(raw: Raw, c: Context, imageLen: nat, e: Entry)
    requires e.kind !in {1, 6, 7, 8}
    ensures Judge(raw, c, imageLen, e)
         == if e.offset < c.spanStart then Failed else if e.kind == 5 then Copied else Unsupported
  {
  }

  // ---- Against the ABI ----------------------------------------------------------------------------------

  /** The value of the System V AMD64 ABI, section 4.4.1: from base, symbol value and addend. */
  function AbiValue(kind: nat, base: nat, symbol: int, addend: int): (v: int) {
    if kind == R_X86_64_RELATIVE then base + addend
    else if kind == R_X86_64_64 then symbol + addend
    else symbol
  }

  /**
    An applied relocation stores the ABI's value except that the addend of the two kinds that
    have none is added all the same: those agree exactly when it is zero.
   */
  lemma AppliedAsInAbi(raw: Raw, c: Context, imageLen: nat, e: Entry, symbol: nat)
    requires Judge(raw, c, imageLen, e).Apply?
    requires BySymbol(e.kind) ==>
               ReadSymbol(raw, c.segs, c.symtab, c.syment, e.sym).Some?
               && symbol == c.bias + ReadSymbol(raw, c.segs, c.symtab, c.syment, e.sym).value.value
    ensures Judge(raw, c, imageLen, e).off + c.spanStart == e.offset
    ensures Judge(raw, c, imageLen, e).value == AbiValue(e.kind, c.bias, symbol, e.addend) <==>
              e.kind == R_X86_64_RELATIVE || e.kind == R_X86_64_64 || e.addend == 0
  {
  }

  /** A file with one segment at address 1, which is a symbol table: symbol 1 is defined, its value is zero. */
  lemma OneSymbol(raw: Raw, segs: seq<Segment>)
    requires raw == Zeros(48)[30 := 1] && segs == [Segment(0, 48, 1, 48)]
    ensures ReadSymbol(raw, segs, 1, 24, 1) == Some(Symbol(0, 0, 1, 0, 0))
  {
    assert Lookup(segs, 0, 25) == Some(24);
    LeZero(raw, 24, 4);
    LeZero(raw, 31, 1);
    assert LeAt(raw, 30, 2) == raw[30] + 256 * LeAt(raw, 31, 1);
    LeZero(raw, 32, 8);
    LeZero(raw, 40, 8);
  }

  /** An entry on which the two differ: by the ABI the slot of a GLOB_DAT with addend 1 gets the symbol's address. */
  lemma AddendIsAdded(raw: Raw, c: Context, e: Entry)
    requires raw == Zeros(48)[30 := 1] && c == Context([Segment(0, 48, 1, 48)], 0, 0x1000, 1, 24)
    requires e == Entry(0, R_X86_64_GLOB_DAT, 1, 1)
    ensures Judge(raw, c, 8, e) == Apply(0, 0x1001) && AbiValue(e.kind, c.bias, c.bias, e.addend) == 0x1000
  {
    OneSymbol(raw, c.segs);
  }

  // ---- The effect of many entries ---------------------------------------------------------------------------

  ghost predicate Lands(v: Verdict, len: nat) { v.Apply? ==> v.off + 8 <= len }

  ghost predicate AllLand(vs: seq<Verdict>, len: nat) { forall i :: 0 <= i < |vs| ==> Lands(vs[i], len) }

  function OneWrite(image: seq<Byte>, v: Verdict): (r: seq<Byte>)
    requires Lands(v, |image|)
    ensures |r| == |image|
  {
    if v.Apply? then Splice(image, v.off, LeBytes(v.value, 8)) else image
  }

  /** The image after the writes of `vs`, in order. */
  ghost function Relocated(image: seq<Byte>, vs: seq<Verdict>): (r: seq<Byte>)
    requires AllLand(vs, |image|)
    ensures |r| == |image|
  {
    if vs == [] then image
    else
      assert Lands(vs[|vs| - 1], |image|);
      OneWrite(Relocated(image, vs[..|vs| - 1]), vs[|vs| - 1])
  }

  predicate Writes(v: Verdict, p: nat) { v.Apply? && v.off <= p < v.off + 8 }

  /** Entry `i` is the last applied one that covers byte `p`. */
  ghost predicate LastWriter(vs: seq<Verdict>, i: nat, p: nat) {
    i < |vs| && Writes(vs[i], p) && forall j :: i < j < |vs| ==> !Writes(vs[j], p)
  }

  lemma {:induction false} LastWriterStands(image: seq<Byte>, vs: seq<Verdict>, i: nat, p: nat)
    requires AllLand(vs, |image|) && LastWriter(vs, i, p) && p < |image|
    ensures Relocated(image, vs)[p] == LeBytes(vs[i].value, 8)[p - vs[i].off]
    decreases |vs|
  {
    assert Lands(vs[|vs| - 1], |image|);
    if i < |vs| - 1 {
      assert !Writes(vs[|vs| - 1], p);
      LastWriterStands(image, vs[..|vs| - 1], i, p);
    }
  }

  lemma {:induction false} UnwrittenStands(image: seq<Byte>, vs: seq<Verdict>, p: nat)
    requires AllLand(vs, |image|) && p < |image| && forall i :: 0 <= i < |vs| ==> !Writes(vs[i], p)
    ensures Relocated(image, vs)[p] == image[p]
    decreases |vs|
  {
    if vs != [] {
      assert Lands(vs[|vs| - 1], |image|) && !Writes(vs[|vs| - 1], p);
      UnwrittenStands(image, vs[..|vs| - 1], p);
    }
  }

  lemma {:induction false} FindLastWriter(vs: seq<Verdict>, p: nat) returns (i: Option<nat>)
    ensures if i.Some? then LastWriter(vs, i.value, p) else forall j :: 0 <= j < |vs| ==> !Writes(vs[j], p)
    decreases |vs|
  {
    if vs == [] { return None; }
    if Writes(vs[|vs| - 1], p) { return Some(|vs| - 1); }
    i := FindLastWriter(vs[..|vs| - 1], p);
  }

  /** Every byte is what the last applied entry covering it wrote, or what it was. */
  ghost predicate ByLastWriter(image: seq<Byte>, vs: seq<Verdict>, after: seq<Byte>, p: nat)
    requires p < |image| == |after|
  {
    || (exists i: nat :: LastWriter(vs, i, p) && after[p] == LeBytes(vs[i].value, 8)[p - vs[i].off])
    || ((forall j :: 0 <= j < |vs| ==> !Writes(vs[j], p)) && after[p] == image[p])
  }

  lemma EveryByteByLastWriter(image: seq<Byte>, vs: seq<Verdict>, p: nat)
    requires AllLand(vs, |image|) && p < |image|
    ensures ByLastWriter(image, vs, Relocated(image, vs), p)
  {
    var i := FindLastWriter(vs, p);
    if i.Some? { LastWriterStands(image, vs, i.value, p); } else { UnwrittenStands(image, vs, p); }
  }

  /** A second pass changes nothing. */
  lemma PassIsIdempotent(image: seq<Byte>, vs: seq<Verdict>)
    requires AllLand(vs, |image|)
    ensures Relocated(Relocated(image, vs), vs) == Relocated(image, vs)
  {
    var once := Relocated(image, vs);
    forall p | 0 <= p < |image| ensures Relocated(once, vs)[p] == once[p] {
      var i := FindLastWriter(vs, p);
      if i.Some? {
        LastWriterStands(image, vs, i.value, p);
        LastWriterStands(once, vs, i.value, p);
      } else {
        UnwrittenStands(once, vs, p);
      }
    }
  }

  /** Two tables one after the other are one table. */
  lemma {:induction false} PassesCompose(image: seq<Byte>, vs: seq<Verdict>, ws: seq<Verdict>)
    requires AllLand(vs, |image|) && AllLand(ws, |image|)
    ensures AllLand(vs + ws, |image|) && Relocated(Relocated(image, vs), ws) == Relocated(image, vs + ws)
    decreases |ws|
  {
    if ws == [] {
      assert vs + ws == vs;
    } else {
      PassesCompose(image, vs, ws[..|ws| - 1]);
      assert (vs + ws)[..|vs + ws| - 1] == vs + ws[..|ws| - 1];
      assert Lands((vs + ws)[|vs + ws| - 1], |image|);
    }
  }

  // ---- Counting ---------------------------------------------------------------------------------------------

  /** `saturating_add(1)` on a 32-bit counter. */
  function Bump(c: nat): (r: nat) { if c >= U32 - 1 then U32 - 1 else c + 1 }

  function Saturated(c: nat): (r: nat) { if c >= U32 then U32 - 1 else c }

  datatype Tally = Tally(applied: nat, unsupported: nat, failed: nat, copied: nat)

  function Counted(t: Tally, v: Verdict): (r: Tally) {
    match v
    case Apply(_, _) => t.(applied := t.applied + 1)
    case Unsupported => t.(unsupported := t.unsupported + 1)
    case Failed => t.(failed := t.failed + 1)
    case Copied => t.(copied := t.copied + 1)
  }

  function TallyOf(vs: seq<Verdict>): (t: Tally) {
    if vs == [] then Tally(0, 0, 0, 0) else Counted(TallyOf(vs[..|vs| - 1]), vs[|vs| - 1])
  }

  /** Every entry is counted exactly once. */
  lemma {:induction false} EveryEntryCounted(vs: seq<Verdict>)
    ensures var t := TallyOf(vs); |vs| == t.applied + t.unsupported + t.failed + t.copied
  {
    if vs != [] { EveryEntryCounted(vs[..|vs| - 1]); }
  }

  // ---- The pass -----------------------------------------------------------------------------------------------

  /** The table's bytes in the file, `None` when there is none to read. */
  datatype RelaTable = NoTable | BadTable | RelaTable(start: nat, end: nat)

  function FindTable(raw: Raw, segs: seq<Segment>, addr: nat, size: nat, ent: nat): (t: RelaTable)
    ensures t.RelaTable? ==> t.start <= t.end <= |raw| && ent >= 24
  {
    if addr == 0 || size == 0 then NoTable
    else if ent < 24 then BadTable
    else
      var off := Lookup(segs, 0, addr);
      if off.None? || !InRange(|raw|, off.value, size) then BadTable else RelaTable(off.value, off.value + size)
  }

  /** The verdicts on the entries from `cursor` on, in table order; a last partial entry is not read. */
  ghost function Verdicts(raw: Raw, c: Context, imageLen: nat, cursor: nat, end: nat, ent: nat): (vs: seq<Verdict>)
    requires ent >= 24 && end <= |raw|
    ensures AllLand(vs, imageLen)
    decreases |raw| - cursor
  {
    if cursor + ent > end then []
    else [Judge(raw, c, imageLen, EntryAt(raw, cursor))] + Verdicts(raw, c, imageLen, cursor + ent, end, ent)
  }

  lemma NextVerdict(raw: Raw, c: Context, imageLen: nat, cursor: nat, end: nat, ent: nat, done: seq<Verdict>,
                    v: Verdict)
    requires ent >= 24 && cursor + ent <= end <= |raw| && v == Judge(raw, c, imageLen, EntryAt(raw, cursor))
    ensures done + Verdicts(raw, c, imageLen, cursor, end, ent)
            == done + [v] + Verdicts(raw, c, imageLen, cursor + ent, end, ent)
  {
  }

  /** The table's entries are judged one by one, `ent` bytes apart, as many as there are whole ones. */
  lemma {:induction false} VerdictAt(raw: Raw, c: Context, imageLen: nat, cursor: nat, end: nat, ent: nat, i: nat,
                                     at: nat)
    requires ent >= 24 && end <= |raw| && at == cursor + i * ent
    ensures var vs := Verdicts(raw, c, imageLen, cursor, end, ent);
            && (i < |vs| <==> at + ent <= end)
            && (i < |vs| ==> vs[i] == Judge(raw, c, imageLen, EntryAt(raw, at)))
    decreases i
  {
    if i > 0 {
      assert at == cursor + ent + (i - 1) * ent;
      if cursor + ent <= end {
        VerdictAt(raw, c, imageLen, cursor + ent, end, ent, i - 1, at);
      } else {
        assert at >= cursor + ent by { assert (i - 1) * ent >= 0; }
      }
    }
  }

  /** No later entry of the table stores into the slot of entry `i`. */
  ghost predicate LastThere(vs: seq<Verdict>, i: nat) {
    && i < |vs| && vs[i].Apply?
    && forall j :: i < j < |vs| && vs[j].Apply? ==> vs[j].off + 8 <= vs[i].off || vs[i].off + 8 <= vs[j].off
  }

  lemma SlotKept(image: seq<Byte>, vs: seq<Verdict>, i: nat)
    requires AllLand(vs, |image|) && LastThere(vs, i) && vs[i].value < U64
    ensures vs[i].off + 8 <= |image| && LeAt(Relocated(image, vs), vs[i].off, 8) == vs[i].value
  {
    var after, off, word := Relocated(image, vs), vs[i].off, LeBytes(vs[i].value, 8);
    assert Lands(vs[i], |image|);
    forall q | 0 <= q < 8 ensures after[off + q] == word[q] { LastWriterStands(image, vs, i, off + q); }
    Le64RoundTrip(after, off, vs[i].value);
  }

  /** After the pass the slot of an entry holds what the ABI asks for, unless a later entry stores over it. */
  lemma SlotAfterPass(raw: Raw, c: Context, image: seq<Byte>, start: nat, end: nat, ent: nat, i: nat, at: nat)
    requires ent >= 24 && end <= |raw| && at == start + i * ent && at + ent <= end
    requires LastThere(Verdicts(raw, c, |image|, start, end, ent), i)
    ensures var e := EntryAt(raw, at);
            && SlotInside(c, |image|, e) && (e.kind == 8 || SymbolFound(raw, c, e))
            && LeAt(Relocated(image, Verdicts(raw, c, |image|, start, end, ent)), e.offset - c.spanStart, 8)
               == c.bias + e.addend + (if e.kind == 8 then 0
                                       else ReadSymbol(raw, c.segs, c.symtab, c.syment, e.sym).value.value)
  {
    var e := EntryAt(raw, at);
    VerdictAt(raw, c, |image|, start, end, ent, i, at);
    SlotKept(image, Verdicts(raw, c, |image|, start, end, ent), i);
    if e.kind == 8 {
      RelativeExactly(raw, c, |image|, e);
    } else if e.kind in {1, 6, 7} {
      SymbolicExactly(raw, c, |image|, e);
    } else {
      OtherKindsExactly(raw, c, |image|, e);
    }
  }

  datatype Counters = Counters(total: nat, applied: nat, unsupported: nat, errors: nat)

  class Stats {
    var total: nat
    var applied: nat
    var unsupported: nat
    var errors: nat

    constructor ()
      ensures Now() == Counters(0, 0, 0, 0)
    {
      total, applied, unsupported, errors := 0, 0, 0, 0;
    }

    ghost function Now(): (c: Counters)
      reads this
    {
      Counters(total, applied, unsupported, errors)
    }

    /** One entry and its verdict are counted. */
    method Count(v: Verdict)
      modifies this
      ensures Now() == AfterEntry(old(Now()), v)
    {
      total := Bump(total);
      match v {
        case Apply(_, _) => applied := Bump(applied);
        case Unsupported => unsupported := Bump(unsupported);
        case Failed => errors := Bump(errors);
        case Copied =>
      }
    }
  }

  ghost predicate InWord(c: Counters) { c.total < U32 && c.applied < U32 && c.unsupported < U32 && c.errors < U32 }

  function AfterEntry(c: Counters, v: Verdict): (r: Counters) {
    var d := c.(total := Bump(c.total));
    match v
    case Apply(_, _) => d.(applied := Bump(d.applied))
    case Unsupported => d.(unsupported := Bump(d.unsupported))
    case Failed => d.(errors := Bump(d.errors))
    case Copied => d
  }

  /** The counters once `vs` have been counted on top of `c`: exact sums, held at the largest 32-bit value. */
  ghost function After(c: Counters, vs: seq<Verdict>): (r: Counters) {
    var t := TallyOf(vs);
    Counters(Saturated(c.total + |vs|), Saturated(c.applied + t.applied), Saturated(c.unsupported + t.unsupported),
        Saturated(c.errors + t.failed))
  }

  lemma CountOne(c: Counters, vs: seq<Verdict>, v: Verdict)
    requires InWord(c)
    ensures AfterEntry(After(c, vs), v) == After(c, vs + [v])
  {
    assert (vs + [v])[..|vs|] == vs;
  }

  /** `runtime_write_u64_to_image`. */
  method WriteWord(image: array<Byte>, off: nat, value: nat) returns (ok: bool)
    modifies image
    ensures ok <==> off + 8 <= image.Length
    ensures image[..] == if ok then Splice(old(image[..]), off, LeBytes(value, 8)) else old(image[..])
  {
    ok := off + 8 <= image.Length;
    if ok {
      var bytes := LeBytes(value, 8);
      forall k | 0 <= k < 8 { image[off + k] := bytes[k]; }
    }
  }

  /** The value to be stored, kind by kind. */
  method WorkOut(raw: Raw, c: Context, e: Entry) returns (v: Verdict)
    ensures v == Wanted(raw, c, e)
  {
    if e.offset < c.spanStart { return Failed; }
    var value := None;
    match e.kind {
      case 8 => value := Fits(c.bias + e.addend);
      case 5 => return Copied;
      case 1 | 6 | 7 =>
        var sym := ReadSymbol(raw, c.segs, c.symtab, c.syment, e.sym);
        if sym.Some? {
          var base := Resolve(c.bias, sym.value);
          if base.Some? { value := Fits(base.value + e.addend); }
        }
      case _ => return Unsupported;
    }
    if value.Some? {
      v := Apply(e.offset - c.spanStart, value.value);
    } else {
      v := if e.kind == R_X86_64_RELATIVE then Failed else Unsupported;
    }
  }

  /** One turn of the loop: the value is worked out, then written if the slot is in the image. */
  method ApplyEntry(image: array<Byte>, raw: Raw, c: Context, e: Entry, stats: Stats)
    modifies image, stats
    ensures var v := Judge(raw, c, image.Length, e);
            image[..] == OneWrite(old(image[..]), v) && stats.Now() == AfterEntry(old(stats.Now()), v)
  {
    var verdict := WorkOut(raw, c, e);
    if verdict.Apply? {
      var ok := WriteWord(image, verdict.off, verdict.value);
      if !ok { verdict := Failed; }
    }
    stats.Count(verdict);
  }

  ghost predicate Passed(before: seq<Byte>, after: seq<Byte>, vs: seq<Verdict>) {
    AllLand(vs, |before|) && after == Relocated(before, vs)
  }

  lemma PassOne(before: seq<Byte>, after: seq<Byte>, vs: seq<Verdict>, v: Verdict)
    requires Passed(before, after, vs) && Lands(v, |before|)
    ensures Passed(before, OneWrite(after, v), vs + [v])
  {
    assert (vs + [v])[..|vs|] == vs;
  }

  /**
    `runtime_apply_relative_rela`. Callers keep entry sizes small enough for the cursor not to
    leave 64 bits.
   */
  method ApplyRela(image: array<Byte>, raw: Raw, c: Context, addr: nat, size: nat, ent: nat, stats: Stats)
    requires InWord(stats.Now()) && |raw| + ent < U64
    modifies image, stats
    ensures var t := FindTable(raw, c.segs, addr, size, ent);
            var was := old(stats.Now());
            match t
            case NoTable => image[..] == old(image[..]) && stats.Now() == was
            case BadTable => image[..] == old(image[..]) && stats.Now() == was.(errors := Bump(was.errors))
            case RelaTable(start, end) =>
              var vs := Verdicts(raw, c, image.Length, start, end, ent);
              Passed(old(image[..]), image[..], vs) && stats.Now() == After(was, vs)
  {
    if addr == 0 || size == 0 { return; }
    if ent < 24 { stats.errors := Bump(stats.errors); return; }
    var off := VaddrToFileOffset(c.segs, addr);
    if off.None? || !InRange(|raw|, off.value, size) { stats.errors := Bump(stats.errors); return; }
    Walk(image, raw, c, off.value, off.value + size, ent, stats);
  }

  /** The loop over the entries of a table in range. */
  method Walk(image: array<Byte>, raw: Raw, c: Context, start: nat, end: nat, ent: nat, stats: Stats)
    requires InWord(stats.Now()) && ent >= 24 && start <= end <= |raw|
    modifies image, stats
    ensures var vs := Verdicts(raw, c, image.Length, start, end, ent);
            Passed(old(image[..]), image[..], vs) && stats.Now() == After(old(stats.Now()), vs)
  {
    var cursor := start;
    ghost var before, was := image[..], stats.Now();
    ghost var vs := Verdicts(raw, c, image.Length, start, end, ent);
    ghost var done := [];
    while cursor + ent <= end
      invariant done + Verdicts(raw, c, image.Length, cursor, end, ent) == vs
      invariant Passed(before, image[..], done) && stats.Now() == After(was, done)
      decreases |raw| - cursor
    {
      var e := EntryAt(raw, cursor);
      ghost var v := Judge(raw, c, image.Length, e);
      NextVerdict(raw, c, image.Length, cursor, end, ent, done, v);
      PassOne(before, image[..], done, v);
      CountOne(was, done, v);
      ApplyEntry(image, raw, c, e, stats);
      done := done + [v];
      cursor := cursor + ent;
    }
    assert done == vs;
  }
}
