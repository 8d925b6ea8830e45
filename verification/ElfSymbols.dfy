/**
  Collecting the exported symbols of the program, its interpreter and its dependencies into one
  table. Whatever the images hold, names in the table are unique and a lookup gives the
  definition of the earliest image that exports the name, and in it the one with the lowest
  symbol index.
 */
module ElfSymbols {
  import opened Bytes
  import opened ElfLoader
  import opened ElfReloc

  datatype DynInfo = DynInfo(symtab: nat, syment: nat, strtab: nat, strtabSize: nat, hash: nat)

  /** A staged image, as far as its exports go, and the label it provides symbols under. */
  datatype Image = Image(raw: Raw, segs: seq<Segment>, bias: nat, dyn: DynInfo, provider: string)

  datatype Export = Export(index: nat, name: string, value: nat)
  datatype Global = Global(name: string, value: nat, provider: string)

  /** `String::from_utf8_lossy`, left open: any way of making text of bytes. */
  type Decoder = seq<Byte> -> string

  // ---- Names ----------------------------------------------------------------------------------------------

  /** The first zero byte from `i` on, or `limit`. */
  function StringEnd(raw: Raw, i: nat, limit: nat): (e: nat)
    requires i <= limit <= |raw|
    ensures i <= e <= limit
    decreases limit - i
  {
    if i == limit || raw[i] == 0 then i else StringEnd(raw, i + 1, limit)
  }

  /** Where a string of the string table lies in the file: its start and the end of the table. */
  function StringRange(raw: Raw, segs: seq<Segment>, strtab: nat, strtabSize: nat, off: nat): (r: Option<(nat, nat)>)
    ensures r.Some? ==> r.value.0 <= r.value.1 <= |raw|
  {
    if off >= strtabSize || strtab + off >= U64 then None
    else
      var start := Lookup(segs, 0, strtab + off);
      if start.None? || start.value + (strtabSize - off) > |raw| then None
      else Some((start.value, start.value + (strtabSize - off)))
  }

  function DynString(raw: Raw, segs: seq<Segment>, strtab: nat, strtabSize: nat, off: nat): (r: Option<seq<Byte>>) {
    var range := StringRange(raw, segs, strtab, strtabSize, off);
    if range.None? then None
    else
      var end := StringEnd(raw, range.value.0, range.value.1);
      if end == range.value.1 then None else Some(raw[range.value.0..end])
  }

  lemma {:induction false} EndMeans(raw: Raw, i: nat, limit: nat)
    requires i <= limit <= |raw|
    ensures var e := StringEnd(raw, i, limit); 0 !in raw[i..e] && (e < limit ==> raw[e] == 0)
    decreases limit - i
  {
    if i < limit && raw[i] != 0 {
      EndMeans(raw, i + 1, limit);
      assert raw[i..StringEnd(raw, i, limit)] == [raw[i]] + raw[i + 1..StringEnd(raw, i, limit)];
    }
  }

  lemma {:induction false} EndIs(raw: Raw, i: nat, limit: nat, e: nat)
    requires i <= e < limit <= |raw| && 0 !in raw[i..e] && raw[e] == 0
    ensures StringEnd(raw, i, limit) == e
    decreases e - i
  {
    if i < e {
      assert raw[i] == raw[i..e][0] && raw[i + 1..e] == raw[i..e][1..];
      EndIs(raw, i + 1, limit, e);
    }
  }

  /** The bytes stand at `start`, hold no zero, and a zero within the string table ends them. */
  ghost predicate StringAt(raw: Raw, start: nat, room: nat, b: seq<Byte>) {
    start + room <= |raw| && |b| < room && raw[start..start + |b|] == b && 0 !in b && raw[start + |b|] == 0
  }

  /** A string is read exactly when its offset is in the table, the table in the file, and a zero ends it there. */
  lemma StringExactly(raw: Raw, segs: seq<Segment>, strtab: nat, strtabSize: nat, off: nat, b: seq<Byte>)
    ensures DynString(raw, segs, strtab, strtabSize, off) == Some(b) <==>
              && off < strtabSize && strtab + off < U64 && Lookup(segs, 0, strtab + off).Some?
              && StringAt(raw, Lookup(segs, 0, strtab + off).value, strtabSize - off, b)
  {
    var range := StringRange(raw, segs, strtab, strtabSize, off);
    if range.Some? {
      var (start, limit) := range.value;
      EndMeans(raw, start, limit);
      if StringAt(raw, start, limit - start, b) { EndIs(raw, start, limit, start + |b|); }
    }
  }

  /** `read_dynamic_string`. */
  method ReadDynamicString(raw: Raw, segs: seq<Segment>, strtab: nat, strtabSize: nat, off: nat)
    returns (r: Option<seq<Byte>>)
    ensures r == DynString(raw, segs, strtab, strtabSize, off)
    ensures r.Some? ==> 0 !in r.value
  {
    var range := StringRange(raw, segs, strtab, strtabSize, off);
    if range.None? { return None; }
    var (start, limit) := range.value;
    var end := start;
    while end < limit && raw[end] != 0
      invariant start <= end <= limit && StringEnd(raw, start, limit) == StringEnd(raw, end, limit)
      invariant forall i :: start <= i < end ==> raw[i] != 0
    {
      end := end + 1;
    }
    return if end == limit then None else Some(raw[start..end]);
  }

  // ---- The exports of one image ---------------------------------------------------------------------------

  /** `runtime_dynsym_count_from_hash`. */
  function CountFromHash(raw: Raw, segs: seq<Segment>, hash: nat): (r: Option<nat>) {
    var off := if hash == 0 then None else Lookup(segs, 0, hash);
    if off.None? || off.value + 8 > |raw| then None
    else
      var n := LeAt(raw, off.value + 4, 4);
      if n == 0 || n > 1_000_000 then None else Some(n)
  }

  /** The count is the second word of the hash table, if it is not beyond all reason. */
  lemma CountExactly(raw: Raw, segs: seq<Segment>, hash: nat, off: nat, buckets: nat, chains: nat)
    requires hash != 0 && Lookup(segs, 0, hash) == Some(off) && off + 8 <= |raw| && buckets < U32 && chains < U32
    requires raw[off..off + 8] == LeBytes(buckets, 4) + LeBytes(chains, 4)
    ensures CountFromHash(raw, segs, hash) == if 0 < chains <= 1_000_000 then Some(chains) else None
  {
    SecondWord(raw, off, buckets, chains);
  }

  lemma SecondWord(raw: Raw, off: nat, first: nat, second: nat)
    requires off + 8 <= |raw| && second < U32 && raw[off..off + 8] == LeBytes(first, 4) + LeBytes(second, 4)
    ensures LeAt(raw, off + 4, 4) == second
  {
    var b := LeBytes(first, 4) + LeBytes(second, 4);
    assert b[4..8] == LeBytes(second, 4);
    assert second < Pow256(4) by { PowersOf256(); }
    FieldRead(raw, off, b, 4, second, 4);
  }

  /** `runtime_guess_dynsym_count`. */
  function GuessCount(raw: Raw, segs: seq<Segment>, d: DynInfo): (n: nat) {
    var byHash := CountFromHash(raw, segs, d.hash);
    if byHash.Some? then byHash.value
    else if d.symtab != 0 && d.syment >= 24 && d.strtab > d.symtab
        && 0 < (d.strtab - d.symtab) / d.syment <= 262_144 then
      (d.strtab - d.symtab) / d.syment
    else 4096
  }

  /** Without a hash table, as many as fit between the symbols and the strings; if that makes no sense, 4096. */
  lemma GuessExactly(raw: Raw, segs: seq<Segment>, d: DynInfo, n: nat, rest: nat)
    requires CountFromHash(raw, segs, d.hash).None?
    requires d.symtab != 0 && d.syment >= 24 && d.strtab > d.symtab ==>
               d.strtab - d.symtab == n * d.syment + rest && rest < d.syment
    ensures GuessCount(raw, segs, d)
         == if d.symtab != 0 && d.syment >= 24 && d.strtab > d.symtab && 0 < n <= 262_144 then n else 4096
  {
    if d.symtab != 0 && d.syment >= 24 && d.strtab > d.symtab {
      QuotientUnique(d.strtab - d.symtab, d.syment, n, rest);
    }
  }

  /** What the symbol at an index offers: nothing readable, nothing exported, or a definition. */
  datatype Offer = End | Nothing | Defines(what: Export)

  function OfferOf(bias: nat, index: nat, sym: Symbol, name: Option<string>): (o: Offer) {
    if sym.shndx == 0 || (sym.info / 16) % 16 == 0 || sym.nameOff == 0 || name.None? || name.value == "" then Nothing
    else
      var value := Resolve(bias, sym);
      if value.None? then Nothing else Defines(Export(index, name.value, value.value))
  }

  function NameOf(im: Image, decode: Decoder, sym: Symbol): (r: Option<string>) {
    var bytes := DynString(im.raw, im.segs, im.dyn.strtab, im.dyn.strtabSize, sym.nameOff);
    if bytes.None? then None else Some(decode(bytes.value))
  }

  function OfferAt(im: Image, decode: Decoder, index: nat): (o: Offer)
    ensures o.Defines? ==> o.what.index == index && o.what.name != "" && o.what.value < U64
  {
    var sym := ReadSymbol(im.raw, im.segs, im.dyn.symtab, im.dyn.syment, index);
    if sym.None? then End else OfferOf(im.bias, index, sym.value, NameOf(im, decode, sym.value))
  }

  /** The exports from `index` on, up to the first unreadable symbol. */
  function ExportsFrom(im: Image, decode: Decoder, index: nat, count: nat): (es: seq<Export>)
    decreases count - index
  {
    if index >= count then []
    else
      match OfferAt(im, decode, index)
      case End => []
      case Nothing => ExportsFrom(im, decode, index + 1, count)
      case Defines(e) => [e] + ExportsFrom(im, decode, index + 1, count)
  }

  predicate HasTables(d: DynInfo) { d.symtab != 0 && d.syment >= 24 && d.strtab != 0 && d.strtabSize != 0 }

  function ExportsOf(im: Image, decode: Decoder): (es: seq<Export>) {
    if HasTables(im.dyn) then ExportsFrom(im, decode, 1, GuessCount(im.raw, im.segs, im.dyn)) else []
  }

  ghost predicate Offered(im: Image, decode: Decoder, e: Export) { OfferAt(im, decode, e.index) == Defines(e) }

  ghost predicate AllOffered(im: Image, decode: Decoder, es: seq<Export>) {
    forall i {:trigger es[i]} :: 0 <= i < |es| ==> Offered(im, decode, es[i])
  }

  ghost predicate InOrder(index: nat, count: nat, es: seq<Export>) {
    && (forall i :: 0 <= i < |es| ==> index <= es[i].index < count)
    && forall i, j :: 0 <= i < j < |es| ==> es[i].index < es[j].index
  }

  ghost predicate Ascending(im: Image, decode: Decoder, index: nat, count: nat, es: seq<Export>) {
    AllOffered(im, decode, es) && InOrder(index, count, es)
  }

  /** Earlier in the list means lower symbol index. */
  lemma {:induction false} ExportsAscend(im: Image, decode: Decoder, index: nat, count: nat)
    ensures Ascending(im, decode, index, count, ExportsFrom(im, decode, index, count))
    decreases count - index
  {
    if index < count {
      ExportsAscend(im, decode, index + 1, count);
      var rest, offer := ExportsFrom(im, decode, index + 1, count), OfferAt(im, decode, index);
      if offer.Defines? { AscendsBefore(im, decode, index, count, offer.what, rest); }
    }
  }

  lemma AscendsBefore(im: Image, decode: Decoder, index: nat, count: nat, e: Export, rest: seq<Export>)
    requires Ascending(im, decode, index + 1, count, rest) && e.index == index < count && Offered(im, decode, e)
    ensures Ascending(im, decode, index, count, [e] + rest)
  {
    OrderBefore(index, count, e, rest);
    OfferedBefore(im, decode, e, rest);
  }

  lemma OfferedBefore(im: Image, decode: Decoder, e: Export, rest: seq<Export>)
    requires AllOffered(im, decode, rest) && Offered(im, decode, e)
    ensures AllOffered(im, decode, [e] + rest)
  {
    var es := [e] + rest;
    forall i {:trigger es[i]} | 0 <= i < |es| ensures Offered(im, decode, es[i]) {
      if i > 0 { assert es[i] == rest[i - 1]; }
    }
  }

  lemma OrderBefore(index: nat, count: nat, e: Export, rest: seq<Export>)
    requires InOrder(index + 1, count, rest) && e.index == index < count
    ensures InOrder(index, count, [e] + rest)
  {
  }

  ghost predicate Readable(im: Image, index: nat) {
    ReadSymbol(im.raw, im.segs, im.dyn.symtab, im.dyn.syment, index).Some?
  }

  /** The symbol is a definition, global or weak, with a name that can be read and an address that fits. */
  ghost predicate Exported(im: Image, decode: Decoder, index: nat) {
    var sym := ReadSymbol(im.raw, im.segs, im.dyn.symtab, im.dyn.syment, index);
    && sym.Some? && sym.value.shndx != 0 && sym.value.info >= 16 && sym.value.nameOff != 0
      && im.bias + sym.value.value < U64
    && var bytes := DynString(im.raw, im.segs, im.dyn.strtab, im.dyn.strtabSize, sym.value.nameOff);
       bytes.Some? && decode(bytes.value) != []
  }

  lemma DefinesWhenExported(im: Image, decode: Decoder, index: nat)
    ensures OfferAt(im, decode, index).Defines? <==> Exported(im, decode, index)
    ensures OfferAt(im, decode, index).End? <==> !Readable(im, index)
  {
    var sym := ReadSymbol(im.raw, im.segs, im.dyn.symtab, im.dyn.syment, index);
    if sym.Some? { assert sym.value.info < 256; }
  }

  ghost predicate Listed(es: seq<Export>, index: nat) { exists i :: 0 <= i < |es| && es[i].index == index }

  /** Exactly the exported symbols before the first unreadable one are listed. */
  lemma {:induction false} ListedIffExported(im: Image, decode: Decoder, from: nat, count: nat, index: nat)
    ensures Listed(ExportsFrom(im, decode, from, count), index)
       <==> from <= index < count && Exported(im, decode, index) && forall j :: from <= j < index ==> Readable(im, j)
    decreases count - from
  {
    if from < count {
      var es, rest, offer := ExportsFrom(im, decode, from, count), ExportsFrom(im, decode, from + 1, count),
          OfferAt(im, decode, from);
      DefinesWhenExported(im, decode, from);
      ListedIffExported(im, decode, from + 1, count, index);
      if offer.Defines? { ListedOneMore(offer.what, rest, index); }
    }
  }

  /** What an image exports: nothing without both tables, and the symbol of index zero never. */
  lemma ExportsExactly(im: Image, decode: Decoder, index: nat)
    ensures Listed(ExportsOf(im, decode), index) <==>
              && im.dyn.symtab != 0 && im.dyn.syment >= 24 && im.dyn.strtab != 0 && im.dyn.strtabSize != 0
              && 1 <= index < GuessCount(im.raw, im.segs, im.dyn) && Exported(im, decode, index)
              && forall j :: 1 <= j < index ==> Readable(im, j)
  {
    ListedIffExported(im, decode, 1, GuessCount(im.raw, im.segs, im.dyn), index);
  }

  lemma ListedOneMore(e: Export, rest: seq<Export>, index: nat)
    ensures Listed([e] + rest, index) <==> e.index == index || Listed(rest, index)
  {
    var es := [e] + rest;
    if Listed(rest, index) {
      var i :| 0 <= i < |rest| && rest[i].index == index;
      assert es[i + 1].index == index;
    }
    if e.index == index { assert es[0].index == index; }
    if Listed(es, index) && e.index != index {
      var i :| 0 <= i < |es| && es[i].index == index;
      assert rest[i - 1].index == index;
    }
  }

  // ---- The table ------------------------------------------------------------------------------------------------

  predicate Known(t: seq<Global>, name: string) { exists i :: 0 <= i < |t| && t[i].name == name }

  function Add(t: seq<Global>, e: Export, provider: string): (r: seq<Global>) {
    if Known(t, e.name) then t else t + [Global(e.name, e.value, provider)]
  }

  function Merge(t: seq<Global>, es: seq<Export>, provider: string): (r: seq<Global>)
    decreases |es|
  {
    if es == [] then t else Merge(Add(t, es[0], provider), es[1..], provider)
  }

  function CollectAll(t: seq<Global>, images: seq<Image>, decode: Decoder): (r: seq<Global>)
    decreases |images|
  {
    if images == [] then t else CollectAll(Merge(t, ExportsOf(images[0], decode), images[0].provider), images[1..],
        decode)
  }

  /** Merging what is left of the image's exports into the table comes to `total`. */
  ghost predicate Merging(t: seq<Global>, im: Image, decode: Decoder, index: nat, count: nat, total: seq<Global>) {
    Merge(t, ExportsFrom(im, decode, index, count), im.provider) == total
  }

  lemma MergeNext(t: seq<Global>, im: Image, decode: Decoder, index: nat, count: nat, total: seq<Global>, offer: Offer)
    requires index < count && Merging(t, im, decode, index, count, total) && offer == OfferAt(im, decode, index)
    ensures match offer
            case End => t == total
            case Nothing => Merging(t, im, decode, index + 1, count, total)
            case Defines(e) => Merging(Add(t, e, im.provider), im, decode, index + 1, count, total)
  {
  }

  class SymbolTable {
    var entries: seq<Global>

    constructor ()
      ensures entries == []
    {
      entries := [];
    }

    /** `runtime_collect_image_exports`. */
    method Collect(im: Image, decode: Decoder)
      modifies this
      ensures entries == Merge(old(entries), ExportsOf(im, decode), im.provider)
    {
      if !HasTables(im.dyn) { return; }
      var count := GuessCount(im.raw, im.segs, im.dyn);
      var index := 1;
      ghost var total := Merge(entries, ExportsOf(im, decode), im.provider);
      while index < count
        invariant Merging(entries, im, decode, index, count, total)
      {
        MergeNext(entries, im, decode, index, count, total, OfferAt(im, decode, index));
        var sym := ReadSymbol(im.raw, im.segs, im.dyn.symtab, im.dyn.syment, index);
        if sym.None? { return; }
        var bytes := ReadDynamicString(im.raw, im.segs, im.dyn.strtab, im.dyn.strtabSize, sym.value.nameOff);
        var offer := OfferOf(im.bias, index, sym.value, if bytes.None? then None else Some(decode(bytes.value)));
        assert offer == OfferAt(im, decode, index);
        if offer.Defines? {
          if !Known(entries, offer.what.name) {
            entries := entries + [Global(offer.what.name, offer.what.value, im.provider)];
          }
        }
        index := index + 1;
      }
    }

    /** The calls of the loader, in its order: program, interpreter, dependencies. */
    method CollectEach(images: seq<Image>, decode: Decoder)
      modifies this
      ensures entries == CollectAll(old(entries), images, decode)
    {
      for k := 0 to |images|
        invariant CollectAll(entries, images[k..], decode) == CollectAll(old(entries), images, decode)
      {
        Collect(images[k], decode);
      }
    }
  }

  function Find(t: seq<Global>, name: string): (r: Option<Global>) {
    if t == [] then None else if t[0].name == name then Some(t[0]) else Find(t[1..], name)
  }

  /** `runtime_lookup_global_symbol`. */
  method LookupGlobal(t: seq<Global>, name: string) returns (r: Option<Global>)
    ensures r == Find(t, name)
  {
    for i := 0 to |t|
      invariant Find(t, name) == Find(t[i..], name)
    {
      if t[i].name == name { return Some(t[i]); }
    }
    return None;
  }

  // ---- What the table means -----------------------------------------------------------------------------------

  ghost predicate NamesUnique(t: seq<Global>) { forall i, j :: 0 <= i < j < |t| ==> t[i].name != t[j].name }

  lemma {:induction false} MergeKeepsUnique(t: seq<Global>, es: seq<Export>, provider: string)
    requires NamesUnique(t)
    ensures NamesUnique(Merge(t, es, provider))
    decreases |es|
  {
    if es != [] { MergeKeepsUnique(Add(t, es[0], provider), es[1..], provider); }
  }

  /** However many images are collected, in whatever order, no name appears twice. */
  lemma {:induction false} NamesStayUnique(t: seq<Global>, images: seq<Image>, decode: Decoder)
    requires NamesUnique(t)
    ensures NamesUnique(CollectAll(t, images, decode))
    decreases |images|
  {
    if images != [] {
      MergeKeepsUnique(t, ExportsOf(images[0], decode), images[0].provider);
      NamesStayUnique(Merge(t, ExportsOf(images[0], decode), images[0].provider), images[1..], decode);
    }
  }

  lemma {:induction false} FindIsKnown(t: seq<Global>, name: string)
    ensures Find(t, name).Some? <==> Known(t, name)
    decreases |t|
  {
    if t != [] {
      FindIsKnown(t[1..], name);
      if Known(t[1..], name) {
        var i :| 0 <= i < |t[1..]| && t[1..][i].name == name;
        assert t[i + 1].name == name;
      }
      if Known(t, name) && t[0].name != name {
        var i :| 0 <= i < |t| && t[i].name == name;
        assert t[1..][i - 1].name == name;
      }
    }
  }

  lemma {:induction false} FindAppended(t: seq<Global>, g: Global, name: string)
    ensures Find(t + [g], name)
            == if Find(t, name).Some? then Find(t, name) else if g.name == name then Some(g) else None
    decreases |t|
  {
    if t != [] {
      assert (t + [g])[1..] == t[1..] + [g];
      FindAppended(t[1..], g, name);
    }
  }

  /** Export `j` is the first of the list with the name. */
  ghost predicate FirstNamed(es: seq<Export>, j: nat, name: string) {
    j < |es| && es[j].name == name && forall i :: 0 <= i < j ==> es[i].name != name
  }

  ghost predicate NoneNamed(es: seq<Export>, name: string) { forall i :: 0 <= i < |es| ==> es[i].name != name }

  lemma FindAfterAdd(t: seq<Global>, e: Export, provider: string, name: string)
    ensures Find(Add(t, e, provider), name)
         == if Find(t, name).Some? then Find(t, name)
             else if e.name == name then Some(Global(e.name, e.value, provider)) else None
  {
    FindIsKnown(t, e.name);
    FindAppended(t, Global(e.name, e.value, provider), name);
  }

  /** What is already known stays; else the first export with the name decides. */
  lemma {:induction false} FindAfterMerge(t: seq<Global>, es: seq<Export>, provider: string, name: string, j: nat)
    ensures Find(t, name).Some? ==> Find(Merge(t, es, provider), name) == Find(t, name)
    ensures Find(t, name).None?
            && FirstNamed(es, j, name) ==>
              Find(Merge(t, es, provider), name) == Some(Global(name, es[j].value, provider))
    ensures Find(t, name).None? && NoneNamed(es, name) ==> Find(Merge(t, es, provider), name).None?
    decreases |es|
  {
    if es != [] {
      FindAfterAdd(t, es[0], provider, name);
      FindAfterMerge(Add(t, es[0], provider), es[1..], provider, name, if j > 0 then j - 1 else 0);
    }
  }

  /** Image `k` is the first that exports the name, and its export `j` is the first with the name. */
  ghost predicate FirstProvider(images: seq<Image>, decode: Decoder, k: nat, j: nat, name: string) {
    && k < |images| && FirstNamed(ExportsOf(images[k], decode), j, name)
    && forall i :: 0 <= i < k ==> NoneNamed(ExportsOf(images[i], decode), name)
  }

  lemma {:induction false} KnownStays(t: seq<Global>, images: seq<Image>, decode: Decoder, name: string)
    requires Find(t, name).Some?
    ensures Find(CollectAll(t, images, decode), name) == Find(t, name)
    decreases |images|
  {
    if images != [] {
      var es := ExportsOf(images[0], decode);
      FindAfterMerge(t, es, images[0].provider, name, 0);
      KnownStays(Merge(t, es, images[0].provider), images[1..], decode, name);
    }
  }

  /** A lookup gives the definition of the earliest provider, and of its lowest symbol index. */
  lemma {:induction false} FirstProviderWins(t: seq<Global>, images: seq<Image>, decode: Decoder, k: nat, j: nat,
                                             name: string)
    requires Find(t, name).None? && FirstProvider(images, decode, k, j, name)
    ensures Find(CollectAll(t, images, decode), name)
            == Some(Global(name, ExportsOf(images[k], decode)[j].value, images[k].provider))
    decreases |images|
  {
    var es := ExportsOf(images[0], decode);
    FindAfterMerge(t, es, images[0].provider, name, j);
    if k == 0 {
      KnownStays(Merge(t, es, images[0].provider), images[1..], decode, name);
    } else {
      assert NoneNamed(es, name);
      FirstProviderWins(Merge(t, es, images[0].provider), images[1..], decode, k - 1, j, name);
    }
  }

  /** A name no image exports is not found. */
  lemma {:induction false} UnexportedIsUnknown(t: seq<Global>, images: seq<Image>, decode: Decoder, name: string)
    requires Find(t, name).None? && forall i :: 0 <= i < |images| ==> NoneNamed(ExportsOf(images[i], decode), name)
    ensures Find(CollectAll(t, images, decode), name).None?
    decreases |images|
  {
    if images != [] {
      assert NoneNamed(ExportsOf(images[0], decode), name);
      FindAfterMerge(t, ExportsOf(images[0], decode), images[0].provider, name, 0);
      UnexportedIsUnknown(Merge(t, ExportsOf(images[0], decode), images[0].provider), images[1..], decode, name);
    }
  }
}
