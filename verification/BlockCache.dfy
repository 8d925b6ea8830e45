/**
  Writing a stream to a device whose blocks are larger than a sector. The engine can write
  sector by sector, reading and rewriting the block around each, or keep one block in memory
  and write it back when it moves on. Both leave the same sectors behind.
 */
module BlockCache {
  import opened Bytes
  import opened SectorCopy

  const MAX_BLOCK_SIZE: nat := 4096

  /** A block device; a block is a sequence of sectors. */
  class BlockDevice {
    const blockSize: nat
    var blocks: seq<seq<Sector>>

    constructor (blockSize: nat, blocks: seq<seq<Sector>>)
      ensures this.blockSize == blockSize && this.blocks == blocks
    {
      this.blockSize, this.blocks := blockSize, blocks;
    }

    function Ratio(): (r: nat) { blockSize / SECTOR_SIZE }

    predicate Supported() { SECTOR_SIZE <= blockSize <= MAX_BLOCK_SIZE && blockSize % SECTOR_SIZE == 0 }

    ghost predicate Valid()
      reads this
    {
      Uniform(blocks, Ratio())
    }
  }

  /** The devices the writers take have blocks of one to eight sectors. */
  lemma SupportedExactly(dev: BlockDevice, r: nat, rest: nat)
    requires dev.blockSize == 512 * r + rest && rest < 512
    ensures dev.Supported() <==> rest == 0 && 1 <= r <= 8
    ensures dev.Ratio() == r
  {
  }

  ghost predicate Uniform(blocks: seq<seq<Sector>>, r: nat) { forall b :: 0 <= b < |blocks| ==> |blocks[b]| == r }

  /** The block of a sector when a block has `r` sectors: `lba / r`, by repeated subtraction. */
  function BlockOf(lba: nat, r: nat): (b: nat)
    requires r > 0
    decreases lba
  {
    if lba < r then 0 else 1 + BlockOf(lba - r, r)
  }

  /** The sector's number in its block: `lba % r`. */
  function IndexIn(lba: nat, r: nat): (o: nat)
    requires r > 0
    ensures o < r
    decreases lba
  {
    if lba < r then lba else IndexIn(lba - r, r)
  }

  lemma {:induction false} IsQuotient(lba: nat, r: nat)
    requires r > 0
    ensures BlockOf(lba, r) == lba / r && IndexIn(lba, r) == lba % r
    decreases lba
  {
    if lba < r {
      QuotientUnique(lba, r, 0, lba);
    } else {
      IsQuotient(lba - r, r);
      var q, m := (lba - r) / r, (lba - r) % r;
      assert lba == q * r + m + r == (q + 1) * r + m;
      QuotientUnique(lba, r, q + 1, m);
    }
  }

  /** The logical sector `lba` lies on the device. */
  predicate OnBlocks(blocks: seq<seq<Sector>>, r: nat, lba: nat)
    requires r > 0
  {
    BlockOf(lba, r) < |blocks|
  }

  function Stored(blocks: seq<seq<Sector>>, r: nat, lba: nat): (s: Sector)
    requires r > 0 && Uniform(blocks, r) && OnBlocks(blocks, r, lba)
  {
    blocks[BlockOf(lba, r)][IndexIn(lba, r)]
  }

  /** Sector number `p` of the content, filled up with zeros. */
  function ContentSector(content: seq<Byte>, p: nat): (s: Sector) {
    seq(512, j requires 0 <= j < 512 => if 512 * p + j < |content| then content[512 * p + j] else 0)
  }

  // ---- The plain meaning of writing a stream -------------------------------------------------------

  /** What sector `lba` holds after the first `p` sectors of the stream have been written one by one. */
  function AfterWrites(before: Sector, lbas: seq<nat>, content: seq<Byte>, p: nat, lba: nat): (s: Sector)
    requires p <= |lbas|
  {
    if p == 0 then before
    else if lbas[p - 1] == lba then ContentSector(content, p - 1)
    else AfterWrites(before, lbas, content, p - 1, lba)
  }

  lemma {:induction false} OthersUntouched(before: Sector, lbas: seq<nat>, content: seq<Byte>, p: nat, lba: nat)
    requires p <= |lbas| && lba !in lbas
    ensures AfterWrites(before, lbas, content, p, lba) == before
  {
    if p > 0 { OthersUntouched(before, lbas, content, p - 1, lba); }
  }

  lemma {:induction false} LastWriteStays(before: Sector, lbas: seq<nat>, content: seq<Byte>, p: nat, q: nat)
    requires q < p <= |lbas| && Distinct(lbas)
    ensures AfterWrites(before, lbas, content, p, lbas[q]) == ContentSector(content, q)
  {
    if q < p - 1 { LastWriteStays(before, lbas, content, p - 1, q); }
  }

  /** The device holds what writing the first `p` sectors one by one leaves behind. */
  ghost predicate WrittenTo(before: seq<seq<Sector>>, after: seq<seq<Sector>>, r: nat, lbas: seq<nat>,
                            content: seq<Byte>, p: nat) {
    && r > 0 && Uniform(before, r) && Uniform(after, r) && |after| == |before| && p <= |lbas|
    && forall lba: nat :: OnBlocks(before, r, lba) ==>
        Stored(after, r, lba) == AfterWrites(Stored(before, r, lba), lbas, content, p, lba)
  }

  /** Sectors outside the stream are untouched. */
  ghost predicate OnlyIn(before: seq<seq<Sector>>, after: seq<seq<Sector>>, r: nat, lbas: seq<nat>) {
    && r > 0 && Uniform(before, r) && Uniform(after, r) && |after| == |before|
    && forall lba: nat :: OnBlocks(before, r, lba) && lba !in lbas ==> Stored(after, r, lba) == Stored(before, r, lba)
  }

  /** A written stream reads back as the content followed by zeros, and nothing else has changed. */
  lemma WrittenStream(before: seq<seq<Sector>>, after: seq<seq<Sector>>, r: nat, lbas: seq<nat>, content: seq<Byte>,
                      i: nat)
    requires WrittenTo(before, after, r, lbas, content, |lbas|) && Distinct(lbas) && i < 512 * |lbas|
             && OnBlocks(before, r, lbas[i / 512])
    ensures Stored(after, r, lbas[i / 512])[i % 512] == if i < |content| then content[i] else 0
    ensures OnlyIn(before, after, r, lbas)
  {
    LastWriteStays(Stored(before, r, lbas[i / 512]), lbas, content, |lbas|, i / 512);
    assert 512 * (i / 512) + i % 512 == i;
    forall lba: nat | OnBlocks(before, r, lba) && lba !in lbas ensures Stored(after, r, lba) == Stored(before, r, lba) {
      OthersUntouched(Stored(before, r, lba), lbas, content, |lbas|, lba);
    }
  }

  // ---- Where a sector lies ----------------------------------------------------------------------------

  /** The block and the offset computed from byte addresses are those computed from sectors. */
  lemma SectorInBlock(lba: nat, r: nat, blockSize: nat)
    requires r > 0 && blockSize == 512 * r
    ensures (lba * 512) / blockSize == lba / r && ((lba * 512) % blockSize) / 512 == lba % r
  {
    var q, m := lba / r, lba % r;
    assert lba == q * r + m;
    Scaled(q, r, m);
    QuotientUnique(lba * 512, blockSize, q, 512 * m);
  }

  lemma Scaled(q: nat, r: nat, m: nat)
    ensures (q * r + m) * 512 == q * (512 * r) + 512 * m
  {
  }

  lemma {:induction false} SamePlace(lba: nat, lba': nat, r: nat)
    requires r > 0 && BlockOf(lba, r) == BlockOf(lba', r) && IndexIn(lba, r) == IndexIn(lba', r)
    ensures lba == lba'
    decreases lba
  {
    if lba >= r && lba' >= r { SamePlace(lba - r, lba' - r, r); }
  }

  /** Every place on the device is that of a sector. */
  lemma {:induction false} SectorOfPlace(b: nat, o: nat, r: nat) returns (lba: nat)
    requires r > 0 && o < r
    ensures BlockOf(lba, r) == b && IndexIn(lba, r) == o
    decreases b
  {
    if b == 0 {
      lba := o;
    } else {
      lba := SectorOfPlace(b - 1, o, r);
      lba := lba + r;
    }
  }

  // ---- One block in memory ------------------------------------------------------------------------------

  /** The block kept in memory; it is always modified after it has been read. */
  datatype Cache = NoBlock | Held(block: nat, scratch: seq<Sector>)

  /** What sector `lba` holds when the block in memory counts. */
  function Effective(blocks: seq<seq<Sector>>, r: nat, c: Cache, lba: nat): (s: Sector)
    requires r > 0 && Uniform(blocks, r) && OnBlocks(blocks, r, lba) && (c.Held? ==> |c.scratch| == r)
  {
    if c.Held? && BlockOf(lba, r) == c.block then c.scratch[IndexIn(lba, r)] else Stored(blocks, r, lba)
  }

  /**
    Device and cache together hold what `p` plain writes leave behind; the device alone differs only
    inside the stream.
   */
  ghost predicate CachedTo(before: seq<seq<Sector>>, blocks: seq<seq<Sector>>, r: nat, c: Cache, lbas: seq<nat>,
                           content: seq<Byte>, p: nat) {
    && OnlyIn(before, blocks, r, lbas) && p <= |lbas| && (c.Held? ==> c.block < |blocks| && |c.scratch| == r)
    && forall lba: nat :: OnBlocks(before, r, lba) ==>
        Effective(blocks, r, c, lba) == AfterWrites(Stored(before, r, lba), lbas, content, p, lba)
  }

  /** Writing the held block back changes nothing that counts. */
  lemma Flushed(before: seq<seq<Sector>>, blocks: seq<seq<Sector>>, r: nat, c: Cache, lbas: seq<nat>,
                content: seq<Byte>, p: nat)
    requires CachedTo(before, blocks, r, c, lbas, content, p) && c.Held?
    ensures CachedTo(before, blocks[c.block := c.scratch], r, NoBlock, lbas, content, p)
  {
    var blocks' := blocks[c.block := c.scratch];
    forall lba: nat | OnBlocks(before, r, lba) ensures Stored(blocks', r, lba) == Effective(blocks, r, c, lba) {}
    forall lba: nat | OnBlocks(before, r, lba) && lba !in lbas
        ensures Stored(blocks', r, lba) == Stored(before, r, lba) {
      OthersUntouched(Stored(before, r, lba), lbas, content, p, lba);
      assert Effective(blocks, r, c, lba) == AfterWrites(Stored(before, r, lba), lbas, content, p, lba);
    }
  }

  lemma Loaded(before: seq<seq<Sector>>, blocks: seq<seq<Sector>>, r: nat, lbas: seq<nat>, content: seq<Byte>, p: nat,
               b: nat)
    requires CachedTo(before, blocks, r, NoBlock, lbas, content, p) && b < |blocks|
    ensures CachedTo(before, blocks, r, Held(b, blocks[b]), lbas, content, p)
  {
    forall lba: nat | OnBlocks(before, r, lba)
        ensures Effective(blocks, r, Held(b, blocks[b]), lba) == Effective(blocks, r, NoBlock, lba) {}
  }

  /** Changing a sector of the held block is one more write. */
  lemma Modified(before: seq<seq<Sector>>, blocks: seq<seq<Sector>>, r: nat, c: Cache, lbas: seq<nat>,
                 content: seq<Byte>, p: nat)
    requires CachedTo(before, blocks, r, c, lbas, content, p) && p < |lbas| && c.Held? && c.block == BlockOf(lbas[p], r)
    ensures CachedTo(before, blocks, r, Held(c.block, c.scratch[IndexIn(lbas[p], r) := ContentSector(content, p)]),
            lbas, content, p + 1)
  {
    var c' := Held(c.block, c.scratch[IndexIn(lbas[p], r) := ContentSector(content, p)]);
    forall lba: nat | OnBlocks(before, r, lba)
      ensures Effective(blocks, r, c', lba) == AfterWrites(Stored(before, r, lba), lbas, content, p + 1, lba)
    {
      assert Effective(blocks, r, c, lba) == AfterWrites(Stored(before, r, lba), lbas, content, p, lba);
      if BlockOf(lba, r) == c.block && IndexIn(lba, r) == IndexIn(lbas[p], r) { SamePlace(lba, lbas[p], r); }
    }
  }

  lemma NothingHeld(before: seq<seq<Sector>>, blocks: seq<seq<Sector>>, r: nat, lbas: seq<nat>, content: seq<Byte>,
                    p: nat)
    requires CachedTo(before, blocks, r, NoBlock, lbas, content, p)
    ensures WrittenTo(before, blocks, r, lbas, content, p)
  {
    forall lba: nat | OnBlocks(before, r, lba) ensures Stored(blocks, r, lba) == Effective(blocks, r, NoBlock, lba) {}
  }

  // ---- The two ways of writing ----------------------------------------------------------------------------

  datatype WriteResult = Done(written: nat) | Unsupported | WriteFailed | CanceledWrite

  /** The next sector of the content, cut out of it and filled up with zeros. */
  method CutSector(content: seq<Byte>, offset: nat) returns (sector: Sector, copyLen: nat)
    requires offset % 512 == 0
    ensures sector == ContentSector(content, offset / 512) && copyLen == Min(Max(|content| - offset, 0), 512)
  {
    copyLen := Min(Max(|content| - offset, 0), 512);
    if copyLen == 512 {
      sector := content[offset..offset + 512];
    } else if copyLen > 0 {
      sector := content[offset..offset + copyLen] + Zeros(512 - copyLen);
    } else {
      sector := ZERO_SECTOR;
    }
  }

  /** The sectors of the stream reach beyond the device. */
  ghost predicate OutOfRange(blocks: seq<seq<Sector>>, r: nat, lbas: seq<nat>) {
    r > 0 && exists p :: 0 <= p < |lbas| && !OnBlocks(blocks, r, lbas[p])
  }

  /** Brings the block of sector number `p` of the stream into memory, writing the old one back first. */
  method Fetch(dev: BlockDevice, c: Cache, block: nat, ghost before: seq<seq<Sector>>, ghost lbas: seq<nat>,
               ghost content: seq<Byte>, ghost p: nat)
    returns (c': Cache)
    requires dev.Supported() && CachedTo(before, dev.blocks, dev.Ratio(), c, lbas, content, p) && block < |dev.blocks|
    modifies dev
    ensures CachedTo(before, dev.blocks, dev.Ratio(), c', lbas, content, p) && c'.Held? && c'.block == block
  {
    c' := c;
    if c.NoBlock? || c.block != block {
      if c.Held? {
        Flushed(before, dev.blocks, dev.Ratio(), c, lbas, content, p);
        dev.blocks := dev.blocks[c.block := c.scratch];
      }
      Loaded(before, dev.blocks, dev.Ratio(), lbas, content, p, block);
      c' := Held(block, dev.blocks[block]);
    }
  }

  /** With blocks of one sector there is nothing to keep. */
  lemma DirectWrite(before: seq<seq<Sector>>, blocks: seq<seq<Sector>>, lbas: seq<nat>, content: seq<Byte>, p: nat)
    requires CachedTo(before, blocks, 1, NoBlock, lbas, content, p) && p < |lbas| && lbas[p] < |blocks|
    ensures CachedTo(before, blocks[lbas[p] := [ContentSector(content, p)]], 1, NoBlock, lbas, content, p + 1)
  {
    var blocks' := blocks[lbas[p] := [ContentSector(content, p)]];
    UnitBlocks(lbas[p]);
    forall lba: nat | OnBlocks(before, 1, lba) && lba !in lbas
        ensures Stored(blocks', 1, lba) == Stored(before, 1, lba) {
      UnitBlocks(lba);
    }
    forall lba: nat | OnBlocks(before, 1, lba)
      ensures Effective(blocks', 1, NoBlock, lba) == AfterWrites(Stored(before, 1, lba), lbas, content, p + 1, lba)
    {
      assert Effective(blocks, 1, NoBlock, lba) == AfterWrites(Stored(before, 1, lba), lbas, content, p, lba);
      UnitBlocks(lba);
    }
  }

  lemma {:induction false} UnitBlocks(lba: nat)
    ensures BlockOf(lba, 1) == lba && IndexIn(lba, 1) == 0
  {
    if lba > 0 { UnitBlocks(lba - 1); }
  }

  /** The block of a sector and the sector's number in it, computed from byte addresses. */
  method Locate(dev: BlockDevice, lba: nat) returns (block: nat, index: nat)
    requires dev.Supported()
    ensures block == BlockOf(lba, dev.Ratio()) && index == IndexIn(lba, dev.Ratio())
  {
    var byteOffset := lba * SECTOR_SIZE;
    SectorInBlock(lba, dev.Ratio(), dev.blockSize);
    IsQuotient(lba, dev.Ratio());
    block := byteOffset / dev.blockSize;
    index := (byteOffset % dev.blockSize) / SECTOR_SIZE;
  }

  /** One sector of the stream goes to the block in memory, or straight to the device if a block is a sector. */
  method PutSector(dev: BlockDevice, c: Cache, lba: nat, sector: Sector, ghost before: seq<seq<Sector>>,
                   ghost lbas: seq<nat>, ghost content: seq<Byte>, ghost p: nat)
    returns (ok: bool, c': Cache)
    requires dev.Supported() && CachedTo(before, dev.blocks, dev.Ratio(), c, lbas, content, p)
             && (dev.Ratio() == 1 ==> c.NoBlock?)
    requires p < |lbas| && lba == lbas[p] && sector == ContentSector(content, p)
    modifies dev
    ensures ok <==> OnBlocks(before, dev.Ratio(), lba)
    ensures if ok then CachedTo(before, dev.blocks, dev.Ratio(), c', lbas, content, p + 1)
            else dev.blocks == old(dev.blocks)
    ensures dev.Ratio() == 1 ==> c'.NoBlock?
  {
    c' := c;
    if dev.blockSize == SECTOR_SIZE {
      UnitBlocks(lba);
      if lba >= |dev.blocks| { return false, c'; }
      DirectWrite(before, dev.blocks, lbas, content, p);
      dev.blocks := dev.blocks[lba := [sector]];
      return true, c';
    }
    var block, index := Locate(dev, lba);
    if block >= |dev.blocks| { return false, c'; }
    c' := Fetch(dev, c, block, before, lbas, content, p);
    Modified(before, dev.blocks, dev.Ratio(), c', lbas, content, p);
    c' := Held(block, c'.scratch[index := sector]);
    return true, c';
  }

  /** How far the writing has come: the block in memory, the bytes of content, the calls of the callback. */
  datatype Writing = Writing(cache: Cache, written: nat, offset: nat, calls: nat)

  ghost predicate WritingAt(dev: BlockDevice, before: seq<seq<Sector>>, lbas: seq<nat>, content: seq<Byte>, w: Writing,
                            p: nat)
    reads dev
  {
    && p <= |lbas| && CachedTo(before, dev.blocks, dev.Ratio(), w.cache, lbas, content, p)
      && (dev.Ratio() == 1 ==> w.cache.NoBlock?)
    && w.offset == 512 * p && w.written == Min(|content|, w.offset) && w.calls == p
  }

  /** One sector. */
  method PutNext(dev: BlockDevice, lba: nat, content: seq<Byte>, w: Writing, ghost before: seq<seq<Sector>>,
                 ghost lbas: seq<nat>, ghost p: nat)
    returns (ok: bool, w': Writing)
    requires dev.Supported() && WritingAt(dev, before, lbas, content, w, p) && p < |lbas| && lba == lbas[p]
    modifies dev
    ensures ok <==> OnBlocks(before, dev.Ratio(), lba)
    ensures ok ==> WritingAt(dev, before, lbas, content, w', p + 1)
    ensures !ok ==> dev.blocks == old(dev.blocks)
  {
    var sector, copyLen := CutSector(content, w.offset);
    var c;
    ok, c := PutSector(dev, w.cache, lba, sector, before, lbas, content, p);
    w' := Writing(c, w.written + copyLen, w.offset + SECTOR_SIZE, w.calls + 1);
  }

  lemma LetOneMore(progress: nat -> bool, n: nat)
    requires LetWrite(progress, n) && progress(n)
    ensures LetWrite(progress, n + 1)
  {
  }

  /** The sectors of one cluster. */
  method PutCluster(dev: BlockDevice, g: Geometry, chain: seq<nat>, i: nat, content: seq<Byte>, progress: nat -> bool,
                    start: Writing, ghost before: seq<seq<Sector>>)
    returns (stopped: Option<WriteResult>, w: Writing)
    requires dev.Supported() && i < |chain|
             && WritingAt(dev, before, SectorList(g, chain), content, start, SectorsOf(g, i))
             && LetWrite(progress, SectorsOf(g, i))
    modifies dev
    ensures stopped.None? ==> WritingAt(dev, before, SectorList(g, chain), content, w, SectorsOf(g, i + 1))
    ensures stopped.None? ==> LetWrite(progress, SectorsOf(g, i + 1))
    ensures stopped.Some? ==>
              OnlyIn(before, dev.blocks, dev.Ratio(), SectorList(g, chain))
              && stopped.value in {WriteFailed, CanceledWrite}
    ensures stopped == Some(WriteFailed) ==> OutOfRange(before, dev.Ratio(), SectorList(g, chain))
    ensures stopped == Some(CanceledWrite) ==> !LetWrite(progress, |SectorList(g, chain)|)
  {
    w := start;
    ghost var lbas, p := SectorList(g, chain), SectorsOf(g, i);
    for sec := 0 to g.sectorsPerCluster
      invariant p == Position(g, i, sec) && WritingAt(dev, before, lbas, content, w, p) && LetWrite(progress, p)
    {
      SectorAt(g, chain, i, sec);
      var ok, call := true, w.calls;
      ok, w := PutNext(dev, ClusterToLba(g, chain[i]) + sec, content, w, before, lbas, p);
      if !ok { return Some(WriteFailed), w; }
      if !progress(call) { return Some(CanceledWrite), w; }
      LetOneMore(progress, p);
      p := p + 1;
    }
    return None, w;
  }

  /** `write_chain_content_via_uefi`. `progress(k)` is the answer to the callback's call number `k`. */
  method WriteThroughCache(dev: BlockDevice, g: Geometry, chain: seq<nat>, content: seq<Byte>, progress: nat -> bool)
    returns (r: WriteResult)
    requires dev.Valid()
    modifies dev
    ensures r.Done? ==>
              chain == [] || (dev.Supported()
              && WrittenTo(old(dev.blocks), dev.blocks, dev.Ratio(), SectorList(g, chain), content,
              |SectorList(g, chain)|))
    ensures r.Done? ==> r.written == Min(|content|, 512 * |SectorList(g, chain)|)
    ensures dev.Supported() ==> OnlyIn(old(dev.blocks), dev.blocks, dev.Ratio(), SectorList(g, chain))
    ensures r.Unsupported? <==> chain != [] && !dev.Supported()
    ensures !dev.Supported() ==> dev.blocks == old(dev.blocks)
    ensures r.WriteFailed? ==> OutOfRange(old(dev.blocks), dev.Ratio(), SectorList(g, chain))
    ensures r.Done? ==> LetWrite(progress, |SectorList(g, chain)|)
    ensures r.CanceledWrite? ==> !LetWrite(progress, |SectorList(g, chain)|)
  {
    if chain == [] { return Done(0); }
    if !dev.Supported() { return Unsupported; }
    ghost var before, lbas := dev.blocks, SectorList(g, chain);
    var w := Writing(NoBlock, 0, 0, 0);
    for i := 0 to |chain|
      invariant WritingAt(dev, before, lbas, content, w, SectorsOf(g, i)) && LetWrite(progress, SectorsOf(g, i))
    {
      var stopped;
      stopped, w := PutCluster(dev, g, chain, i, content, progress, w, before);
      if stopped.Some? { return stopped.value; }
    }
    if w.cache.Held? {
      Flushed(before, dev.blocks, dev.Ratio(), w.cache, lbas, content, |lbas|);
      dev.blocks := dev.blocks[w.cache.block := w.cache.scratch];
    }
    NothingHeld(before, dev.blocks, dev.Ratio(), lbas, content, |lbas|);
    return Done(w.written);
  }

  /** The blocks with one sector replaced. */
  function WithSector(blocks: seq<seq<Sector>>, r: nat, lba: nat, sector: Sector): (b: seq<seq<Sector>>)
    requires r > 0 && Uniform(blocks, r) && OnBlocks(blocks, r, lba)
  {
    var block: seq<Sector> := blocks[BlockOf(lba, r)][IndexIn(lba, r) := sector];
    blocks[BlockOf(lba, r) := block]
  }

  /** A sector is rewritten inside its block. */
  lemma Rewritten(before: seq<seq<Sector>>, blocks: seq<seq<Sector>>, r: nat, lbas: seq<nat>, content: seq<Byte>,
                  p: nat)
    requires WrittenTo(before, blocks, r, lbas, content, p) && p < |lbas| && OnBlocks(blocks, r, lbas[p])
    ensures WrittenTo(before, WithSector(blocks, r, lbas[p], ContentSector(content, p)), r, lbas, content, p + 1)
  {
    var blocks' := WithSector(blocks, r, lbas[p], ContentSector(content, p));
    forall lba: nat | OnBlocks(before, r, lba)
      ensures Stored(blocks', r, lba) == AfterWrites(Stored(before, r, lba), lbas, content, p + 1, lba)
    {
      assert Stored(blocks, r, lba) == AfterWrites(Stored(before, r, lba), lbas, content, p, lba);
      if BlockOf(lba, r) == BlockOf(lbas[p], r) && IndexIn(lba, r) == IndexIn(lbas[p], r) {
        SamePlace(lba, lbas[p], r);
      }
    }
  }

  /** `write_sector_from_uefi_handle`: read the block, put the sector in, write the block. */
  method WriteSector(dev: BlockDevice, lba: nat, sector: Sector) returns (ok: bool)
    requires dev.Supported() && dev.Valid()
    modifies dev
    ensures ok <==> OnBlocks(old(dev.blocks), dev.Ratio(), lba)
    ensures dev.blocks == if ok then WithSector(old(dev.blocks), dev.Ratio(), lba, sector) else old(dev.blocks)
  {
    var block, index := Locate(dev, lba);
    if block >= |dev.blocks| { return false; }
    var scratch: seq<Sector> := dev.blocks[block];
    scratch := scratch[index := sector];
    dev.blocks := dev.blocks[block := scratch];
    return true;
  }

  ghost predicate PlainAt(dev: BlockDevice, before: seq<seq<Sector>>, lbas: seq<nat>, content: seq<Byte>, w: Writing,
                          p: nat)
    reads dev
  {
    && p <= |lbas| && WrittenTo(before, dev.blocks, dev.Ratio(), lbas, content, p)
    && w.offset == 512 * p && w.written == Min(|content|, w.offset) && w.calls == p
  }

  method PlainNext(dev: BlockDevice, lba: nat, content: seq<Byte>, w: Writing, ghost before: seq<seq<Sector>>,
                   ghost lbas: seq<nat>, ghost p: nat)
    returns (ok: bool, w': Writing)
    requires dev.Supported() && PlainAt(dev, before, lbas, content, w, p) && p < |lbas| && lba == lbas[p]
    modifies dev
    ensures ok <==> OnBlocks(before, dev.Ratio(), lba)
    ensures ok ==> PlainAt(dev, before, lbas, content, w', p + 1)
    ensures !ok ==> dev.blocks == old(dev.blocks)
  {
    var sector, copyLen := CutSector(content, w.offset);
    ok := WriteSector(dev, lba, sector);
    if ok { Rewritten(before, old(dev.blocks), dev.Ratio(), lbas, content, p); }
    w' := Writing(NoBlock, w.written + copyLen, w.offset + SECTOR_SIZE, w.calls + 1);
  }

  method PlainCluster(dev: BlockDevice, g: Geometry, chain: seq<nat>, i: nat, content: seq<Byte>, progress: nat -> bool,
                      start: Writing, ghost before: seq<seq<Sector>>)
    returns (stopped: Option<WriteResult>, w: Writing, ghost end: nat)
    requires dev.Supported() && i < |chain|
             && PlainAt(dev, before, SectorList(g, chain), content, start, SectorsOf(g, i))
             && LetWrite(progress, SectorsOf(g, i))
    modifies dev
    ensures WrittenTo(before, dev.blocks, dev.Ratio(), SectorList(g, chain), content, end)
    ensures stopped.None? ==> PlainAt(dev, before, SectorList(g, chain), content, w, SectorsOf(g, i + 1))
    ensures stopped.None? ==> LetWrite(progress, SectorsOf(g, i + 1))
    ensures stopped.Some? ==> stopped.value in {WriteFailed, CanceledWrite}
    ensures stopped == Some(WriteFailed) ==> OutOfRange(before, dev.Ratio(), SectorList(g, chain))
    ensures stopped == Some(CanceledWrite) ==> !LetWrite(progress, |SectorList(g, chain)|)
  {
    w, end := start, SectorsOf(g, i);
    for sec := 0 to g.sectorsPerCluster
      invariant end == Position(g, i, sec) && PlainAt(dev, before, SectorList(g, chain), content, w, end)
                && LetWrite(progress, end)
    {
      SectorAt(g, chain, i, sec);
      var ok, call := true, w.calls;
      ok, w := PlainNext(dev, ClusterToLba(g, chain[i]) + sec, content, w, before, SectorList(g, chain), end);
      if !ok { return Some(WriteFailed), w, end; }
      end := end + 1;
      if !progress(call) { return Some(CanceledWrite), w, end; }
    }
    return None, w, end;
  }

  /** The loop of `write_text_file_in_dir_with_progress` that writes sector by sector. */
  method WriteSectorBySector(dev: BlockDevice, g: Geometry, chain: seq<nat>, content: seq<Byte>, progress: nat -> bool)
    returns (r: WriteResult)
    requires dev.Supported() && dev.Valid()
    modifies dev
    ensures r.Done? ==>
              WrittenTo(old(dev.blocks), dev.blocks, dev.Ratio(), SectorList(g, chain), content, |SectorList(g, chain)|)
    ensures r.Done? ==> r.written == Min(|content|, 512 * |SectorList(g, chain)|)
    ensures exists p :: WrittenTo(old(dev.blocks), dev.blocks, dev.Ratio(), SectorList(g, chain), content, p)
    ensures !r.Unsupported?
    ensures r.WriteFailed? ==> OutOfRange(old(dev.blocks), dev.Ratio(), SectorList(g, chain))
    ensures r.Done? ==> LetWrite(progress, |SectorList(g, chain)|)
    ensures r.CanceledWrite? ==> !LetWrite(progress, |SectorList(g, chain)|)
  {
    ghost var before, lbas := dev.blocks, SectorList(g, chain);
    var w := Writing(NoBlock, 0, 0, 0);
    for i := 0 to |chain|
      invariant PlainAt(dev, before, lbas, content, w, SectorsOf(g, i)) && LetWrite(progress, SectorsOf(g, i))
    {
      var stopped; ghost var end;
      stopped, w, end := PlainCluster(dev, g, chain, i, content, progress, w, before);
      if stopped.Some? { return stopped.value; }
    }
    return Done(w.written);
  }

  /** Two devices written from the same state with the same stream hold the same sectors. */
  lemma SameResult(before: seq<seq<Sector>>, a: seq<seq<Sector>>, b: seq<seq<Sector>>, r: nat, lbas: seq<nat>,
                   content: seq<Byte>)
    requires WrittenTo(before, a, r, lbas, content, |lbas|) && WrittenTo(before, b, r, lbas, content, |lbas|)
    ensures a == b
  {
    forall k | 0 <= k < |a| ensures a[k] == b[k] {
      forall o | 0 <= o < r ensures a[k][o] == b[k][o] {
        var lba := SectorOfPlace(k, o, r);
        assert OnBlocks(before, r, lba);
        assert Stored(a, r, lba) == Stored(b, r, lba);
      }
    }
  }
}
