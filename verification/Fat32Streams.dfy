/**
  The data of a FAT32 file: fitting its chain to a new length, writing the content to the
  chain's sectors and reading it back.
 */
module Fat32Streams {
  import opened Bytes
  import opened SectorCopy
  import opened BlockCache
  import opened Fat32Table
  import opened Fat32Alloc

  // ---- Fitting the chain --------------------------------------------------------------------------

  /** `old` has become `new_`: one is the beginning of the other, added clusters were free, dropped ones are. */
  ghost predicate Resized(t: seq<nat>, t': seq<nat>, old_: seq<nat>, new_: seq<nat>) {
    && (old_ <= new_ || new_ <= old_) && StrictChain(t', new_) && |t'| == |t| && Used(t') == Used(t) + |new_| - |old_|
    && (forall c :: 0 <= c < |t| && c !in old_ && c !in new_ ==> t'[c] == t[c])
    && (forall i :: |old_| <= i < |new_| ==> 0 <= new_[i] < |t| && t[new_[i]] == 0)
    && (forall i :: |new_| <= i < |old_| ==> 0 <= old_[i] < |t| && t'[old_[i]] == 0)
  }

  lemma LongerIsResized(t: seq<nat>, t': seq<nat>, old_: seq<nat>, new_: seq<nat>)
    requires Longer(t, t', old_, new_) && |new_| > 0
    ensures Resized(t, t'[new_[|new_| - 1] := FAT32_EOC], old_, new_)
  {
    ChainInUse(t', new_, |new_| - 1);
    SetCount(t', new_[|new_| - 1], FAT32_EOC, |t'|);
  }

  lemma ShorterIsResized(t: seq<nat>, t': seq<nat>, old_: seq<nat>, keep: nat)
    requires Shorter(t, t', old_, keep)
    ensures Resized(t, t', old_, old_[..keep])
  {
  }

  /** The first cluster of a file that had none. */
  lemma FirstCluster(t: seq<nat>, c: nat, t': seq<nat>, new_: seq<nat>)
    requires 2 <= c < |t| && c < CHAIN_END && t[c] == 0 && Resized(t[c := FAT32_EOC], t', [c], new_) && |new_| > 0
    ensures Resized(t, t', [], new_)
  {
    SetCount(t, c, FAT32_EOC, |t|);
    assert [c] <= new_ by { if new_ <= [c] { assert new_ == [c]; } }
    assert new_[0] == c;
  }

  /** The calls of the callback. */
  datatype Call =
    | Start | Scanned(sectors: nat) | Zeroed(k: nat) | Chosen | Extended(k: nat) | Fitted | Cut
    | Data(k: nat) | Emptied | AllDone

  const OLD_LIMIT: nat := 1024

  /** As much of a chain as is read when it is replaced. */
  function Seen(chain: seq<nat>): (r: seq<nat>) { chain[..Min(|chain|, OLD_LIMIT)] }

  /**
    What becomes of the old chain: all of it is reused or freed, unless it is longer than what is
    read of it and none of that is to spare. Then what lies behind stays in use, out of reach.
   */
  function KeptOf(old_: seq<nat>, required: nat): (r: seq<nat>) {
    if |old_| > OLD_LIMIT && required >= OLD_LIMIT then old_[..OLD_LIMIT] else old_
  }

  /** Links differ at most in the clusters of `mine` and in `got`, which come from `mine` or were free. */
  ghost predicate LinkFrame(t: seq<nat>, t': seq<nat>, mine: seq<nat>, got: seq<nat>) {
    && |t'| == |t| && (forall c :: 0 <= c < |t| && c !in mine && c !in got ==> t'[c] == t[c])
    && forall i :: 0 <= i < |got| ==> got[i] in mine || (2 <= got[i] < |t| && t[got[i]] == 0)
  }

  lemma LinkFrameTwice(t: seq<nat>, mid: seq<nat>, t': seq<nat>, mine: seq<nat>, got: seq<nat>, more: seq<nat>)
    requires LinkFrame(t, mid, mine, got) && LinkFrame(mid, t', mine + got, more)
    ensures LinkFrame(t, t', mine, got + more)
  {
    var all := got + more;
    forall c | 0 <= c < |t| && c !in mine && c !in all ensures t'[c] == t[c] { assert c !in got && c !in more; }
    forall i | 0 <= i < |all| ensures all[i] in mine || (2 <= all[i] < |t| && t[all[i]] == 0) {
      if i < |got| {
        assert all[i] == got[i];
      } else {
        var c := more[i - |got|];
        assert all[i] == c;
        if c in got { var k :| 0 <= k < |got| && got[k] == c; }
      }
    }
  }

  lemma LongerFrame(t: seq<nat>, t': seq<nat>, old_: seq<nat>, seen: seq<nat>, longer: seq<nat>)
    requires Longer(t, t', seen, longer) && seen <= old_
    ensures LinkFrame(t, t', old_, longer)
  {
    forall i | 0 <= i < |longer| ensures longer[i] in old_ || (2 <= longer[i] < |t| && t[longer[i]] == 0) {
      if i < |seen| { assert longer[i] == old_[i]; }
    }
  }

  lemma SameFrame(t: seq<nat>, t': seq<nat>, mine: seq<nat>)
    requires LinksKept(t, t', mine)
    ensures LinkFrame(t, t', mine, [])
  {
  }

  ghost predicate Among(cs: seq<nat>, ds: seq<nat>) { forall i :: 0 <= i < |cs| ==> cs[i] in ds }

  /**
    Rounds of the loop that adds clusters are put to the callback every sixteenth step; `before` steps
    have gone before.
   */
  function AskedToExtend(progress: Call -> bool, before: nat): (ask: nat -> bool) {
    (k: nat) => (before + k) % 16 != 0 || progress(Extended(k))
  }

  /** A round goes on unless it is step number 16, 32, 48 and so on and the callback refuses. */
  lemma ExtendAsked(progress: Call -> bool, before: nat, k: nat, m: nat, rest: nat)
    requires before + k == 16 * m + rest && rest < 16
    ensures AskedToExtend(progress, before)(k) <==> rest != 0 || progress(Extended(k))
  {
  }

  /** The chain a file of `required` clusters gets. */
  function FittedChain(t: seq<nat>, hint: nat, old_: seq<nat>, required: nat): (r: seq<nat>) {
    if |Seen(old_)| > required then old_[..required] else Seen(old_) + Takes(t, hint, required - |Seen(old_)|)
  }

  /** What stops a chain of `len` clusters from being cut. */
  function CutError(len: nat, required: nat, progress: Call -> bool): (e: Option<FatError>) {
    if !progress(Fitted) then Some(Refused) else if len - required > FREE_LIMIT + 1 then Some(ChainLoop) else None
  }

  /** What stops a chain from being made longer when `spare` clusters are free. */
  ghost function GrowthError(spare: nat, need: nat, progress: Call -> bool, before: nat): (e: Option<FatError>) {
    var e := ExtendError(spare, need, AskedToExtend(progress, before));
    if e.None? && !progress(Fitted) then Some(Refused) else e
  }

  ghost function FitSeenError(spare: nat, len: nat, required: nat, progress: Call -> bool,
                              before: nat): (e: Option<FatError>) {
    var seen := Min(len, OLD_LIMIT);
    if seen > required then CutError(len, required, progress)
    else GrowthError(spare, required - seen, progress, before)
  }

  /** What stops a chain that has a cluster from being fitted. */
  ghost function FitUsedError(spare: nat, len: nat, required: nat, progress: Call -> bool,
                              before: nat): (e: Option<FatError>) {
    var e := FitSeenError(spare, len, required, progress, before);
    if !progress(Chosen) then Some(Refused) else if e.None? && !progress(Cut) then Some(Refused) else e
  }

  /**
    What stops the chain of a file from being fitted, told from the number of free clusters, the
    length of the chain and the answers of the callback.
   */
  ghost function FitError(spare: nat, len: nat, required: nat, progress: Call -> bool,
                          before: nat): (e: Option<FatError>) {
    if len > 0 then FitUsedError(spare, len, required, progress, before)
    else if spare == 0 then Some(NoFreeClusters)
    else FitUsedError(spare - 1, 1, required, progress, before)
  }

  /** How fitting a chain ends. */
  ghost predicate FitEnd(t: seq<nat>, hint: nat, t': seq<nat>, old_: seq<nat>, required: nat, e: Option<FatError>,
                         r: Result<seq<nat>>, got: seq<nat>) {
    && LinkFrame(t, t', old_, got) && ErrorOf(r) == e
    && (r.Ok? ==>
        && r.value == FittedChain(t, hint, old_, required) && |r.value| == required
        && Resized(t, t', KeptOf(old_, required), r.value) && Among(r.value, old_ + got))
  }

  /** The chain of a file with `required` clusters, made from the chain it had. */
  method FitChain(fs: Fat32, seen: seq<nat>, required: nat, progress: Call -> bool, before: nat, ghost old_: seq<nat>)
    returns (r: Result<seq<nat>>, ghost got: seq<nat>)
    requires fs.Valid() && required > 0 && StrictChain(fs.T(), old_) && seen == Seen(old_)
    modifies fs, fs.disk
    ensures fs.Valid() && DataSame(old(fs.disk.sectors), fs.disk.sectors, fs.disk.area)
    ensures FitEnd(old(fs.T()), old(fs.hint), fs.T(), old_, required,
            FitError(Spare(old(fs.T())), |old_|, required, progress, before), r, got)
  {
    ghost var t, h, s := fs.T(), fs.hint, fs.disk.sectors;
    if seen != [] {
      r, got := FitUsed(fs, seen, required, progress, before, old_);
      return;
    }
    assert old_ == [];
    NoZeros(t, 2);
    var found := fs.FindFreeCluster();
    if found.None? { return Err(NoFreeClusters), []; }
    var first := found.value;
    fs.Link(first, FAT32_EOC);
    ghost var t1, h1, mid := fs.T(), fs.hint, fs.disk.sectors;
    assert StrictChain(t1, [first]) && Seen([first]) == [first];
    r, got := FitUsed(fs, [first], required, progress, before, [first]);
    DataSameTwice(s, mid, fs.disk.sectors, fs.disk.area);
    FitFirst(t, h, first, fs.T(), required, progress, before, r, got);
    got := [first] + got;
  }

  /** A file that had no cluster is fitted after its first one has been found. */
  lemma FitFirst(t: seq<nat>, h: nat, c: nat, t': seq<nat>, required: nat, progress: Call -> bool, before: nat,
                 r: Result<seq<nat>>, got: seq<nat>)
    requires FirstFree(t, h) == Some(c) && c < CHAIN_END && required > 0
    requires FitEnd(t[c := FAT32_EOC], NextHint(t, c), t', [c], required,
             FitUsedError(Spare(t[c := FAT32_EOC]), 1, required, progress, before), r, got)
    ensures FitEnd(t, h, t', [], required, FitError(Spare(t), 0, required, progress, before), r, [c] + got)
  {
    SetZero(t, c, FAT32_EOC, 2);
    FirstFrame(t, c, t', got);
    if r.Ok? { FirstFits(t, h, c, t', required, r.value, got); }
  }

  lemma FirstFits(t: seq<nat>, h: nat, c: nat, t': seq<nat>, required: nat, new_: seq<nat>, got: seq<nat>)
    requires FirstFree(t, h) == Some(c) && c < CHAIN_END && required > 0 && |new_| == required
    requires new_ == FittedChain(t[c := FAT32_EOC], NextHint(t, c), [c], required) && Among(new_, [c] + got)
             && Resized(t[c := FAT32_EOC], t', KeptOf([c], required), new_)
    ensures new_ == FittedChain(t, h, [], required) && Among(new_, [] + ([c] + got))
            && Resized(t, t', KeptOf([], required), new_)
  {
    FirstCluster(t, c, t', new_);
    FirstTaken(t, h, c, required);
    assert [] + ([c] + got) == [c] + got;
  }

  lemma FirstTaken(t: seq<nat>, h: nat, c: nat, required: nat)
    requires FirstFree(t, h) == Some(c) && required > 0
    ensures FittedChain(t[c := FAT32_EOC], NextHint(t, c), [c], required) == FittedChain(t, h, [], required)
  {
    assert Seen([c]) == [c] && Seen([]) == [];
    assert Takes(t, h, required) == [c] + Takes(t[c := FAT32_EOC], NextHint(t, c), required - 1);
  }

  lemma FirstFrame(t: seq<nat>, c: nat, t': seq<nat>, got: seq<nat>)
    requires 2 <= c < |t| && t[c] == 0 && LinkFrame(t[c := FAT32_EOC], t', [c], got)
    ensures LinkFrame(t, t', [], [c] + got)
  {
    assert [] + [c] == [c];
    LinkFrameTwice(t, t[c := FAT32_EOC], t', [], [c], got);
  }

  method FitUsed(fs: Fat32, seen: seq<nat>, required: nat, progress: Call -> bool, before: nat, ghost old_: seq<nat>)
    returns (r: Result<seq<nat>>, ghost got: seq<nat>)
    requires fs.Valid() && required > 0 && StrictChain(fs.T(), old_) && old_ != [] && seen == Seen(old_)
    modifies fs, fs.disk
    ensures fs.Valid() && DataSame(old(fs.disk.sectors), fs.disk.sectors, fs.disk.area)
    ensures FitEnd(old(fs.T()), old(fs.hint), fs.T(), old_, required,
            FitUsedError(Spare(old(fs.T())), |old_|, required, progress, before), r, got)
  {
    got := [];
    if !progress(Chosen) {
      SameFrame(fs.T(), fs.T(), old_);
      return Err(Refused), got;
    }
    r, got := FitSeen(fs, seen, required, progress, before, old_);
    r := if r.Ok? && !progress(Cut) then Err(Refused) else r;
  }

  /** The chain is cut or made longer. */
  method FitSeen(fs: Fat32, seen: seq<nat>, required: nat, progress: Call -> bool, before: nat, ghost old_: seq<nat>)
    returns (r: Result<seq<nat>>, ghost got: seq<nat>)
    requires fs.Valid() && required > 0 && StrictChain(fs.T(), old_) && old_ != [] && seen == Seen(old_)
    modifies fs, fs.disk
    ensures fs.Valid() && DataSame(old(fs.disk.sectors), fs.disk.sectors, fs.disk.area)
    ensures FitEnd(old(fs.T()), old(fs.hint), fs.T(), old_, required,
            FitSeenError(Spare(old(fs.T())), |old_|, required, progress, before), r, got)
  {
    if |seen| > required {
      got := [];
      r := CutTo(fs, seen, required, progress, old_);
    } else {
      r, got := GrowTo(fs, seen, required, progress, before, old_);
    }
  }

  method CutTo(fs: Fat32, seen: seq<nat>, required: nat, progress: Call -> bool, ghost old_: seq<nat>)
    returns (r: Result<seq<nat>>)
    requires fs.Valid() && 0 < required < |seen| && StrictChain(fs.T(), old_) && seen == Seen(old_)
    modifies fs, fs.disk
    ensures fs.Valid() && DataSame(old(fs.disk.sectors), fs.disk.sectors, fs.disk.area)
    ensures FitEnd(old(fs.T()), old(fs.hint), fs.T(), old_, required, CutError(|old_|, required, progress), r, [])
  {
    if !progress(Fitted) {
      SameFrame(fs.T(), fs.T(), old_);
      return Err(Refused);
    }
    var ok := fs.TrimChain(seen[required - 1], seen[required], old_, required);
    CutEnds(old(fs.T()), old(fs.hint), fs.T(), old_, required, ok);
    r := if ok then Ok(seen[..required]) else Err(ChainLoop);
  }

  lemma CutEnds(t: seq<nat>, h: nat, t': seq<nat>, old_: seq<nat>, required: nat, ok: bool)
    requires 0 < required < |Seen(old_)| && LinksKept(t, t', old_) && (ok ==> Shorter(t, t', old_, required))
    ensures FitEnd(t, h, t', old_, required, if ok then None else Some(ChainLoop),
            if ok then Ok(Seen(old_)[..required]) else Err(ChainLoop), [])
  {
    SameFrame(t, t', old_);
    if ok {
      assert Seen(old_)[..required] == old_[..required];
      ShorterIsResized(t, t', old_, required);
    }
  }

  method GrowTo(fs: Fat32, seen: seq<nat>, required: nat, progress: Call -> bool, before: nat, ghost old_: seq<nat>)
    returns (r: Result<seq<nat>>, ghost got: seq<nat>)
    requires fs.Valid() && StrictChain(fs.T(), old_) && 0 < |seen| <= required && seen == Seen(old_)
    modifies fs, fs.disk
    ensures fs.Valid() && DataSame(old(fs.disk.sectors), fs.disk.sectors, fs.disk.area)
    ensures FitEnd(old(fs.T()), old(fs.hint), fs.T(), old_, required,
            GrowthError(Spare(old(fs.T())), required - |seen|, progress, before), r, got)
  {
    ghost var s, t, h := fs.disk.sectors, fs.T(), fs.hint;
    BeginningLinked(t, old_, |seen|);
    r, got := fs.ExtendChain(seen, required, AskedToExtend(progress, before));
    LongerFrame(t, fs.T(), old_, seen, got);
    if r.Err? { return; }
    if !progress(Fitted) { return Err(Refused), got; }
    ExtendedFits(t, h, old_, required, r.value);
    EndFitted(fs, r.value, required, t, h, s, old_);
  }

  lemma ExtendedFits(t: seq<nat>, h: nat, old_: seq<nat>, required: nat, new_: seq<nat>)
    requires |Seen(old_)| <= required && required - |Seen(old_)| <= Spare(t)
    requires new_ == Seen(old_) + Takes(t, h, Missing(Seen(old_), required))
    ensures |new_| == required && new_ == FittedChain(t, h, old_, required)
  {
    TakesCount(t, h, required - |Seen(old_)|);
  }

  /** The chain has the right length and gets its end mark. */
  method EndFitted(fs: Fat32, chain: seq<nat>, required: nat, ghost t: seq<nat>, ghost h: nat, ghost s: seq<Sector>,
                   ghost old_: seq<nat>)
    requires fs.Valid() && DataSame(s, fs.disk.sectors, fs.disk.area) && 0 < |chain| == required
    requires Longer(t, fs.T(), Seen(old_), chain) && chain == FittedChain(t, h, old_, required)
    modifies fs.disk
    ensures fs.Valid() && DataSame(s, fs.disk.sectors, fs.disk.area)
            && FitEnd(t, h, fs.T(), old_, required, None, Ok(chain), chain)
  {
    ghost var mid := fs.disk.sectors;
    EndChain(fs, chain, t, Seen(old_));
    DataSameTwice(s, mid, fs.disk.sectors, fs.disk.area);
    GrownFits(t, h, fs.T(), old_, required, chain);
  }

  lemma GrownFits(t: seq<nat>, h: nat, t': seq<nat>, old_: seq<nat>, required: nat, new_: seq<nat>)
    requires |Seen(old_)| <= |new_| == required && Seen(old_) <= new_ && new_ == FittedChain(t, h, old_, required)
    requires Resized(t, t', Seen(old_), new_)
    ensures FitEnd(t, h, t', old_, required, None, Ok(new_), new_)
  {
    SeenIsKept(old_, required);
    EndFrame(t, t', old_, Seen(old_), new_);
    AllOfIt(old_, new_);
  }

  lemma AllOfIt(old_: seq<nat>, got: seq<nat>)
    ensures Among(got, old_ + got)
  {
  }

  lemma SeenIsKept(old_: seq<nat>, required: nat)
    requires |Seen(old_)| <= required
    ensures KeptOf(old_, required) == Seen(old_) && Seen(old_) <= old_
  {
  }

  lemma EndFrame(t: seq<nat>, t': seq<nat>, old_: seq<nat>, seen: seq<nat>, new_: seq<nat>)
    requires Resized(t, t', seen, new_) && seen <= old_ && seen <= new_
    ensures LinkFrame(t, t', old_, new_)
  {
    forall i | 0 <= i < |new_| ensures new_[i] in old_ || (2 <= new_[i] < |t| && t[new_[i]] == 0) {
      if i < |seen| { assert new_[i] == old_[i]; }
    }
  }

  /** The last link is set to the end mark the engine uses. */
  method EndChain(fs: Fat32, chain: seq<nat>, ghost t: seq<nat>, ghost seen: seq<nat>)
    requires fs.Valid() && |chain| > 0 && Longer(t, fs.T(), seen, chain)
    modifies fs.disk
    ensures fs.Valid() && Resized(t, fs.T(), seen, chain)
            && DataSame(old(fs.disk.sectors), fs.disk.sectors, fs.disk.area)
  {
    LongerIsResized(t, fs.T(), seen, chain);
    fs.Link(chain[|chain| - 1], FAT32_EOC);
  }

  // ---- What is lost of a long chain ----------------------------------------------------------------------

  /** The number of clusters in use comes out right exactly if the whole old chain was reused or freed. */
  lemma UsedExactly(t: seq<nat>, t': seq<nat>, old_: seq<nat>, new_: seq<nat>)
    requires Resized(t, t', KeptOf(old_, |new_|), new_)
    ensures Used(t') == Used(t) + |new_| - |old_| <==> |old_| <= OLD_LIMIT || |new_| < OLD_LIMIT
    ensures Used(t') == Used(t) + |new_| - |KeptOf(old_, |new_|)|
  {
  }

  /**
    Otherwise every cluster behind the first 1024 stays in use, and nothing leads to the first of them
    that did not before.
   */
  lemma TailIsLost(t: seq<nat>, t': seq<nat>, old_: seq<nat>, new_: seq<nat>, i: nat)
    requires StrictChain(t, old_) && Resized(t, t', KeptOf(old_, |new_|), new_) && OLD_LIMIT <= |new_|
             && OLD_LIMIT <= i < |old_|
    ensures old_[i] !in new_ && t'[old_[i]] == t[old_[i]] != 0 && t'[old_[OLD_LIMIT - 1]] != old_[OLD_LIMIT]
    ensures forall c :: 0 <= c < |t'| && t'[c] == old_[OLD_LIMIT] ==>
              t[c] == old_[OLD_LIMIT] && c != old_[OLD_LIMIT - 1]
  {
    forall j | OLD_LIMIT <= j < |old_| ensures old_[j] !in new_ && old_[j] !in old_[..OLD_LIMIT] {
      NotInNew(t, t', old_, new_, j);
    }
    ChainInUse(t, old_, i);
    forall k | 0 <= k < |new_| ensures t'[new_[k]] != old_[OLD_LIMIT] { assert k + 1 < |new_| ==> new_[k + 1] in new_; }
    forall j | 0 <= j < OLD_LIMIT ensures old_[j] in new_ { assert new_[j] == old_[..OLD_LIMIT][j]; }
  }

  lemma NotInNew(t: seq<nat>, t': seq<nat>, old_: seq<nat>, new_: seq<nat>, j: nat)
    requires StrictChain(t, old_) && OLD_LIMIT <= |new_| && OLD_LIMIT <= j < |old_|
             && Resized(t, t', old_[..OLD_LIMIT], new_)
    ensures old_[j] !in new_ && old_[j] !in old_[..OLD_LIMIT]
  {
    ChainInUse(t, old_, j);
    forall k | 0 <= k < |new_| ensures new_[k] != old_[j] {
      if k < OLD_LIMIT { assert new_[k] == old_[..OLD_LIMIT][k] == old_[k]; }
    }
  }

  // ---- Sectors of the data area -------------------------------------------------------------------------

  ghost predicate AllOnDevice(s: seq<Sector>, lbas: seq<nat>) { forall p :: 0 <= p < |lbas| ==> lbas[p] < |s| }

  /** The sectors of a chain lie in the data area. */
  lemma {:induction false} ChainOnData(g: Geometry, chain: seq<nat>, p: nat)
    requires p < |SectorList(g, chain)|
    ensures g.dataStart <= SectorList(g, chain)[p]
    decreases |chain|
  {
    var init := chain[..|chain| - 1];
    if p < |SectorList(g, init)| {
      ChainOnData(g, init, p);
    } else {
      assert SectorList(g, chain)[p] == ClusterSectors(g, chain[|chain| - 1])[p - |SectorList(g, init)|];
    }
  }

  /** Chains without common clusters have no common sectors. */
  lemma {:induction false} SectorsApart(g: Geometry, a: seq<nat>, b: seq<nat>)
    requires Apart(a, b) && (forall i :: 0 <= i < |a| ==> a[i] >= 2) && (forall i :: 0 <= i < |b| ==> b[i] >= 2)
    ensures Apart(SectorList(g, a), SectorList(g, b))
    decreases |a|
  {
    if a != [] {
      var init, c := a[..|a| - 1], a[|a| - 1];
      SectorsApart(g, init, b);
      forall k | 0 <= k < g.sectorsPerCluster ensures ClusterSectors(g, c)[k] !in SectorList(g, b) {
        NotAmong(g, b, c, k);
      }
    }
  }

  /** The FAT does not change when data is written. */
  lemma LinksLocal(s: seq<Sector>, s': seq<Sector>, a: FatArea)
    requires Fits(s, a) && |s'| == |s| && forall lba :: a.start <= lba < CopyStart(a, Copies(a)) ==> s'[lba] == s[lba]
    ensures Fits(s', a) && Links(s', a) == Links(s, a)
  {
    forall e | 0 <= e < 128 * a.sectorsPerFat ensures Links(s', a)[e] == Links(s, a)[e] {
      LinkAt(s, a, e);
      LinkAt(s', a, e);
      EntryOnDevice(s, a, 0, e);
    }
  }

  /** The sectors hold the content, and no other sector has changed. */
  ghost predicate StreamWritten(s: seq<Sector>, s': seq<Sector>, lbas: seq<nat>, content: seq<Byte>, done: nat) {
    && |s'| == |s| && done <= |lbas|
    && (forall p :: 0 <= p < done ==> lbas[p] < |s'| && s'[lbas[p]] == ContentSector(content, p))
    && (forall lba :: 0 <= lba < |s| && lba !in lbas ==> s'[lba] == s[lba])
  }

  lemma StreamStep(s: seq<Sector>, mid: seq<Sector>, lbas: seq<nat>, content: seq<Byte>, p: nat)
    requires StreamWritten(s, mid, lbas, content, p) && p < |lbas| && lbas[p] < |s| && Distinct(lbas)
    ensures StreamWritten(s, mid[lbas[p] := ContentSector(content, p)], lbas, content, p + 1)
  {
    assert forall q :: 0 <= q < p ==> lbas[q] != lbas[p];
  }

  /**
    How far the writing came, and what stopped it: a sector off the device, or the callback after a
    sector was written.
   */
  ghost predicate WriteAt(s: seq<Sector>, lbas: seq<nat>, ask: nat -> bool, done: nat, failed: Option<FatError>) {
    match failed
    case None => done <= |lbas| && LetWrite(ask, done)
    case Some(e) =>
      || (e == OffDevice && done < |lbas| && lbas[done] >= |s| && LetWrite(ask, done))
      || (e == Refused && 0 < done <= |lbas| && !ask(done - 1) && LetWrite(ask, done - 1))
  }

  lemma StopsAt(s: seq<Sector>, lbas: seq<nat>, ask: nat -> bool, p: nat)
    requires LetWrite(ask, p) && p < |lbas|
    ensures lbas[p] >= |s| ==> WriteAt(s, lbas, ask, p, Some(OffDevice))
    ensures if ask(p) then LetWrite(ask, p + 1) else WriteAt(s, lbas, ask, p + 1, Some(Refused))
  {
  }

  /** How writing a stream ends. */
  ghost predicate WriteEnd(s: seq<Sector>, lbas: seq<nat>, ask: nat -> bool, done: nat, r: Result<()>) {
    match r
    case Ok(_) => done == |lbas| && WriteAt(s, lbas, ask, done, None)
    case Err(e) => WriteAt(s, lbas, ask, done, Some(e))
  }

  /** What stops the writing of a stream from sector `p` on, on a device of `len` sectors. */
  function StopFrom(len: nat, lbas: seq<nat>, ask: nat -> bool, p: nat): (e: Option<FatError>)
    decreases |lbas| - p
  {
    if p >= |lbas| then None
    else if lbas[p] >= len then Some(OffDevice)
    else if !ask(p) then Some(Refused)
    else StopFrom(len, lbas, ask, p + 1)
  }

  lemma {:induction false} StopsLater(len: nat, lbas: seq<nat>, ask: nat -> bool, p: nat, q: nat)
    requires p <= q <= |lbas| && forall i :: p <= i < q ==> lbas[i] < len && ask(i)
    ensures StopFrom(len, lbas, ask, p) == StopFrom(len, lbas, ask, q)
    decreases q - p
  {
    if p < q { StopsLater(len, lbas, ask, p + 1, q); }
  }

  /** All sectors are written exactly if they are on the device and the callback never refuses. */
  lemma {:induction false} WritesAll(len: nat, lbas: seq<nat>, ask: nat -> bool, p: nat)
    ensures StopFrom(len, lbas, ask, p).None? <==> forall i :: p <= i < |lbas| ==> lbas[i] < len && ask(i)
    decreases |lbas| - p
  {
    if p < |lbas| { WritesAll(len, lbas, ask, p + 1); }
  }

  /** The writing ends as the sectors and the answers of the callback have it. */
  lemma WriteStops(s: seq<Sector>, s': seq<Sector>, lbas: seq<nat>, content: seq<Byte>, ask: nat -> bool, done: nat,
                   r: Result<()>)
    requires WriteEnd(s, lbas, ask, done, r) && StreamWritten(s, s', lbas, content, done)
    ensures ErrorOf(r) == StopFrom(|s|, lbas, ask, 0)
  {
    if r == Err(Refused) && !(done < |lbas| && lbas[done] >= |s| && LetWrite(ask, done)) {
      StopsLater(|s|, lbas, ask, 0, done - 1);
    } else {
      StopsLater(|s|, lbas, ask, 0, done);
    }
  }

  /** The content is written to the sectors of the chain, filled up with zeros. */
  method WriteStream(fs: Fat32, chain: seq<nat>, content: seq<Byte>, ask: nat -> bool)
    returns (r: Result<()>, ghost done: nat)
    requires fs.Valid() && Linked(fs.T(), chain)
    modifies fs.disk
    ensures fs.Valid() && fs.T() == old(fs.T())
    ensures StreamWritten(old(fs.disk.sectors), fs.disk.sectors, SectorList(fs.g, chain), content, done)
    ensures ErrorOf(r) == StopFrom(|old(fs.disk.sectors)|, SectorList(fs.g, chain), ask, 0)
    ensures r.Ok? ==> done == |SectorList(fs.g, chain)|
  {
    ghost var s, lbas := fs.disk.sectors, SectorList(fs.g, chain);
    SectorsDistinct(fs.g, chain);
    var failed;
    failed, done := WriteClusters(fs, chain, content, ask);
    DataStillFits(s, fs.disk.sectors, fs.disk.area, fs.g, chain);
    r := if failed.Some? then Err(failed.value) else Ok(());
    WriteStops(s, fs.disk.sectors, lbas, content, ask, done, r);
  }

  /** Cluster by cluster. */
  method WriteClusters(fs: Fat32, chain: seq<nat>, content: seq<Byte>, ask: nat -> bool)
    returns (failed: Option<FatError>, ghost done: nat)
    requires Distinct(SectorList(fs.g, chain))
    modifies fs.disk
    ensures StreamWritten(old(fs.disk.sectors), fs.disk.sectors, SectorList(fs.g, chain), content, done)
            && WriteAt(old(fs.disk.sectors), SectorList(fs.g, chain), ask, done, failed)
    ensures failed.None? ==> done == |SectorList(fs.g, chain)|
  {
    ghost var s, lbas := fs.disk.sectors, SectorList(fs.g, chain);
    failed := None;
    var i: nat, start: nat := 0, 0;
    done := 0;
    while i < |chain| && failed.None?
      invariant i <= |chain| && start == SectorsOf(fs.g, i) && (failed.None? ==> done == start)
      invariant StreamWritten(s, fs.disk.sectors, lbas, content, done) && WriteAt(s, lbas, ask, done, failed)
      decreases |chain| - i
    {
      failed, done := WriteCluster(fs, chain, i, start, content, ask, s);
      i, start := i + 1, start + fs.g.sectorsPerCluster;
    }
  }

  lemma DataStillFits(s: seq<Sector>, s': seq<Sector>, a: FatArea, g: Geometry, chain: seq<nat>)
    requires DataFits(s, a, g) && |s'| == |s|
    requires forall lba :: 0 <= lba < |s| && lba !in SectorList(g, chain) ==> s'[lba] == s[lba]
    ensures DataFits(s', a, g) && Links(s', a) == Links(s, a)
  {
    forall lba | a.start <= lba < CopyStart(a, Copies(a)) ensures s'[lba] == s[lba] {
      if lba in SectorList(g, chain) {
        var p :| 0 <= p < |SectorList(g, chain)| && SectorList(g, chain)[p] == lba;
        ChainOnData(g, chain, p);
      }
    }
    LinksLocal(s, s', a);
  }

  /** Sector number `p` of the stream. */
  method WriteOne(disk: FatDisk, lba: nat, content: seq<Byte>, p: nat, ghost s: seq<Sector>, ghost lbas: seq<nat>)
    requires StreamWritten(s, disk.sectors, lbas, content, p) && p < |lbas| && lba == lbas[p] < |s| && Distinct(lbas)
    modifies disk
    ensures StreamWritten(s, disk.sectors, lbas, content, p + 1)
  {
    var sector, copyLen := CutSector(content, p * SECTOR_SIZE);
    StreamStep(s, disk.sectors, lbas, content, p);
    disk.sectors := disk.sectors[lba := sector];
  }

  method WriteCluster(fs: Fat32, chain: seq<nat>, i: nat, start: nat, content: seq<Byte>, ask: nat -> bool,
                      ghost s: seq<Sector>)
    returns (failed: Option<FatError>, ghost done: nat)
    requires i < |chain| && start == SectorsOf(fs.g, i) && Distinct(SectorList(fs.g, chain))
    requires StreamWritten(s, fs.disk.sectors, SectorList(fs.g, chain), content, start)
             && WriteAt(s, SectorList(fs.g, chain), ask, start, None)
    modifies fs.disk
    ensures StreamWritten(s, fs.disk.sectors, SectorList(fs.g, chain), content, done)
            && WriteAt(s, SectorList(fs.g, chain), ask, done, failed)
    ensures failed.None? ==> done == SectorsOf(fs.g, i + 1)
  {
    ghost var lbas := SectorList(fs.g, chain);
    for sec := 0 to fs.g.sectorsPerCluster
      invariant StreamWritten(s, fs.disk.sectors, lbas, content, start + sec) && LetWrite(ask, start + sec)
                && start + sec <= |lbas|
    {
      SectorAt(fs.g, chain, i, sec);
      StopsAt(s, lbas, ask, start + sec);
      if ClusterToLba(fs.g, chain[i]) + sec >= |fs.disk.sectors| { return Some(OffDevice), start + sec; }
      WriteOne(fs.disk, ClusterToLba(fs.g, chain[i]) + sec, content, start + sec, s, lbas);
      if !ask(start + sec) { return Some(Refused), start + sec + 1; }
    }
    return None, start + fs.g.sectorsPerCluster;
  }

  // ---- Reading ----------------------------------------------------------------------------------------------

  const READ_LIMIT: nat := 262_144

  /** The sectors the first `n` bytes lie in are on the device. */
  ghost predicate Reachable(s: seq<Sector>, lbas: seq<nat>, n: nat) {
    forall p :: 0 <= p < |lbas| && 512 * p < n ==> lbas[p] < |s|
  }

  /** The first `n` bytes of the stream stored in these sectors. */
  ghost function StreamPrefix(s: seq<Sector>, lbas: seq<nat>, n: nat): (b: seq<Byte>)
    requires n <= 512 * |lbas| && Reachable(s, lbas, n)
    ensures |b| == n && forall i :: 0 <= i < n ==> b[i] == s[lbas[i / 512]][i % 512]
  {
    seq(n, i requires 0 <= i < n => s[lbas[i / 512]][i % 512])
  }

  /** One more sector, or the beginning of one. */
  lemma PrefixGrows(s: seq<Sector>, lbas: seq<nat>, p: nat, take: nat)
    requires p < |lbas| && take <= 512 && Reachable(s, lbas, 512 * p) && lbas[p] < |s|
    ensures Reachable(s, lbas, 512 * p + take)
    ensures StreamPrefix(s, lbas, 512 * p) + s[lbas[p]][..take] == StreamPrefix(s, lbas, 512 * p + take)
  {
    var a, b := StreamPrefix(s, lbas, 512 * p) + s[lbas[p]][..take], StreamPrefix(s, lbas, 512 * p + take);
    forall i | 0 <= i < |b| ensures a[i] == b[i] {
      if i >= 512 * p { assert i / 512 == p || take == 0; }
    }
  }

  /** The clusters read for a file: enough for its size and one more, within the limit. */
  function ReadMax(g: Geometry, target: nat): (max: nat)
    requires g.sectorsPerCluster > 0
  {
    Min(Max(CeilDiv(target, 512 * g.sectorsPerCluster) + 1, 8), READ_LIMIT)
  }

  /** For `n` clusters' worth of bytes one more is read, at least eight and at most 262144. */
  lemma ReadMaxMeans(g: Geometry, target: nat, n: nat)
    requires g.sectorsPerCluster > 0
    requires n * (512 * g.sectorsPerCluster) >= target && (n > 0 ==> (n - 1) * (512 * g.sectorsPerCluster) < target)
    ensures ReadMax(g, target) == if n < 8 then 8 else if n < 262_144 then n + 1 else 262_144
  {
    SameCount(target, 512 * g.sectorsPerCluster, n, CeilDiv(target, 512 * g.sectorsPerCluster));
  }

  /** The number of blocks that hold `a` bytes is unique. */
  lemma SameCount(a: nat, b: nat, n: nat, m: nat)
    requires b > 0 && n * b >= a && (n > 0 ==> (n - 1) * b < a) && m * b >= a && (m > 0 ==> (m - 1) * b < a)
    ensures n == m
  {
    if n < m { FactorLess(m - 1, n, b); }
    if m < n { FactorLess(n - 1, m, b); }
  }

  /** What reading a file of `fileSize` bytes from cluster `first` on gives. */
  ghost function ReadOf(s: seq<Sector>, t: seq<nat>, g: Geometry, first: nat, fileSize: nat,
                        bufferLen: nat): (r: Option<seq<Byte>>)
    requires g.sectorsPerCluster > 0
  {
    if first < 2 || fileSize == 0 || bufferLen == 0 then Some([])
    else
      var chain := Walk(t, first, ReadMax(g, Min(fileSize, bufferLen)), 0);
      if chain.None? || chain.value == [] then None
      else
        var lbas := SectorList(g, chain.value);
        var n := Min(Min(fileSize, bufferLen), 512 * |lbas|);
        if Reachable(s, lbas, n) then Some(StreamPrefix(s, lbas, n)) else None
  }

  /** `read_file_sized_with_progress`, read sector by sector. */
  method ReadFileSized(fs: Fat32, first: nat, fileSize: nat, bufferLen: nat) returns (r: Option<seq<Byte>>)
    requires fs.Valid() && (2 <= first < CHAIN_END ==> InFat(fs.disk.area, first))
    ensures r == ReadOf(fs.disk.sectors, fs.T(), fs.g, first, fileSize, bufferLen)
  {
    if first < 2 || fileSize == 0 || bufferLen == 0 { return Some([]); }
    var target := Min(fileSize, bufferLen);
    var read := ReadClusterChain(fs.disk, first, ReadMax(fs.g, target));
    if read.None? { return None; }
    var chain := read.value;
    if chain == [] { return None; }
    r := ReadSectors(fs.disk, fs.g, chain, target);
  }

  /** The first bytes of the stream have been read. */
  ghost predicate ReadUpTo(s: seq<Sector>, lbas: seq<nat>, target: nat, p: nat, bytes: seq<Byte>) {
    var n := Min(target, 512 * p);
    p <= |lbas| && Reachable(s, lbas, n) && bytes == StreamPrefix(s, lbas, n)
  }

  lemma ReadStep(s: seq<Sector>, lbas: seq<nat>, target: nat, p: nat, bytes: seq<Byte>)
    requires ReadUpTo(s, lbas, target, p, bytes) && p < |lbas| && |bytes| < target
    ensures |bytes| == 512 * p
    ensures lbas[p] < |s| ==> ReadUpTo(s, lbas, target, p + 1, bytes + s[lbas[p]][..Min(target - |bytes|, SECTOR_SIZE)])
    ensures lbas[p] >= |s| ==> !Reachable(s, lbas, Min(target, 512 * |lbas|))
  {
    if lbas[p] < |s| { PrefixGrows(s, lbas, p, Min(target - |bytes|, SECTOR_SIZE)); }
  }

  lemma ReadIsOver(s: seq<Sector>, lbas: seq<nat>, target: nat, p: nat, bytes: seq<Byte>)
    requires ReadUpTo(s, lbas, target, p, bytes) && (|bytes| >= target || p == |lbas|)
    ensures Reachable(s, lbas, Min(target, 512 * |lbas|)) && bytes == StreamPrefix(s, lbas, Min(target, 512 * |lbas|))
  {
  }

  method ReadSectors(disk: FatDisk, g: Geometry, chain: seq<nat>, target: nat) returns (r: Option<seq<Byte>>)
    ensures var lbas := SectorList(g, chain); var n := Min(target, 512 * |lbas|);
            r == if Reachable(disk.sectors, lbas, n) then Some(StreamPrefix(disk.sectors, lbas, n)) else None
  {
    ghost var lbas := SectorList(g, chain);
    var bytes: seq<Byte> := [];
    for i := 0 to |chain|
      invariant ReadUpTo(disk.sectors, lbas, target, SectorsOf(g, i), bytes)
    {
      for sec := 0 to g.sectorsPerCluster
        invariant ReadUpTo(disk.sectors, lbas, target, Position(g, i, sec), bytes)
      {
        if |bytes| >= target {
          ReadIsOver(disk.sectors, lbas, target, Position(g, i, sec), bytes);
          return Some(bytes);
        }
        SectorAt(g, chain, i, sec);
        ReadStep(disk.sectors, lbas, target, Position(g, i, sec), bytes);
        var lba := ClusterToLba(g, chain[i]) + sec;
        if lba >= |disk.sectors| { return None; }
        bytes := bytes + disk.sectors[lba][..Min(target - |bytes|, SECTOR_SIZE)];
      }
    }
    ReadIsOver(disk.sectors, lbas, target, |lbas|, bytes);
    return Some(bytes);
  }

  /** Of a whole chain the walk gives as much as it is asked for. */
  lemma {:induction false} WalkPrefix(t: seq<nat>, chain: seq<nat>, max: nat, k: nat)
    requires StrictChain(t, chain) && k < |chain| && k < max <= WALK_LIMIT
    ensures Walk(t, chain[k], max, k) == Some(chain[k..Min(|chain|, max)])
    decreases |chain| - k
  {
    var n := Min(|chain|, max);
    if k + 1 < n {
      assert t[chain[k]] == chain[k + 1] != chain[k];
      WalkPrefix(t, chain, max, k + 1);
      assert chain[k..n] == [chain[k]] + chain[k + 1..n];
    } else {
      assert chain[k..n] == [chain[k]];
    }
  }

  lemma SeenIsRead(t: seq<nat>, chain: seq<nat>)
    requires StrictChain(t, chain) && chain != []
    ensures Walk(t, chain[0], OLD_LIMIT, 0) == Some(Seen(chain))
  {
    WalkPrefix(t, chain, OLD_LIMIT, 0);
    assert chain[0..Min(|chain|, OLD_LIMIT)] == Seen(chain);
  }

  /** The bytes of a written stream are the content. */
  lemma PrefixIsContent(s: seq<Sector>, lbas: seq<nat>, content: seq<Byte>)
    requires |content| <= 512 * |lbas|
             && forall p :: 0 <= p < |lbas| ==> lbas[p] < |s| && s[lbas[p]] == ContentSector(content, p)
    ensures Reachable(s, lbas, |content|) && StreamPrefix(s, lbas, |content|) == content
  {
    forall i | 0 <= i < |content| ensures StreamPrefix(s, lbas, |content|)[i] == content[i] {
      assert s[lbas[i / 512]] == ContentSector(content, i / 512);
      assert 512 * (i / 512) + i % 512 == i;
    }
  }
}
