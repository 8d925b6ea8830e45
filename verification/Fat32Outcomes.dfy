/**
  When a file can be written on a FAT32 volume, and what becomes of a directory that is longer
  than what is read of it.
 */
module Fat32Outcomes {
  import opened Bytes
  import opened SectorCopy
  import opened Fat32Table
  import opened Fat32Alloc
  import opened Fat32Streams
  import opened Fat32Directory
  import opened Fat32Storing
  import opened Fat32Files

  // ---- Room for a file --------------------------------------------------------------------------------

  /** The callback never refuses. */
  ghost predicate Granting(progress: Call -> bool) { forall call {:trigger progress(call)} :: progress(call) }

  ghost predicate ClusterOn(device: nat, g: Geometry, c: nat) {
    forall k {:trigger ClusterSectors(g, c)[k]} :: 0 <= k < g.sectorsPerCluster ==> ClusterSectors(g, c)[k] < device
  }

  /** Every cluster the table has a link for is on the device. */
  ghost predicate Whole(device: nat, t: seq<nat>, g: Geometry) {
    forall c {:trigger ClusterOn(device, g, c)} :: 2 <= c < |t| ==> ClusterOn(device, g, c)
  }

  ghost predicate Within(t: seq<nat>, chain: seq<nat>) { forall i :: 0 <= i < |chain| ==> 2 <= chain[i] < |t| }

  lemma {:induction false} SectorsOn(device: nat, t: seq<nat>, g: Geometry, chain: seq<nat>, p: nat)
    requires Whole(device, t, g) && Within(t, chain) && p < |SectorList(g, chain)|
    ensures SectorList(g, chain)[p] < device
    decreases |chain|
  {
    var init, c := chain[..|chain| - 1], chain[|chain| - 1];
    if p < |SectorList(g, init)| {
      SectorsOn(device, t, g, init, p);
    } else {
      assert ClusterOn(device, g, c);
      assert SectorList(g, chain)[p] == ClusterSectors(g, c)[p - |SectorList(g, init)|];
    }
  }

  lemma {:induction false} TakesWithin(t: seq<nat>, hint: nat, n: nat)
    ensures Within(t, Takes(t, hint, n))
    decreases n
  {
    if n > 0 && FirstFree(t, hint).Some? {
      var c := FirstFree(t, hint).value;
      TakesWithin(t[c := FAT32_EOC], NextHint(t, c), n - 1);
    }
  }

  lemma BothWithin(t: seq<nat>, a: seq<nat>, b: seq<nat>)
    requires Within(t, a) && Within(t, b)
    ensures Within(t, a + b)
  {
  }

  lemma LinkedWithin(t: seq<nat>, chain: seq<nat>)
    requires Linked(t, chain)
    ensures Within(t, chain) && Within(t, Seen(chain))
  {
  }

  lemma FittedWithin(t: seq<nat>, hint: nat, old_: seq<nat>, required: nat)
    requires Linked(t, old_)
    ensures Within(t, FittedChain(t, hint, old_, required))
  {
    LinkedWithin(t, old_);
    if |Seen(old_)| <= required {
      TakesWithin(t, hint, required - |Seen(old_)|);
      BothWithin(t, Seen(old_), Takes(t, hint, required - |Seen(old_)|));
    }
  }

  /** Nothing stops a write to clusters of the table. */
  lemma NothingStops(device: nat, t: seq<nat>, g: Geometry, chain: seq<nat>, ask: nat -> bool)
    requires Whole(device, t, g) && Within(t, chain) && forall k :: ask(k)
    ensures StopFrom(device, SectorList(g, chain), ask, 0).None?
  {
    forall p | 0 <= p < |SectorList(g, chain)| ensures SectorList(g, chain)[p] < device {
      SectorsOn(device, t, g, chain, p);
    }
    WritesAll(device, SectorList(g, chain), ask, 0);
  }

  /** The clusters a file of `count` clusters takes beside those that are read of the one it replaces. */
  function Needed(len: nat, count: nat): (n: nat) {
    if Min(len, OLD_LIMIT) < count then count - Min(len, OLD_LIMIT) else 0
  }

  /** The clusters it gives back. */
  function GivenBack(len: nat, count: nat): (n: nat) { if count < Min(len, OLD_LIMIT) then len - count else 0 }

  /** There are enough free clusters, and not more to give back than the engine frees at a time. */
  ghost predicate HasRoom(spare: nat, len: nat, count: nat) {
    Needed(len, count) <= spare && GivenBack(len, count) <= FREE_LIMIT + 1
  }

  lemma FitsExactlyWhen(spare: nat, len: nat, required: nat, progress: Call -> bool, before: nat)
    requires Granting(progress) && required > 0
    ensures FitError(spare, len, required, progress, before).None? <==> HasRoom(spare, len, required)
  {
    forall k: nat ensures AskedToExtend(progress, before)(k) { assert progress(Extended(k)); }
    assert progress(Chosen) && progress(Fitted) && progress(Cut);
  }

  lemma StoresExactlyWhen(device: nat, t: seq<nat>, hint: nat, g: Geometry, old_: seq<nat>, length: nat,
                          progress: Call -> bool, before: nat)
    requires g.sectorsPerCluster > 0 && Granting(progress) && Whole(device, t, g) && Linked(t, old_)
    ensures StoreError(device, t, hint, g, old_, length, progress, before).None? <==>
              HasRoom(Spare(t), |old_|, ClusterCount(g, length))
  {
    var count := ClusterCount(g, length);
    if length == 0 {
      assert progress(Emptied);
    } else {
      NeedsOne(length, 512 * g.sectorsPerCluster);
      FitsExactlyWhen(Spare(t), |old_|, count, progress, before);
      FittedWithin(t, hint, old_, count);
      forall k: nat ensures AskedForData(progress)(k) { assert progress(Data(k)); }
      NothingStops(device, t, g, FittedChain(t, hint, old_, count), AskedForData(progress));
    }
  }

  lemma FullExactlyWhen(device: nat, t: seq<nat>, hint: nat, g: Geometry, dirChain: seq<nat>, length: nat,
                        progress: Call -> bool, before: nat)
    requires g.sectorsPerCluster > 0 && Granting(progress) && Whole(device, t, g) && Linked(t, dirChain)
             && dirChain != []
    ensures FullError(device, t, hint, g, dirChain, length, progress, before).None? <==>
              |dirChain| < OLD_LIMIT && ClusterCount(g, length) < Spare(t)
  {
    NoZeros(t, 2);
    if FirstFree(t, hint).Some? {
      var c, after := FirstFree(t, hint).value, before + g.sectorsPerCluster;
      var t' := LinkedBehind(t, dirChain, c);
      ChainInUse(t, dirChain, |dirChain| - 1);
      OneTaken(t, hint, dirChain, c, 0);
      forall k: nat ensures AskedToZero(progress, before)(k) { assert progress(Zeroed(k)); }
      NothingStops(device, t, g, [c], AskedToZero(progress, before));
      FullThenGrown(device, t, hint, g, dirChain, length, progress, before, c, t', NextHint(t, c), after);
      GrownExactlyWhen(device, t', NextHint(t, c), g, |dirChain|, length, progress, after);
    }
  }

  lemma GrownExactlyWhen(device: nat, t: seq<nat>, hint: nat, g: Geometry, dirLength: nat, length: nat,
                         progress: Call -> bool, before: nat)
    requires g.sectorsPerCluster > 0 && Granting(progress) && Whole(device, t, g)
    ensures GrownError(device, t, hint, g, dirLength, length, progress, before).None? <==>
              dirLength < OLD_LIMIT && ClusterCount(g, length) <= Spare(t)
  {
    StoresExactlyWhen(device, t, hint, g, [], length, progress, before);
  }

  /**
    With a callback that never refuses, on a volume whose table has no more entries than the device has
    clusters, a file is written exactly when its name is not taken by a directory or another file and
    there is room: in the directory or for one more cluster of it, and for the content.
   */
  lemma WritesExactlyWhen(device: nat, t: seq<nat>, hint: nat, g: Geometry, dirChain: seq<nat>, es: seq<DirEntry>,
                          name: ShortName, strict: bool, old_: seq<nat>, length: nat, progress: Call -> bool)
    requires g.sectorsPerCluster > 0 && Granting(progress) && Whole(device, t, g)
    requires Linked(t, old_) && Linked(t, dirChain) && dirChain != []
    ensures FileError(device, t, hint, g, dirChain, es, name, strict, old_, length, progress).None? <==>
              match ScanFrom(es, name, strict, 0, None)
              case TargetIsDirectory => false
              case TargetExists => false
              case Full => |dirChain| < OLD_LIMIT && ClusterCount(g, length) < Spare(t)
              case _ => HasRoom(Spare(t), |old_|, ClusterCount(g, length))
    ensures FileError(device, t, hint, g, dirChain, es, name, strict, old_, length, progress).None? <==>
              if exists i: nat :: FirstNamed(es, name, 0, i)
              then (forall i: nat :: FirstNamed(es, name, 0, i) ==> strict && !Bit4(es[i]))
                   && HasRoom(Spare(t), |old_|, ClusterCount(g, length))
              else if forall j :: 0 <= j < |es| ==> es[j][0] != 0 && es[j][0] != 0xE5
              then |dirChain| < OLD_LIMIT && ClusterCount(g, length) < Spare(t)
              else HasRoom(Spare(t), |old_|, ClusterCount(g, length))
  {
    if i: nat :| FirstNamed(es, name, 0, i) {
      OneFirst(es, name, i);
      NamedDecides(es, name, strict, 0, None, i);
    } else {
      UnnamedDecides(es, name, strict, 0, None);
    }
    var n := SectorsScanned(es, name);
    forall k | 1 <= k <= n && k % 32 == 0 ensures progress(Scanned(k)) {}
    FullExactlyWhen(device, t, hint, g, dirChain, length, progress, n);
    StoresExactlyWhen(device, t, hint, g, old_, length, progress, n);
  }

  lemma OneFirst(es: seq<DirEntry>, name: ShortName, i: nat)
    requires FirstNamed(es, name, 0, i)
    ensures forall j: nat :: FirstNamed(es, name, 0, j) ==> j == i
  {
  }

  /**
    A directory of the name is in the way, and so is a file whose short name was made up: the write ends with
    that error exactly when the first entry that bears the name says so, and then leaves every sector alone.
   */
  lemma TakenExactlyWhen(device: nat, t: seq<nat>, hint: nat, g: Geometry, dirChain: seq<nat>, es: seq<DirEntry>,
                         name: ShortName, strict: bool, old_: seq<nat>, length: nat, progress: Call -> bool)
    requires g.sectorsPerCluster > 0 && LetScan(progress, SectorsScanned(es, name))
    ensures var e := FileError(device, t, hint, g, dirChain, es, name, strict, old_, length, progress);
            && (e == Some(IsDirectory) <==> exists i: nat :: FirstNamed(es, name, 0, i) && Bit4(es[i]))
            && (e == Some(Exists) <==> !strict && exists i: nat :: FirstNamed(es, name, 0, i) && !Bit4(es[i]))
            && (e == Some(IsDirectory) || e == Some(Exists) ==> Blocked(es, name, strict, progress))
  {
    NeverTaken(device, t, hint, g, dirChain, old_, length, progress, SectorsScanned(es, name));
    if i: nat :| FirstNamed(es, name, 0, i) {
      OneFirst(es, name, i);
      NamedDecides(es, name, strict, 0, None, i);
    } else {
      UnnamedDecides(es, name, strict, 0, None);
    }
  }

  /** Neither storing nor growing fails for the name. */
  lemma NeverTaken(device: nat, t: seq<nat>, hint: nat, g: Geometry, dirChain: seq<nat>, old_: seq<nat>, length: nat,
                   progress: Call -> bool, before: nat)
    requires g.sectorsPerCluster > 0
    ensures StoreError(device, t, hint, g, old_, length, progress, before) !in {Some(IsDirectory), Some(Exists)}
    ensures FullError(device, t, hint, g, dirChain, length, progress, before) !in {Some(IsDirectory), Some(Exists)}
  {
    StoresQuietly(device, t, hint, g, old_, length, progress, before);
    var c := FirstFree(t, hint);
    if c.Some? {
      StopsFor(device, SectorList(g, [c.value]), AskedToZero(progress, before), 0);
      StoresQuietly(device, LinkedBehind(t, dirChain, c.value), NextHint(t, c.value), g, [], length, progress,
          before + g.sectorsPerCluster);
    }
  }

  lemma StoresQuietly(device: nat, t: seq<nat>, hint: nat, g: Geometry, old_: seq<nat>, length: nat,
                      progress: Call -> bool, before: nat)
    requires g.sectorsPerCluster > 0
    ensures StoreError(device, t, hint, g, old_, length, progress, before) !in {Some(IsDirectory), Some(Exists)}
  {
    var lbas := SectorList(g, FittedChain(t, hint, old_, ClusterCount(g, length)));
    StopsFor(device, lbas, AskedForData(progress), 0);
  }

  // ---- A directory longer than what is read of it -----------------------------------------------------------

  /**
    A full directory of more than 1024 clusters is cut before the error is found: its 1024th cluster
    leads to a new one, the clusters behind it stay in use, and nothing leads to the first of them that
    did not before.
   */
  lemma DirectoryTailIsLost(t: seq<nat>, t': seq<nat>, hint: nat, dirChain: seq<nat>, i: nat)
    requires StrictChain(t, dirChain) && OLD_LIMIT <= i < |dirChain| && CutThere(t, t', hint, Seen(dirChain))
    ensures |t'| == |t| && t'[dirChain[i]] == t[dirChain[i]] != 0
            && t'[dirChain[OLD_LIMIT - 1]] != dirChain[OLD_LIMIT]
    ensures forall c :: 0 <= c < |t'| && t'[c] == dirChain[OLD_LIMIT] ==>
              t[c] == dirChain[OLD_LIMIT] && c != dirChain[OLD_LIMIT - 1]
  {
    var c := FirstFree(t, hint).value;
    ChainInUse(t, dirChain, i);
    ChainInUse(t, dirChain, OLD_LIMIT);
    assert Seen(dirChain)[OLD_LIMIT - 1] == dirChain[OLD_LIMIT - 1];
    assert t' == t[dirChain[OLD_LIMIT - 1] := c][c := FAT32_EOC];
  }
}
