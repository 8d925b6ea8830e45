/**
  Whole runs of operations. A run of requests, carried out one after the other by the operations of
  the engine, keeps the volume sound and does to its tree what the requests and the replies to them
  say, as long as no request stops half way; and no cluster is lost unless a chain was too long to
  be walked.
 */
module ExFatRuns {
  import opened Bytes
  import opened ExFatEntrySet
  import opened ExFatParse
  import opened ExFatScan
  import opened ExFatDirectory
  import opened ExFatChains
  import opened ExFatAllocator
  import opened ExFatLayout
  import opened ExFatInvariant
  import opened ExFatReading
  import opened ExFatGrowth
  import opened ExFatInstall
  import opened ExFatNames
  import opened ExFatView
  import opened ExFatData
  import opened ExFatTaking
  import opened ExFatOneTree
  import opened ExFatOperations
  import opened ExFatDirectories
  import opened ExFatListing
  import opened ExFatDeleting

  // ---- Requests -----------------------------------------------------------------------------------

  datatype Request =
    | Write(dir: nat, text: seq<nat>, content: seq<Byte>, progress: nat -> bool)
    | Make(dir: nat, text: seq<nat>)
    | Delete(dir: nat, text: seq<nat>, wanted: Option<bool>)
    | List(dir: nat)

  datatype Reply =
    | Wrote(result: Result<()>) | MadeIt(made: Result<nat>) | Deleted(result: Result<()>) | Shown(sets: seq<SetInfo>)

  /** A volume, and an account of its clusters. */
  datatype State = State(v: Vol, l: Layout, loose: set<nat>)

  /** The state is sound and stands for the tree `t`. */
  ghost predicate Stands(s: State, t: Tree) { Good(s.v, s.l, s.loose, t) }

  function DirOf(root: nat, req: Request): (d: nat) { if req.dir >= 2 then req.dir else root }

  /** What the caller promises: the directory exists, is read in full, and can take a set of the name. */
  ghost predicate Admits(s: State, req: Request) {
    var d := DirOf(s.v.root, req);
    match req
    case Write(_, text, content, _) => |content| < U64 && Usable(s.v, s.l, d, NameOf(text))
    case Make(_, text) => Usable(s.v, s.l, d, NameOf(text))
    case Delete(_, _, _) => Usable(s.v, s.l, d, None)
    case List(_) => d in s.l.depth
  }

  ghost predicate Readable(s: State, d: nat, name: Name) {
    Shape(s.v) && d in s.l.chains && InHeap(s.v, s.l.chains[d]) && RequiredEntryCount(|name|).Some?
  }

  /**
    The request does not stop half way: no directory is grown in vain, and no directory is deleted
    that only passes for empty.
   */
  ghost predicate Finishes(s: State, req: Request) {
    var d := DirOf(s.v.root, req);
    req.List? || NameOf(req.text).None? || !Readable(s, d, NameOf(req.text).value) ||
    var name := NameOf(req.text).value;
    var found := Find(Table(Contents(s.v.heap, s.l.chains[d])), 0, name);
    match req
    case Write(_, _, content, progress) =>
      Spares(CommitError(s.v, s.l, d, name, ClusterCountFor(|content|, ClusterBytes(s.v)), progress))
    case Make(_, _) => found.Some? || Spares(MakeError(s.v, s.l, d, name))
    case Delete(_, _, wanted) =>
      DeleteError(s.v, s.l, d, name, wanted).None? ==> found.Some? && MayRemove(s.l, d, found.value)
    case List(_) => true
  }

  predicate Spares(e: Option<Error>) { e.Some? ==> !Damaging(e.value) }

  // ---- What a request comes to ----------------------------------------------------------------------

  /** A write has put the file in place if it says so, or if it was refused only after the last cluster. */
  ghost predicate InPlace(r: Result<()>, content: seq<Byte>, progress: nat -> bool, m: nat)
    requires m > 0
  {
    r.Ok? || (r == Err(Canceled) && forall k :: 0 <= k < 2 + ClusterCountFor(|content|, 32 * m) ==> progress(k))
  }

  /** What the operation promises about a request made of a state that stands for `t`. */
  ghost predicate Outcome(s: State, t: Tree, req: Request, reply: Reply, s': State) {
    var d := DirOf(s.v.root, req);
    && s'.v == s.v.(fat := s'.v.fat, bitmap := s'.v.bitmap, heap := s'.v.heap, hint := s'.v.hint, cache := s'.v.cache)
    && (!req.List? && NameOf(req.text).None? ==> s' == s)
    && match req
       case Write(_, text, content, progress) =>
         && reply.Wrote? && s.v.entriesPerCluster > 0
         && (NameOf(text).None? ==> reply.result.Err? && NameError(reply.result.error))
         && (NameOf(text).Some? ==>
               WriteOutcome(s.v, s'.v, s.l, s.loose, t, d, NameOf(text).value, content, progress, reply.result,
                            s'.l, s'.loose, InPlace(reply.result, content, progress, s.v.entriesPerCluster)))
       case Make(_, text) =>
         && reply.MadeIt? && s'.loose == s.loose
         && (NameOf(text).None? ==> reply.made.Err? && NameError(reply.made.error))
         && (NameOf(text).Some? ==> EnsureOutcome(s.v, s'.v, s.l, s.loose, t, d, NameOf(text).value, reply.made, s'.l))
       case Delete(_, text, wanted) =>
         && reply.Deleted?
         && (NameOf(text).None? ==> reply.result.Err? && NameError(reply.result.error))
         && (NameOf(text).Some? ==>
               exists x :: DeleteOutcome(s.v, s'.v, s.l, s.loose, t, d, NameOf(text).value, wanted, reply.result, s'.l,
                   s'.loose, x))
       case List(_) =>
         && reply.Shown? && s'.l == s.l && s'.loose == s.loose && s'.v == s.v.(cache := s'.v.cache) && Stands(s', t)
         && d in s.l.chains && d in s.l.live && AsSetOf(reply.sets) == ListedSets(s.v, s.l, d)
  }

  /** One request: from a sound state that admits it, what the operation promises. */
  ghost predicate Step(s: State, req: Request, reply: Reply, s': State) {
    forall t {:trigger Stands(s, t)} :: Stands(s, t) && Admits(s, req) ==> Outcome(s, t, req, reply, s')
  }

  lemma OutcomeIsStep(s: State, t: Tree, req: Request, reply: Reply, s': State)
    requires Stands(s, t) && Outcome(s, t, req, reply, s')
    ensures Step(s, req, reply, s')
  {
    forall t' | Stands(s, t') ensures t' == t { TreeUnique(s.v, s.l, s.loose, t', s.l, s.loose, t); }
  }

  lemma WrittenIsInPlace(v: Vol, v': Vol, l: Layout, loose: set<nat>, t: Tree, d: nat, name: Name, content: seq<Byte>,
                         progress: nat -> bool,
                         r: Result<()>, l': Layout, loose': set<nat>, written: bool)
    requires WriteOutcome(v, v', l, loose, t, d, name, content, progress, r, l', loose', written)
    ensures written <==> InPlace(r, content, progress, v.entriesPerCluster)
  {
  }

  method PerformWrite(disk: Volume, req: Request, ghost s: State, ghost t: Tree) returns (reply: Reply, ghost s': State)
    requires disk.V() == s.v && Stands(s, t) && Admits(s, req) && req.Write?
    modifies disk
    ensures disk.V() == s'.v && Outcome(s, t, req, reply, s')
  {
    var r; ghost var l', loose', written;
    r, l', loose', written := WriteFile(disk, req.dir, req.text, req.content, req.progress, s.l, s.loose, t);
    s' := if NameOf(req.text).None? then s else State(disk.V(), l', loose');
    reply := Wrote(r);
    if NameOf(req.text).Some? {
      WrittenIsInPlace(s.v, s'.v, s.l, s.loose, t, DirOf(s.v.root, req), NameOf(req.text).value, req.content,
          req.progress, r, l', loose', written);
    }
  }

  method PerformMake(disk: Volume, req: Request, ghost s: State, ghost t: Tree) returns (reply: Reply, ghost s': State)
    requires disk.V() == s.v && Stands(s, t) && Admits(s, req) && req.Make?
    modifies disk
    ensures disk.V() == s'.v && Outcome(s, t, req, reply, s')
  {
    var r; ghost var l';
    r, l' := EnsureSubdirectory(disk, req.dir, req.text, s.l, s.loose, t);
    s' := if NameOf(req.text).None? then s else State(disk.V(), l', s.loose);
    reply := MadeIt(r);
  }

  method PerformDelete(disk: Volume, req: Request, ghost s: State, ghost t: Tree)
    returns (reply: Reply, ghost s': State)
    requires disk.V() == s.v && Stands(s, t) && Admits(s, req) && req.Delete?
    modifies disk
    ensures disk.V() == s'.v && Outcome(s, t, req, reply, s')
  {
    var r; ghost var l', loose', x;
    r, l', loose', x := DeleteEntry(disk, req.dir, req.text, req.wanted, s.l, s.loose, t);
    s' := if NameOf(req.text).None? then s else State(disk.V(), l', loose');
    reply := Deleted(r);
  }

  method PerformList(disk: Volume, req: Request, ghost s: State, ghost t: Tree) returns (reply: Reply, ghost s': State)
    requires disk.V() == s.v && Stands(s, t) && Admits(s, req) && req.List?
    modifies disk
    ensures disk.V() == s'.v && Outcome(s, t, req, reply, s')
  {
    var sets := ListDirectory(disk, req.dir, s.l, s.loose, t);
    s' := State(disk.V(), s.l, s.loose);
    reply := Shown(sets);
  }

  /** A request is carried out by the operation it names. */
  method Perform(disk: Volume, req: Request, ghost s: State, ghost t: Tree) returns (reply: Reply, ghost s': State)
    requires disk.V() == s.v && Stands(s, t) && Admits(s, req)
    modifies disk
    ensures disk.V() == s'.v && Step(s, req, reply, s')
  {
    match req {
      case Write(_, _, _, _) => reply, s' := PerformWrite(disk, req, s, t);
      case Make(_, _) => reply, s' := PerformMake(disk, req, s, t);
      case Delete(_, _, _) => reply, s' := PerformDelete(disk, req, s, t);
      case List(_) => reply, s' := PerformList(disk, req, s, t);
    }
    OutcomeIsStep(s, t, req, reply, s');
  }

  // ---- The tree's side --------------------------------------------------------------------------------

  /** A name is taken out of a directory, and with it the directory it stood for. */
  function Erase(t: Tree, d: nat, name: Name): (r: Tree)
    requires d in t && UpperName(name) in t[d]
  {
    var r := t[d := t[d] - {UpperName(name)}];
    match t[d][UpperName(name)] case Directory(c) => r - {c} case File(_) => r
  }

  /** What a request and the reply to it do to the tree. */
  ghost function After(t: Tree, root: nat, m: nat, req: Request, reply: Reply): (r: Tree)
    requires m > 0
  {
    var d := DirOf(root, req);
    if req.List? || d !in t || NameOf(req.text).None? then t
    else
      var name := NameOf(req.text).value;
      match (req, reply)
      case (Write(_, _, content, progress), Wrote(r)) =>
        if InPlace(r, content, progress, m) then Put(t, d, name, File(content)) else t
      case (Make(_, _), MadeIt(r)) =>
        if r.Ok? && UpperName(name) !in t[d] then Put(t, d, name, Directory(r.value)) else t
      case (Delete(_, _, _), Deleted(r)) =>
        if (r.Ok? || r == Err(ChainLoop)) && UpperName(name) in t[d] then Erase(t, d, name) else t
      case _ => t
  }

  ghost function AfterAll(t: Tree, root: nat, m: nat, reqs: seq<Request>, replies: seq<Reply>): (r: Tree)
    requires m > 0 && |reqs| == |replies|
  {
    if reqs == [] then t
    else var k := |reqs| - 1; After(AfterAll(t, root, m, reqs[..k], replies[..k]), root, m, reqs[k], replies[k])
  }

  lemma AfterOneMore(t: Tree, root: nat, m: nat, reqs: seq<Request>, replies: seq<Reply>, i: nat)
    requires m > 0 && i < |reqs| && i < |replies|
    ensures AfterAll(t, root, m, reqs[..i + 1], replies[..i + 1])
            == After(AfterAll(t, root, m, reqs[..i], replies[..i]), root, m, reqs[i], replies[i])
  {
    assert reqs[..i + 1][..i] == reqs[..i] && replies[..i + 1][..i] == replies[..i];
  }

  // ---- One step ------------------------------------------------------------------------------------------

  ghost predicate Kept(s: State, t: Tree, req: Request, reply: Reply, s': State) {
    s.v.entriesPerCluster > 0 && Stands(s', After(t, s.v.root, s.v.entriesPerCluster, req, reply))
        && Lost(s.l, s.loose, s'.loose)
  }

  lemma WriteStep(s: State, t: Tree, req: Request, reply: Reply, s': State)
    requires Stands(s, t) && Finishes(s, req) && Outcome(s, t, req, reply, s') && req.Write? && NameOf(req.text).Some?
    ensures Kept(s, t, req, reply, s')
  {
  }

  lemma MakeStep(s: State, t: Tree, req: Request, reply: Reply, s': State)
    requires Stands(s, t) && Finishes(s, req) && Outcome(s, t, req, reply, s') && req.Make? && NameOf(req.text).Some?
    ensures Kept(s, t, req, reply, s')
  {
    var d, name := DirOf(s.v.root, req), NameOf(req.text).value;
    LookupInTree(s.v, s.l, s.loose, t, d, name);
  }

  /** Taking a set out of its directory is erasing its name from the tree. */
  lemma WithoutIsErase(v: Vol, l: Layout, loose: set<nat>, t: Tree, d: nat, name: Name, x: SetInfo)
    requires Good(v, l, loose, t) && d in l.live && x in l.live[d] && EqIgnoreCase(x.name, name)
    ensures d in t && UpperName(name) in t[d] && Without(t, d, x) == Erase(t, d, name)
  {
    FoundListed(v, l, t, d, name, x);
    SameUpperName(x.name, name);
  }

  lemma DeleteStep(s: State, t: Tree, req: Request, reply: Reply, s': State)
    requires Stands(s, t) && Finishes(s, req) && Outcome(s, t, req, reply, s') && req.Delete? && NameOf(req.text).Some?
    ensures Kept(s, t, req, reply, s')
  {
    var d, name := DirOf(s.v.root, req), NameOf(req.text).value;
    var x :| DeleteOutcome(s.v, s'.v, s.l, s.loose, t, d, name, req.wanted, reply.result, s'.l, s'.loose, x);
    if x.Some? { WithoutIsErase(s.v, s.l, s.loose, t, d, name, x.value); }
    AfterDelete(t, s.v.root, s.v.entriesPerCluster, req, reply, x.Some?);
  }

  lemma AfterDelete(t: Tree, root: nat, m: nat, req: Request, reply: Reply, gone: bool)
    requires m > 0 && req.Delete? && reply.Deleted? && NameOf(req.text).Some? && DirOf(root, req) in t
    requires gone <==> reply.result.Ok? || reply.result == Err(ChainLoop)
    requires gone ==> UpperName(NameOf(req.text).value) in t[DirOf(root, req)]
    ensures After(t, root, m, req, reply)
         == if gone then Erase(t, DirOf(root, req), NameOf(req.text).value) else t
  {
  }

  /** A request that does not stop half way leaves a sound volume that stands for the tree it should. */
  lemma StepKeeps(s: State, t: Tree, req: Request, reply: Reply, s': State)
    requires Stands(s, t) && Admits(s, req) && Finishes(s, req) && Step(s, req, reply, s')
    ensures Kept(s, t, req, reply, s') && s'.v.root == s.v.root && s'.v.entriesPerCluster == s.v.entriesPerCluster
            && s'.v.clusterCount == s.v.clusterCount
  {
    if req.List? || NameOf(req.text).None? {
    } else if req.Write? {
      WriteStep(s, t, req, reply, s');
    } else if req.Make? {
      MakeStep(s, t, req, reply, s');
    } else {
      DeleteStep(s, t, req, reply, s');
    }
  }

  // ---- Runs -------------------------------------------------------------------------------------------------

  ghost predicate StepAt(states: seq<State>, reqs: seq<Request>, replies: seq<Reply>, i: nat)
    requires i < |reqs| == |replies| == |states| - 1
  {
    Step(states[i], reqs[i], replies[i], states[i + 1])
  }

  /** Every request was carried out on the state the one before it left. */
  ghost predicate IsRun(states: seq<State>, reqs: seq<Request>, replies: seq<Reply>) {
    |states| == |reqs| + 1 == |replies| + 1
        && forall i: nat {:trigger StepAt(states, reqs, replies, i)} :: i < |reqs| ==> StepAt(states, reqs, replies, i)
  }

  /** And every state met on the way admitted the request made of it, and let it finish. */
  ghost predicate Granted(states: seq<State>, reqs: seq<Request>) {
    |states| > |reqs| && forall i: nat {:trigger states[i]} :: i < |reqs| ==>
          Admits(states[i], reqs[i]) && Finishes(states[i], reqs[i])
  }

  /**
    Every state a run passes through is sound and stands for what the requests so far have made of
    the tree at its beginning.
   */
  lemma {:induction false} RunsFollowTheTree(states: seq<State>, reqs: seq<Request>, replies: seq<Reply>, t: Tree,
                                             i: nat)
    requires IsRun(states, reqs, replies) && Granted(states, reqs) && Stands(states[0], t) && i <= |reqs|
    ensures var m := states[0].v.entriesPerCluster;
            m > 0 && Stands(states[i], AfterAll(t, states[0].v.root, m, reqs[..i], replies[..i]))
    ensures states[i].v.root == states[0].v.root && states[i].v.entriesPerCluster == states[0].v.entriesPerCluster
    ensures states[i].v.clusterCount == states[0].v.clusterCount
    decreases i
  {
    if i > 0 {
      RunsFollowTheTree(states, reqs, replies, t, i - 1);
      assert StepAt(states, reqs, replies, i - 1);
      var before := AfterAll(t, states[0].v.root, states[0].v.entriesPerCluster, reqs[..i - 1], replies[..i - 1]);
      StepKeeps(states[i - 1], before, reqs[i - 1], replies[i - 1], states[i]);
      AfterOneMore(t, states[0].v.root, states[0].v.entriesPerCluster, reqs, replies, i - 1);
    }
  }

  /** If no chain on the way is too long to be walked, a run loses no cluster. */
  lemma {:induction false} RunsLoseNothing(states: seq<State>, reqs: seq<Request>, replies: seq<Reply>, t: Tree, i: nat)
    requires IsRun(states, reqs, replies) && Granted(states, reqs) && Stands(states[0], t) && i <= |reqs|
             && states[0].loose == {}
    requires forall j, a :: 0 <= j < i ==> !TooLong(states[j].l, a)
    ensures states[i].loose == {}
    decreases i
  {
    if i > 0 {
      RunsLoseNothing(states, reqs, replies, t, i - 1);
      RunStepLoses(states, reqs, replies, t, i - 1);
      assert forall a :: a in states[i].loose ==> TooLong(states[i - 1].l, a);
    }
  }

  lemma RunStepLoses(states: seq<State>, reqs: seq<Request>, replies: seq<Reply>, t: Tree, i: nat)
    requires IsRun(states, reqs, replies) && Granted(states, reqs) && Stands(states[0], t) && i < |reqs|
    ensures Lost(states[i].l, states[i].loose, states[i + 1].loose)
  {
    RunsFollowTheTree(states, reqs, replies, t, i);
    assert StepAt(states, reqs, replies, i);
    var now := AfterAll(t, states[0].v.root, states[0].v.entriesPerCluster, reqs[..i], replies[..i]);
    StepKeeps(states[i], now, reqs[i], replies[i], states[i + 1]);
  }

  /** A chain is no longer than the volume. */
  lemma ChainFitsVolume(v: Vol, l: Layout, loose: set<nat>, a: nat)
    requires Inv(v, l, loose, {}) && a in l.chains
    ensures |l.chains[a]| <= v.clusterCount
  {
    assert ChainOwned(l, a);
    ChainInHeap(v, l, loose, {}, a);
    var all := Consecutive(2, v.clusterCount);
    forall c | c in l.chains[a] ensures c in all { assert all[c - 2] == c; }
    DistinctSize(l.chains[a]);
    DistinctSize(all);
    SubsetSize(Elements(l.chains[a]), Elements(all));
  }

  lemma NeverTooLong(v: Vol, l: Layout, loose: set<nat>, a: nat)
    requires Inv(v, l, loose, {}) && v.clusterCount <= WALK_GUARD + 1
    ensures !TooLong(l, a)
  {
    if a in l.chains { ChainFitsVolume(v, l, loose, a); }
  }

  /** So a volume of at most 0x100001 clusters never loses one. */
  lemma {:induction false} SmallVolumesLoseNothing(states: seq<State>, reqs: seq<Request>, replies: seq<Reply>, t: Tree,
                                                   i: nat)
    requires IsRun(states, reqs, replies) && Granted(states, reqs) && Stands(states[0], t) && i <= |reqs|
             && states[0].loose == {}
    requires states[0].v.clusterCount <= WALK_GUARD + 1
    ensures states[i].loose == {}
  {
    forall j, a | 0 <= j < i ensures !TooLong(states[j].l, a) {
      RunsFollowTheTree(states, reqs, replies, t, j);
      NeverTooLong(states[j].v, states[j].l, states[j].loose, a);
    }
    RunsLoseNothing(states, reqs, replies, t, i);
  }

  // ---- Carrying out a run -------------------------------------------------------------------------------------

  /** A run of the first `n` requests from `s` on. */
  ghost predicate Reaches(s: State, reqs: seq<Request>, n: nat, states: seq<State>, replies: seq<Reply>) {
    n <= |reqs| && IsRun(states, reqs[..n], replies) && states[0] == s
  }

  /** Whatever state the first `n` requests lead to, it grants the next one. */
  ghost predicate Prudent(s: State, reqs: seq<Request>) {
    forall n: nat, states, replies {:trigger Reaches(s, reqs, n, states, replies)} ::
      Reaches(s, reqs, n, states, replies) && n < |reqs| ==> Admits(states[n], reqs[n]) && Finishes(states[n], reqs[n])
  }

  lemma OneMoreStep(s: State, reqs: seq<Request>, n: nat, states: seq<State>, replies: seq<Reply>, reply: Reply,
                    s': State)
    requires Reaches(s, reqs, n, states, replies) && n < |reqs| && Step(states[n], reqs[n], reply, s')
    ensures Reaches(s, reqs, n + 1, states + [s'], replies + [reply])
  {
    var states', replies', done := states + [s'], replies + [reply], reqs[..n + 1];
    forall i: nat | i < n + 1 ensures StepAt(states', done, replies', i) {
      if i < n { assert StepAt(states, reqs[..n], replies, i); }
    }
  }

  /** The requests are carried out one after the other. */
  method PerformAll(disk: Volume, reqs: seq<Request>, ghost s: State, ghost t: Tree)
    returns (replies: seq<Reply>, ghost states: seq<State>)
    requires disk.V() == s.v && Stands(s, t) && Prudent(s, reqs)
    modifies disk
    ensures Reaches(s, reqs, |reqs|, states, replies) && states[|reqs|].v == disk.V()
    ensures s.v.entriesPerCluster > 0
            && Stands(states[|reqs|], AfterAll(t, s.v.root, s.v.entriesPerCluster, reqs, replies))
  {
    replies, states := [], [s];
    ghost var now, m := t, s.v.entriesPerCluster;
    for i := 0 to |reqs|
      invariant Reaches(s, reqs, i, states, replies) && states[i].v == disk.V() && disk.root == s.v.root
                && disk.entriesPerCluster == m
      invariant Stands(states[i], now) && |replies| == i && now == AfterAll(t, s.v.root, m, reqs[..i], replies[..i])
    {
      var reply; ghost var s';
      reply, s' := Perform(disk, reqs[i], states[i], now);
      StepKeeps(states[i], now, reqs[i], reply, s');
      OneMoreStep(s, reqs, i, states, replies, reply, s');
      assert (replies + [reply])[..i] == replies[..i];
      replies, states := replies + [reply], states + [s'];
      AfterOneMore(t, s.v.root, m, reqs, replies, i);
      now := After(now, s.v.root, m, reqs[i], reply);
    }
    assert reqs[..|reqs|] == reqs && replies[..|reqs|] == replies;
  }

  // ---- Runs in the root directory ----------------------------------------------------------------------

  /** Fewer clusters than a directory may have, and each of them with room for a set of any name. */
  predicate Modest(v: Vol) { v.clusterCount < MAX_DIR_CLUSTERS && v.entriesPerCluster >= 19 }

  /** The request is made of the root directory, and what it deletes is a file. */
  predicate OfRoot(root: nat, req: Request) {
    && (req.dir < 2 || req.dir == root) && (req.Write? ==> |req.content| < U64)
    && (req.Delete? ==> req.wanted == Some(false))
  }

  predicate AllOfRoot(root: nat, reqs: seq<Request>) { forall i :: 0 <= i < |reqs| ==> OfRoot(root, reqs[i]) }

  lemma RootReadable(s: State, t: Tree)
    requires Stands(s, t) && Modest(s.v)
    ensures var d := s.v.root;
            && Shape(s.v) && d in s.l.depth && d in s.l.live && d in s.l.chains && InHeap(s.v, s.l.chains[d])
            && |s.l.chains[d]| < MAX_DIR_CLUSTERS
  {
    ChainInHeap(s.v, s.l, s.loose, {}, s.v.root);
    ChainFitsVolume(s.v, s.l, s.loose, s.v.root);
  }

  /** Installing a set in the root directory is not given up half way. */
  lemma RootInstalls(s: State, name: Name, isDirectory: bool, replace: bool, spare: nat)
    requires Modest(s.v) && s.v.root in s.l.chains && InHeap(s.v, s.l.chains[s.v.root])
             && RequiredEntryCount(|name|).Some?
    ensures Spares(InstallError(s.v, s.l, s.v.root, name, isDirectory, replace, spare))
  {
  }

  /** What is found in a directory is one of its sets. */
  lemma FoundIsLive(s: State, t: Tree, d: nat, name: Name)
    requires Stands(s, t) && d in s.l.live && d in s.l.chains && InHeap(s.v, s.l.chains[d])
    ensures var found := Find(Table(Contents(s.v.heap, s.l.chains[d])), 0, name);
            found.Some? ==> found.value in s.l.live[d]
  {
    assert DirOk(s.v, s.l, d);
    FindIsLookup(Table(Contents(s.v.heap, s.l.chains[d])), 0, name);
  }

  /** Such a request is admitted and finishes, whatever the state. */
  lemma RootGrants(s: State, t: Tree, req: Request)
    requires Stands(s, t) && Modest(s.v) && OfRoot(s.v.root, req)
    ensures Admits(s, req) && Finishes(s, req)
  {
    RootReadable(s, t);
    if !req.List? && NameOf(req.text).Some? {
      var name := NameOf(req.text).value;
      match req
      case Write(_, _, content, _) =>
        var count := ClusterCountFor(|content|, ClusterBytes(s.v));
        if count <= |FreeClusters(s.v)| { RootInstalls(s, name, false, true, |FreeClusters(s.v)| - count); }
      case Make(_, _) =>
        if |FreeClusters(s.v)| > 0 { RootInstalls(s, name, true, false, |FreeClusters(s.v)| - 1); }
      case Delete(_, _, _) => FoundIsLive(s, t, s.v.root, name);
      case List(_) =>
    }
  }

  /** So the states a run of such requests passes through are all sound, and all grant the next request. */
  lemma {:induction false} RootRunsAreGranted(states: seq<State>, reqs: seq<Request>, replies: seq<Reply>, t: Tree,
                                              i: nat) returns (now: Tree)
    requires IsRun(states, reqs, replies) && Stands(states[0], t) && i <= |reqs|
    requires Modest(states[0].v) && AllOfRoot(states[0].v.root, reqs)
    ensures Stands(states[i], now) && Modest(states[i].v) && states[i].v.root == states[0].v.root
    decreases i
  {
    now := t;
    if i > 0 {
      var before := RootRunsAreGranted(states, reqs, replies, t, i - 1);
      var s, m := states[i - 1], states[i - 1].v.entriesPerCluster;
      assert StepAt(states, reqs, replies, i - 1);
      RootGrants(s, before, reqs[i - 1]);
      StepKeeps(s, before, reqs[i - 1], replies[i - 1], states[i]);
      now := After(before, s.v.root, m, reqs[i - 1], replies[i - 1]);
    }
  }

  /**
    On a volume of fewer than 1024 clusters of at least 1 KiB, requests of the root directory that
    delete files only are safe to carry out one after the other: this much can be told from the volume and the
    requests alone.
   */
  lemma RootRunsArePrudent(s: State, t: Tree, reqs: seq<Request>)
    requires Stands(s, t) && Modest(s.v) && AllOfRoot(s.v.root, reqs)
    ensures Prudent(s, reqs)
  {
    forall n: nat, states, replies | Reaches(s, reqs, n, states, replies) && n < |reqs|
        ensures Admits(states[n], reqs[n]) && Finishes(states[n], reqs[n]) {
      var now := RootRunsAreGranted(states, reqs[..n], replies, t, n);
      RootGrants(states[n], now, reqs[n]);
    }
  }

  /** And every run of them follows the tree and loses nothing. */
  lemma RootRunsFollowTheTree(states: seq<State>, reqs: seq<Request>, replies: seq<Reply>, t: Tree)
    requires IsRun(states, reqs, replies) && Stands(states[0], t) && states[0].loose == {}
    requires Modest(states[0].v) && AllOfRoot(states[0].v.root, reqs)
    ensures Stands(states[|reqs|], AfterAll(t, states[0].v.root, states[0].v.entriesPerCluster, reqs, replies))
            && states[|reqs|].loose == {}
  {
    forall i: nat {:trigger states[i]} | i < |reqs| ensures Admits(states[i], reqs[i]) && Finishes(states[i], reqs[i]) {
      var now := RootRunsAreGranted(states, reqs, replies, t, i);
      RootGrants(states[i], now, reqs[i]);
    }
    assert reqs[..|reqs|] == reqs && replies[..|reqs|] == replies;
    RunsFollowTheTree(states, reqs, replies, t, |reqs|);
    SmallVolumesLoseNothing(states, reqs, replies, t, |reqs|);
  }

  // ---- What a good state means -----------------------------------------------------------------------

  ghost predicate InStream(l: Layout, a: nat, i: nat, c: nat) {
    a in l.chains && i < |l.chains[a]| && l.chains[a][i] == c
  }

  ghost predicate Refers(l: Layout, d: nat, x: SetInfo, a: nat) { d in l.live && x in l.live[d] && x.firstCluster == a }

  /** A cluster is free, or one position of one stream, or the system's; its bit says which. */
  lemma ClusterHasOnePlace(s: State, t: Tree, c: nat)
    requires Stands(s, t) && ValidCluster(s.v, c)
    ensures s.v.bitmap[c] <==> c in s.l.owner
    ensures s.v.bitmap[c] && s.l.owner[c] != SYSTEM ==> s.l.owner[c] in s.l.chains && c in s.l.chains[s.l.owner[c]]
    ensures forall a, i, b, j :: InStream(s.l, a, i, c) && InStream(s.l, b, j, c) ==> a == b && i == j
  {
    if c in s.l.owner { assert OwnerOk(s.l, c); }
    forall a, i, b, j | InStream(s.l, a, i, c) && InStream(s.l, b, j, c) ensures a == b && i == j {
      StreamsDisjoint(s.l, s.loose, a, b, i, j);
    }
  }

  /** With nothing in hand, every stream but the root directory has exactly one entry that refers to it. */
  lemma StreamHasOneEntry(s: State, t: Tree, a: nat)
    requires Stands(s, t) && s.loose == {} && a in s.l.chains && a != s.l.root
    ensures exists d, x :: Refers(s.l, d, x, a)
    ensures forall d, x, d', x' :: Refers(s.l, d, x, a) && Refers(s.l, d', x', a) ==> d == d' && x == x'
  {
    StreamsOwnFirst(s.l, s.loose);
    assert RefOk(s.l, a);
    assert Refers(s.l, s.l.ref[a].dir, s.l.ref[a].info, a);
    forall d, x, d', x' | Refers(s.l, d, x, a) && Refers(s.l, d', x', a) ensures d == d' && x == x' {
      OneReference(s.l, s.loose, d, x, d', x');
    }
  }
}
