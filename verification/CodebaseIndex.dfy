/**
 The codebase-graph index actor: file events are coalesced per path before
 they are applied, and the coalesced actor is compared with one that applies
 every event singly and in order.
 */
module CodebaseIndex {
  import opened Options

  /** A path as its components; an absolute path starts with the root component. */
  type Path = seq<string>

  const ROOT_COMPONENT := "/"

  /** What parsing one file contributes to the index. */
  datatype FileSymbols = FileSymbols(definitions: seq<(string, nat)>, references: seq<(string, nat)>)

  type Index = map<Path, FileSymbols>

  datatype FileEventKind = Created | Modified | Removed | Renamed

  datatype FileEvent = FileEvent(paths: seq<Path>, kind: FileEventKind)

  /**
   Everything the actor reads from outside while it handles one command: the
   root, the language registry, what each file on disk parses to (absent when
   it is missing, empty, too large or binary), and what a full walk would build.
   */
  datatype World = World(root: Path, supported: Path -> bool, parsed: map<Path, FileSymbols>, walked: Index)

  /** Every read-only query is some function of the index and the world. */
  datatype Command<R> =
    | OneEvent(event: FileEvent)
    | EventBatch(events: seq<FileEvent>)
    | Rebuild
    | BackgroundRefresh(stale: seq<Path>, deleted: seq<Path>)
    | Query(ask: (Index, World) -> R)
    | Shutdown
  {
    predicate IsFileCommand() { OneEvent? || EventBatch? }
  }

  // ---------------------------------------------------------------- paths

  function RelativePath(root: Path, p: Path): Path {
    if root <= p then p[|root|..] else p
  }

  predicate IsUnderHiddenDir(p: Path) {
    exists i | 0 <= i < |p| :: |p[i]| > 1 && p[i][0] == '.'
  }

  predicate ShouldIndex(w: World, p: Path) {
    w.supported(p) && !IsUnderHiddenDir(RelativePath(w.root, p))
  }

  predicate IsAbsolute(p: Path) {
    0 < |p| && p[0] == ROOT_COMPONENT && forall i | 0 < i < |p| :: p[i] != ROOT_COMPONENT
  }

  // ---------------------------------------------------------------- one event at a time

  /** A file event on one path, after a rename has been split in two. */
  datatype PathOp = PathOp(path: Path, kind: FileEventKind)

  function OpsOnPaths(paths: seq<Path>, kind: FileEventKind): seq<PathOp> {
    if paths == [] then [] else [PathOp(paths[0], kind)] + OpsOnPaths(paths[1..], kind)
  }

  function EventOps(e: FileEvent): seq<PathOp> {
    if e.kind.Renamed? && |e.paths| >= 2 then
      [PathOp(e.paths[0], Removed), PathOp(e.paths[1], Created)]
    else
      OpsOnPaths(e.paths, e.kind)
  }

  function EventsOps(es: seq<FileEvent>): seq<PathOp> {
    if es == [] then [] else EventOps(es[0]) + EventsOps(es[1..])
  }

  function CommandOps<R>(c: Command<R>): seq<PathOp>
    requires c.IsFileCommand()
  {
    if c.OneEvent? then EventOps(c.event) else EventsOps(c.events)
  }

  function CommandsOps<R>(cs: seq<Command<R>>): seq<PathOp>
    requires forall c | c in cs :: c.IsFileCommand()
  {
    if cs == [] then [] else CommandOps(cs[0]) + CommandsOps(cs[1..])
  }

  function RemovedFrom(idx: Index, p: Path): Index { idx - {p} }

  function Reindexed(idx: Index, w: World, p: Path): Index {
    var rel := RelativePath(w.root, p);
    if w.supported(p) && p in w.parsed then idx[rel := w.parsed[p]] else idx - {rel}
  }

  function ApplyOp(idx: Index, w: World, op: PathOp): Index {
    if !ShouldIndex(w, op.path) then idx
    else if op.kind.Removed? then RemovedFrom(idx, RelativePath(w.root, op.path))
    else Reindexed(idx, w, op.path)
  }

  /** The reference: every file event applied singly, in arrival order. */
  function ApplySingly(idx: Index, w: World, ops: seq<PathOp>): Index {
    if ops == [] then idx
    else ApplyOp(ApplySingly(idx, w, ops[..|ops| - 1]), w, ops[|ops| - 1])
  }

  // ---------------------------------------------------------------- coalescing

  type Pending = map<Path, FileEventKind>

  function InsertPending(m: Pending, p: Path, kind: FileEventKind): Pending {
    if p !in m then m[p := kind]
    else if (m[p].Created? || m[p].Modified?) && kind.Removed? then m - {p}
    else if m[p].Removed? && (kind.Created? || kind.Modified?) then m[p := Created]
    else m[p := kind]
  }

  function AddPending(m: Pending, ops: seq<PathOp>): Pending {
    if ops == [] then m
    else InsertPending(AddPending(m, ops[..|ops| - 1]), ops[|ops| - 1].path, ops[|ops| - 1].kind)
  }

  /** No two different paths are stored under the same index key. */
  predicate AliasFree(root: Path, paths: set<Path>) {
    forall p, q | p in paths && q in paths && RelativePath(root, p) == RelativePath(root, q) :: p == q
  }

  function OpPaths(ops: seq<PathOp>): set<Path> {
    set op | op in ops :: op.path
  }

  /** What flushing a set of pending events leaves in the index. */
  function Flushed(idx: Index, w: World, m: Pending): Index
    requires AliasFree(w.root, m.Keys)
  {
    var touched := set p | p in m && ShouldIndex(w, p) :: RelativePath(w.root, p);
    var written := map p | p in m && ShouldIndex(w, p) && !m[p].Removed? && p in w.parsed
                     :: RelativePath(w.root, p) := w.parsed[p];
    (idx - touched) + written
  }

  /** The kinds of the events on one path, in order. */
  function KindsOn(ops: seq<PathOp>, p: Path): seq<FileEventKind> {
    if ops == [] then []
    else
      var last := ops[|ops| - 1];
      KindsOn(ops[..|ops| - 1], p) + (if last.path == p then [last.kind] else [])
  }

  /** The last event on the path is a removal and the one right before it creates or modifies it. */
  predicate Cancelled(ops: seq<PathOp>, p: Path) {
    var ks := KindsOn(ops, p);
    var n := |ks|;
    n >= 2 && ks[n - 1].Removed? && (ks[n - 2].Created? || ks[n - 2].Modified?)
  }

  /** A path whose cancelled removal leaves a stale entry behind. */
  predicate LeavesStaleEntry(idx: Index, w: World, ops: seq<PathOp>, p: Path) {
    Cancelled(ops, p) && ShouldIndex(w, p) && RelativePath(w.root, p) in idx
  }

  // ---------------------------------------------------------------- what each form leaves at one key

  function At(idx: Index, r: Path): Option<FileSymbols> {
    if r in idx then Some(idx[r]) else None
  }

  function Outcome(w: World, op: PathOp): Option<FileSymbols> {
    if !op.kind.Removed? && op.path in w.parsed then Some(w.parsed[op.path]) else None
  }

  function LastTouch(w: World, ops: seq<PathOp>, r: Path): Option<PathOp> {
    if ops == [] then None
    else
      var last := ops[|ops| - 1];
      if ShouldIndex(w, last.path) && RelativePath(w.root, last.path) == r then Some(last)
      else LastTouch(w, ops[..|ops| - 1], r)
  }

  lemma {:induction false} SinglyAt(idx: Index, w: World, ops: seq<PathOp>, r: Path)
    ensures At(ApplySingly(idx, w, ops), r) ==
            match LastTouch(w, ops, r) case None => At(idx, r) case Some(op) => Outcome(w, op)
  {
    if ops != [] {
      SinglyAt(idx, w, ops[..|ops| - 1], r);
    }
  }

  lemma {:induction false} LastTouchIsLastKind(w: World, ops: seq<PathOp>, p: Path)
    requires AliasFree(w.root, OpPaths(ops)) && ShouldIndex(w, p) && p in OpPaths(ops)
    ensures KindsOn(ops, p) != []
    ensures LastTouch(w, ops, RelativePath(w.root, p)) == Some(PathOp(p, KindsOn(ops, p)[|KindsOn(ops, p)| - 1]))
  {
    var front, last := ops[..|ops| - 1], ops[|ops| - 1];
    assert ops == front + [last];
    assert last.path in OpPaths(ops);
    if last.path != p {
      assert p in OpPaths(front);
      assert OpPaths(front) <= OpPaths(ops);
      LastTouchIsLastKind(w, front, p);
    }
  }

  lemma {:induction false} UntouchedKey(w: World, ops: seq<PathOp>, r: Path)
    requires forall p | p in OpPaths(ops) && ShouldIndex(w, p) :: RelativePath(w.root, p) != r
    ensures LastTouch(w, ops, r) == None
  {
    if ops != [] {
      var front, last := ops[..|ops| - 1], ops[|ops| - 1];
      assert last.path in OpPaths(ops);
      assert OpPaths(front) <= OpPaths(ops);
      UntouchedKey(w, front, r);
    }
  }

  /** The pending entry of a path in closed form: only its last two events matter. */
  lemma {:induction false} PendingInClosedForm(ops: seq<PathOp>, p: Path)
    ensures p in AddPending(map[], ops) <==> KindsOn(ops, p) != [] && !Cancelled(ops, p)
    ensures p in AddPending(map[], ops) ==>
              var pend := AddPending(map[], ops)[p];
              var last := KindsOn(ops, p)[|KindsOn(ops, p)| - 1];
              pend.Removed? == last.Removed? && pend.Renamed? == last.Renamed?
  {
    if ops != [] {
      PendingInClosedForm(ops[..|ops| - 1], p);
    }
  }

  lemma {:induction false} KindsOnlyOnEventPaths(ops: seq<PathOp>, p: Path)
    ensures KindsOn(ops, p) != [] <==> p in OpPaths(ops)
  {
    if ops != [] {
      var front, last := ops[..|ops| - 1], ops[|ops| - 1];
      assert ops == front + [last];
      KindsOnlyOnEventPaths(front, p);
    }
  }

  lemma PendingPathsAreEventPaths(ops: seq<PathOp>)
    ensures AddPending(map[], ops).Keys <= OpPaths(ops)
  {
    forall p | p in AddPending(map[], ops) ensures p in OpPaths(ops) {
      PendingInClosedForm(ops, p);
      KindsOnlyOnEventPaths(ops, p);
    }
  }

  lemma FlushedAt(idx: Index, w: World, m: Pending, p: Path)
    requires AliasFree(w.root, m.Keys) && p in m && ShouldIndex(w, p)
    ensures At(Flushed(idx, w, m), RelativePath(w.root, p)) == Outcome(w, PathOp(p, m[p]))
  {
    var r := RelativePath(w.root, p);
    if r in Flushed(idx, w, m) {
      assert r in set q | q in m && ShouldIndex(w, q) :: RelativePath(w.root, q);
    }
  }

  lemma FlushedElsewhere(idx: Index, w: World, m: Pending, r: Path)
    requires AliasFree(w.root, m.Keys)
    requires forall p | p in m && ShouldIndex(w, p) :: RelativePath(w.root, p) != r
    ensures At(Flushed(idx, w, m), r) == At(idx, r)
  {
  }

  lemma NoStaleEntryElsewhere(idx: Index, w: World, ops: seq<PathOp>, p: Path)
    requires LeavesStaleEntry(idx, w, ops, p)
    ensures p in OpPaths(ops)
  {
    KindsOnlyOnEventPaths(ops, p);
  }

  lemma CoalescedAgreesAtTouched(idx: Index, w: World, ops: seq<PathOp>, p: Path)
    requires AliasFree(w.root, OpPaths(ops)) && p in OpPaths(ops) && ShouldIndex(w, p)
    requires AliasFree(w.root, AddPending(map[], ops).Keys)
    ensures At(Flushed(idx, w, AddPending(map[], ops)), RelativePath(w.root, p)) !=
            At(ApplySingly(idx, w, ops), RelativePath(w.root, p))
            <==> LeavesStaleEntry(idx, w, ops, p)
  {
    hide Flushed, ApplySingly, LastTouch, KindsOn, AddPending, ShouldIndex, RelativePath;
    var m, r := AddPending(map[], ops), RelativePath(w.root, p);
    SinglyAt(idx, w, ops, r);
    LastTouchIsLastKind(w, ops, p);
    PendingInClosedForm(ops, p);
    if p in m {
      FlushedAt(idx, w, m, p);
    } else {
      PendingPathsAreEventPaths(ops);
      forall q | q in m && ShouldIndex(w, q) ensures RelativePath(w.root, q) != r {
        assert q in OpPaths(ops);
      }
      FlushedElsewhere(idx, w, m, r);
    }
  }

  lemma CoalescedAgreesAt(idx: Index, w: World, ops: seq<PathOp>, r: Path)
    requires AliasFree(w.root, OpPaths(ops))
    requires AliasFree(w.root, AddPending(map[], ops).Keys)
    ensures At(Flushed(idx, w, AddPending(map[], ops)), r) != At(ApplySingly(idx, w, ops), r)
            <==> exists p :: LeavesStaleEntry(idx, w, ops, p) && RelativePath(w.root, p) == r
  {
    hide Flushed, ApplySingly, LastTouch, KindsOn, AddPending, RelativePath, Cancelled;
    forall q | LeavesStaleEntry(idx, w, ops, q) ensures q in OpPaths(ops) { NoStaleEntryElsewhere(idx, w, ops, q); }
    if p :| p in OpPaths(ops) && ShouldIndex(w, p) && RelativePath(w.root, p) == r {
      CoalescedAgreesAtTouched(idx, w, ops, p);
    } else {
      SinglyAt(idx, w, ops, r);
      UntouchedKey(w, ops, r);
      PendingPathsAreEventPaths(ops);
      FlushedElsewhere(idx, w, AddPending(map[], ops), r);
    }
  }

  /**
   Flushing a coalesced batch gives the index that applying its events one by
   one gives, exactly when no indexed, indexable path ends the batch with a
   create or modify directly followed by a removal.
   */
  lemma CoalescingIsExactUnlessStale(idx: Index, w: World, ops: seq<PathOp>)
    requires AliasFree(w.root, OpPaths(ops))
    ensures AliasFree(w.root, AddPending(map[], ops).Keys)
    ensures Flushed(idx, w, AddPending(map[], ops)) == ApplySingly(idx, w, ops)
            <==> forall p :: !LeavesStaleEntry(idx, w, ops, p)
  {
    PendingPathsAreEventPaths(ops);
    var a, b := Flushed(idx, w, AddPending(map[], ops)), ApplySingly(idx, w, ops);
    forall r
      ensures At(a, r) != At(b, r) <==> exists p :: LeavesStaleEntry(idx, w, ops, p) && RelativePath(w.root, p) == r
    {
      CoalescedAgreesAt(idx, w, ops, r);
    }
    if forall p :: !LeavesStaleEntry(idx, w, ops, p) {
      SameAtEveryKey(a, b);
    } else {
      var p :| LeavesStaleEntry(idx, w, ops, p);
      assert At(a, RelativePath(w.root, p)) != At(b, RelativePath(w.root, p));
    }
  }

  /** Absolute event paths, which is what the watcher delivers, never alias. */
  lemma AbsolutePathsAreAliasFree(root: Path, paths: set<Path>)
    requires forall p | p in paths :: IsAbsolute(p)
    ensures AliasFree(root, paths)
  {
    forall p, q | p in paths && q in paths && RelativePath(root, p) == RelativePath(root, q) ensures p == q {
      if root <= p && root <= q {
        assert p == root + p[|root|..] && q == root + q[|root|..];
      }
    }
  }

  /** A modification followed by a removal, for a file already indexed: the stale entry survives. */
  lemma CancelledRemovalKeepsStaleEntry(p: Path, s: FileSymbols)
    requires !IsUnderHiddenDir(p)
    ensures var w := World([], _ => true, map[], map[]);
            var idx := map[p := s];
            var ops := [PathOp(p, Modified), PathOp(p, Removed)];
            && AliasFree([], AddPending(map[], ops).Keys)
            && Flushed(idx, w, AddPending(map[], ops)) == idx
            && ApplySingly(idx, w, ops) == map[]
  {
    var ops := [PathOp(p, Modified), PathOp(p, Removed)];
    var w := World([], _ => true, map[], map[]);
    assert ops[..1] == [PathOp(p, Modified)] && ops[..1][..0] == [];
    assert AddPending(map[], ops[..1]) == map[p := Modified];
    assert AddPending(map[], ops) == map[p := Modified] - {p} == map[];
    assert RelativePath(w.root, p) == p;
    assert ApplySingly(map[p := s], w, ops[..1]) == map[p := s] - {p};
    assert ApplySingly(map[p := s], w, ops) == map[p := s] - {p} - {p};
  }

  // ---------------------------------------------------------------- turns of the actor

  /** What one turn of the command loop does. */
  datatype TurnResult<R> = TurnResult(index: Index, replies: seq<R>, alive: bool)

  /** One turn's surroundings: how many further commands try_recv finds, and the world. */
  datatype Turn = Turn(available: nat, world: World)

  function RemoveAll(idx: Index, paths: seq<Path>): Index {
    if paths == [] then idx else RemoveAll(idx - {paths[0]}, paths[1..])
  }

  function ReindexAll(idx: Index, w: World, paths: seq<Path>): Index
    decreases |paths|
  {
    if paths == [] then idx
    else ReindexAll(if w.supported(paths[0]) then Reindexed(idx, w, paths[0]) else idx, w, paths[1..])
  }

  /** The command behind the file events of a turn, if any; both actors handle it alike. */
  function HandleTrailing<R>(idx: Index, w: World, trailing: Option<Command<R>>): TurnResult<R>
  {
    match trailing
    case Some(Rebuild) => TurnResult(w.walked, [], true)
    case Some(BackgroundRefresh(stale, deleted)) => TurnResult(ReindexAll(RemoveAll(idx, deleted), w, stale), [], true)
    case Some(Query(ask)) => TurnResult(idx, [ask(idx, w)], true)
    case Some(Shutdown) => TurnResult(idx, [], false)
    case _ => TurnResult(idx, [], true)
  }

  /** How many commands at the head of the channel are file commands. */
  function FileRun<R>(cs: seq<Command<R>>): (n: nat)
    ensures n <= |cs|
    ensures forall c | c in cs[..n] :: c.IsFileCommand()
    ensures n < |cs| ==> !cs[n].IsFileCommand()
  {
    if cs == [] || !cs[0].IsFileCommand() then 0
    else
      var n := FileRun(cs[1..]);
      assert cs[..n + 1] == [cs[0]] + cs[1..][..n];
      n + 1
  }

  function Visible<R>(queue: seq<Command<R>>, available: nat): seq<Command<R>>
    requires queue != []
  {
    if 1 + available <= |queue| then queue[1..1 + available] else queue[1..]
  }

  /** The file commands one turn coalesces: a single event drains the channel, a batch does not. */
  function TurnFiles<R>(queue: seq<Command<R>>, available: nat): (cs: seq<Command<R>>)
    requires queue != []
    ensures cs <= queue
    ensures forall c | c in cs :: c.IsFileCommand()
  {
    if queue[0].OneEvent? then
      var visible := Visible(queue, available);
      assert [queue[0]] + visible <= queue;
      [queue[0]] + visible[..FileRun(visible)]
    else if queue[0].EventBatch? then queue[..1]
    else []
  }

  /** The command that ends the turn, if one was taken off the channel. */
  function Trailing<R>(queue: seq<Command<R>>, available: nat): Option<Command<R>>
    requires queue != []
  {
    if queue[0].EventBatch? then None
    else if queue[0].OneEvent? then
      var visible := Visible(queue, available);
      var n := FileRun(visible);
      if n < |visible| then Some(visible[n]) else None
    else Some(queue[0])
  }

  function Consumed<R>(queue: seq<Command<R>>, available: nat): (n: nat)
    requires queue != []
    ensures 1 <= n <= |queue|
  {
    |TurnFiles(queue, available)| + if Trailing(queue, available).Some? then 1 else 0
  }

  function BatchedTurn<R>(idx: Index, t: Turn, queue: seq<Command<R>>): TurnResult<R>
    requires queue != []
    requires AliasFree(t.world.root, AddPending(map[], CommandsOps(TurnFiles(queue, t.available))).Keys)
  {
    var ops := CommandsOps(TurnFiles(queue, t.available));
    HandleTrailing(Flushed(idx, t.world, AddPending(map[], ops)), t.world, Trailing(queue, t.available))
  }

  function ReferenceTurn<R>(idx: Index, t: Turn, queue: seq<Command<R>>): TurnResult<R>
    requires queue != []
  {
    var ops := CommandsOps(TurnFiles(queue, t.available));
    HandleTrailing(ApplySingly(idx, t.world, ops), t.world, Trailing(queue, t.available))
  }

  /** A turn's file events alias nothing and leave nothing stale in the given index. */
  ghost predicate CleanTurn<R>(idx: Index, t: Turn, queue: seq<Command<R>>)
    requires queue != []
  {
    var ops := CommandsOps(TurnFiles(queue, t.available));
    && AliasFree(t.world.root, OpPaths(ops))
    && forall p :: !LeavesStaleEntry(idx, t.world, ops, p)
  }

  lemma CleanTurnsAgree<R>(idx: Index, t: Turn, queue: seq<Command<R>>)
    requires queue != [] && CleanTurn(idx, t, queue)
    ensures AliasFree(t.world.root, AddPending(map[], CommandsOps(TurnFiles(queue, t.available))).Keys)
    ensures BatchedTurn(idx, t, queue) == ReferenceTurn(idx, t, queue)
  {
    CoalescingIsExactUnlessStale(idx, t.world, CommandsOps(TurnFiles(queue, t.available)));
  }

  /** A snapshot taken right behind a flush differs from the reference exactly when the turn is not clean. */
  lemma SnapshotBehindFlush(idx: Index, t: Turn, queue: seq<Command<Index>>)
    requires queue != [] && queue[0].OneEvent?
    requires AliasFree(t.world.root, OpPaths(CommandsOps(TurnFiles(queue, t.available))))
    requires Trailing(queue, t.available) == Some(Query((i, w) => i))
    ensures AliasFree(t.world.root, AddPending(map[], CommandsOps(TurnFiles(queue, t.available))).Keys)
    ensures BatchedTurn(idx, t, queue).replies == ReferenceTurn(idx, t, queue).replies <==> CleanTurn(idx, t, queue)
  {
    var ops := CommandsOps(TurnFiles(queue, t.available));
    CoalescingIsExactUnlessStale(idx, t.world, ops);
    assert BatchedTurn(idx, t, queue).replies[0] == Flushed(idx, t.world, AddPending(map[], ops));
    assert ReferenceTurn(idx, t, queue).replies[0] == ApplySingly(idx, t.world, ops);
  }

  // ---------------------------------------------------------------- whole runs

  /** The final index and all replies, in order. */
  datatype RunResult<R> = RunResult(index: Index, replies: seq<R>)

  /**
   The reference: one command after the other, each handled on its own in the world of its time, until shutdown or
   until the worlds run out. It knows neither turns nor batches.
   */
  function OneByOne<R>(idx: Index, worlds: seq<World>, queue: seq<Command<R>>): RunResult<R>
    decreases |queue|
  {
    if worlds == [] || queue == [] then RunResult(idx, [])
    else if queue[0].IsFileCommand() then
      OneByOne(ApplySingly(idx, worlds[0], CommandOps(queue[0])), worlds[1..], queue[1..])
    else
      var t := HandleTrailing(idx, worlds[0], Some(queue[0]));
      if !t.alive then RunResult(t.index, t.replies)
      else
        var rest := OneByOne(t.index, worlds[1..], queue[1..]);
        RunResult(rest.index, t.replies + rest.replies)
  }

  /** The world that each command of a run is handled in. */
  function Worlds<R>(turns: seq<Turn>, queue: seq<Command<R>>): seq<World>
    decreases |turns|
  {
    if turns == [] || queue == [] then []
    else
      var n := Consumed(queue, turns[0].available);
      seq(n, _ => turns[0].world) + Worlds(turns[1..], queue[n..])
  }

  /** No turn of the run coalesces two paths that share an index key. */
  ghost predicate AliasFreeRun<R>(turns: seq<Turn>, queue: seq<Command<R>>)
    decreases |turns|
  {
    turns == [] || queue == [] ||
    (&& AliasFree(turns[0].world.root, OpPaths(CommandsOps(TurnFiles(queue, turns[0].available))))
     && (Trailing(queue, turns[0].available) != Some(Shutdown) ==>
       AliasFreeRun(turns[1..], queue[Consumed(queue, turns[0].available)..])))
  }

  ghost function BatchedRun<R>(idx: Index, turns: seq<Turn>, queue: seq<Command<R>>): RunResult<R>
    requires AliasFreeRun(turns, queue)
    decreases |turns|
  {
    if turns == [] || queue == [] then RunResult(idx, [])
    else
      PendingPathsAreEventPaths(CommandsOps(TurnFiles(queue, turns[0].available)));
      var t := BatchedTurn(idx, turns[0], queue);
      if Trailing(queue, turns[0].available) == Some(Shutdown) then RunResult(t.index, t.replies)
      else
        var rest := BatchedRun(t.index, turns[1..], queue[Consumed(queue, turns[0].available)..]);
        RunResult(rest.index, t.replies + rest.replies)
  }

  lemma BatchedRunUnfolds<R>(idx: Index, turns: seq<Turn>, queue: seq<Command<R>>, t: TurnResult<R>)
    requires turns != [] && queue != [] && AliasFreeRun(turns, queue)
    ensures AliasFree(turns[0].world.root, AddPending(map[], CommandsOps(TurnFiles(queue, turns[0].available))).Keys)
    ensures t == BatchedTurn(idx, turns[0], queue) ==>
              if Trailing(queue, turns[0].available) == Some(Shutdown) then
                BatchedRun(idx, turns, queue) == RunResult(t.index, t.replies)
              else
                && AliasFreeRun(turns[1..], queue[Consumed(queue, turns[0].available)..])
                && var rest := BatchedRun(t.index, turns[1..], queue[Consumed(queue, turns[0].available)..]);
                BatchedRun(idx, turns, queue) == RunResult(rest.index, t.replies + rest.replies)
  {
    PendingPathsAreEventPaths(CommandsOps(TurnFiles(queue, turns[0].available)));
  }

  lemma EmptyRun<R>(idx: Index, turns: seq<Turn>, queue: seq<Command<R>>)
    requires turns == [] || queue == []
    ensures AliasFreeRun(turns, queue) && BatchedRun(idx, turns, queue) == RunResult(idx, [])
  {
  }

  /** Every turn of the reference run is clean. */
  ghost predicate CleanRun<R>(idx: Index, turns: seq<Turn>, queue: seq<Command<R>>)
    decreases |turns|
  {
    turns == [] || queue == [] ||
    (var t := ReferenceTurn(idx, turns[0], queue);
     && CleanTurn(idx, turns[0], queue)
     && (Trailing(queue, turns[0].available) != Some(Shutdown) ==>
       CleanRun(t.index, turns[1..], queue[Consumed(queue, turns[0].available)..])))
  }

  lemma {:induction false} SinglyConcat(idx: Index, w: World, a: seq<PathOp>, b: seq<PathOp>)
    ensures ApplySingly(idx, w, a + b) == ApplySingly(ApplySingly(idx, w, a), w, b)
  {
    hide ApplyOp;
    if b == [] {
      assert a + b == a;
    } else {
      assert (a + b)[..|a + b| - 1] == a + b[..|b| - 1];
      SinglyConcat(idx, w, a, b[..|b| - 1]);
    }
  }

  lemma {:induction false} FilesOneByOne<R>(idx: Index, w: World, n: nat, worlds: seq<World>, queue: seq<Command<R>>)
    requires n <= |worlds| && n <= |queue| && forall k | 0 <= k < n :: worlds[k] == w && queue[k].IsFileCommand()
    ensures OneByOne(idx, worlds, queue) ==
            OneByOne(ApplySingly(idx, w, CommandsOps(queue[..n])), worlds[n..], queue[n..])
    decreases n
  {
    hide ApplyOp, CommandOps;
    if n == 0 {
      assert queue[..0] == [] && worlds[0..] == worlds && queue[0..] == queue;
    } else {
      var after := ApplySingly(idx, w, CommandOps(queue[0]));
      assert queue[..n][1..] == queue[1..][..n - 1];
      assert worlds[1..][n - 1..] == worlds[n..] && queue[1..][n - 1..] == queue[n..];
      FilesOneByOne(after, w, n - 1, worlds[1..], queue[1..]);
      SinglyConcat(idx, w, CommandOps(queue[0]), CommandsOps(queue[1..][..n - 1]));
    }
  }

  lemma TurnIsRunAndTrailing<R>(queue: seq<Command<R>>, available: nat)
    requires queue != []
    ensures var n := |TurnFiles(queue, available)|;
            && TurnFiles(queue, available) == queue[..n]
            && (Trailing(queue, available).Some? ==>
                  n < |queue| && queue[n] == Trailing(queue, available).value && !queue[n].IsFileCommand())
  {
    hide FileRun;
  }

  /** A turn of the reference is that many commands of it, one by one. */
  lemma TurnIsOneByOne<R>(idx: Index, t: Turn, queue: seq<Command<R>>, later: seq<World>)
    requires queue != []
    ensures var (n, turn) := (Consumed(queue, t.available), ReferenceTurn(idx, t, queue));
            var all := OneByOne(idx, seq(n, _ => t.world) + later, queue);
            if Trailing(queue, t.available) == Some(Shutdown) then all == RunResult(turn.index, turn.replies)
            else
              var rest := OneByOne(turn.index, later, queue[n..]);
              all == RunResult(rest.index, turn.replies + rest.replies)
  {
    hide ApplySingly, CommandsOps, TurnFiles, Trailing, OneByOne;
    TurnIsRunAndTrailing(queue, t.available);
    var n, files := Consumed(queue, t.available), |TurnFiles(queue, t.available)|;
    var worlds := seq(n, _ => t.world) + later;
    var after := ApplySingly(idx, t.world, CommandsOps(TurnFiles(queue, t.available)));
    FilesOneByOne(idx, t.world, files, worlds, queue);
    assert worlds[n..] == later;
    if Trailing(queue, t.available).Some? {
      assert worlds[files..][0] == t.world && worlds[files..][1..] == later;
      assert queue[files..][0] == queue[files] && queue[files..][1..] == queue[n..];
      OtherOneByOne(after, worlds[files..], queue[files..]);
    } else {
      var rest := OneByOne(after, later, queue[n..]);
      assert [] + rest.replies == rest.replies;
    }
  }

  lemma OtherOneByOne<R>(idx: Index, worlds: seq<World>, queue: seq<Command<R>>)
    requires worlds != [] && queue != [] && !queue[0].IsFileCommand()
    ensures var t := HandleTrailing(idx, worlds[0], Some(queue[0]));
            && t.alive == (queue[0] != Shutdown)
            && OneByOne(idx, worlds, queue) ==
               if !t.alive then RunResult(t.index, t.replies)
               else
                 var rest := OneByOne(t.index, worlds[1..], queue[1..]);
                 RunResult(rest.index, t.replies + rest.replies)
  {
  }

  /** A clean run gives the replies and the index of handling its commands one by one in the same worlds. */
  lemma {:induction false} CleanRunsAgree<R>(idx: Index, turns: seq<Turn>, queue: seq<Command<R>>)
    requires CleanRun(idx, turns, queue)
    ensures AliasFreeRun(turns, queue)
    ensures BatchedRun(idx, turns, queue) == OneByOne(idx, Worlds(turns, queue), queue)
    decreases |turns|
  {
    hide OneByOne, CommandsOps, TurnFiles, Trailing, Consumed, BatchedTurn, ReferenceTurn;
    if turns == [] || queue == [] {
      NoWorldsLeft<R>(idx, queue);
    } else {
      var n := Consumed(queue, turns[0].available);
      CleanTurnsAgree(idx, turns[0], queue);
      TurnIsOneByOne(idx, turns[0], queue, Worlds(turns[1..], queue[n..]));
      if Trailing(queue, turns[0].available) != Some(Shutdown) {
        CleanRunsAgree(ReferenceTurn(idx, turns[0], queue).index, turns[1..], queue[n..]);
      }
    }
  }

  lemma NoWorldsLeft<R>(idx: Index, queue: seq<Command<R>>)
    ensures OneByOne(idx, [], queue) == RunResult(idx, [])
  {
  }

  lemma {:induction false} WorldsOfOne<R>(w: World, turns: seq<Turn>, queue: seq<Command<R>>)
    requires |turns| >= |queue| && forall t | t in turns :: t.world == w
    ensures Worlds(turns, queue) == seq(|queue|, _ => w)
    decreases |turns|
  {
    hide TurnFiles, Trailing, Consumed;
    if queue != [] {
      var n := Consumed(queue, turns[0].available);
      WorldsOfOne(w, turns[1..], queue[n..]);
    }
  }

  /** In one world and with turns enough, a clean run answers alike however the channel is drained. */
  lemma DrainingDoesNotShow<R>(idx: Index, w: World, turns: seq<Turn>, queue: seq<Command<R>>)
    requires CleanRun(idx, turns, queue) && |turns| >= |queue| && forall t | t in turns :: t.world == w
    ensures AliasFreeRun(turns, queue)
    ensures BatchedRun(idx, turns, queue) == OneByOne(idx, seq(|queue|, _ => w), queue)
  {
    hide OneByOne, Worlds, BatchedRun, AliasFreeRun, CleanRun;
    CleanRunsAgree(idx, turns, queue);
    WorldsOfOne(w, turns, queue);
  }

  // ---------------------------------------------------------------- what each command does to the index

  /** The last of the paths that is indexable and stored under the key, if any. */
  lemma {:induction false} SinglyOnPaths(idx: Index, w: World, paths: seq<Path>, kind: FileEventKind, r: Path)
    ensures var after := At(ApplySingly(idx, w, OpsOnPaths(paths, kind)), r);
            && (forall p | p in paths && ShouldIndex(w, p) && RelativePath(w.root, p) == r ::
                  AliasFree(w.root, set q | q in paths) ==>
                    after == if kind.Removed? || p !in w.parsed then None else Some(w.parsed[p]))
            && ((forall p | p in paths && ShouldIndex(w, p) :: RelativePath(w.root, p) != r) ==> after == At(idx, r))
  {
    hide ShouldIndex, AliasFree;
    if paths == [] {
      NoOps(idx, w);
    } else {
      var (front, last) := (paths[..|paths| - 1], paths[|paths| - 1]);
      assert paths == front + [last];
      OpsOnPathsSnoc(front, last, kind);
      SinglySnoc(idx, w, OpsOnPaths(front, kind), PathOp(last, kind));
      SinglyOnPaths(idx, w, front, kind, r);
      AppliedAt(ApplySingly(idx, w, OpsOnPaths(front, kind)), w, PathOp(last, kind), r);
      if AliasFree(w.root, set q | q in paths) {
        AliasFreeSubset(w.root, set q | q in front, set q | q in paths);
        SamePath(w.root, paths, last);
      }
    }
  }

  lemma SamePath(root: Path, paths: seq<Path>, p: Path)
    requires AliasFree(root, set q | q in paths) && p in paths
    ensures forall q | q in paths && RelativePath(root, q) == RelativePath(root, p) :: q == p
  {
  }

  lemma NoOps(idx: Index, w: World)
    ensures ApplySingly(idx, w, []) == idx
  {
  }

  lemma SinglySnoc(idx: Index, w: World, ops: seq<PathOp>, op: PathOp)
    ensures ApplySingly(idx, w, ops + [op]) == ApplyOp(ApplySingly(idx, w, ops), w, op)
  {
    assert (ops + [op])[..|ops|] == ops;
  }

  /** The index that handling one command alone leaves. */
  function AfterCommand<R>(idx: Index, w: World, c: Command<R>): Index {
    OneByOne(idx, [w], [c]).index
  }

  lemma AfterFileEvent<R>(idx: Index, w: World, e: FileEvent)
    ensures AfterCommand<R>(idx, w, OneEvent(e)) == ApplySingly(idx, w, EventOps(e))
  {
    hide ApplySingly, EventOps;
    var c: Command<R> := OneEvent(e);
    var after := ApplySingly(idx, w, EventOps(e));
    assert [c][1..] == [] && [w][1..] == [] && [c][0].IsFileCommand() && CommandOps(c) == EventOps(e);
    assert OneByOne(idx, [w], [c]) == OneByOne(after, [], []);
  }

  /**
   A rename takes the entry of the first path out and stores the second path's file, if it parses; no other key changes.
   Where a path is not indexable its half does nothing.
   */
  lemma RenameMovesTheEntry<R>(idx: Index, w: World, e: FileEvent, r: Path)
    requires e.kind.Renamed? && |e.paths| >= 2
    ensures var (from, to, after) := (e.paths[0], e.paths[1], AfterCommand<R>(idx, w, OneEvent(e)));
            At(after, r) ==
            if ShouldIndex(w, to) && RelativePath(w.root, to) == r then
              if to in w.parsed then Some(w.parsed[to]) else None
            else if ShouldIndex(w, from) && RelativePath(w.root, from) == r then None
            else At(idx, r)
  {
    hide ShouldIndex, ApplyOp;
    AfterFileEvent<R>(idx, w, e);
    var (removal, creation) := (PathOp(e.paths[0], Removed), PathOp(e.paths[1], Created));
    assert EventOps(e) == [removal] + [creation] && [removal] == [] + [removal];
    NoOps(idx, w);
    SinglySnoc(idx, w, [], removal);
    SinglySnoc(idx, w, [removal], creation);
    AppliedAt(idx, w, removal, r);
    AppliedAt(ApplyOp(idx, w, removal), w, creation, r);
  }

  /**
   Any other event works path by path: a removal takes the entry of every indexable path out, the other kinds store
   what its file parses to, or nothing if it does not; no other key changes.
   */
  lemma EventWorksPathByPath<R>(idx: Index, w: World, e: FileEvent, r: Path)
    requires !(e.kind.Renamed? && |e.paths| >= 2)
    ensures var after := At(AfterCommand<R>(idx, w, OneEvent(e)), r);
            && (forall p | p in e.paths && ShouldIndex(w, p) && RelativePath(w.root, p) == r ::
                  AliasFree(w.root, set q | q in e.paths) ==>
                    after == if e.kind.Removed? || p !in w.parsed then None else Some(w.parsed[p]))
            && ((forall p | p in e.paths && ShouldIndex(w, p) :: RelativePath(w.root, p) != r) ==> after == At(idx, r))
  {
    hide ShouldIndex, AliasFree, AfterCommand;
    AfterFileEvent<R>(idx, w, e);
    SinglyOnPaths(idx, w, e.paths, e.kind, r);
  }

  lemma {:induction false} KindsOfOneKind(paths: seq<Path>, kind: FileEventKind, p: Path)
    ensures forall k | 0 <= k < |KindsOn(OpsOnPaths(paths, kind), p)| :: KindsOn(OpsOnPaths(paths, kind), p)[k] == kind
  {
    if paths != [] {
      var (front, last) := (paths[..|paths| - 1], paths[|paths| - 1]);
      assert paths == front + [last];
      OpsOnPathsSnoc(front, last, kind);
      KindsOfOneKind(front, kind, p);
      KindsSnoc(OpsOnPaths(front, kind), PathOp(last, kind), p);
    }
  }

  lemma KindsSnoc(ops: seq<PathOp>, op: PathOp, p: Path)
    ensures KindsOn(ops + [op], p) == KindsOn(ops, p) + if op.path == p then [op.kind] else []
  {
    assert (ops + [op])[..|ops|] == ops;
  }

  /** A single event never cancels itself, so coalescing it leaves what the reference leaves. */
  lemma OneEventIsExact(idx: Index, w: World, e: FileEvent)
    requires AliasFree(w.root, OpPaths(EventOps(e)))
    ensures AliasFree(w.root, AddPending(map[], EventOps(e)).Keys)
    ensures Flushed(idx, w, AddPending(map[], EventOps(e))) == ApplySingly(idx, w, EventOps(e))
  {
    hide Flushed, ApplySingly, AddPending, ShouldIndex, KindsOn;
    var ops := EventOps(e);
    CoalescingIsExactUnlessStale(idx, w, ops);
    forall p ensures !Cancelled(ops, p) {
      if e.kind.Renamed? && |e.paths| >= 2 {
        var (removal, creation) := (PathOp(e.paths[0], Removed), PathOp(e.paths[1], Created));
        assert ops == [removal] + [creation] && [removal] == [] + [removal];
        NoKinds(p);
        KindsSnoc([], removal, p);
        KindsSnoc([removal], creation, p);
      } else {
        KindsOfOneKind(e.paths, e.kind, p);
      }
    }
  }

  lemma NoKinds(p: Path)
    ensures KindsOn([], p) == []
  {
  }

  /**
   The batched actor on a channel that holds one event: the index is the one of the two lemmas above, so a rename moves
   its entry here, too.
   */
  lemma EventTurnDoesTheSame<R>(idx: Index, t: Turn, e: FileEvent)
    requires AliasFree(t.world.root, OpPaths(EventOps(e)))
    ensures var queue: seq<Command<R>> := [OneEvent(e)];
            && AliasFree(t.world.root, AddPending(map[], CommandsOps(TurnFiles(queue, t.available))).Keys)
            && BatchedTurn(idx, t, queue) == TurnResult(AfterCommand<R>(idx, t.world, OneEvent(e)), [], true)
  {
    hide Flushed, ApplySingly, AddPending, ShouldIndex, AfterCommand, EventOps;
    var queue: seq<Command<R>> := [OneEvent(e)];
    var none: seq<Command<R>> := [];
    assert queue[1..] == none && Visible(queue, t.available) == none && FileRun(none) == 0;
    assert TurnFiles(queue, t.available) == [queue[0]] + none[..0] == queue;
    assert Trailing(queue, t.available) == None;
    CommandsOpsNil<R>(map[]);
    assert CommandsOps(queue) == EventOps(e) by {
      assert CommandsOps(queue) == CommandOps(queue[0]) + CommandsOps(none) == EventOps(e) + [];
    }
    OneEventIsExact(idx, t.world, e);
    AfterFileEvent<R>(idx, t.world, e);
  }

  lemma {:induction false} RemovedAt(idx: Index, keys: seq<Path>, r: Path)
    ensures At(RemoveAll(idx, keys), r) == if r in keys then None else At(idx, r)
    decreases |keys|
  {
    if keys != [] {
      RemovedAt(idx - {keys[0]}, keys[1..], r);
      assert r in keys <==> r == keys[0] || r in keys[1..];
    }
  }

  lemma ReindexedAt(idx: Index, w: World, p: Path, r: Path)
    requires w.supported(p)
    ensures At(Reindexed(idx, w, p), r) ==
            if RelativePath(w.root, p) != r then At(idx, r) else if p in w.parsed then Some(w.parsed[p]) else None
  {
  }

  lemma {:induction false} RefreshedAt(idx: Index, w: World, stale: seq<Path>, r: Path)
    ensures var after := At(ReindexAll(idx, w, stale), r);
            && (forall p | p in stale && w.supported(p) && RelativePath(w.root, p) == r ::
                  AliasFree(w.root, set q | q in stale) ==>
                    after == if p in w.parsed then Some(w.parsed[p]) else None)
            && ((forall p | p in stale && w.supported(p) :: RelativePath(w.root, p) != r) ==> after == At(idx, r))
    decreases |stale|
  {
    hide AliasFree, Reindexed;
    if stale != [] {
      var (p, rest) := (stale[0], stale[1..]);
      var next := if w.supported(p) then Reindexed(idx, w, p) else idx;
      RefreshedAt(next, w, rest, r);
      assert stale == [p] + rest;
      if w.supported(p) {
        ReindexedAt(idx, w, p, r);
      }
      if AliasFree(w.root, set q | q in stale) {
        AliasFreeSubset(w.root, set q | q in rest, set q | q in stale);
        SamePath(w.root, stale, p);
      }
    }
  }

  /**
   A refresh key by key: a stale file that is supported is stored anew, or gone if it no longer parses; of the other
   keys exactly the deleted ones are gone.
   */
  lemma RefreshKeyByKey<R>(idx: Index, w: World, stale: seq<Path>, deleted: seq<Path>, r: Path)
    ensures var after := At(AfterCommand<R>(idx, w, BackgroundRefresh(stale, deleted)), r);
            && (forall p | p in stale && w.supported(p) && RelativePath(w.root, p) == r ::
                  AliasFree(w.root, set q | q in stale) ==>
                    after == if p in w.parsed then Some(w.parsed[p]) else None)
            && ((forall p | p in stale && w.supported(p) :: RelativePath(w.root, p) != r) ==>
                  after == if r in deleted then None else At(idx, r))
  {
    hide AliasFree, RemoveAll, ReindexAll, OneByOne, At;
    var c: Command<R> := BackgroundRefresh(stale, deleted);
    AfterOther(idx, w, c);
    RefreshedAt(RemoveAll(idx, deleted), w, stale, r);
    RemovedAt(idx, deleted, r);
  }

  /**
   The other commands: a rebuild leaves what a walk finds, whatever was there; a query is answered from the index and
   leaves it alone; nothing behind a shutdown is handled.
   */
  lemma OtherCommandsAct<R>(idx: Index, w: World, ask: (Index, World) -> R, later: seq<Command<R>>)
    ensures AfterCommand<R>(idx, w, Rebuild) == w.walked && OneByOne<R>(idx, [w], [Rebuild]).replies == []
    ensures OneByOne(idx, [w], [Query(ask)]) == RunResult(idx, [ask(idx, w)])
    ensures forall worlds | worlds != [] :: OneByOne(idx, worlds, [Shutdown] + later) == RunResult(idx, [])
  {
    AfterOther<R>(idx, w, Rebuild);
    AfterOther(idx, w, Query(ask));
  }

  lemma AfterOther<R>(idx: Index, w: World, c: Command<R>)
    requires !c.IsFileCommand()
    ensures var t := HandleTrailing(idx, w, Some(c)); OneByOne(idx, [w], [c]) == RunResult(t.index, t.replies)
  {
    hide HandleTrailing;
    var t := HandleTrailing(idx, w, Some(c));
    assert [c][1..] == [] && [w][1..] == [] && t.replies + [] == t.replies;
  }

  /** A batch does what its events do as commands of their own, in order. */
  lemma BatchIsItsEvents<R>(idx: Index, w: World, es: seq<FileEvent>)
    ensures var singles: seq<Command<R>> := Singles(es);
            AfterCommand<R>(idx, w, EventBatch(es)) == OneByOne(idx, seq(|es|, _ => w), singles).index
  {
    hide ApplySingly, EventOps;
    var c: Command<R> := EventBatch(es);
    var none: seq<Command<R>> := [];
    assert [c][1..] == none && [w][1..] == [] && CommandOps(c) == EventsOps(es);
    var after := ApplySingly(idx, w, EventsOps(es));
    assert OneByOne(idx, [w], [c]) == OneByOne(after, [], none);
    var (singles, worlds) := (Singles<R>(es), seq(|es|, _ => w));
    SinglesOps<R>(es);
    FilesOneByOne(idx, w, |es|, worlds, singles);
    assert singles[..|es|] == singles && singles[|es|..] == none && worlds[|es|..] == [];
  }

  function Singles<R>(es: seq<FileEvent>): (cs: seq<Command<R>>)
    ensures |cs| == |es| && forall k | 0 <= k < |es| :: cs[k] == OneEvent(es[k])
  {
    if es == [] then [] else [OneEvent(es[0])] + Singles(es[1..])
  }

  lemma {:induction false} SinglesOps<R>(es: seq<FileEvent>)
    ensures CommandsOps(Singles<R>(es)) == EventsOps(es)
  {
    hide EventOps;
    if es != [] {
      SinglesOps<R>(es[1..]);
      assert Singles<R>(es)[1..] == Singles<R>(es[1..]);
    }
  }

  /**
   A batch is a turn of its own. A single event takes the file commands that are visible behind it, and one other
   command if that comes first.
   */
  lemma WhatATurnTakes<R>(queue: seq<Command<R>>, available: nat)
    requires queue != []
    ensures !queue[0].OneEvent? ==> Consumed(queue, available) == 1
    ensures queue[0].OneEvent? ==>
              var n := Consumed(queue, available);
              && (forall k | 0 <= k < n - 1 :: queue[k].IsFileCommand())
              && n <= 1 + available
              && (queue[n - 1].IsFileCommand() ==> n == |queue| || n == 1 + available)
    ensures var last := queue[Consumed(queue, available) - 1];
            Trailing(queue, available) == if last.IsFileCommand() then None else Some(last)
  {
    if queue[0].OneEvent? {
      var visible := Visible(queue, available);
      var n := FileRun(visible);
      assert forall k | 0 <= k < |visible| :: visible[k] == queue[1 + k];
      assert forall k | 0 <= k < n :: visible[k] == visible[..n][k];
    }
  }

  /**
   A file under the root is stored under its path from there, if no directory or file name on it begins with a dot;
   otherwise no event on it changes anything.
   */
  lemma FilesUnderTheRoot<R>(idx: Index, w: World, rel: Path, kind: FileEventKind)
    requires w.supported(w.root + rel)
    ensures var p := w.root + rel;
            var after := AfterCommand<R>(idx, w, OneEvent(FileEvent([p], kind)));
            if exists i | 0 <= i < |rel| :: |rel[i]| >= 2 && rel[i][0] == '.' then after == idx
            else
              && At(after, rel) == (if kind.Removed? || p !in w.parsed then None else Some(w.parsed[p]))
              && forall r | r != rel :: At(after, r) == At(idx, r)
  {
    hide AfterCommand, ApplySingly, ApplyOp, EventOps, At;
    var p := w.root + rel;
    assert RelativePath(w.root, p) == rel;
    var op := PathOp(p, kind);
    OnePathOps(p, kind);
    AfterFileEvent<R>(idx, w, FileEvent([p], kind));
    NoOps(idx, w);
    assert [op] == [] + [op];
    SinglySnoc(idx, w, [], op);
    var after := ApplyOp(idx, w, op);
    forall r ensures At(after, r) == if ShouldIndex(w, p) && rel == r then Outcome(w, op) else At(idx, r) {
      AppliedAt(idx, w, op, r);
    }
    if !ShouldIndex(w, p) {
      SameAtEveryKey(after, idx);
    }
  }

  lemma OnePathOps(p: Path, kind: FileEventKind)
    ensures EventOps(FileEvent([p], kind)) == [PathOp(p, kind)]
  {
    var none: seq<Path> := [];
    assert [p][1..] == none && OpsOnPaths(none, kind) == [];
    assert OpsOnPaths([p], kind) == [PathOp(p, kind)] + [];
  }

  // ---------------------------------------------------------------- channels that are clean however they are drained

  /** All paths that file commands of the channel are about. */
  function FilePaths<R>(queue: seq<Command<R>>): set<Path> {
    set i, op | 0 <= i < |queue| && queue[i].IsFileCommand() && op in CommandOps(queue[i]) :: op.path
  }

  /**
   No stretch of consecutive file commands ends, on any path, with a create or modify directly followed by a removal.
   */
  ghost predicate NeverCancels<R>(queue: seq<Command<R>>) {
    forall i, j | 0 <= i <= j <= |queue| && (forall c | c in queue[i..j] :: c.IsFileCommand()) ::
      forall p :: !Cancelled(CommandsOps(queue[i..j]), p)
  }

  lemma {:induction false} OpsComeFromCommands<R>(queue: seq<Command<R>>, n: nat)
    requires n <= |queue| && forall c | c in queue[..n] :: c.IsFileCommand()
    ensures OpPaths(CommandsOps(queue[..n])) <= FilePaths(queue)
    decreases n
  {
    hide CommandOps;
    if n > 0 {
      assert queue[..n][1..] == queue[1..][..n - 1];
      OpsComeFromCommands(queue[1..], n - 1);
      LaterPaths(queue, 1);
      forall op | op in CommandsOps(queue[..n]) ensures op.path in FilePaths(queue) {
        if op in CommandOps(queue[0]) {
          assert queue[0].IsFileCommand();
        } else {
          assert op in CommandsOps(queue[1..][..n - 1]);
        }
      }
    }
  }

  lemma LaterPaths<R>(queue: seq<Command<R>>, n: nat)
    requires n <= |queue|
    ensures FilePaths(queue[n..]) <= FilePaths(queue)
  {
    hide CommandOps;
    forall p | p in FilePaths(queue[n..]) ensures p in FilePaths(queue) {
      var i, op :| 0 <= i < |queue[n..]| && queue[n..][i].IsFileCommand() && op in CommandOps(queue[n..][i]) &&
                   op.path == p;
      assert queue[n + i] == queue[n..][i];
    }
  }

  lemma LaterNeverCancels<R>(queue: seq<Command<R>>, n: nat)
    requires n <= |queue| && NeverCancels(queue)
    ensures NeverCancels(queue[n..])
  {
    hide Cancelled, CommandsOps;
    var rest := queue[n..];
    forall i, j | 0 <= i <= j <= |rest| && (forall c | c in rest[i..j] :: c.IsFileCommand())
      ensures forall p :: !Cancelled(CommandsOps(rest[i..j]), p)
    {
      assert rest[i..j] == queue[n + i..n + j];
    }
  }

  lemma QuietTurnIsClean<R>(idx: Index, t: Turn, queue: seq<Command<R>>)
    requires queue != [] && NeverCancels(queue) && AliasFree(t.world.root, FilePaths(queue))
    ensures CleanTurn(idx, t, queue)
  {
    hide Cancelled, CommandsOps, FilePaths, TurnFiles;
    var files := TurnFiles(queue, t.available);
    var n := |files|;
    assert files == queue[..n] == queue[0..n];
    OpsComeFromCommands(queue, n);
    AliasFreeSubset(t.world.root, OpPaths(CommandsOps(files)), FilePaths(queue));
    assert forall p :: !Cancelled(CommandsOps(queue[0..n]), p);
  }

  /** On such a channel every run is clean, from any index and however it is drained. */
  lemma {:induction false} QuietChannelIsClean<R>(idx: Index, turns: seq<Turn>, queue: seq<Command<R>>)
    requires NeverCancels(queue) && forall t | t in turns :: AliasFree(t.world.root, FilePaths(queue))
    ensures CleanRun(idx, turns, queue)
    decreases |turns|
  {
    hide NeverCancels, FilePaths, AliasFree, CleanTurn, ReferenceTurn, TurnFiles, Trailing, Consumed;
    if turns != [] && queue != [] {
      QuietTurnIsClean(idx, turns[0], queue);
      var n := Consumed(queue, turns[0].available);
      LaterNeverCancels(queue, n);
      LaterPaths(queue, n);
      forall t | t in turns[1..] ensures AliasFree(t.world.root, FilePaths(queue[n..])) {
        AliasFreeSubset(t.world.root, FilePaths(queue[n..]), FilePaths(queue));
      }
      QuietChannelIsClean(ReferenceTurn(idx, turns[0], queue).index, turns[1..], queue[n..]);
    }
  }

  // ---------------------------------------------------------------- the actor's own state

  class CoalescedEvents {
    var events: Pending

    constructor ()
      ensures events == map[]
    {
      events := map[];
    }

    method Insert(path: Path, kind: FileEventKind)
      modifies this
      ensures events == InsertPending(old(events), path, kind)
    {
      if path !in events {
        events := events[path := kind];
      } else {
        match (events[path], kind)
        case (Created, Removed) => events := events - {path};
        case (Modified, Removed) => events := events - {path};
        case (Removed, Created) => events := events[path := Created];
        case (Removed, Modified) => events := events[path := Created];
        case _ => events := events[path := kind];
      }
    }

    method Add(event: FileEvent)
      modifies this
      ensures events == AddPending(old(events), EventOps(event))
    {
      if event.kind.Renamed? && |event.paths| >= 2 {
        Insert(event.paths[0], Removed);
        Insert(event.paths[1], Created);
        ghost var removal, creation := PathOp(event.paths[0], Removed), PathOp(event.paths[1], Created);
        AddPendingSnoc(old(events), [], removal);
        AddPendingSnoc(old(events), [removal], creation);
        assert [] + [removal] == [removal] && [removal] + [creation] == EventOps(event);
        return;
      }
      for i := 0 to |event.paths|
        invariant events == AddPending(old(events), OpsOnPaths(event.paths[..i], event.kind))
      {
        OpsOnPathsSnoc(event.paths[..i], event.paths[i], event.kind);
        assert event.paths[..i + 1] == event.paths[..i] + [event.paths[i]];
        Insert(event.paths[i], event.kind);
        AddPendingSnoc(old(events), OpsOnPaths(event.paths[..i], event.kind), PathOp(event.paths[i], event.kind));
      }
      assert event.paths[..|event.paths|] == event.paths;
    }
  }

  lemma {:induction false} OpsOnPathsSnoc(paths: seq<Path>, p: Path, kind: FileEventKind)
    ensures OpsOnPaths(paths + [p], kind) == OpsOnPaths(paths, kind) + [PathOp(p, kind)]
  {
    if paths != [] {
      assert (paths + [p])[1..] == paths[1..] + [p];
      OpsOnPathsSnoc(paths[1..], p, kind);
    }
  }

  lemma AddPendingSnoc(m: Pending, ops: seq<PathOp>, op: PathOp)
    ensures AddPending(m, ops + [op]) == InsertPending(AddPending(m, ops), op.path, op.kind)
  {
    assert (ops + [op])[..|ops|] == ops;
  }

  lemma {:induction false} AddPendingConcat(m: Pending, a: seq<PathOp>, b: seq<PathOp>)
    ensures AddPending(m, a + b) == AddPending(AddPending(m, a), b)
  {
    if b == [] {
      assert a + b == a;
    } else {
      assert (a + b)[..|a + b| - 1] == a + b[..|b| - 1];
      AddPendingConcat(m, a, b[..|b| - 1]);
    }
  }

  lemma {:induction false} EventsOpsSnoc(es: seq<FileEvent>, e: FileEvent)
    ensures EventsOps(es + [e]) == EventsOps(es) + EventOps(e)
  {
    if es != [] {
      assert (es + [e])[1..] == es[1..] + [e];
      EventsOpsSnoc(es[1..], e);
    }
  }

  lemma {:induction false} CommandsOpsSnoc<R>(cs: seq<Command<R>>, c: Command<R>)
    requires (forall x | x in cs :: x.IsFileCommand()) && c.IsFileCommand()
    ensures forall x | x in cs + [c] :: x.IsFileCommand()
    ensures CommandsOps(cs + [c]) == CommandsOps(cs) + CommandOps(c)
    decreases |cs|
  {
    hide CommandOps;
    var more := cs + [c];
    forall x | x in more ensures x.IsFileCommand() {
    }
    if cs == [] {
      assert more == [c] && more[1..] == [];
      assert CommandsOps(more) == CommandOps(c) + [];
    } else {
      assert more[0] == cs[0] && more[1..] == cs[1..] + [c];
      CommandsOpsSnoc(cs[1..], c);
      assert CommandsOps(more) == CommandOps(cs[0]) + (CommandsOps(cs[1..]) + CommandOps(c));
    }
  }

  lemma SameAtEveryKey(a: Index, b: Index)
    requires forall r :: At(a, r) == At(b, r)
    ensures a == b
  {
    assert a.Keys == b.Keys by {
      forall r ensures r in a <==> r in b { assert At(a, r) == At(b, r); }
    }
    forall r | r in a ensures a[r] == b[r] { assert At(a, r) == At(b, r); }
  }

  lemma FlushOneMoreAt(idx: Index, w: World, done: Pending, p: Path, kind: FileEventKind, r: Path)
    requires p !in done && AliasFree(w.root, done.Keys + {p})
    ensures AliasFree(w.root, done[p := kind].Keys)
    ensures At(Flushed(idx, w, done[p := kind]), r) == At(ApplyOp(Flushed(idx, w, done), w, PathOp(p, kind)), r)
  {
    hide Flushed, ApplyOp, At, Outcome, ShouldIndex;
    var m := done[p := kind];
    assert m.Keys == done.Keys + {p};
    AppliedAt(Flushed(idx, w, done), w, PathOp(p, kind), r);
    if q :| q in m && ShouldIndex(w, q) && RelativePath(w.root, q) == r {
      FlushedAt(idx, w, m, q);
      if q != p {
        FlushedAt(idx, w, done, q);
      }
    } else {
      FlushedElsewhere(idx, w, m, r);
      FlushedElsewhere(idx, w, done, r);
    }
  }

  lemma AppliedAt(idx: Index, w: World, op: PathOp, r: Path)
    ensures At(ApplyOp(idx, w, op), r) ==
            if ShouldIndex(w, op.path) && RelativePath(w.root, op.path) == r then Outcome(w, op) else At(idx, r)
  {
  }

  /** Flushing one more pending path is applying its one event. */
  lemma FlushOneMore(idx: Index, w: World, done: Pending, p: Path, kind: FileEventKind)
    requires p !in done && AliasFree(w.root, done.Keys + {p})
    ensures AliasFree(w.root, done[p := kind].Keys)
    ensures Flushed(idx, w, done[p := kind]) == ApplyOp(Flushed(idx, w, done), w, PathOp(p, kind))
  {
    assert done[p := kind].Keys == done.Keys + {p};
    var a, b := Flushed(idx, w, done[p := kind]), ApplyOp(Flushed(idx, w, done), w, PathOp(p, kind));
    forall r ensures At(a, r) == At(b, r) { FlushOneMoreAt(idx, w, done, p, kind, r); }
    SameAtEveryKey(a, b);
  }

  lemma CommandsOpsNil<R>(m: Pending)
    ensures CommandsOps<R>([]) == []
    ensures AddPending(m, []) == m
  {
  }

  lemma CommandsOpsCons<R>(c: Command<R>, cs: seq<Command<R>>)
    requires c.IsFileCommand() && forall x | x in cs :: x.IsFileCommand()
    ensures forall x | x in [c] + cs :: x.IsFileCommand()
    ensures CommandsOps([c] + cs) == CommandOps(c) + CommandsOps(cs)
    ensures CommandsOps([c]) == CommandOps(c)
  {
    assert ([c] + cs)[1..] == cs;
    assert [c][1..] == [];
  }

  lemma {:induction false} FileRunPast<R>(cs: seq<Command<R>>, k: nat)
    requires k < |cs| && cs[k].IsFileCommand() && k <= FileRun(cs)
    ensures k + 1 <= FileRun(cs)
  {
    if k > 0 {
      FileRunPast(cs[1..], k - 1);
    }
  }

  lemma OneFewerToDo(events: Pending, todo: set<Path>, p: Path)
    requires p in todo && todo <= events.Keys
    ensures p !in events - todo
    ensures events - (todo - {p}) == (events - todo)[p := events[p]]
    ensures (events - (todo - {p})).Keys == (events - todo).Keys + {p} <= events.Keys
  {
  }

  lemma AliasFreeSubset(root: Path, some: set<Path>, all: set<Path>)
    requires some <= all && AliasFree(root, all)
    ensures AliasFree(root, some)
  {
  }

  lemma FlushNothing(idx: Index, w: World)
    ensures AliasFree(w.root, {})
    ensures Flushed(idx, w, map[]) == idx
    ensures |Indexable(w, {})| == 0
  {
    forall r ensures At(Flushed(idx, w, map[]), r) == At(idx, r) { FlushedElsewhere(idx, w, map[], r); }
    SameAtEveryKey(Flushed(idx, w, map[]), idx);
  }

  ghost function Indexable(w: World, paths: set<Path>): set<Path> {
    set p | p in paths && ShouldIndex(w, p)
  }

  lemma IndexableOneMore(w: World, paths: set<Path>, p: Path)
    requires p !in paths
    ensures |Indexable(w, paths + {p})| == |Indexable(w, paths)| + if ShouldIndex(w, p) then 1 else 0
  {
    if ShouldIndex(w, p) {
      assert Indexable(w, paths + {p}) == Indexable(w, paths) + {p};
    } else {
      assert Indexable(w, paths + {p}) == Indexable(w, paths);
    }
  }

  class IndexManager {
    var index: Index
    var updatesProcessed: nat

    constructor (walked: Index)
      ensures index == walked && updatesProcessed == 0
    {
      index := walked;
      updatesProcessed := 0;
    }

    method RemoveFile(w: World, path: Path)
      modifies this`index
      ensures index == RemovedFrom(old(index), RelativePath(w.root, path))
    {
      index := index - {RelativePath(w.root, path)};
    }

    method ReindexFile(w: World, path: Path)
      modifies this`index
      ensures index == Reindexed(old(index), w, path)
    {
      var rel := RelativePath(w.root, path);
      index := index - {rel};
      if !w.supported(path) || path !in w.parsed { return; }
      index := index[rel := w.parsed[path]];
      assert index == old(index)[rel := w.parsed[path]];
    }

    method ApplyPending(w: World, path: Path, kind: FileEventKind)
      modifies this
      ensures index == ApplyOp(old(index), w, PathOp(path, kind))
      ensures updatesProcessed == old(updatesProcessed) + if ShouldIndex(w, path) then 1 else 0
    {
      if ShouldIndex(w, path) {
        match kind {
          case Created => ReindexFile(w, path);
          case Modified => ReindexFile(w, path);
          case Removed => RemoveFile(w, path);
          case Renamed => ReindexFile(w, path);
        }
        updatesProcessed := updatesProcessed + 1;
      }
    }

    /** The hash map is consumed in an arbitrary order; the outcome does not depend on it. */
    method ApplyCoalesced(w: World, coalesced: CoalescedEvents)
      modifies this
      ensures AliasFree(w.root, coalesced.events.Keys) ==> index == Flushed(old(index), w, coalesced.events)
      ensures updatesProcessed == old(updatesProcessed) + |Indexable(w, coalesced.events.Keys)|
    {
      hide *;
      var events := coalesced.events;
      var todo := events.Keys;
      FlushNothing(index, w);
      assert events - todo == map[] && (events - todo).Keys == {};
      while todo != {}
        invariant todo <= events.Keys
        invariant AliasFree(w.root, events.Keys) ==>
                    AliasFree(w.root, (events - todo).Keys) && index == Flushed(old(index), w, events - todo)
        invariant updatesProcessed == old(updatesProcessed) + |Indexable(w, (events - todo).Keys)|
      {
        var path :| path in todo;
        OneFewerToDo(events, todo, path);
        if AliasFree(w.root, events.Keys) {
          AliasFreeSubset(w.root, (events - todo).Keys + {path}, events.Keys);
          FlushOneMore(old(index), w, events - todo, path, events[path]);
        }
        IndexableOneMore(w, (events - todo).Keys, path);
        ApplyPending(w, path, events[path]);
        todo := todo - {path};
      }
      assert events - {} == events;
    }

    method ProcessOther<R>(w: World, command: Command<R>) returns (replies: seq<R>, alive: bool)
      requires !command.IsFileCommand()
      modifies this`index
      ensures TurnResult(index, replies, alive) == HandleTrailing(old(index), w, Some(command))
    {
      replies, alive := [], true;
      match command {
        case Rebuild => index := w.walked;
        case BackgroundRefresh(stale, deleted) =>
          for i := 0 to |deleted|
            invariant RemoveAll(index, deleted[i..]) == RemoveAll(old(index), deleted)
          {
            index := index - {deleted[i]};
          }
          ghost var removed := index;
          for i := 0 to |stale|
            invariant ReindexAll(index, w, stale[i..]) == ReindexAll(removed, w, stale)
          {
            assert stale[i..][1..] == stale[i + 1..];
            if w.supported(stale[i]) { ReindexFile(w, stale[i]); }
          }
        case Query(ask) => replies := [ask(index, w)];
        case Shutdown => alive := false;
      }
    }

    /** Takes the file commands at the head of what try_recv can see. */
    method DrainFileCommands<R>(coalesced: CoalescedEvents, visible: seq<Command<R>>) returns (k: nat)
      modifies coalesced
      ensures k == FileRun(visible)
      ensures coalesced.events == AddPending(old(coalesced.events), CommandsOps(visible[..k]))
    {
      hide AddPending, CommandsOps, FileRun, EventOps, EventsOps;
      k := 0;
      CommandsOpsNil<R>(coalesced.events);
      assert visible[..0] == [];
      while k < |visible| && visible[k].IsFileCommand()
        invariant k <= FileRun(visible)
        invariant forall c | c in visible[..k] :: c.IsFileCommand()
        invariant coalesced.events == AddPending(old(coalesced.events), CommandsOps(visible[..k]))
      {
        FileRunPast(visible, k);
        assert visible[..k + 1] == visible[..k] + [visible[k]];
        CommandsOpsSnoc(visible[..k], visible[k]);
        AddPendingConcat(old(coalesced.events), CommandsOps(visible[..k]), CommandOps(visible[k]));
        if visible[k].OneEvent? {
          coalesced.Add(visible[k].event);
        } else {
          AddEvents(coalesced, visible[k].events);
        }
        k := k + 1;
      }
    }

    /** One turn of the command loop on a nonempty channel. */
    method ProcessCommandCoalesced<R>(t: Turn, queue: seq<Command<R>>)
      returns (replies: seq<R>, consumed: nat, alive: bool)
      requires queue != []
      modifies this
      ensures consumed == Consumed(queue, t.available)
      ensures alive == (Trailing(queue, t.available) != Some(Shutdown))
      ensures AliasFree(t.world.root, AddPending(map[], CommandsOps(TurnFiles(queue, t.available))).Keys) ==>
                TurnResult(index, replies, alive) == BatchedTurn(old(index), t, queue)
    {
      hide Flushed, AddPending, CommandsOps, Visible, FileRun;
      var command := queue[0];
      replies, alive, consumed := [], true, 1;
      if command.OneEvent? {
        var coalesced := new CoalescedEvents();
        coalesced.Add(command.event);
        var visible := Visible(queue, t.available);
        var k := DrainFileCommands(coalesced, visible);
        CommandsOpsCons(command, visible[..k]);
        AddPendingConcat(map[], EventOps(command.event), CommandsOps(visible[..k]));
        ApplyCoalesced(t.world, coalesced);
        consumed := k + 1;
        if k < |visible| {
          replies, alive := ProcessOther(t.world, visible[k]);
          consumed := k + 2;
        }
        assert TurnFiles(queue, t.available) == [command] + visible[..k];
        assert AliasFree(t.world.root, AddPending(map[], CommandsOps(TurnFiles(queue, t.available))).Keys) ==>
                TurnResult(index, replies, alive) == BatchedTurn(old(index), t, queue);
      } else if command.EventBatch? {
        var coalesced := new CoalescedEvents();
        AddEvents(coalesced, command.events);
        CommandsOpsCons(command, []);
        assert TurnFiles(queue, t.available) == [command];
        ApplyCoalesced(t.world, coalesced);
        assert AliasFree(t.world.root, AddPending(map[], CommandsOps(TurnFiles(queue, t.available))).Keys) ==>
                TurnResult(index, replies, alive) == BatchedTurn(old(index), t, queue);
      } else {
        FlushNothing(index, t.world);
        CommandsOpsNil<R>(map[]);
        replies, alive := ProcessOther(t.world, command);
      }
    }

    method AddEvents(coalesced: CoalescedEvents, events: seq<FileEvent>)
      modifies coalesced
      ensures coalesced.events == AddPending(old(coalesced.events), EventsOps(events))
    {
      for i := 0 to |events|
        invariant coalesced.events == AddPending(old(coalesced.events), EventsOps(events[..i]))
      {
        assert events[..i + 1] == events[..i] + [events[i]];
        EventsOpsSnoc(events[..i], events[i]);
        AddPendingConcat(old(coalesced.events), EventsOps(events[..i]), EventOps(events[i]));
        coalesced.Add(events[i]);
      }
      assert events[..|events|] == events;
    }

    /** The command loop over a channel, one turn after another until shutdown. */
    method RunLoop<R>(turns: seq<Turn>, channel: seq<Command<R>>) returns (replies: seq<R>)
      modifies this
      ensures AliasFreeRun(turns, channel) ==> RunResult(index, replies) == BatchedRun(old(index), turns, channel)
    {
      hide *;
      replies := [];
      var queue := channel;
      var i := 0;
      var alive := true;
      while alive && i < |turns| && queue != []
        invariant i <= |turns|
        invariant AliasFreeRun(turns, channel) && !alive ==>
                    BatchedRun(old(index), turns, channel) == RunResult(index, replies)
        invariant AliasFreeRun(turns, channel) && alive ==>
                    && AliasFreeRun(turns[i..], queue)
                    && var rest := BatchedRun(index, turns[i..], queue);
                    BatchedRun(old(index), turns, channel) == RunResult(rest.index, replies + rest.replies)
      {
        ghost var before := index;
        assert turns[i..][1..] == turns[i + 1..] && turns[i..][0] == turns[i];
        var rs, consumed, live := ProcessCommandCoalesced(turns[i], queue);
        if AliasFreeRun(turns, channel) {
          BatchedRunUnfolds(before, turns[i..], queue, TurnResult(index, rs, live));
          if live {
            var rest := BatchedRun(index, turns[i + 1..], queue[consumed..]);
            assert (replies + rs) + rest.replies == replies + (rs + rest.replies);
          }
        }
        queue := queue[consumed..];
        replies := replies + rs;
        alive := live;
        i := i + 1;
      }
      if AliasFreeRun(turns, channel) && alive {
        EmptyRun(index, turns[i..], queue);
      }
    }
  }
}
