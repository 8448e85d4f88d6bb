// What a whole worker keeps, through walks, copies, stops and checkpoints.
module EngineProperties {
  import opened BackupTables
  import opened DiskContainers
  import opened CopyProperties
  import opened TaskControls
  import opened FileFrames
  import opened WalkProperties
  import opened BackupWindows
  import opened BackupEngine

  // ------------------------------------------- a walk offers the right entries

  lemma WorkerFilter(env: Env, span: Span)
    ensures Honest(WorkerCallbacks(env, span), n => InWindow(n, span))
    ensures Sticky(WorkerCallbacks(env, span))
  {
  }

  // An effect is about this entry of the tree.
  predicate EffectOf(x: Effect, v: Visit, span: Span) {
    x.path == v.path && x.begin == span.last && x.end == span.end && (x.MadeDir? <==> v.node.Folder?)
    && (x.Copied? ==> x.bytes == v.node.bytes && x.begin <= v.node.mtime < x.end)
  }

  ghost predicate LogGrowsBy(log: seq<Effect>, log': seq<Effect>, calls: seq<Visit>, span: Span) {
    && |log'| == |log| + |calls| && log'[..|log|] == log
    && forall i :: 0 <= i < |calls| ==> EffectOf(log'[|log| + i], calls[i], span)
  }

  lemma LogGrowsTwice(log: seq<Effect>, log1: seq<Effect>, log2: seq<Effect>,
                      calls1: seq<Visit>, calls2: seq<Visit>, span: Span)
    requires LogGrowsBy(log, log1, calls1, span) && LogGrowsBy(log1, log2, calls2, span)
    ensures LogGrowsBy(log, log2, calls1 + calls2, span)
  {
    assert log2[..|log|] == log2[..|log1|][..|log|];
    forall i | 0 <= i < |calls1| + |calls2| ensures EffectOf(log2[|log| + i], (calls1 + calls2)[i], span) {
      if i < |calls1| {
        assert log2[|log| + i] == log2[..|log1|][|log| + i] == log1[|log| + i];
      } else {
        assert log2[|log| + i] == log2[|log1| + (i - |calls1|)];
      }
    }
  }

  lemma ProcessLogs(env: Env, span: Span, e: Engine, p: Path, n: Node)
    requires Filter(e, env, span, n).1 == FilterIn
    ensures var e1 := Filter(e, env, span, n).0;
      && e1.log == e.log && e1.brick == e.brick
      && LogGrowsBy(e.log, Process(e1, env, span, p, n).log, [Visit(p, n)], span)
      && Process(e1, env, span, p, n).brick == e.brick
  {
  }

  lemma {:induction false} ScanLogs(env: Env, span: Span, e: Engine, path: Path, entries: seq<Entry>)
    ensures var scan := ScanOf(WorkerCallbacks(env, span), e, path, entries);
      LogGrowsBy(e.log, scan.state.log, scan.calls, span) && scan.state.brick == e.brick
    decreases |entries|
  {
    if entries != [] {
      var cb := WorkerCallbacks(env, span);
      var p, n := path + [entries[0].name], entries[0].node;
      var (e1, v1) := cb.filter(e, p, n);
      var (e2, v2) := cb.filter(e1, p, n);
      if v1 == FilterIn {
        var e3 := cb.process(e1, p, n);
        ScanLogs(env, span, e3, path, entries[1..]);
        ProcessLogs(env, span, e, p, n);
        var rest := ScanOf(cb, e3, path, entries[1..]);
        LogGrowsTwice(e.log, e3.log, rest.state.log, [Visit(p, n)], rest.calls, span);
      } else if v2 != FrameStop {
        ScanLogs(env, span, e2, path, entries[1..]);
      }
    }
  }

  lemma {:induction false} WalkLogs(env: Env, span: Span, e: Engine, col: seq<Work>)
    ensures var walk := WalkOf(WorkerCallbacks(env, span), e, col);
      LogGrowsBy(e.log, walk.state.log, walk.calls, span) && walk.state.brick == e.brick
    decreases QueueSize(col)
  {
    if col != [] {
      var cb := WorkerCallbacks(env, span);
      var scan := SearchOf(cb, e, col[0]);
      if col[0].folder.Folder? && col[0].folder.readable {
        ScanLogs(env, span, e, col[0].path, col[0].folder.entries);
      }
      if !scan.stopped {
        QueueSizeAppend(col[1..], scan.found);
        WalkLogs(env, span, scan.state, col[1..] + scan.found);
        var rest := WalkOf(cb, scan.state, col[1..] + scan.found);
        LogGrowsTwice(e.log, scan.state.log, rest.state.log, scan.calls, rest.calls, span);
      }
    }
  }

  // If the walk of a window ends without a stop, copy has been called exactly
  // once for every reachable file with its time in the window, create_dir once
  // for every reachable folder, before anything below it, and for nothing else.
  lemma WindowIsOffered(env: Env, span: Span, e: Engine, tree: Node)
    requires !WalkRoot(WorkerCallbacks(env, span), e, tree).stopped
    requires tree.Folder? && tree.readable && WellNamed(tree.entries)
    ensures var walk := WalkRoot(WorkerCallbacks(env, span), e, tree);
      && LogGrowsBy(e.log, walk.state.log, walk.calls, span)
      && DistinctPaths(walk.calls)
      && (forall rel: Path, node: Node ::
            Visit(rel, node) in walk.calls
            <==> Reaches(tree.entries, rel, node) && (node.Folder? || span.last <= node.mtime < span.end))
      && (forall i, j | 0 <= i < |walk.calls| && 0 <= j < |walk.calls| && walk.calls[i].path < walk.calls[j].path ::
            i < j)
  {
    var cb := WorkerCallbacks(env, span);
    WorkerFilter(env, span);
    WalkLogs(env, span, e, [Work([], tree)]);
    WalkIsExact(cb, n => InWindow(n, span), e, tree);
    WalkByDepth(cb, e, [Work([], tree)]);
  }

  // ----------------------------------------------------- after a disk is full

  predicate DiskFailed(x: Effect) { x.Copied? && x.diskFull }

  predicate Failed(e: Engine) { e.log != [] && DiskFailed(e.log[|e.log| - 1]) }

  // A disk-full failure can only be the last effect, and then the worker is told
  // to stop.
  ghost predicate FailureIsLast(e: Engine) {
    && e.brick in e.regs
    && (forall i :: 0 <= i < |e.log| && DiskFailed(e.log[i]) ==> i == |e.log| - 1)
    && (Failed(e) ==> Stopping(e))
  }

  // The disk under the worker is its own unless it has been told to stop, and
  // the index agrees with the disks.
  ghost predicate DisksKept(e0: Engine, e: Engine) {
    && IndexAgrees(e.w) && Referenced(e.w.tables) && KeepsRecorded(e0.w, e.w)
    && e.c.pos != [] && (Stopping(e) || Ready(e.c, e.w.tables))
    && e.w.tables.beginTime == e0.w.tables.beginTime && e.brick == e0.brick
  }

  ghost predicate Kept(e0: Engine, e: Engine) { FailureIsLast(e) && DisksKept(e0, e) }

  lemma {:induction false} PickDiskKeepsBegin(c: Container, t: Tables, probe: Probe, i: nat, code: InitCode)
    requires i <= |c.pos|
    ensures PickDisk(c, t, probe, i, code).t.beginTime == t.beginTime
    decreases |c.pos| - i
  {
    if i < |c.pos| {
      var c1, t1 := c.(disk := probe.mounted), WithDisk(t, c.brick, probe.mounted, Accepted(probe, i));
      if probe.mounted == "" { PickDiskKeepsBegin(c1, t, probe, i + 1, InitNoDiskMount); }
      else if !Owns(t1, c.brick, probe.mounted) { PickDiskKeepsBegin(c1, t1, probe, i + 1, InitNoDiskMount); }
    }
  }

  lemma {:induction false} FitKeepsBegin(c: Container, t: Tables, size: nat, probes: seq<Probe>)
    ensures FitOf(c, t, size, probes).t.beginTime == t.beginTime
    decreases |probes|
  {
    if TryOf(c, size) != Fits {
      var probe := NextProbe(probes);
      PickDiskKeepsBegin(c.(mounted := probe.mounted), t, probe, 0, InitSuccess);
      if InitOf(c, t, probe).code == InitSuccess {
        FitKeepsBegin(InitOf(c, t, probe).c, InitOf(c, t, probe).t, size, probes[1..]);
      }
    }
  }

  lemma CopyKeepsBegin(c: Container, w: World, path: Path, src: Source, env: CopyEnv)
    ensures CopyOf(c, w, path, src, env).w.tables.beginTime == w.tables.beginTime
    ensures SameIdentity(c, CopyOf(c, w, path, src, env).c)
  {
    if src.Readable? {
      FitKeepsBegin(c, w.tables, |src.bytes|, env.probes);
      FitKeepsIdentity(c, w.tables, |src.bytes|, env.probes);
      var b := BeginOf(c, w.tables, path, src, env.probes);
      FinishChangesOnePath(b.c, w.(tables := b.t), path, src.bytes, env);
    }
  }

  lemma {:induction false} FitKeepsIdentity(c: Container, t: Tables, size: nat, probes: seq<Probe>)
    ensures SameIdentity(c, FitOf(c, t, size, probes).c)
    decreases |probes|
  {
    if TryOf(c, size) != Fits {
      InitOnlyAddsOwners(c, t, NextProbe(probes));
      var init := InitOf(c, t, NextProbe(probes));
      if init.code == InitSuccess { FitKeepsIdentity(init.c, init.t, size, probes[1..]); }
    }
  }

  lemma WriteKeeps(w: World, me: BrickId, d: Deed)
    requires IndexAgrees(w) && Referenced(w.tables) && d.WriteFile? && Allowed(w, me, d)
    ensures var w' := Done(w, me, d);
      IndexAgrees(w') && Referenced(w'.tables) && KeepsRecorded(w, w')
  {
    FilesAfterWrite(w.disks, d.disk, d.path, d.bytes);
  }

  lemma RemoveKeeps(w: World, me: BrickId, d: Deed)
    requires IndexAgrees(w) && Referenced(w.tables) && d.RemoveFile? && Allowed(w, me, d)
    ensures var w' := Done(w, me, d);
      IndexAgrees(w') && Referenced(w'.tables) && KeepsRecorded(w, w')
  {
    FilesAfterWrite(w.disks, d.disk, d.path, "");
  }

  lemma DeedKeeps(w: World, me: BrickId, d: Deed)
    requires IndexAgrees(w) && Referenced(w.tables)
    ensures var w' := Done(w, me, d);
      IndexAgrees(w') && Referenced(w'.tables) && KeepsRecorded(w, w')
  {
    if Allowed(w, me, d) {
      if d.WriteFile? { WriteKeeps(w, me, d); }
      if d.RemoveFile? { RemoveKeeps(w, me, d); }
    }
  }

  // Other bricks take nothing away from what is recorded or owned.
  lemma {:induction false} OthersKeep(w: World, me: BrickId, deeds: seq<Deed>)
    requires IndexAgrees(w) && Referenced(w.tables)
    ensures var w' := AllDone(w, me, deeds);
      IndexAgrees(w') && Referenced(w'.tables) && KeepsRecorded(w, w')
    decreases |deeds|
  {
    if deeds != [] {
      var w1 := Done(w, me, deeds[0]);
      DeedKeeps(w, me, deeds[0]);
      OthersKeep(w1, me, deeds[1..]);
      KeepsRecordedTwice(w, w1, AllDone(w1, me, deeds[1..]));
    }
  }

  lemma {:induction false} OthersKeepBegin(w: World, me: BrickId, deeds: seq<Deed>)
    ensures AllDone(w, me, deeds).tables.beginTime == w.tables.beginTime
    decreases |deeds|
  {
    if deeds != [] { OthersKeepBegin(Done(w, me, deeds[0]), me, deeds[1..]); }
  }

  lemma FilterKeeps(e0: Engine, e: Engine, env: Env, span: Span, n: Node)
    requires Kept(e0, e)
    ensures Kept(e0, Filter(e, env, span, n).0)
  {
    PollKeeps(e0, e, env);
  }

  lemma PollKeeps(e0: Engine, e: Engine, env: Env)
    requires Kept(e0, e)
    ensures Kept(e0, Polled(e, env)) && KeepsRecorded(e.w, Polled(e, env).w)
    ensures Polled(e, env).w.tables.beginTime == e.w.tables.beginTime
  {
    var others := env(e.clock).others;
    OthersKeep(e.w, e.brick, others);
    OthersKeepBegin(e.w, e.brick, others);
    KeepsRecordedTwice(e0.w, e.w, AllDone(e.w, e.brick, others));
  }

  // process is only ever called by a worker that has not been told to stop.
  lemma ProcessKeeps(e0: Engine, e: Engine, env: Env, span: Span, p: Path, n: Node)
    requires Kept(e0, e) && !Stopping(e)
    ensures Kept(e0, Process(e, env, span, p, n))
  {
    if n.File? {
      var m := env(e.clock);
      var src := if m.readable then Readable(n.bytes) else Unreadable;
      CopyKeepsIndex(e.c, e.w, p, src, m.copy);
      CopyKeepsBegin(e.c, e.w, p, src, m.copy);
      KeepsRecordedTwice(e0.w, e.w, CopyOf(e.c, e.w, p, src, m.copy).w);
    }
  }

  lemma {:induction false} ScanKeeps(e0: Engine, env: Env, span: Span, e: Engine, path: Path, entries: seq<Entry>)
    requires Kept(e0, e)
    ensures Kept(e0, ScanOf(WorkerCallbacks(env, span), e, path, entries).state)
    decreases |entries|
  {
    if entries != [] {
      var p, n := path + [entries[0].name], entries[0].node;
      var (e1, v1) := Filter(e, env, span, n);
      var (e2, v2) := Filter(e1, env, span, n);
      FilterKeeps(e0, e, env, span, n);
      if v1 == FilterIn {
        ProcessKeeps(e0, e1, env, span, p, n);
        ScanKeeps(e0, env, span, Process(e1, env, span, p, n), path, entries[1..]);
      } else {
        FilterKeeps(e0, e1, env, span, n);
        if v2 != FrameStop { ScanKeeps(e0, env, span, e2, path, entries[1..]); }
      }
    }
  }

  // After a disk-full failure the walk makes no further create_dir or copy, and
  // all its copies keep the index in agreement with the disks.
  lemma {:induction false} WalkKeeps(e0: Engine, env: Env, span: Span, e: Engine, col: seq<Work>)
    requires Kept(e0, e)
    ensures Kept(e0, WalkOf(WorkerCallbacks(env, span), e, col).state)
    decreases QueueSize(col)
  {
    if col != [] {
      var cb := WorkerCallbacks(env, span);
      var scan := SearchOf(cb, e, col[0]);
      if col[0].folder.Folder? && col[0].folder.readable {
        ScanKeeps(e0, env, span, e, col[0].path, col[0].folder.entries);
      }
      if !scan.stopped {
        QueueSizeAppend(col[1..], scan.found);
        WalkKeeps(e0, env, span, scan.state, col[1..] + scan.found);
      }
    }
  }

  // The root gives the walk something to filter.
  predicate Opens(tree: Node) { tree.Folder? && tree.readable && tree.entries != [] }

  // A worker that has been told to stop does nothing in a walk but to poll, and
  // the walk ends with a stop exactly when the root has an entry to filter.
  lemma StoppedWalk(env: Env, span: Span, e: Engine, tree: Node)
    requires Stopping(e)
    ensures WalkRoot(WorkerCallbacks(env, span), e, tree)
         == if Opens(tree) then Walk(Polled(Polled(e, env), env), [], true) else Walk(e, [], false)
  {
    var cb := WorkerCallbacks(env, span);
    var col := [Work([], tree)];
    var scan := SearchOf(cb, e, col[0]);
    if Opens(tree) {
      var n := tree.entries[0].node;
      var (e1, v1) := Filter(e, env, span, n);
      var (e2, v2) := Filter(e1, env, span, n);
      assert v1 == FrameStop && v2 == FrameStop;
      assert scan == Scan(e2, [], [], true);
    } else {
      assert scan == Scan(e, [], [], false);
      assert col[1..] + scan.found == [];
      assert WalkOf(cb, e, col[1..] + scan.found) == Walk(e, [], false);
    }
    assert WalkRoot(cb, e, tree) == WalkOf(cb, e, col);
  }

  function Checkpoint(w: Worker): int
    requires w.e.brick in w.e.w.tables.beginTime
  {
    w.e.w.tables.beginTime[w.e.brick]
  }

  predicate HasRow(w: Worker) { w.e.brick in w.e.w.tables.beginTime }

  // One turn of a worker that has been told to stop: it returns, with nothing
  // done, exactly unless a window is due and the root cannot be opened or is
  // empty. Only then is the checkpoint moved, to the begin of that window.
  lemma StoppedTurn(w: Worker, env: Env, space: int, r: Round)
    requires Stopping(w.e) && HasRow(w)
    ensures var t, span := TurnOf(w, env, space, r), Plan(w.span, r.curr, space);
      && HasRow(t.worker) && t.worker.e.log == w.e.log && t.worker.e.c == w.e.c && Stopping(t.worker.e)
      && (t.stopped <==> !Executes(span) || Opens(r.tree))
      && Checkpoint(t.worker) == if !t.stopped && r.accepted then w.span.last else Checkpoint(w)
  {
    var span := Plan(w.span, r.curr, space);
    var e1 := Polled(w.e, env);
    OthersKeepBegin(w.e.w, w.e.brick, env(w.e.clock).others);
    OthersKeepBegin(e1.w, w.e.brick, env(e1.clock).others);
    if Executes(span) { StoppedWalk(env, span, w.e, r.tree); }
  }

  // ---------------------------------------------------------------- whole runs

  function Max(a: int, b: int): int { if a >= b then a else b }

  // `low` is the checkpoint at the start of the worker.
  ghost predicate CheckpointInv(w: Worker, low: int) {
    && FailureIsLast(w.e) && HasRow(w)
    && Checkpoint(w) <= if Failed(w.e) then Max(low, w.e.log[|w.e.log| - 1].begin) else Max(low, w.span.last)
  }

  lemma LastEffect(log: seq<Effect>, log': seq<Effect>, calls: seq<Visit>, span: Span)
    requires LogGrowsBy(log, log', calls, span)
    ensures log' == log || (|log'| > |log| && log'[|log'| - 1].begin == span.last)
  {
    if calls == [] {
      assert log'[..|log|] == log';
    } else {
      assert EffectOf(log'[|log| + (|calls| - 1)], calls[|calls| - 1], span);
    }
  }

  lemma NewFailureIsHere(env: Env, span: Span, e: Engine, tree: Node)
    ensures var state := WalkRoot(WorkerCallbacks(env, span), e, tree).state;
      Failed(state) && !Failed(e) ==> state.log[|state.log| - 1].begin == span.last
  {
    WalkLogs(env, span, e, [Work([], tree)]);
    var walk := WalkRoot(WorkerCallbacks(env, span), e, tree);
    LastEffect(e.log, walk.state.log, walk.calls, span);
  }

  ghost predicate Sound(e: Engine) { Kept(e, e) }

  // Checkpoints are written between walks only, and soundness lasts.
  lemma TurnKeepsSound(w: Worker, env: Env, space: int, r: Round)
    requires Sound(w.e) && HasRow(w)
    ensures var t, span := TurnOf(w, env, space, r), Plan(w.span, r.curr, space);
      && Sound(t.worker.e) && HasRow(t.worker) && KeepsRecorded(w.e.w, t.worker.e.w)
      && Checkpoint(t.worker) == if Executes(span) && !t.stopped && r.accepted then span.last else Checkpoint(w)
  {
    var span := Plan(w.span, r.curr, space);
    if Executes(span) { WalkKeeps(w.e, env, span, w.e, [Work([], r.tree)]); }
    else { PollKeeps(w.e, w.e, env); }
  }

  // The walk of a failed worker that does not end with a stop: a window is due,
  // the root has nothing to filter, and the checkpoint write is accepted.
  predicate EscapesNow(w: Worker, space: int, r: Round) {
    Failed(w.e) && Executes(Plan(w.span, r.curr, space)) && !Opens(r.tree) && r.accepted
  }

  predicate Escapes(w: Worker, env: Env, space: int, rounds: seq<Round>)
    decreases |rounds|
  {
    rounds != []
    && (EscapesNow(w, space, rounds[0])
        || (var t := TurnOf(w, env, space, rounds[0]); !t.stopped && Escapes(t.worker, env, space, rounds[1..])))
  }

  // After a failure only an escaping turn moves the checkpoint.
  lemma FailedTurn(w: Worker, env: Env, space: int, r: Round)
    requires Sound(w.e) && HasRow(w) && Failed(w.e)
    ensures var t := TurnOf(w, env, space, r);
      && HasRow(t.worker) && t.worker.e.log == w.e.log
      && Checkpoint(t.worker) == (if EscapesNow(w, space, r) then w.span.last else Checkpoint(w))
      && t.worker.span.last >= w.span.last
  {
    StoppedTurn(w, env, space, r);
  }

  lemma WorkingTurn(w: Worker, env: Env, space: int, r: Round, low: int)
    requires CheckpointInv(w, low) && Sound(w.e) && !EscapesNow(w, space, r)
    ensures CheckpointInv(TurnOf(w, env, space, r).worker, low)
  {
    TurnKeepsSound(w, env, space, r);
    if Failed(w.e) {
      FailedTurn(w, env, space, r);
    } else if Executes(Plan(w.span, r.curr, space)) {
      NewFailureIsHere(env, Plan(w.span, r.curr, space), w.e, r.tree);
    }
  }

  lemma {:induction false} RunKeepsCheckpoint(w: Worker, env: Env, space: int, rounds: seq<Round>, low: int)
    requires CheckpointInv(w, low) && Sound(w.e) && !Escapes(w, env, space, rounds)
    ensures CheckpointInv(RunOf(w, env, space, rounds).worker, low)
    decreases |rounds|
  {
    if rounds != [] {
      TurnKeepsSound(w, env, space, rounds[0]);
      WorkingTurn(w, env, space, rounds[0], low);
      var t := TurnOf(w, env, space, rounds[0]);
      if !t.stopped { RunKeepsCheckpoint(t.worker, env, space, rounds[1..], low); }
    }
  }

  lemma {:induction false} RunKeepsSound(w: Worker, env: Env, space: int, rounds: seq<Round>)
    requires Sound(w.e) && HasRow(w)
    ensures var w' := RunOf(w, env, space, rounds).worker;
      Sound(w'.e) && HasRow(w') && KeepsRecorded(w.e.w, w'.e.w)
    decreases |rounds|
  {
    if rounds != [] {
      TurnKeepsSound(w, env, space, rounds[0]);
      var t := TurnOf(w, env, space, rounds[0]);
      if !t.stopped {
        RunKeepsSound(t.worker, env, space, rounds[1..]);
        KeepsRecordedTwice(w.e.w, t.worker.e.w, RunOf(t.worker, env, space, rounds[1..]).worker.e.w);
      }
    }
  }

  // A worker that has done nothing yet, is registered, and is on its own disk.
  ghost predicate NewWorker(w: Worker) {
    && w.e.log == [] && w.e.brick in w.e.regs && HasRow(w)
    && IndexAgrees(w.e.w) && Referenced(w.e.w.tables) && w.e.c.pos != [] && Ready(w.e.c, w.e.w.tables)
  }

  // That is what a successful init leaves behind.
  lemma InitMakesNewWorker(e: Engine, probe: Probe, span: Span)
    requires e.log == [] && e.brick in e.regs && e.brick in e.w.tables.beginTime
    requires IndexAgrees(e.w) && Referenced(e.w.tables) && e.c.pos != []
    requires InitOf(e.c, e.w.tables, probe).code == InitSuccess
    ensures var o := InitOf(e.c, e.w.tables, probe);
      NewWorker(Worker(e.(c := o.c, w := e.w.(tables := o.t)), span)) && o.c.initFlag
  {
    InitMakesReady(e.c, e.w.tables, probe);
    InitOnlyAddsOwners(e.c, e.w.tables, probe);
    PickDiskKeepsBegin(e.c.(mounted := probe.mounted), e.w.tables, probe, 0, InitSuccess);
  }

  // Over any number of turns in which none escapes: a disk-full failure is the
  // last thing the worker does, and the checkpoint never passes the begin of the
  // window in which it happened (nor where it stood at the start), even if that
  // window itself was completed. The index agrees with the disks, and everything
  // recorded is still there.
  lemma FailureHoldsCheckpoint(w: Worker, env: Env, space: int, rounds: seq<Round>)
    requires NewWorker(w) && !Escapes(w, env, space, rounds)
    ensures var w' := RunOf(w, env, space, rounds).worker;
      && HasRow(w')
      && (forall i :: 0 <= i < |w'.e.log| && DiskFailed(w'.e.log[i]) ==>
            i == |w'.e.log| - 1 && Checkpoint(w') <= Max(Checkpoint(w), w'.e.log[i].begin))
      && IndexAgrees(w'.e.w) && KeepsRecorded(w.e.w, w'.e.w)
  {
    RunKeepsCheckpoint(w, env, space, rounds, Checkpoint(w));
    RunKeepsSound(w, env, space, rounds);
  }

  // ------------------------------------------------------- when it does escape

  function FailedAt(e: Engine): int
    requires Failed(e)
  {
    e.log[|e.log| - 1].begin
  }

  lemma {:induction false} EscapedStays(w: Worker, env: Env, space: int, rounds: seq<Round>)
    requires Sound(w.e) && HasRow(w) && Failed(w.e)
    requires Checkpoint(w) > FailedAt(w.e) && w.span.last > FailedAt(w.e)
    ensures var w' := RunOf(w, env, space, rounds).worker;
      HasRow(w') && w'.e.log == w.e.log && Checkpoint(w') > FailedAt(w.e)
    decreases |rounds|
  {
    if rounds != [] {
      TurnKeepsSound(w, env, space, rounds[0]);
      FailedTurn(w, env, space, rounds[0]);
      var t := TurnOf(w, env, space, rounds[0]);
      if !t.stopped { EscapedStays(t.worker, env, space, rounds[1..]); }
    }
  }

  // The checkpoint is behind the failure, and the next window would begin after it.
  ghost predicate Behind(w: Worker) {
    HasRow(w) && if Failed(w.e) then Checkpoint(w) <= FailedAt(w.e) < w.span.last else Checkpoint(w) <= w.span.last
  }

  lemma TurnStaysBehind(w: Worker, env: Env, space: int, r: Round)
    requires Sound(w.e) && Behind(w) && !EscapesNow(w, space, r)
    ensures var t := TurnOf(w, env, space, r);
      && HasRow(t.worker)
      && (!t.stopped ==> Behind(t.worker))
      && (Failed(t.worker.e) ==> Checkpoint(t.worker) <= FailedAt(t.worker.e))
  {
    TurnKeepsSound(w, env, space, r);
    if Failed(w.e) {
      FailedTurn(w, env, space, r);
    } else if Executes(Plan(w.span, r.curr, space)) {
      NewFailureIsHere(env, Plan(w.span, r.curr, space), w.e, r.tree);
    }
  }

  // For a worker that begins at or after its checkpoint: after a failure the
  // checkpoint is past the begin of the failed window exactly if a turn escaped.
  lemma {:induction false} PassesFailureIffEscapes(w: Worker, env: Env, space: int, rounds: seq<Round>)
    requires Sound(w.e) && Behind(w)
    ensures var w' := RunOf(w, env, space, rounds).worker;
      HasRow(w') && (Failed(w'.e) ==> (Checkpoint(w') > FailedAt(w'.e) <==> Escapes(w, env, space, rounds)))
    decreases |rounds|
  {
    if rounds != [] {
      var t := TurnOf(w, env, space, rounds[0]);
      TurnKeepsSound(w, env, space, rounds[0]);
      if EscapesNow(w, space, rounds[0]) {
        FailedTurn(w, env, space, rounds[0]);
        if !t.stopped { EscapedStays(t.worker, env, space, rounds[1..]); }
      } else {
        TurnStaysBehind(w, env, space, rounds[0]);
        if !t.stopped { PassesFailureIffEscapes(t.worker, env, space, rounds[1..]); }
      }
    }
  }

  // The disk is full at the last file of a walk, and the next walk finds the
  // root empty.
  ghost predicate PassesAFailure(w: Worker, env: Env, space: int, rounds: seq<Round>) {
    var w' := RunOf(w, env, space, rounds).worker;
    && NewWorker(w) && w.span.last == Checkpoint(w)
    && HasRow(w') && Failed(w'.e) && Checkpoint(w') > Max(Checkpoint(w), FailedAt(w'.e))
  }

  const FULL_DISK := Container("B", [1], "D", 1, "D", 1, 0, 1, true)
  const QUIET := Moment(false, [], true, CopyEnv([], Written, true), false)

  function WorkerOnFullDisk(): Worker {
    var tables := Tables(map["D" := "B"], map[], map["B" := 0]);
    Worker(Engine("B", FULL_DISK, World(tables, map[]), map["B" := 0], 0, 0, 0, 0, []), Span(0, 0, true))
  }

  lemma FirstTurnFails(env: Env, tree: Node)
    requires env(0) == QUIET && env(1) == QUIET && tree == Folder(true, [Entry("f", File(5, "xy"))])
    ensures var w, t := WorkerOnFullDisk(), TurnOf(WorkerOnFullDisk(), env, 0, Round(1000000, tree, true));
      && !t.stopped && Failed(t.worker.e) && FailedAt(t.worker.e) == 0 && Stopping(t.worker.e)
      && t.worker.span == Span(913600, 913600, false) && HasRow(t.worker)
  {
    var w := WorkerOnFullDisk();
    FailsOnFullDisk(w.e, env, Plan(w.span, 1000000, 0), tree, File(5, "xy"));
  }

  lemma FullDiskIsAStart()
    ensures NewWorker(WorkerOnFullDisk()) && Checkpoint(WorkerOnFullDisk()) == 0
  {
  }

  lemma LastTurn(w: Worker, env: Env, space: int, r: Round)
    ensures RunOf(w, env, space, [r]).worker == TurnOf(w, env, space, r).worker
  {
    assert [r][1..] == [];
  }

  lemma FirstTurn(w: Worker, env: Env, space: int, r: Round, rest: seq<Round>)
    requires !TurnOf(w, env, space, r).stopped
    ensures RunOf(w, env, space, [r] + rest) == RunOf(TurnOf(w, env, space, r).worker, env, space, rest)
  {
    assert ([r] + rest)[1..] == rest;
  }

  lemma FullDiskThenEmptyRoot()
    ensures exists w, env, space, rounds :: PassesAFailure(w, env, space, rounds)
  {
    var w := WorkerOnFullDisk();
    var env: Env := n => QUIET;
    var r1 := Round(1000000, Folder(true, [Entry("f", File(5, "xy"))]), true);
    var r2 := Round(1000000, Folder(true, []), true);
    FullDiskIsAStart();
    FirstTurnFails(env, r1.tree);
    FirstTurn(w, env, 0, r1, [r2]);
    var w1 := TurnOf(w, env, 0, r1).worker;
    LastTurn(w1, env, 0, r2);
    StoppedTurn(w1, env, 0, r2);
    var w2 := RunOf(w, env, 0, [r1] + [r2]).worker;
    assert HasRow(w2) && Checkpoint(w2) == 913600 && w2.e.log == w1.e.log;
    PassedAt(w, env, 0, [r1] + [r2]);
  }

  lemma PassedAt(w: Worker, env: Env, space: int, rounds: seq<Round>)
    requires PassesAFailure(w, env, space, rounds)
    ensures exists w, env, space, rounds :: PassesAFailure(w, env, space, rounds)
  {
  }

  // One file that is larger than the disk, and no other disk to be had.
  lemma FailsOnFullDisk(e: Engine, env: Env, span: Span, tree: Node, file: Node)
    requires e.brick in e.regs && !Stopping(e) && e.c.used <= e.c.space
    requires file.File? && InWindow(file, span) && |file.bytes| > e.c.space
    requires tree == Folder(true, [Entry("f", file)])
    requires env(e.clock) == Moment(false, [], true, env(e.clock).copy, false)
    requires env(e.clock + 1).readable && env(e.clock + 1).copy.probes == []
    ensures var walk := WalkRoot(WorkerCallbacks(env, span), e, tree);
      && !walk.stopped && Failed(walk.state) && FailedAt(walk.state) == span.last
      && walk.state.w == e.w && walk.state.regs == WithStop(e.regs, e.brick) && walk.state.brick == e.brick
  {
    var cb := WorkerCallbacks(env, span);
    var col := [Work([], tree)];
    var p := [] + ["f"];
    var e1 := Polled(e, env);
    assert e1.w == e.w && e1.regs == e.regs;
    var e2 := Process(e1, env, span, p, file);
    assert FitOf(e.c, e.w.tables, |file.bytes|, []).fits == false;
    assert tree.entries[1..] == [];
    assert ScanOf(cb, e2, [], tree.entries[1..]) == Scan(e2, [], [], false);
    var scan := ScanOf(cb, e, [], tree.entries);
    assert scan.state == e2 && scan.found == AsWork(p, file) + [] == [] && !scan.stopped;
    assert col[1..] + scan.found == [];
    assert WalkOf(cb, e2, col[1..] + scan.found) == Walk(e2, [], false);
  }
}
