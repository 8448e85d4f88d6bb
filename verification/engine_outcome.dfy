// What a run of the whole worker means for a file: it is recorded and on a disk,
// or its copy was reported as failed, or the database refused its row.
module EngineOutcome {
  import opened BackupTables
  import opened DiskContainers
  import opened CopyProperties
  import opened FileFrames
  import opened WalkProperties
  import opened BackupWindows
  import opened BackupEngine
  import opened EngineProperties
  import opened EngineRefinement

  // After a success the path is recorded exactly if it was before, or the row
  // was accepted.
  lemma SuccessRecordsIff(c: Container, w: World, path: Path, src: Source, env: CopyEnv)
    requires Ready(c, w.tables) && c.pos != []
    requires CopyOf(c, w, path, src, env).code == SuccessFile
    ensures path in CopyOf(c, w, path, src, env).w.tables.diskFile <==> path in w.tables.diskFile || env.logAccepted
  {
    BeginKeepsReady(c, w.tables, path, src, env.probes);
  }

  predicate OnRecordedDisk(w: World, path: Path) {
    path in w.tables.diskFile && path in FilesOn(w.disks, w.tables.diskFile[path])
  }

  // What is behind the index for a copy: some file; one of the same size if one lay
  // at the target; these very bytes if the copy wrote them.
  ghost predicate Holds(w: World, c: Effect)
    requires c.Copied?
  {
    && OnRecordedDisk(w, c.path)
    && (c.way == SameSize ==> |FilesOn(w.disks, w.tables.diskFile[c.path])[c.path]| == |c.bytes|)
    && (c.way == Wrote ==> Backed(w, c.path, c.bytes))
  }

  // The copy was reported as failed, or the row of a path that was not in the index
  // was refused, or the index leads to the file.
  ghost predicate Accounted(w: World, c: Effect)
    requires c.Copied?
  {
    c.code == FileErr || (c.way != Known && !c.accepted) || Holds(w, c)
  }

  ghost predicate Recorded(e: Engine) {
    forall i :: 0 <= i < |e.log| && e.log[i].Copied? ==> Accounted(e.w, e.log[i])
  }

  lemma RecordedLasts(w: World, w': World, c: Effect)
    requires c.Copied? && KeepsRecorded(w, w') && Accounted(w, c)
    ensures Accounted(w', c)
  {
  }

  lemma AllRecordedLasts(e: Engine, w: World)
    requires Recorded(e) && KeepsRecorded(e.w, w)
    ensures Recorded(e.(w := w))
  {
    forall i | 0 <= i < |e.log| && e.log[i].Copied? ensures Accounted(w, e.log[i]) { RecordedLasts(e.w, w, e.log[i]); }
  }

  // One successful copy: what is behind the index afterwards, by the way it took.
  lemma CopyIsAccounted(c: Container, w: World, path: Path, bytes: Bytes, env: CopyEnv)
    requires IndexAgrees(w) && Referenced(w.tables) && Ready(c, w.tables) && c.pos != []
    requires CopyOf(c, w, path, Readable(bytes), env).code == SuccessFile
    ensures var o, way := CopyOf(c, w, path, Readable(bytes), env), WayOf(c, w, path, Readable(bytes), env);
      && (way == Known ==> OnRecordedDisk(o.w, path))
      && (way == SameSize && env.logAccepted ==>
            OnRecordedDisk(o.w, path) && |FilesOn(o.w.disks, o.w.tables.diskFile[path])[path]| == |bytes|)
      && (way == Wrote && env.logAccepted ==> Backed(o.w, path, bytes))
  {
    BeginKeepsReady(c, w.tables, path, Readable(bytes), env.probes);
    CopyKeepsIndex(c, w, path, Readable(bytes), env);
    if path !in w.tables.diskFile { NewPathBackedIff(c, w, path, bytes, env); }
  }

  lemma ProcessRecords(e: Engine, env: Env, span: Span, p: Path, n: Node)
    requires Sound(e) && !Stopping(e) && Recorded(e)
    ensures Recorded(Process(e, env, span, p, n))
  {
    if n.File? {
      var m := env(e.clock);
      var src := if m.readable then Readable(n.bytes) else Unreadable;
      var o := CopyOf(e.c, e.w, p, src, m.copy);
      CopyKeepsIndex(e.c, e.w, p, src, m.copy);
      AllRecordedLasts(e, o.w);
      if o.code == SuccessFile { CopyIsAccounted(e.c, e.w, p, n.bytes, m.copy); }
    }
  }

  lemma StepKeepsSound(e: Engine, env: Env, span: Span, p: Path, n: Node)
    requires Sound(e)
    ensures var (e1, v) := Filter(e, env, span, n);
      Sound(e1) && (!Stopping(e1) ==> Sound(Process(e1, env, span, p, n)))
  {
    var (e1, v) := Filter(e, env, span, n);
    FilterKeeps(e, e, env, span, n);
    if !Stopping(e1) { ProcessKeeps(e1, e1, env, span, p, n); }
  }

  lemma PollRecords(e: Engine, env: Env)
    requires Sound(e) && Recorded(e)
    ensures Recorded(Polled(e, env))
  {
    PollKeeps(e, e, env);
    AllRecordedLasts(e, Polled(e, env).w);
  }

  lemma {:induction false} ScanRecords(env: Env, span: Span, e: Engine, path: Path, entries: seq<Entry>)
    requires Sound(e) && Recorded(e)
    ensures var e' := ScanOf(WorkerCallbacks(env, span), e, path, entries).state; Sound(e') && Recorded(e')
    decreases |entries|
  {
    if entries != [] {
      var p, n := path + [entries[0].name], entries[0].node;
      var (e1, v1) := Filter(e, env, span, n);
      var (e2, v2) := Filter(e1, env, span, n);
      StepKeepsSound(e, env, span, p, n);
      PollRecords(e, env);
      if v1 == FilterIn {
        ProcessRecords(e1, env, span, p, n);
        ScanRecords(env, span, Process(e1, env, span, p, n), path, entries[1..]);
      } else {
        StepKeepsSound(e1, env, span, p, n);
        PollRecords(e1, env);
        if v2 != FrameStop { ScanRecords(env, span, e2, path, entries[1..]); }
      }
    }
  }

  lemma {:induction false} WalkRecords(env: Env, span: Span, e: Engine, col: seq<Work>)
    requires Sound(e) && Recorded(e)
    ensures Recorded(WalkOf(WorkerCallbacks(env, span), e, col).state)
    decreases QueueSize(col)
  {
    if col != [] {
      var cb := WorkerCallbacks(env, span);
      var scan := SearchOf(cb, e, col[0]);
      if col[0].folder.Folder? && col[0].folder.readable {
        ScanRecords(env, span, e, col[0].path, col[0].folder.entries);
      }
      if !scan.stopped {
        QueueSizeAppend(col[1..], scan.found);
        WalkRecords(env, span, scan.state, col[1..] + scan.found);
      }
    }
  }

  lemma TurnRecords(w: Worker, env: Env, space: int, r: Round)
    requires Sound(w.e) && Recorded(w.e)
    ensures Recorded(TurnOf(w, env, space, r).worker.e)
  {
    var span := Plan(w.span, r.curr, space);
    if Executes(span) { WalkRecords(env, span, w.e, [Work([], r.tree)]); }
    else { PollRecords(w.e, env); }
  }

  lemma {:induction false} RunRecords(w: Worker, env: Env, space: int, rounds: seq<Round>)
    requires Sound(w.e) && HasRow(w) && Recorded(w.e)
    ensures var e := RunOf(w, env, space, rounds).worker.e; Sound(e) && Recorded(e)
    decreases |rounds|
  {
    if rounds != [] {
      TurnKeepsSound(w, env, space, rounds[0]);
      TurnRecords(w, env, space, rounds[0]);
      var t := TurnOf(w, env, space, rounds[0]);
      if !t.stopped { RunRecords(t.worker, env, space, rounds[1..]); }
    }
  }

  // A copy of this file, in a window around its moment, is accounted for.
  ghost predicate Settled(e: Engine, path: Path, bytes: Bytes, x: int) {
    exists k :: 0 <= k < |e.log| && IsCopyOf(e.log[k], path, bytes, x) && Accounted(e.w, e.log[k])
  }

  // For a worker that a successful init has made: over any number of turns, through
  // copies, changes of disk, failures, refused rows and stops, every moment that the
  // worker's begin has passed was walked over some tree, and for every file of that
  // moment which the tree held in readable folders a copy was called that was
  // reported as failed, or whose row the database refused, or behind which the index
  // still leads to the file: to its bytes, if that copy wrote them.
  lemma EveryFileIsSettled(w: Worker, env: Env, space: int, rounds: seq<Round>, x: int) returns (tree: Node)
    requires NewWorker(w)
    requires w.span.last <= x < RunOf(w, env, space, rounds).worker.span.last
    ensures WalkedAt(w, env, space, rounds, x, tree)
    ensures tree.Folder? && tree.readable && WellNamed(tree.entries) ==>
      forall rel: Path, node: Node :: node.File? && node.mtime == x && Reaches(tree.entries, rel, node) ==>
        Settled(RunOf(w, env, space, rounds).worker.e, rel, node.bytes, x)
  {
    tree := NoFileSkipped(w, env, space, rounds, x);
    RunRecords(w, env, space, rounds);
    var e := RunOf(w, env, space, rounds).worker.e;
    forall rel: Path, bytes: Bytes | CopiedFrom(e.log, 0, rel, bytes, x) ensures Settled(e, rel, bytes, x) {
      var k :| 0 <= k < |e.log| && IsCopyOf(e.log[k], rel, bytes, x);
      assert Accounted(e.w, e.log[k]);
    }
  }
}
