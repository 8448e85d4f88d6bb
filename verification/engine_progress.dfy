// When a worker stops, what its counters say, and that it catches up.
module EngineProgress {
  import opened BackupTables
  import opened Prelude
  import opened DiskContainers
  import opened TaskControls
  import opened FileFrames
  import opened WalkProperties
  import opened BackupWindows
  import opened BackupEngine
  import opened EngineProperties
  import opened EngineRefinement
  import BackupRuns

  // What filtering and processing keep, every scan and every walk keeps.
  ghost predicate KeptByCalls<S(!new)>(cb: Callbacks<S>, good: S -> bool) {
    forall s: S, p: Path, n: Node :: good(s) ==>
      good(cb.filter(s, p, n).0)
      && (cb.filter(s, p, n).1 == FilterIn ==> good(cb.process(cb.filter(s, p, n).0, p, n)))
  }

  lemma {:induction false} ScanKeepsGood<S(!new)>(
      cb: Callbacks<S>, good: S -> bool, s: S, path: Path, entries: seq<Entry>)
    requires KeptByCalls(cb, good) && good(s)
    ensures good(ScanOf(cb, s, path, entries).state)
    decreases |entries|
  {
    if entries != [] {
      var p, n := path + [entries[0].name], entries[0].node;
      var (s1, v1) := cb.filter(s, p, n);
      if v1 == FilterIn { ScanKeepsGood(cb, good, cb.process(s1, p, n), path, entries[1..]); }
      else if cb.filter(s1, p, n).1 != FrameStop {
        ScanKeepsGood(cb, good, cb.filter(s1, p, n).0, path, entries[1..]);
      }
    }
  }

  lemma {:induction false} WalkKeepsGood<S(!new)>(cb: Callbacks<S>, good: S -> bool, s: S, col: seq<Work>)
    requires KeptByCalls(cb, good) && good(s)
    ensures good(WalkOf(cb, s, col).state)
    decreases QueueSize(col)
  {
    if col != [] {
      var scan := SearchOf(cb, s, col[0]);
      if col[0].folder.Folder? && col[0].folder.readable {
        ScanKeepsGood(cb, good, s, col[0].path, col[0].folder.entries);
      }
      if !scan.stopped {
        QueueSizeAppend(col[1..], scan.found);
        WalkKeepsGood(cb, good, scan.state, col[1..] + scan.found);
      }
    }
  }

  // -------------------------------------------------------------------- counters

  function FailedDirs(log: seq<Effect>): nat {
    if log == [] then 0
    else FailedDirs(log[..|log| - 1]) + (if log[|log| - 1].MadeDir? && log[|log| - 1].failed then 1 else 0)
  }

  // The copies that ended with this code.
  function CopiesWith(log: seq<Effect>, code: CopyCode): nat {
    if log == [] then 0
    else CopiesWith(log[..|log| - 1], code)
         + (if log[|log| - 1].Copied? && log[|log| - 1].code == code then 1 else 0)
  }

  predicate Tallied(e: Engine) {
    && e.folderErrors == FailedDirs(e.log)
    && e.fileErrors == CopiesWith(e.log, FileErr) && e.successes == CopiesWith(e.log, SuccessFile)
  }

  lemma ProcessTallies(env: Env, span: Span, e: Engine, p: Path, n: Node)
    requires Tallied(e)
    ensures Tallied(Process(e, env, span, p, n))
  {
    var e1 := Process(e, env, span, p, n);
    assert e1.log[..|e1.log| - 1] == e.log;
  }

  lemma TurnTallies(w: Worker, env: Env, space: int, r: Round)
    requires Tallied(w.e)
    ensures Tallied(TurnOf(w, env, space, r).worker.e)
  {
    var span := Plan(w.span, r.curr, space);
    var cb := WorkerCallbacks(env, span);
    forall e: Engine, p: Path, n: Node | Tallied(e)
      ensures Tallied(cb.filter(e, p, n).0) && Tallied(cb.process(cb.filter(e, p, n).0, p, n))
    {
      ProcessTallies(env, span, cb.filter(e, p, n).0, p, n);
    }
    WalkKeepsGood(cb, e => Tallied(e), w.e, [Work([], r.tree)]);
  }

  // Over any run the counters say how many folders could not be made, how many copies
  // failed and how many succeeded.
  lemma {:induction false} RunTallies(w: Worker, env: Env, space: int, rounds: seq<Round>)
    requires Tallied(w.e)
    ensures Tallied(RunOf(w, env, space, rounds).worker.e)
    decreases |rounds|
  {
    if rounds != [] {
      TurnTallies(w, env, space, rounds[0]);
      var t := TurnOf(w, env, space, rounds[0]);
      if !t.stopped { RunTallies(t.worker, env, space, rounds[1..]); }
    }
  }

  // --------------------------------------------------------------------- stopping

  // Since `e0` some thread has requested a stop before a poll, or a disk was full.
  ghost predicate Told(e0: Engine, e: Engine, env: Env) {
    || (exists n: nat :: e0.clock <= n < e.clock && env(n).stops)
    || (exists i :: |e0.log| <= i < |e.log| && DiskFailed(e.log[i]))
  }

  ghost predicate StopsAsTold(e0: Engine, e: Engine, env: Env) {
    && e.brick == e0.brick && e.brick in e.regs && e0.clock <= e.clock && e0.log <= e.log
    && (Stopping(e) <==> Stopping(e0) || Told(e0, e, env))
  }

  lemma PollIsTold(e0: Engine, e: Engine, env: Env)
    requires StopsAsTold(e0, e, env)
    ensures StopsAsTold(e0, Polled(e, env), env)
  {
    var e1 := Polled(e, env);
    if env(e.clock).stops {
      assert Told(e0, e1, env);
    } else {
      forall n: nat | e0.clock <= n < e1.clock && env(n).stops ensures n < e.clock {}
    }
  }

  lemma ProcessIsTold(e0: Engine, e: Engine, env: Env, span: Span, p: Path, n: Node)
    requires StopsAsTold(e0, e, env)
    ensures StopsAsTold(e0, Process(e, env, span, p, n), env)
  {
    var e1 := Process(e, env, span, p, n);
    var last := e1.log[|e.log|];
    assert e1.log == e.log + [last] && e1.clock == e.clock;
    if DiskFailed(last) { assert Told(e0, e1, env); }
    if i :| |e0.log| <= i < |e.log| && DiskFailed(e.log[i]) { assert DiskFailed(e1.log[i]); }
    if i :| |e0.log| <= i < |e1.log| && DiskFailed(e1.log[i]) { assert i < |e.log| ==> DiskFailed(e.log[i]); }
  }

  lemma WalkIsTold(e0: Engine, e: Engine, env: Env, span: Span, tree: Node)
    requires StopsAsTold(e0, e, env)
    ensures StopsAsTold(e0, WalkRoot(WorkerCallbacks(env, span), e, tree).state, env)
  {
    var cb := WorkerCallbacks(env, span);
    var good: Engine -> bool := x => StopsAsTold(e0, x, env);
    forall x: Engine, p: Path, n: Node | good(x)
      ensures good(cb.filter(x, p, n).0) && good(cb.process(cb.filter(x, p, n).0, p, n))
    {
      PollIsTold(e0, x, env);
      ProcessIsTold(e0, cb.filter(x, p, n).0, env, span, p, n);
    }
    WalkKeepsGood(cb, good, e, [Work([], tree)]);
  }

  // A walk ends with a stop only if the semaphore says so.
  lemma {:induction false} ScanStopsIfTold(env: Env, span: Span, e: Engine, path: Path, entries: seq<Entry>)
    ensures var scan := ScanOf(WorkerCallbacks(env, span), e, path, entries);
      scan.stopped ==> Stopping(scan.state)
    decreases |entries|
  {
    if entries != [] {
      var p, n := path + [entries[0].name], entries[0].node;
      var (e1, v1) := Filter(e, env, span, n);
      var (e2, v2) := Filter(e1, env, span, n);
      if v1 == FilterIn { ScanStopsIfTold(env, span, Process(e1, env, span, p, n), path, entries[1..]); }
      else if v2 != FrameStop { ScanStopsIfTold(env, span, e2, path, entries[1..]); }
    }
  }

  lemma {:induction false} WalkStopsIfTold(env: Env, span: Span, e: Engine, col: seq<Work>)
    ensures var walk := WalkOf(WorkerCallbacks(env, span), e, col);
      walk.stopped ==> Stopping(walk.state)
    decreases QueueSize(col)
  {
    if col != [] {
      var scan := SearchOf(WorkerCallbacks(env, span), e, col[0]);
      if col[0].folder.Folder? && col[0].folder.readable {
        ScanStopsIfTold(env, span, e, col[0].path, col[0].folder.entries);
      }
      if !scan.stopped {
        QueueSizeAppend(col[1..], scan.found);
        WalkStopsIfTold(env, span, scan.state, col[1..] + scan.found);
      }
    }
  }

  lemma TurnIsTold(e0: Engine, w: Worker, env: Env, space: int, r: Round)
    requires StopsAsTold(e0, w.e, env)
    ensures var t := TurnOf(w, env, space, r);
      StopsAsTold(e0, t.worker.e, env) && (t.stopped ==> Stopping(t.worker.e))
  {
    var span := Plan(w.span, r.curr, space);
    if Executes(span) {
      WalkIsTold(e0, w.e, env, span, r.tree);
      WalkStopsIfTold(env, span, w.e, [Work([], r.tree)]);
    } else {
      PollIsTold(e0, w.e, env);
    }
  }

  lemma {:induction false} RunIsTold(e0: Engine, w: Worker, env: Env, space: int, rounds: seq<Round>)
    requires StopsAsTold(e0, w.e, env)
    ensures var t := RunOf(w, env, space, rounds);
      StopsAsTold(e0, t.worker.e, env) && (t.stopped ==> Stopping(t.worker.e))
    decreases |rounds|
  {
    if rounds != [] {
      TurnIsTold(e0, w, env, space, rounds[0]);
      var t := TurnOf(w, env, space, rounds[0]);
      if !t.stopped { RunIsTold(e0, t.worker, env, space, rounds[1..]); }
    }
  }

  // Over any run of a registered worker: the request is there at the end exactly if it
  // was there before, or a thread made it before one of the polls, or a disk was full;
  // and the worker returns only if it is there.
  lemma StopsOnlyIfTold(w: Worker, env: Env, space: int, rounds: seq<Round>)
    requires w.e.brick in w.e.regs
    ensures var t := RunOf(w, env, space, rounds);
      && (Stopping(t.worker.e) <==> Stopping(w.e) || Told(w.e, t.worker.e, env))
      && (t.stopped ==> Stopping(t.worker.e))
  {
    RunIsTold(w.e, w, env, space, rounds);
  }

  // ------------------------------------------------------------------- catching up

  // Rounds under a standing clock, each with its own tree.
  ghost predicate AtClock(rounds: seq<Round>, curr: int, accepted: bool) {
    forall i :: 0 <= i < |rounds| ==> rounds[i].curr == curr && rounds[i].accepted == accepted
  }

  lemma {:induction false} EventsAtClock(
      w: Worker, env: Env, space: int, rounds: seq<Round>, curr: int, accepted: bool)
    requires AtClock(rounds, curr, accepted) && !RunOf(w, env, space, rounds).stopped
    ensures AllEvents(w, env, space, rounds) == Repeat(BackupRuns.Round(curr, true, accepted), |rounds|)
    decreases |rounds|
  {
    if rounds != [] {
      EventsAtClock(TurnOf(w, env, space, rounds[0]).worker, env, space, rounds[1..], curr, accepted);
    }
  }

  // However far behind a worker starts: told to stop by nobody and by no full disk, it
  // is less than an hour from clock minus space after one turn more than it has windows
  // to walk.
  lemma CatchesUp(w: Worker, env: Env, space: int, rounds: seq<Round>, curr: int, accepted: bool)
    requires Sound(w.e) && HasRow(w) && w.span.firstRun && AtClock(rounds, curr, accepted)
    requires |rounds| > BackupRuns.WindowsFromStart(curr - w.span.last, space)
    ensures var t := RunOf(w, env, space, rounds);
      && (!t.stopped ==> curr - space - t.worker.span.last < 3600)
      && (!Stopping(w.e) && !Told(w.e, t.worker.e, env) ==> !t.stopped)
  {
    var t := RunOf(w, env, space, rounds);
    StopsOnlyIfTold(w, env, space, rounds);
    if !t.stopped {
      var b := BackupRuns.Brick(Checkpoint(w), w.span.last, Some(w.span), 1, []);
      RunRefines(w, env, space, rounds, b);
      EventsAtClock(w, env, space, rounds, curr, accepted);
      BackupRuns.RoundsFromStart(b, curr, accepted, space, |rounds|);
    }
  }

  // So by then copy has been called for every file that an hour or more ago was ready.
  lemma EveryFileIsReached(
      w: Worker, env: Env, space: int, rounds: seq<Round>, curr: int, accepted: bool, x: int) returns (tree: Node)
    requires Sound(w.e) && HasRow(w) && w.span.firstRun && AtClock(rounds, curr, accepted)
    requires |rounds| > BackupRuns.WindowsFromStart(curr - w.span.last, space)
    requires !Stopping(w.e) && !Told(w.e, RunOf(w, env, space, rounds).worker.e, env)
    requires w.span.last <= x <= curr - space - 3600
    ensures WalkedAt(w, env, space, rounds, x, tree)
    ensures tree.Folder? && tree.readable && WellNamed(tree.entries) ==>
      forall rel: Path, node: Node :: node.File? && node.mtime == x && Reaches(tree.entries, rel, node) ==>
        CopiedFrom(RunOf(w, env, space, rounds).worker.e.log, |w.e.log|, rel, node.bytes, x)
  {
    CatchesUp(w, env, space, rounds, curr, accepted);
    tree := NoFileSkipped(w, env, space, rounds, x);
  }
}
