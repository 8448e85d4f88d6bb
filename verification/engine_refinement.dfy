// The whole worker refines the runs of windows and checkpoints, and its windows
// offer every file of the tree.
module EngineRefinement {
  import opened BackupTables
  import opened DiskContainers
  import opened FileFrames
  import opened WalkProperties
  import opened BackupWindows
  import opened BackupEngine
  import opened EngineProperties
  import opened Prelude
  import BackupRuns

  // ------------------------------------------------------ an engine run is a run

  // What one turn is on the level of windows and checkpoints.
  ghost function AsEvents(w: Worker, env: Env, space: int, r: Round): seq<BackupRuns.Event> {
    var t, idle := TurnOf(w, env, space, r), !Executes(Plan(w.span, r.curr, space));
    [BackupRuns.Round(r.curr, idle || !t.stopped, r.accepted)]
      + (if idle && t.stopped then [BackupRuns.WorkerStop] else [])
  }

  ghost function AllEvents(w: Worker, env: Env, space: int, rounds: seq<Round>): seq<BackupRuns.Event>
    decreases |rounds|
  {
    if rounds == [] then []
    else
      var t := TurnOf(w, env, space, rounds[0]);
      AsEvents(w, env, space, rounds[0]) + (if t.stopped then [] else AllEvents(t.worker, env, space, rounds[1..]))
  }

  ghost predicate Represents(b: BackupRuns.Brick, w: Worker, stopped: bool) {
    && HasRow(w) && b.persisted == Checkpoint(w)
    && b.worker == if stopped then None else Some(w.span)
  }

  lemma TurnRefines(w: Worker, env: Env, space: int, r: Round, b: BackupRuns.Brick)
    requires Sound(w.e) && Represents(b, w, false)
    ensures var t := TurnOf(w, env, space, r);
      Represents(BackupRuns.Run(b, AsEvents(w, env, space, r), space), t.worker, t.stopped)
  {
    TurnKeepsSound(w, env, space, r);
    var t, idle := TurnOf(w, env, space, r), !Executes(Plan(w.span, r.curr, space));
    var e := BackupRuns.Round(r.curr, idle || !t.stopped, r.accepted);
    RunOne(b, e, space);
    if idle && t.stopped {
      RunTwo(b, e, BackupRuns.WorkerStop, space);
    }
  }

  lemma RunOne(b: BackupRuns.Brick, e: BackupRuns.Event, space: int)
    requires BackupRuns.Enabled(b, e)
    ensures BackupRuns.Run(b, [e], space) == BackupRuns.Step(b, e, space)
    ensures BackupRuns.Run(b, [e] + [], space) == BackupRuns.Step(b, e, space)
  {
    assert [e][1..] == [] && [e] + [] == [e];
  }

  lemma RunTwo(b: BackupRuns.Brick, e: BackupRuns.Event, f: BackupRuns.Event, space: int)
    requires BackupRuns.Enabled(b, e) && BackupRuns.Enabled(BackupRuns.Step(b, e, space), f)
    ensures BackupRuns.Run(b, [e] + [f], space) == BackupRuns.Step(BackupRuns.Step(b, e, space), f, space)
  {
    assert ([e] + [f])[1..] == [f];
    RunOne(BackupRuns.Step(b, e, space), f, space);
  }

  lemma {:induction false} RunAppend(
      b: BackupRuns.Brick, x: seq<BackupRuns.Event>, y: seq<BackupRuns.Event>, space: int)
    ensures BackupRuns.Run(b, x + y, space) == BackupRuns.Run(BackupRuns.Run(b, x, space), y, space)
    decreases |x|
  {
    if x == [] {
      assert x + y == y;
    } else {
      assert (x + y)[1..] == x[1..] + y;
      RunAppend(if BackupRuns.Enabled(b, x[0]) then BackupRuns.Step(b, x[0], space) else b, x[1..], y, space);
    }
  }

  // Every run of the whole worker, with its walks, copies and stops, is a run of
  // windows and checkpoints; what is proved of those holds of it.
  lemma {:induction false} RunRefines(w: Worker, env: Env, space: int, rounds: seq<Round>, b: BackupRuns.Brick)
    requires Sound(w.e) && Represents(b, w, false)
    ensures var t := RunOf(w, env, space, rounds);
      Represents(BackupRuns.Run(b, AllEvents(w, env, space, rounds), space), t.worker, t.stopped)
    decreases |rounds|
  {
    if rounds != [] {
      var t, now := TurnOf(w, env, space, rounds[0]), AsEvents(w, env, space, rounds[0]);
      TurnRefines(w, env, space, rounds[0], b);
      if t.stopped {
        assert now + [] == now;
      } else {
        TurnKeepsSound(w, env, space, rounds[0]);
        RunRefines(t.worker, env, space, rounds[1..], BackupRuns.Run(b, now, space));
        RunAppend(b, now, AllEvents(t.worker, env, space, rounds[1..]), space);
      }
    }
  }

  // ------------------------------------------------------------ no file skipped

  // A turn of the run completed a window around `x`, over this tree.
  ghost predicate WalkedAt(w: Worker, env: Env, space: int, rounds: seq<Round>, x: int, tree: Node)
    decreases |rounds|
  {
    rounds != [] &&
    var t, span := TurnOf(w, env, space, rounds[0]), Plan(w.span, rounds[0].curr, space);
    && !t.stopped
    && ((Executes(span) && span.last <= x < span.end && rounds[0].tree == tree)
        || WalkedAt(t.worker, env, space, rounds[1..], x, tree))
  }

  // Every moment that the worker's own checkpoint has passed lies in a window
  // that was walked to its end.
  lemma {:induction false} EveryMomentIsWalked(w: Worker, env: Env, space: int, rounds: seq<Round>, x: int)
      returns (tree: Node)
    requires w.span.last <= x < RunOf(w, env, space, rounds).worker.span.last
    ensures WalkedAt(w, env, space, rounds, x, tree)
    decreases |rounds|
  {
    var t, span := TurnOf(w, env, space, rounds[0]), Plan(w.span, rounds[0].curr, space);
    if Executes(span) && x < span.end {
      tree := rounds[0].tree;
    } else {
      tree := EveryMomentIsWalked(t.worker, env, space, rounds[1..], x);
    }
  }

  // A copy of this path, with these bytes, in a window around the moment.
  predicate IsCopyOf(c: Effect, path: Path, bytes: Bytes, x: int) {
    c.Copied? && c.path == path && c.bytes == bytes && c.begin <= x < c.end
  }

  predicate CopiedFrom(log: seq<Effect>, from: nat, path: Path, bytes: Bytes, x: int) {
    exists k :: from <= k < |log| && IsCopyOf(log[k], path, bytes, x)
  }

  lemma TurnLogs(w: Worker, env: Env, space: int, r: Round)
    ensures w.e.log <= TurnOf(w, env, space, r).worker.e.log
  {
    var span := Plan(w.span, r.curr, space);
    if Executes(span) { WalkLogs(env, span, w.e, [Work([], r.tree)]); }
  }

  lemma {:induction false} RunLogs(w: Worker, env: Env, space: int, rounds: seq<Round>)
    ensures w.e.log <= RunOf(w, env, space, rounds).worker.e.log
    decreases |rounds|
  {
    if rounds != [] {
      var t := TurnOf(w, env, space, rounds[0]);
      TurnLogs(w, env, space, rounds[0]);
      if !t.stopped { RunLogs(t.worker, env, space, rounds[1..]); }
    }
  }

  // A completed window has called copy for this file.
  lemma TurnCopies(w: Worker, env: Env, space: int, r: Round, rel: Path, node: Node)
    requires Executes(Plan(w.span, r.curr, space)) && !TurnOf(w, env, space, r).stopped
    requires r.tree.Folder? && r.tree.readable && WellNamed(r.tree.entries)
    requires Reaches(r.tree.entries, rel, node) && InWindow(node, Plan(w.span, r.curr, space))
    ensures CopiedFrom(TurnOf(w, env, space, r).worker.e.log, |w.e.log|, rel, node.bytes, node.mtime)
  {
    var span := Plan(w.span, r.curr, space);
    var walk := WalkRoot(WorkerCallbacks(env, span), w.e, r.tree);
    WindowIsOffered(env, span, w.e, r.tree);
    assert Visit(rel, node) in walk.calls;
    var i :| 0 <= i < |walk.calls| && walk.calls[i] == Visit(rel, node);
    assert EffectOf(walk.state.log[|w.e.log| + i], walk.calls[i], span);
  }

  lemma {:induction false} WalkedIsCopied(
      w: Worker, env: Env, space: int, rounds: seq<Round>, tree: Node, rel: Path, node: Node)
    requires node.File? && WalkedAt(w, env, space, rounds, node.mtime, tree)
    requires tree.Folder? && tree.readable && WellNamed(tree.entries) && Reaches(tree.entries, rel, node)
    ensures CopiedFrom(RunOf(w, env, space, rounds).worker.e.log, |w.e.log|, rel, node.bytes, node.mtime)
    decreases |rounds|
  {
    var t, span := TurnOf(w, env, space, rounds[0]), Plan(w.span, rounds[0].curr, space);
    var log := RunOf(t.worker, env, space, rounds[1..]).worker.e.log;
    TurnLogs(w, env, space, rounds[0]);
    RunLogs(t.worker, env, space, rounds[1..]);
    if Executes(span) && span.last <= node.mtime < span.end && rounds[0].tree == tree {
      TurnCopies(w, env, space, rounds[0], rel, node);
    } else {
      WalkedIsCopied(t.worker, env, space, rounds[1..], tree, rel, node);
    }
  }

  // No file is skipped: over any number of turns, whenever the worker's own
  // checkpoint has passed a moment, some window around it was walked to its end,
  // and copy was called for every file of that moment that the tree then held in
  // readable folders.
  lemma NoFileSkipped(w: Worker, env: Env, space: int, rounds: seq<Round>, x: int) returns (tree: Node)
    requires w.span.last <= x < RunOf(w, env, space, rounds).worker.span.last
    ensures WalkedAt(w, env, space, rounds, x, tree)
    ensures tree.Folder? && tree.readable && WellNamed(tree.entries) ==>
      forall rel: Path, node: Node :: node.File? && node.mtime == x && Reaches(tree.entries, rel, node) ==>
        CopiedFrom(RunOf(w, env, space, rounds).worker.e.log, |w.e.log|, rel, node.bytes, x)
  {
    tree := EveryMomentIsWalked(w, env, space, rounds, x);
    if tree.Folder? && tree.readable && WellNamed(tree.entries) {
      forall rel: Path, node: Node | node.File? && node.mtime == x && Reaches(tree.entries, rel, node)
        ensures CopiedFrom(RunOf(w, env, space, rounds).worker.e.log, |w.e.log|, rel, node.bytes, x)
      {
        WalkedIsCopied(w, env, space, rounds, tree, rel, node);
      }
    }
  }

  // A root that cannot be opened skips its files: the window is completed and the
  // checkpoint moved as if they had been offered.
  lemma UnreadableRootSkips(w: Worker, env: Env, space: int, r: Round)
    requires Executes(Plan(w.span, r.curr, space)) && !(r.tree.Folder? && r.tree.readable)
    ensures var span := Plan(w.span, r.curr, space);
      TurnOf(w, env, space, r) == Turn(Worker(WithCheckpoint(w.e, span.last, r.accepted), Completed(span)), false)
  {
    var span := Plan(w.span, r.curr, space);
    var cb, col := WorkerCallbacks(env, span), [Work([], r.tree)];
    var scan := SearchOf(cb, w.e, col[0]);
    assert col[1..] + scan.found == [];
    assert WalkOf(cb, w.e, col[1..] + scan.found) == Walk(w.e, [], false);
    assert WalkRoot(cb, w.e, r.tree) == WalkOf(cb, w.e, col);
  }
}
