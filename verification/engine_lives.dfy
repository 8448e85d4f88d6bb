// One brick over many worker lives: process starts, restarts inside a process,
// stops and crashes. Each life is a run of the whole worker; the stored
// checkpoint is what carries over.
module EngineLives {
  import opened BackupTables
  import opened FileFrames
  import opened WalkProperties
  import opened BackupWindows
  import opened BackupEngine
  import opened EngineProperties
  import opened EngineRefinement
  import opened EngineOutcome
  import opened Prelude
  import BackupRuns

  // `w` is the worker after its init, `rounds` the turns it makes before it is
  // stopped or its process ends; what a crash cuts off a turn moves no checkpoint.
  // `newProcess`: it is the first of its process.
  datatype Life = Life(w: Worker, env: Env, rounds: seq<Round>, newProcess: bool)

  ghost function End(l: Life, space: int): Turn { RunOf(l.w, l.env, space, l.rounds) }

  // The life on the level of windows and checkpoints.
  ghost function LifeEvents(l: Life, space: int): seq<BackupRuns.Event> {
    (if l.newProcess then [BackupRuns.ProcessStart] else [])
      + ([BackupRuns.WorkerStart] + AllEvents(l.w, l.env, space, l.rounds))
  }

  // The life can come next: the database holds what its predecessors left, and it
  // begins at that checkpoint, or at the one its process has read when it started.
  // The disks and all other rows may have changed in between.
  ghost predicate Follows(b: BackupRuns.Brick, l: Life) {
    && NewWorker(l.w) && Checkpoint(l.w) == b.persisted
    && l.w.span == Span(if l.newProcess then b.persisted else b.loaded, 0, true)
    && (!l.newProcess ==> b.worker.None?)
  }

  ghost function After(b: BackupRuns.Brick, l: Life, space: int): BackupRuns.Brick {
    BackupRuns.Run(b, LifeEvents(l, space), space)
  }

  // The brick after the first n lives.
  ghost function AfterLives(first: int, lives: seq<Life>, n: nat, space: int): BackupRuns.Brick
    requires n <= |lives|
  {
    if n == 0 then BackupRuns.NewBrick(first)
    else After(AfterLives(first, lives, n - 1, space), lives[n - 1], space)
  }

  // How many of the first n lives, in order, can follow those before them.
  ghost function LinkedCount(first: int, lives: seq<Life>, n: nat, space: int): (count: nat)
    requires n <= |lives|
    ensures count <= n
  {
    if n == 0 then 0
    else
      var count := LinkedCount(first, lives, n - 1, space);
      if count == n - 1 && Follows(AfterLives(first, lives, n - 1, space), lives[n - 1]) then n else count
  }

  ghost predicate Linked(first: int, lives: seq<Life>, n: nat, space: int)
    requires n <= |lives|
  {
    LinkedCount(first, lives, n, space) == n
  }

  lemma LastIsLinked(first: int, lives: seq<Life>, n: nat, space: int)
    requires 0 < n <= |lives| && Linked(first, lives, n, space)
    ensures Linked(first, lives, n - 1, space)
    ensures Follows(AfterLives(first, lives, n - 1, space), lives[n - 1])
  {
  }

  ghost function Started(b: BackupRuns.Brick, l: Life): BackupRuns.Brick {
    var b0 := if l.newProcess then b.(loaded := b.persisted, worker := None) else b;
    b0.(worker := Some(l.w.span), life := b0.life + 1)
  }

  lemma StartEvents(b: BackupRuns.Brick, l: Life, space: int)
    requires Follows(b, l)
    ensures After(b, l, space) == BackupRuns.Run(Started(b, l), AllEvents(l.w, l.env, space, l.rounds), space)
  {
    var rest := AllEvents(l.w, l.env, space, l.rounds);
    var b0 := if l.newProcess then b.(loaded := b.persisted, worker := None) else b;
    RunOne(b0, BackupRuns.WorkerStart, space);
    RunAppend(b0, [BackupRuns.WorkerStart], rest, space);
    if l.newProcess {
      RunOne(b, BackupRuns.ProcessStart, space);
      RunAppend(b, [BackupRuns.ProcessStart], [BackupRuns.WorkerStart] + rest, space);
    } else {
      assert LifeEvents(l, space) == [BackupRuns.WorkerStart] + rest;
    }
  }

  lemma {:induction false} EventsKeepLoaded(w: Worker, env: Env, space: int, rounds: seq<Round>, b: BackupRuns.Brick)
    ensures BackupRuns.Run(b, AllEvents(w, env, space, rounds), space).loaded == b.loaded
    decreases |rounds|
  {
    if rounds != [] {
      var now, t := AsEvents(w, env, space, rounds[0]), TurnOf(w, env, space, rounds[0]);
      var rest := if t.stopped then [] else AllEvents(t.worker, env, space, rounds[1..]);
      RoundsKeepLoaded(b, now, space);
      RunAppend(b, now, rest, space);
      if !t.stopped { EventsKeepLoaded(t.worker, env, space, rounds[1..], BackupRuns.Run(b, now, space)); }
    }
  }

  lemma {:induction false} RoundsKeepLoaded(b: BackupRuns.Brick, events: seq<BackupRuns.Event>, space: int)
    requires forall i :: 0 <= i < |events| ==> !events[i].ProcessStart?
    ensures BackupRuns.Run(b, events, space).loaded == b.loaded
    decreases |events|
  {
    if events != [] {
      var b1 := if BackupRuns.Enabled(b, events[0]) then BackupRuns.Step(b, events[0], space) else b;
      RoundsKeepLoaded(b1, events[1..], space);
    }
  }

  // A life refines a run of windows and checkpoints.
  lemma LifeRefines(b: BackupRuns.Brick, l: Life, space: int)
    requires Follows(b, l)
    ensures Represents(After(b, l, space), End(l, space).worker, End(l, space).stopped)
    ensures After(b, l, space).loaded == if l.newProcess then b.persisted else b.loaded
  {
    StartEvents(b, l, space);
    RunRefines(l.w, l.env, space, l.rounds, Started(b, l));
    EventsKeepLoaded(l.w, l.env, space, l.rounds, Started(b, l));
  }

  ghost function LivesEvents(lives: seq<Life>, n: nat, space: int): seq<BackupRuns.Event>
    requires n <= |lives|
  {
    if n == 0 then [] else LivesEvents(lives, n - 1, space) + LifeEvents(lives[n - 1], space)
  }

  lemma {:induction false} LivesAreARun(first: int, lives: seq<Life>, n: nat, space: int)
    requires n <= |lives|
    ensures AfterLives(first, lives, n, space)
         == BackupRuns.Run(BackupRuns.NewBrick(first), LivesEvents(lives, n, space), space)
    decreases n
  {
    if n > 0 {
      LivesAreARun(first, lives, n - 1, space);
      RunAppend(BackupRuns.NewBrick(first), LivesEvents(lives, n - 1, space), LifeEvents(lives[n - 1], space), space);
    }
  }

  // So the completed windows of all lives together leave no gap up to the stored
  // checkpoint of the whole worker, nor up to where it stands itself.
  lemma LivesLeaveNoGap(first: int, lives: seq<Life>, n: nat, space: int)
    requires 0 < n <= |lives| && Linked(first, lives, n, space)
    ensures var b, t := AfterLives(first, lives, n, space), End(lives[n - 1], space);
      && HasRow(t.worker)
      && BackupRuns.Within(first, b.completed, Checkpoint(t.worker))
      && (!t.stopped ==> BackupRuns.Within(first, b.completed, t.worker.span.last))
  {
    LastIsLinked(first, lives, n, space);
    LifeRefines(AfterLives(first, lives, n - 1, space), lives[n - 1], space);
    LivesAreARun(first, lives, n, space);
    BackupRuns.NoGap(first, LivesEvents(lives, n, space), space);
  }

  lemma {:induction false} EngineStartsNothing(w: Worker, env: Env, space: int, rounds: seq<Round>)
    ensures forall i :: 0 <= i < |AllEvents(w, env, space, rounds)| ==>
      !AllEvents(w, env, space, rounds)[i].WorkerStart?
    decreases |rounds|
  {
    if rounds != [] {
      var t := TurnOf(w, env, space, rounds[0]);
      if !t.stopped { EngineStartsNothing(t.worker, env, space, rounds[1..]); }
    }
  }

  lemma {:induction false} NoStartIsFresh(b: BackupRuns.Brick, events: seq<BackupRuns.Event>, space: int)
    requires forall i :: 0 <= i < |events| ==> !events[i].WorkerStart?
    ensures BackupRuns.FreshStarts(b, events, space)
    decreases |events|
  {
    if events != [] {
      var b1 := if BackupRuns.Enabled(b, events[0]) then BackupRuns.Step(b, events[0], space) else b;
      NoStartIsFresh(b1, events[1..], space);
    }
  }

  lemma LifeKeepsLag(b: BackupRuns.Brick, l: Life, space: int)
    requires Follows(b, l) && BackupRuns.LagInv(b) && l.w.span.last == b.persisted
    ensures BackupRuns.LagInv(After(b, l, space))
  {
    StartEvents(b, l, space);
    EngineStartsNothing(l.w, l.env, space, l.rounds);
    NoStartIsFresh(Started(b, l), AllEvents(l.w, l.env, space, l.rounds), space);
    BackupRuns.CheckpointLags(Started(b, l), AllEvents(l.w, l.env, space, l.rounds), space);
  }

  // And if every life begins at the stored checkpoint, it never passes the begin of
  // the last window that a worker completed.
  lemma {:induction false} LivesKeepLag(first: int, lives: seq<Life>, n: nat, space: int)
    requires n <= |lives| && Linked(first, lives, n, space)
    requires forall i :: 0 <= i < n ==> HasRow(lives[i].w) && lives[i].w.span.last == Checkpoint(lives[i].w)
    ensures BackupRuns.LagInv(AfterLives(first, lives, n, space))
    decreases n
  {
    if n > 0 {
      LastIsLinked(first, lives, n, space);
      LivesKeepLag(first, lives, n - 1, space);
      LifeKeepsLag(AfterLives(first, lives, n - 1, space), lives[n - 1], space);
    }
  }

  lemma {:induction false} RunMovesForward(w: Worker, env: Env, space: int, rounds: seq<Round>)
    requires Sound(w.e) && HasRow(w)
    ensures var w' := RunOf(w, env, space, rounds).worker;
      HasRow(w') && w'.span.last >= w.span.last && Checkpoint(w') <= Max(Checkpoint(w), w'.span.last)
    decreases |rounds|
  {
    if rounds != [] {
      TurnKeepsSound(w, env, space, rounds[0]);
      var t := TurnOf(w, env, space, rounds[0]);
      if !t.stopped { RunMovesForward(t.worker, env, space, rounds[1..]); }
    }
  }

  // ------------------------------------------------------------ no file skipped

  // In this life a window around `x` was walked to its end over some tree, and
  // every file of that moment in its readable folders is settled: it was copied in
  // that window, and the copy is accounted for when the life ends.
  ghost predicate OffersAll(l: Life, space: int, x: int, tree: Node) {
    var e := End(l, space).worker.e;
    && WalkedAt(l.w, l.env, space, l.rounds, x, tree)
    && (tree.Folder? && tree.readable && WellNamed(tree.entries) ==>
          forall rel: Path, node: Node :: node.File? && node.mtime == x && Reaches(tree.entries, rel, node) ==>
            Settled(e, rel, node.bytes, x))
  }

  ghost predicate OfferedIn(l: Life, space: int, x: int) { exists tree :: OffersAll(l, space, x, tree) }

  ghost predicate OfferedInOneOf(lives: seq<Life>, n: nat, space: int, x: int)
    requires n <= |lives|
  {
    exists j :: 0 <= j < n && OfferedIn(lives[j], space, x)
  }

  lemma LifeOffers(l: Life, space: int, x: int)
    requires NewWorker(l.w) && l.w.span.last <= x < End(l, space).worker.span.last
    ensures OfferedIn(l, space, x)
  {
    var tree := EveryFileIsSettled(l.w, l.env, space, l.rounds, x);
    assert OffersAll(l, space, x, tree);
  }

  // The later of the two values that a worker can begin with.
  ghost function Front(first: int, lives: seq<Life>, n: nat, space: int): int
    requires n <= |lives|
  {
    var b := AfterLives(first, lives, n, space); Max(b.persisted, b.loaded)
  }

  ghost predicate Offers(l: Life, from: int, to: int, space: int) {
    forall x :: from <= x < to ==> OfferedIn(l, space, x)
  }

  // A life offers every moment by which it moves the front, and all that it passes.
  lemma LifeCovers(first: int, lives: seq<Life>, n: nat, space: int)
    requires 0 < n <= |lives| && Linked(first, lives, n, space)
    ensures Offers(lives[n - 1], Front(first, lives, n - 1, space), Front(first, lives, n, space), space)
    ensures Offers(lives[n - 1], Front(first, lives, n - 1, space), End(lives[n - 1], space).worker.span.last, space)
  {
    var b, l := AfterLives(first, lives, n - 1, space), lives[n - 1];
    var reach := End(l, space).worker.span.last;
    LastIsLinked(first, lives, n, space);
    LifeRefines(b, l, space);
    RunMovesForward(l.w, l.env, space, l.rounds);
    forall x | l.w.span.last <= x < reach ensures OfferedIn(l, space, x) { LifeOffers(l, space, x); }
  }

  lemma {:induction false} FewerAreLinked(first: int, lives: seq<Life>, n: nat, i: nat, space: int)
    requires i <= n <= |lives| && Linked(first, lives, n, space)
    ensures Linked(first, lives, i, space)
    decreases n
  {
    if i < n {
      OneFewerIsLinked(first, lives, n, space);
      FewerAreLinked(first, lives, n - 1, i, space);
    }
  }

  lemma OneFewerIsLinked(first: int, lives: seq<Life>, n: nat, space: int)
    requires 0 < n <= |lives| && Linked(first, lives, n, space)
    ensures Linked(first, lives, n - 1, space)
  {
    LastIsLinked(first, lives, n, space);
  }

  // Lives that offer one range after the other.
  lemma {:induction false} RangesJoin(lives: seq<Life>, fronts: seq<int>, n: nat, space: int, x: int)
    requires n <= |lives| && |fronts| > n && fronts[0] <= x < fronts[n]
    requires forall i :: 0 <= i < n ==> Offers(lives[i], fronts[i], fronts[i + 1], space)
    ensures OfferedInOneOf(lives, n, space, x)
    decreases n
  {
    if n > 0 {
      assert Offers(lives[n - 1], fronts[n - 1], fronts[n - 1 + 1], space);
      if x < fronts[n - 1] {
        RangesJoin(lives, fronts, n - 1, space, x);
      } else {
        assert OfferedIn(lives[n - 1], space, x);
      }
    }
  }

  ghost function Fronts(first: int, lives: seq<Life>, n: nat, space: int): (s: seq<int>)
    requires n <= |lives|
    ensures |s| == n + 1 && forall i :: 0 <= i <= n ==> s[i] == Front(first, lives, i, space)
  {
    seq(n + 1, i requires 0 <= i <= n => Front(first, lives, i, space))
  }

  lemma LivesCover(first: int, lives: seq<Life>, n: nat, space: int)
    requires n <= |lives| && Linked(first, lives, n, space)
    ensures var fronts := Fronts(first, lives, n, space);
      forall i :: 0 <= i < n ==> Offers(lives[i], fronts[i], fronts[i + 1], space)
  {
    var fronts := Fronts(first, lives, n, space);
    forall i | 0 <= i < n ensures Offers(lives[i], fronts[i], fronts[i + 1], space) {
      FewerAreLinked(first, lives, n, i + 1, space);
      LifeCovers(first, lives, i + 1, space);
    }
  }

  // A restart may redo work but skips no file: in every sequence of lives, each
  // moment from the first begin to the stored checkpoint, or to the one that its
  // process has read, was walked in one of them, with copy called for every file of it.
  lemma CheckpointSkipsNothing(first: int, lives: seq<Life>, n: nat, space: int, x: int)
    requires n <= |lives| && Linked(first, lives, n, space)
    requires first <= x < Front(first, lives, n, space)
    ensures OfferedInOneOf(lives, n, space, x)
  {
    LivesCover(first, lives, n, space);
    RangesJoin(lives, Fronts(first, lives, n, space), n, space, x);
  }

  // And each moment to where the last worker itself stands.
  lemma NoFileSkippedOverLives(first: int, lives: seq<Life>, n: nat, space: int, x: int)
    requires 0 < n <= |lives| && Linked(first, lives, n, space)
    requires first <= x < End(lives[n - 1], space).worker.span.last
    ensures OfferedInOneOf(lives, n, space, x)
  {
    LivesCover(first, lives, n, space);
    LifeCovers(first, lives, n, space);
    var fronts := Fronts(first, lives, n, space);
    if x < fronts[n - 1] {
      RangesJoin(lives, fronts, n - 1, space, x);
    } else {
      assert OfferedIn(lives[n - 1], space, x);
    }
  }

  // ------------------------------------------------ a failed file comes up again

  lemma BeginOfNew(log: seq<Effect>, log': seq<Effect>, calls: seq<Visit>, span: Span, k: nat)
    requires LogGrowsBy(log, log', calls, span) && |log| <= k < |log'|
    ensures log'[k].begin == span.last
  {
    assert EffectOf(log'[|log| + (k - |log|)], calls[k - |log|], span);
  }

  lemma EffectOfTurn(w: Worker, env: Env, space: int, r: Round, k: nat)
    requires |w.e.log| <= k < |TurnOf(w, env, space, r).worker.e.log|
    ensures TurnOf(w, env, space, r).worker.e.log[k].begin == w.span.last
  {
    var span := Plan(w.span, r.curr, space);
    if Executes(span) {
      WalkLogs(env, span, w.e, [Work([], r.tree)]);
      var walk := WalkRoot(WorkerCallbacks(env, span), w.e, r.tree);
      BeginOfNew(w.e.log, walk.state.log, walk.calls, span, k);
    }
  }

  lemma {:induction false} EffectsLieAhead(w: Worker, env: Env, space: int, rounds: seq<Round>, k: nat)
    requires |w.e.log| <= k < |RunOf(w, env, space, rounds).worker.e.log|
    ensures RunOf(w, env, space, rounds).worker.e.log[k].begin >= w.span.last
    decreases |rounds|
  {
    var t := TurnOf(w, env, space, rounds[0]);
    if k < |t.worker.e.log| {
      EffectOfTurn(w, env, space, rounds[0], k);
      if !t.stopped { RunLogs(t.worker, env, space, rounds[1..]); }
    } else {
      EffectsLieAhead(t.worker, env, space, rounds[1..], k);
    }
  }

  lemma FailureIsAhead(b: BackupRuns.Brick, l: Life, space: int)
    requires Follows(b, l) && Failed(End(l, space).worker.e)
    ensures l.w.span.last <= FailedAt(End(l, space).worker.e)
    ensures b.persisted <= l.w.span.last && !Escapes(l.w, l.env, space, l.rounds) ==>
      After(b, l, space).persisted <= FailedAt(End(l, space).worker.e)
  {
    LifeRefines(b, l, space);
    EffectsLieAhead(l.w, l.env, space, l.rounds, |End(l, space).worker.e.log| - 1);
    if !Escapes(l.w, l.env, space, l.rounds) { FailureHoldsCheckpoint(l.w, l.env, space, l.rounds); }
  }

  // After a life that a full disk has ended, the next life of the brick walks the
  // failed window again: once it has passed a moment of that window, copy has been
  // called for every file of that moment, the failed one included if the tree still
  // holds it. A restart inside the process always begins early enough; a new process
  // does if no walk after the failure has moved the stored checkpoint past it.
  lemma FailedFileIsOfferedAgain(b: BackupRuns.Brick, l: Life, next: Life, space: int, x: int)
    requires Follows(b, l) && Follows(After(b, l, space), next)
    requires next.newProcess ==> b.persisted <= l.w.span.last && !Escapes(l.w, l.env, space, l.rounds)
    requires Failed(End(l, space).worker.e) && FailedAt(End(l, space).worker.e) <= x < End(next, space).worker.span.last
    ensures OfferedIn(next, space, x)
  {
    LifeRefines(b, l, space);
    FailureIsAhead(b, l, space);
    LifeOffers(next, space, x);
  }
}
