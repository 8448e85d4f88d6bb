// The window arithmetic of backup_worker::start in backup/backup_worker.cpp.
module BackupWindows {

  const FIRST_BACKUP_SPACE := 60 * 60 * 24  // first window: distance of its end from now
  const BACKUP_SPACE := 60 * 60 * 10        // longest later window
  const MIN_BACKUP_SPACE := 60 * 60         // shortest window

  // m_lastbackup_time, m_end_time and bfirstrun.
  datatype Span = Span(last: int, end: int, firstRun: bool)

  function IncrementalEnd(last: int, curr: int, space: int): int {
    if last + BACKUP_SPACE < curr - space then last + BACKUP_SPACE else curr - space
  }

  // The end of the next window at clock `curr`.
  function Plan(s: Span, curr: int, space: int): Span {
    if s.firstRun && s.last <= curr - FIRST_BACKUP_SPACE
    then Span(s.last, curr - FIRST_BACKUP_SPACE, false)
    else Span(s.last, IncrementalEnd(s.last, curr, space), false)
  }

  predicate Executes(s: Span) { s.end - s.last >= MIN_BACKUP_SPACE }

  function Completed(s: Span): Span { s.(last := s.end) }

  function Min(a: int, b: int): int { if a <= b then a else b }

  // A worker in its first turn that is a day or more behind catches up to a day ago;
  // every other turn goes on by ten hours, or to clock minus space if that is less.
  lemma PlannedWindow(s: Span, curr: int, space: int)
    ensures var w := Plan(s, curr, space);
      && w.last == s.last && !w.firstRun
      && (s.firstRun && curr - s.last >= 86400 ==> w.end == curr - 86400)
      && (!s.firstRun || curr - s.last < 86400 ==> w.end == Min(s.last + 36000, curr - space))
  {
  }

  // When a turn walks: exactly if an hour or more is outstanding, counted to a day ago
  // in that first case and to clock minus space in all others.
  lemma ExecutesIff(s: Span, curr: int, space: int)
    ensures Executes(Plan(s, curr, space)) <==>
      (if s.firstRun && curr - s.last >= 86400 then curr - s.last >= 86400 + 3600 else curr - s.last >= space + 3600)
  {
  }

  // An executed window is long enough; one planned by the incremental rule is at
  // most BACKUP_SPACE long and keeps its distance from the clock; the other kind
  // is the first one, and ends a day ago.
  lemma ExecutedWindow(s: Span, curr: int, space: int)
    requires Executes(Plan(s, curr, space))
    ensures var w := Plan(s, curr, space);
      && w.last == s.last && w.end >= w.last + MIN_BACKUP_SPACE
      && if s.firstRun && s.last <= curr - FIRST_BACKUP_SPACE
         then w.end == curr - FIRST_BACKUP_SPACE
         else w.end <= w.last + BACKUP_SPACE && w.end <= curr - space
  {
  }

  // How many windows the incremental rule executes while the clock stands still,
  // and where it then idles.
  function FrozenRun(s: Span, curr: int, space: int): (r: (nat, Span))
    decreases if curr - space > s.last then curr - space - s.last else 0
  {
    var w := Plan(s.(firstRun := false), curr, space);
    if Executes(w)
    then var rest := FrozenRun(Completed(w), curr, space); (rest.0 + 1, rest.1)
    else (0, w)
  }

  // The windows that an outstanding time needs: one for each ten hours, and one more
  // for a rest of at least an hour.
  function WindowsIn(outstanding: int): nat {
    if outstanding < 0 then 0 else outstanding / 36000 + (if outstanding % 36000 >= 3600 then 1 else 0)
  }

  // Outstanding time R needs exactly R div 36000 windows, and one more for a
  // rest of at least an hour; so at most R / 36000 rounded up. Then less than an
  // hour is outstanding.
  lemma {:induction false} FrozenClock(s: Span, curr: int, space: int)
    ensures var outstanding, r := curr - space - s.last, FrozenRun(s, curr, space);
      && curr - space - r.1.last < MIN_BACKUP_SPACE
      && (outstanding < MIN_BACKUP_SPACE ==> r.0 == 0 && r.1.last == s.last)
      && r.0 == WindowsIn(outstanding)
      && (outstanding >= 0 ==> r.0 <= (outstanding + BACKUP_SPACE - 1) / BACKUP_SPACE)
    decreases if curr - space > s.last then curr - space - s.last else 0
  {
    var w := Plan(s.(firstRun := false), curr, space);
    if Executes(w) {
      FrozenClock(Completed(w), curr, space);
    }
  }
}

// Runs of one brick over many processes: windows completed, idle ticks, stops,
// failed checkpoint writes, crashes, and restarts.
module BackupRuns {
  import opened BackupWindows
  import opened Prelude

  // A completed window; `life` numbers the worker that completed it, `at` is the
  // clock by which it was planned.
  datatype Window = Window(begin: int, end: int, life: nat, at: int)

  // `persisted` is BACKUP_TIME_BEGIN; `loaded` the value the process read from it
  // when it started, which every worker of the process begins with.
  datatype Brick = Brick(
    persisted: int,
    loaded: int,
    worker: Option<Span>,
    life: nat,
    completed: seq<Window>)

  datatype Event =
    | ProcessStart                       // also after a crash at any point
    | WorkerStart
    | Round(curr: int, ends: bool, accepted: bool)  // ends: the walk is not stopped
    | WorkerStop

  predicate Enabled(b: Brick, e: Event) {
    match e
    case ProcessStart => true
    case WorkerStart => b.worker.None?
    case Round(_, _, _) => b.worker.Some?
    case WorkerStop => b.worker.Some?
  }

  function Step(b: Brick, e: Event, space: int): Brick
    requires Enabled(b, e)
  {
    match e
    case ProcessStart => b.(loaded := b.persisted, worker := None)
    case WorkerStart => b.(worker := Some(Span(b.loaded, 0, true)), life := b.life + 1)
    case WorkerStop => b.(worker := None)
    case Round(curr, ends, accepted) =>
      var w := Plan(b.worker.value, curr, space);
      if !Executes(w) then b.(worker := Some(w))
      else if !ends then b.(worker := None)
      else b.(persisted := if accepted then w.last else b.persisted,
              worker := Some(Completed(w)),
              completed := b.completed + [Window(w.last, w.end, b.life, curr)])
  }

  function Run(b: Brick, events: seq<Event>, space: int): Brick
    decreases |events|
  {
    if events == [] then b
    else Run(if Enabled(b, events[0]) then Step(b, events[0], space) else b, events[1..], space)
  }

  function NewBrick(begin: int): Brick { Brick(begin, begin, None, 0, []) }

  // Every moment of [low, high) lies in a completed window.
  ghost predicate Covered(completed: seq<Window>, low: int, high: int) {
    forall x :: low <= x < high ==> HasMoment(completed, x)
  }

  ghost predicate HasMoment(completed: seq<Window>, x: int) {
    exists i :: 0 <= i < |completed| && completed[i].begin <= x < completed[i].end
  }

  // Windows of one worker follow each other without gap or overlap.
  ghost predicate Chained(completed: seq<Window>) {
    && (forall i :: 0 <= i < |completed| ==> completed[i].begin + MIN_BACKUP_SPACE <= completed[i].end)
    && (forall i :: 0 < i < |completed| && completed[i - 1].life == completed[i].life ==>
          completed[i - 1].end == completed[i].begin)
    && (forall i, j :: 0 <= i <= j < |completed| ==> completed[i].life <= completed[j].life)
  }

  ghost predicate Within(first: int, completed: seq<Window>, x: int) {
    first <= x && Covered(completed, first, x)
  }

  ghost predicate Inv(first: int, b: Brick) {
    && Within(first, b.completed, b.persisted) && Within(first, b.completed, b.loaded)
    && (b.worker.Some? ==> Within(first, b.completed, b.worker.value.last))
    && Chained(b.completed)
    && (b.completed != [] ==> b.completed[|b.completed| - 1].life <= b.life)
    && (b.worker.Some? && b.completed != [] && b.completed[|b.completed| - 1].life == b.life ==>
          b.worker.value.last == b.completed[|b.completed| - 1].end)
    && (b.worker.None? || b.life > 0)
  }

  lemma CoveredGrows(completed: seq<Window>, w: Window, low: int, high: int)
    requires Covered(completed, low, high)
    ensures Covered(completed + [w], low, high)
    ensures high >= w.begin ==> Covered(completed + [w], low, if w.end > high then w.end else high)
  {
    var more := completed + [w];
    assert more[|completed|] == w;
    forall x | low <= x < high ensures HasMoment(more, x) {
      assert HasMoment(completed, x);
      var i :| 0 <= i < |completed| && completed[i].begin <= x < completed[i].end;
      assert more[i] == completed[i];
    }
    forall x | high <= x < w.end && high >= w.begin ensures HasMoment(more, x) {
    }
  }

  lemma RoundKeepsInv(first: int, b: Brick, e: Event, space: int)
    requires e.Round? && Enabled(b, e) && Inv(first, b)
    ensures Inv(first, Step(b, e, space))
  {
    var w := Plan(b.worker.value, e.curr, space);
    if Executes(w) && e.ends {
      var done := Window(w.last, w.end, b.life, e.curr);
      CoveredGrows(b.completed, done, first, b.persisted);
      CoveredGrows(b.completed, done, first, b.loaded);
      CoveredGrows(b.completed, done, first, w.last);
    }
  }

  lemma StepKeepsInv(first: int, b: Brick, e: Event, space: int)
    requires Enabled(b, e) && Inv(first, b)
    ensures Inv(first, Step(b, e, space))
  {
    if e.Round? { RoundKeepsInv(first, b, e, space); }
  }

  lemma {:induction false} RunKeepsInv(first: int, b: Brick, events: seq<Event>, space: int)
    requires Inv(first, b)
    ensures Inv(first, Run(b, events, space))
    decreases |events|
  {
    if events != [] {
      if Enabled(b, events[0]) { StepKeepsInv(first, b, events[0], space); }
      RunKeepsInv(first, if Enabled(b, events[0]) then Step(b, events[0], space) else b, events[1..], space);
    }
  }

  // Over every run the completed windows cover, without a gap, everything from
  // the first begin to where the worker stands, and also everything before any
  // begin that a restart can use: a restart may redo work but skips nothing.
  lemma NoGap(first: int, events: seq<Event>, space: int)
    ensures var b := Run(NewBrick(first), events, space);
      && (b.worker.Some? ==> Within(first, b.completed, b.worker.value.last))
      && Within(first, b.completed, b.persisted)
      && Within(first, b.completed, b.loaded)
  {
    RunKeepsInv(first, NewBrick(first), events, space);
  }

  // The windows of one worker are disjoint and increase.
  lemma {:induction false} OneLifeIncreases(completed: seq<Window>, i: nat, j: nat)
    requires Chained(completed) && i < j < |completed| && completed[i].life == completed[j].life
    ensures completed[i].end <= completed[j].begin
    decreases j - i
  {
    if i + 1 < j {
      OneLifeIncreases(completed, i, j - 1);
    }
  }

  lemma WindowsOfOneWorker(first: int, events: seq<Event>, space: int, i: nat, j: nat)
    requires var completed := Run(NewBrick(first), events, space).completed;
      i < j < |completed| && completed[i].life == completed[j].life
    ensures var completed := Run(NewBrick(first), events, space).completed;
      completed[i].begin < completed[i].end <= completed[j].begin < completed[j].end
  {
    RunKeepsInv(first, NewBrick(first), events, space);
    OneLifeIncreases(Run(NewBrick(first), events, space).completed, i, j);
  }

  // The bounds of a completed window: a later one of its worker follows the
  // incremental rule; the first one follows it too, or ends a day before its clock.
  ghost predicate WithinBounds(completed: seq<Window>, i: nat, space: int)
    requires i < |completed|
  {
    var c := completed[i];
    && c.begin + MIN_BACKUP_SPACE <= c.end
    && ((c.end <= c.begin + BACKUP_SPACE && c.end <= c.at - space)
        || (c.end == c.at - FIRST_BACKUP_SPACE && (i == 0 || completed[i - 1].life != c.life)))
  }

  ghost predicate BoundsInv(b: Brick, space: int) {
    && (forall i :: 0 <= i < |b.completed| ==> WithinBounds(b.completed, i, space))
    && (b.completed != [] ==> b.completed[|b.completed| - 1].life <= b.life)
    && (b.worker.Some? && b.worker.value.firstRun ==>
          b.completed == [] || b.completed[|b.completed| - 1].life < b.life)
  }

  lemma BoundsStep(b: Brick, e: Event, space: int)
    requires Enabled(b, e) && BoundsInv(b, space)
    ensures BoundsInv(Step(b, e, space), space)
  {
    var b' := Step(b, e, space);
    if e.Round? { if Executes(Plan(b.worker.value, e.curr, space)) { ExecutedWindow(b.worker.value, e.curr, space); } }
    forall i | 0 <= i < |b'.completed| ensures WithinBounds(b'.completed, i, space) {
      if i < |b.completed| { assert WithinBounds(b.completed, i, space); }
    }
  }

  lemma {:induction false} RunKeepsBounds(b: Brick, events: seq<Event>, space: int)
    requires BoundsInv(b, space)
    ensures BoundsInv(Run(b, events, space), space)
    decreases |events|
  {
    if events != [] {
      if Enabled(b, events[0]) { BoundsStep(b, events[0], space); }
      RunKeepsBounds(if Enabled(b, events[0]) then Step(b, events[0], space) else b, events[1..], space);
    }
  }

  // In every run each completed window is at least an hour long, and at most ten
  // hours and no later than clock minus space, but for the first of a worker.
  lemma EveryWindowWithinBounds(first: int, events: seq<Event>, space: int, i: nat)
    requires i < |Run(NewBrick(first), events, space).completed|
    ensures WithinBounds(Run(NewBrick(first), events, space).completed, i, space)
  {
    RunKeepsBounds(NewBrick(first), events, space);
  }

  // ----------------------------------------------------------- a standing clock

  // However many rounds follow while the clock stands still, a worker past its
  // first round completes as many windows as FrozenRun counts, and then idles.
  lemma {:induction false} RoundsOfFrozenClock(b: Brick, curr: int, accepted: bool, space: int, n: nat)
    requires b.worker.Some? && !b.worker.value.firstRun
    ensures var b', r := Run(b, Repeat(Round(curr, true, accepted), n), space), FrozenRun(b.worker.value, curr, space);
      && |b'.completed| == |b.completed| + (if n < r.0 then n else r.0)
      && b'.worker.Some? && (n >= r.0 ==> b'.worker.value.last == r.1.last)
    decreases n
  {
    if n > 0 {
      var e := Round(curr, true, accepted);
      assert Repeat(e, n)[1..] == Repeat(e, n - 1);
      RoundsOfFrozenClock(Step(b, e, space), curr, accepted, space, n - 1);
    }
  }

  // The windows of a worker from its start, and whether its first round idles although
  // more is outstanding: it is between a day and a day and an hour behind.
  function WindowsFromStart(behind: int, space: int): nat {
    if behind >= 86400 + 3600 then 1 + WindowsIn(86400 - space) else WindowsIn(behind - space)
  }

  predicate IdlesFirst(behind: int) { 86400 <= behind < 86400 + 3600 }

  lemma RoundsAfterFirst(b: Brick, curr: int, accepted: bool, space: int, n: nat)
    requires b.worker.Some? && !b.worker.value.firstRun
    ensures var b' := Run(b, Repeat(Round(curr, true, accepted), n), space);
      var all := WindowsIn(curr - space - b.worker.value.last);
      && |b'.completed| == |b.completed| + Min(n, all)
      && b'.worker.Some? && (n >= all ==> curr - space - b'.worker.value.last < MIN_BACKUP_SPACE)
  {
    RoundsOfFrozenClock(b, curr, accepted, space, n);
    FrozenClock(b.worker.value, curr, space);
  }

  // The first round, and what is then outstanding.
  lemma FirstRound(b: Brick, curr: int, accepted: bool, space: int)
    requires b.worker.Some? && b.worker.value.firstRun
    ensures var b1, behind := Step(b, Round(curr, true, accepted), space), curr - b.worker.value.last;
      && b1.worker.Some? && !b1.worker.value.firstRun
      && (if behind >= 86400 then
            if IdlesFirst(behind) then b1.completed == b.completed && b1.worker.value.last == b.worker.value.last
            else |b1.completed| == |b.completed| + 1 && b1.worker.value.last == curr - 86400
          else if behind - space >= 3600 then
            && |b1.completed| == |b.completed| + 1
            && b1.worker.value.last == Min(b.worker.value.last + 36000, curr - space)
            && WindowsIn(behind - space) == 1 + WindowsIn(curr - space - b1.worker.value.last)
          else b1.completed == b.completed && b1.worker.value.last == b.worker.value.last
               && WindowsIn(behind - space) == 0)
  {
    PlannedWindow(b.worker.value, curr, space);
    ExecutesIff(b.worker.value, curr, space);
  }

  // The first round completes one window or none; none only if it idles as above, or
  // nothing is to be done.
  lemma FirstRoundCounts(b: Brick, curr: int, accepted: bool, space: int) returns (one: nat)
    requires b.worker.Some? && b.worker.value.firstRun
    ensures var b1, behind := Step(b, Round(curr, true, accepted), space), curr - b.worker.value.last;
      && one <= 1 && |b1.completed| == |b.completed| + one && b1.worker.Some? && !b1.worker.value.firstRun
      && WindowsIn(curr - space - b1.worker.value.last) == WindowsFromStart(behind, space) - one
      && (if one == 1 then !IdlesFirst(behind) else IdlesFirst(behind) || WindowsFromStart(behind, space) == 0)
  {
    FirstRound(b, curr, accepted, space);
    one := |Step(b, Round(curr, true, accepted), space).completed| - |b.completed|;
  }

  // What n rounds complete when `all` windows are to be completed.
  function CompletedIn(n: nat, all: nat, idlesFirst: bool): nat {
    Min(if idlesFirst && n > 0 then n - 1 else n, all)
  }

  lemma RestOfRounds(n: nat, all: nat, idlesFirst: bool, one: nat)
    requires n > 0 && one <= 1 && one <= all
    requires if one == 1 then !idlesFirst else idlesFirst || all == 0
    ensures CompletedIn(n, all, idlesFirst) == one + Min(n - 1, all - one)
    ensures n > all || (n == all && !idlesFirst) ==> n - 1 >= all - one
  {
  }

  // However far a worker that has just started is behind: the number of windows that
  // n rounds complete while the clock stands still, and when nothing is left to do.
  lemma RoundsFromStart(b: Brick, curr: int, accepted: bool, space: int, n: nat)
    requires b.worker.Some? && b.worker.value.firstRun
    ensures var b' := Run(b, Repeat(Round(curr, true, accepted), n), space);
      var behind := curr - b.worker.value.last;
      && |b'.completed| == |b.completed| + CompletedIn(n, WindowsFromStart(behind, space), IdlesFirst(behind))
      && b'.worker.Some?
      && (n > WindowsFromStart(behind, space) ==> curr - space - b'.worker.value.last < MIN_BACKUP_SPACE)
  {
    if n > 0 {
      var e := Round(curr, true, accepted);
      var behind := curr - b.worker.value.last;
      assert Repeat(e, n)[1..] == Repeat(e, n - 1);
      var one := FirstRoundCounts(b, curr, accepted, space);
      RoundsAfterFirst(Step(b, e, space), curr, accepted, space, n - 1);
      RestOfRounds(n, WindowsFromStart(behind, space), IdlesFirst(behind), one);
    }
  }

  // ------------------------------------------------- the lag of the checkpoint

  ghost predicate Lags(b: Brick) {
    b.completed != [] ==> b.persisted <= b.completed[|b.completed| - 1].begin
  }

  // A round that completes a window leaves the checkpoint at or before the begin
  // of that window exactly when it could write it, or it was there already.
  lemma RoundLagsIff(b: Brick, e: Event, space: int)
    requires e.Round? && Enabled(b, e) && |Step(b, e, space).completed| > |b.completed|
    ensures Lags(Step(b, e, space)) <==> e.accepted || b.persisted <= b.worker.value.last
  {
  }

  // A worker that begins where the checkpoint stands.
  ghost predicate FreshStarts(b: Brick, events: seq<Event>, space: int)
    decreases |events|
  {
    events == []
    || ((events[0].WorkerStart? && Enabled(b, events[0]) ==> b.loaded == b.persisted)
        && FreshStarts(if Enabled(b, events[0]) then Step(b, events[0], space) else b, events[1..], space))
  }

  ghost predicate LagInv(b: Brick) {
    Lags(b) && (b.worker.Some? ==> b.persisted <= b.worker.value.last)
  }

  // If every worker begins at the persisted value, as after a process start, the
  // checkpoint never passes the begin of the last completed window.
  lemma {:induction false} CheckpointLags(b: Brick, events: seq<Event>, space: int)
    requires LagInv(b) && FreshStarts(b, events, space)
    ensures LagInv(Run(b, events, space))
    decreases |events|
  {
    if events != [] {
      CheckpointLags(if Enabled(b, events[0]) then Step(b, events[0], space) else b, events[1..], space);
    }
  }

  // A worker restarted inside a process begins at the value read when the process
  // started. One failed write then leaves the checkpoint past the begin of the
  // window just completed (which an earlier worker had completed before).
  lemma StaleStartOvertakes()
    ensures exists events, space :: !Lags(Run(NewBrick(0), events, space))
  {
    var b0 := NewBrick(0);
    var r1 := Round(1000000, true, true);
    var r2 := Round(1000000, true, true);
    var r3 := Round(1000000, true, false);
    var events := [WorkerStart, r1, r2, WorkerStop, WorkerStart, r3];
    var b1 := Step(b0, WorkerStart, 0);
    var b2 := Step(b1, r1, 0);
    var b3 := Step(b2, r2, 0);
    var b4 := Step(b3, WorkerStop, 0);
    var b5 := Step(b4, WorkerStart, 0);
    var b6 := Step(b5, r3, 0);
    assert b3.persisted == 1000000 - FIRST_BACKUP_SPACE;
    assert b6.completed[2] == Window(0, 1000000 - FIRST_BACKUP_SPACE, 2, 1000000) && !Lags(b6);
    assert Run(b6, [], 0) == b6;
    assert Run(b5, [r3], 0) == b6 && [r3][1..] == [];
    assert Run(b4, [WorkerStart, r3], 0) == b6 by { assert [WorkerStart, r3][1..] == [r3]; }
    assert Run(b3, [WorkerStop, WorkerStart, r3], 0) == b6 by {
      assert [WorkerStop, WorkerStart, r3][1..] == [WorkerStart, r3]; }
    assert Run(b2, [r2, WorkerStop, WorkerStart, r3], 0) == b6 by {
      assert [r2, WorkerStop, WorkerStart, r3][1..] == [WorkerStop, WorkerStart, r3]; }
    assert Run(b1, events[1..], 0) == b6 by {
      assert events[1..] == [r1, r2, WorkerStop, WorkerStart, r3];
      assert events[1..][1..] == [r2, WorkerStop, WorkerStart, r3]; }
    assert Run(b0, events, 0) == b6;
  }
}
