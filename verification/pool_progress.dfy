// What process achieves: every free worker gets a task while there are any, and no
// submitted task is left for ever.
module PoolProgress {
  import opened Prelude
  import opened ThreadPool

  // ------------------------------------------------------- one call of process

  predicate Free(p: Pool, w: nat) { w < |p.workers| && p.workers[w].running && p.workers[w].paused }

  // Steps between two calls of the dispatcher's owner.
  ghost predicate NoCalls(actions: seq<Action>) {
    forall i :: 0 <= i < |actions| ==> !actions[i].AddTask? && !actions[i].Process? && !actions[i].ShutDown?
  }

  // The k-th task of the queue goes to the k-th listed worker.
  function Pairs(dormant: seq<nat>, queue: seq<Task>, n: nat): seq<Given>
    requires n <= |dormant| && n <= |queue|
  {
    if n == 0 then [] else Pairs(dormant, queue, n - 1) + [Given(dormant[n - 1], queue[n - 1])]
  }

  // In ascending order, without repetition, and all who were free when process began.
  ghost predicate ListsFree(p0: Pool, dormant: seq<nat>, upTo: nat) {
    && (forall k :: 0 <= k < |dormant| ==> dormant[k] < upTo && dormant[k] < |p0.workers|)
    && (forall j, k :: 0 <= j < k < |dormant| ==> dormant[j] < dormant[k])
    && (forall w :: 0 <= w < upTo && Free(p0, w) ==> w in dormant)
  }

  ghost predicate HandedOut(p0: Pool, p: Pool, dormant: seq<nat>, given: nat, taken: nat) {
    && ListsFree(p0, dormant, |p0.workers|)
    && given <= taken <= |dormant| && taken <= |p0.queue|
    && p.queue == p0.queue[taken..] && p.handed == p0.handed + Pairs(dormant, p0.queue, given)
  }

  // The call is over: as many tasks as there were or as workers were listed.
  ghost predicate PassDone(p0: Pool, p: Pool, dormant: seq<nat>) {
    var n := if |dormant| <= |p0.queue| then |dormant| else |p0.queue|;
    HandedOut(p0, p, dormant, n, n)
  }

  ghost predicate PassInv(p0: Pool, p: Pool) {
    && |p.workers| == |p0.workers|
    && match p.boss
       case Scanning(d, dormant) =>
         && p.queue == p0.queue && p.handed == p0.handed && ListsFree(p0, dormant, d)
         && (forall w :: d <= w < |p0.workers| && Free(p0, w) ==> Free(p, w))
       case Assigning(d, dormant) => HandedOut(p0, p, dormant, d, d)
       case Holding(d, dormant, t) => HandedOut(p0, p, dormant, d, d + 1) && t == p0.queue[d]
       case Locked(d, dormant, t) => HandedOut(p0, p, dormant, d, d + 1) && t == p0.queue[d]
       case TaskSet(d, dormant) => HandedOut(p0, p, dormant, d + 1, d + 1)
       case Resumed(d, dormant) => HandedOut(p0, p, dormant, d + 1, d + 1)
       case Idle => exists dormant :: PassDone(p0, p, dormant)
       case _ => false
  }

  lemma ScanPass(p0: Pool, p: Pool)
    requires PassInv(p0, p) && p.boss.Scanning?
    ensures PassInv(p0, Step(p, Scan))
  {
    var q := Step(p, Scan);
    var d, dormant := p.boss.d, p.boss.dormant;
    if d < |p.workers| && Free(p, d) {
      assert q.boss.dormant == dormant + [d];
      assert d in q.boss.dormant by { assert q.boss.dormant[|dormant|] == d; }
      forall w | w in dormant ensures w in q.boss.dormant {
        var k :| 0 <= k < |dormant| && dormant[k] == w;
        assert q.boss.dormant[k] == w;
      }
    }
  }

  lemma AssignPass(p0: Pool, p: Pool)
    requires PassInv(p0, p) && p.boss.Assigning?
    ensures PassInv(p0, Step(p, Assign))
  {
    var q := Step(p, Assign);
    if q.boss.Idle? { assert PassDone(p0, q, p.boss.dormant); }
  }

  lemma SetTaskPass(p0: Pool, p: Pool)
    requires PassInv(p0, p) && Enabled(p, SetTask)
    ensures PassInv(p0, Step(p, SetTask))
  {
    var d, dormant := p.boss.d, p.boss.dormant;
    Regroup(p0.handed, Pairs(dormant, p0.queue, d), [Given(dormant[d], p0.queue[d])]);
  }

  lemma TurnPass(p0: Pool, p: Pool, a: Action)
    requires PassInv(p0, p) && Enabled(p, a) && a.Turn?
    ensures PassInv(p0, Step(p, a))
  {
    TurnKeepsPaused(p, a);
    var q := Step(p, a);
    assert q.queue == p.queue && q.handed == p.handed;
    if p.boss.Idle? {
      var dormant :| PassDone(p0, p, dormant);
      assert PassDone(p0, q, dormant);
    }
  }

  lemma PassStep(p0: Pool, p: Pool, a: Action)
    requires PassInv(p0, p) && Enabled(p, a) && NoCalls([a])
    ensures PassInv(p0, Step(p, a))
  {
    assert [a][0] == a;
    if a.Turn? { TurnPass(p0, p, a); }
    else if a.Scan? { ScanPass(p0, p); }
    else if a.Assign? { AssignPass(p0, p); }
    else if a.SetTask? { SetTaskPass(p0, p); }
  }

  lemma {:induction false} PassKeepsInv(p0: Pool, p: Pool, actions: seq<Action>)
    requires PassInv(p0, p) && NoCalls(actions)
    ensures PassInv(p0, Run(p, actions))
    decreases |actions|
  {
    if actions != [] {
      assert NoCalls([actions[0]]);
      if Enabled(p, actions[0]) { PassStep(p0, p, actions[0]); }
      PassKeepsInv(p0, if Enabled(p, actions[0]) then Step(p, actions[0]) else p, actions[1..]);
    }
  }

  // Whatever the workers do meanwhile: when process returns, it has listed every worker
  // that was free when it began (and those that became free before they were read), and
  // has given the tasks of the queue to them, one each in order, until one of the two
  // ran out.
  lemma ProcessHandsOut(p0: Pool, actions: seq<Action>) returns (dormant: seq<nat>)
    requires p0.boss.Idle? && NoCalls(actions) && Run(Step(p0, Process), actions).boss.Idle?
    ensures ListsFree(p0, dormant, |p0.workers|)
    ensures var n := if |dormant| <= |p0.queue| then |dormant| else |p0.queue|;
      var q := Run(Step(p0, Process), actions);
      q.queue == p0.queue[n..] && q.handed == p0.handed + Pairs(dormant, p0.queue, n)
  {
    PassKeepsInv(p0, Step(p0, Process), actions);
    dormant :| PassDone(p0, Run(Step(p0, Process), actions), dormant);
  }

  // -------------------------------------------------------- who runs which task

  ghost predicate WasStarted(p: Pool, t: Task) {
    exists i :: 0 <= i < |p.started| && p.started[i].task == t
  }

  // A worker runs only what was handed to it; what it runs has been started; and
  // before shut_down nothing is deleted that was not.
  ghost predicate HistoryInv(p: Pool) {
    && (forall w :: 0 <= w < |p.workers| && p.workers[w].slot.Some? ==> Given(w, p.workers[w].slot.value) in p.handed)
    && (forall i :: 0 <= i < |p.started| ==> p.started[i] in p.handed)
    && (forall w :: 0 <= w < |p.workers| && WorkerHas(p, w) && p.workers[w].slot.Some? ==>
          Given(w, p.workers[w].slot.value) in p.started)
    && (!ShuttingDown(p) ==> forall i :: 0 <= i < |p.deleted| ==> WasStarted(p, p.deleted[i]))
  }

  // A step of the dispatcher starts nothing, runs nothing and fills one slot at most.
  lemma BossSlots(p: Pool, a: Action)
    requires Inv(p) && Enabled(p, a) && !a.Turn?
    ensures var q := Step(p, a);
      && q.started == p.started && |q.workers| == |p.workers| && p.handed <= q.handed
      && (forall w :: 0 <= w < |p.workers| ==> q.workers[w].pc == p.workers[w].pc)
      && (forall w :: 0 <= w < |p.workers| && !(a.SetTask? && w == Aim(p)) ==> q.workers[w].slot == p.workers[w].slot)
      && (a.SetTask? ==> Given(Aim(p), p.boss.t) in q.handed && q.workers[Aim(p)].slot == Some(p.boss.t)
                         && !WorkerHas(p, Aim(p)))
      && (!ShuttingDown(q) ==> !ShuttingDown(p) && q.deleted == p.deleted)
  {
    var q := Step(p, a);
    if a.SetTask? {
      assert q.handed[|p.handed|] == Given(Aim(p), p.boss.t);
      assert SlotOk(p, Aim(p));
    }
  }

  lemma HandedStays(p: Pool, q: Pool, g: Given)
    requires p.handed <= q.handed && g in p.handed
    ensures g in q.handed
  {
    var k :| 0 <= k < |p.handed| && p.handed[k] == g;
    assert q.handed[k] == g;
  }

  lemma BossHistory(p: Pool, a: Action)
    requires HistoryInv(p) && Inv(p) && Enabled(p, a) && !a.Turn?
    ensures HistoryInv(Step(p, a))
  {
    var q := Step(p, a);
    BossSlots(p, a);
    forall g | g in p.handed ensures g in q.handed { HandedStays(p, q, g); }
    if !ShuttingDown(q) {
      forall i | 0 <= i < |q.deleted| ensures WasStarted(q, q.deleted[i]) { assert WasStarted(p, p.deleted[i]); }
    }
  }

  lemma TurnStarted(p: Pool, a: Action)
    requires Enabled(p, a) && a.Turn?
    ensures var q := Step(p, a);
      && q.handed == p.handed && q.boss == p.boss
      && (forall g :: g in p.started ==> g in q.started)
      && (forall t :: WasStarted(p, t) ==> WasStarted(q, t))
      && (p.workers[a.w].pc == WantLock ==> Given(a.w, p.workers[a.w].slot.value) in q.started)
      && (q.started == p.started
          || (p.workers[a.w].pc == WantLock && q.started == p.started + [Given(a.w, p.workers[a.w].slot.value)]))
  {
    var q := Step(p, a);
    forall g | g in p.started ensures g in q.started {
      var k :| 0 <= k < |p.started| && p.started[k] == g;
      assert q.started[k] == g;
    }
    forall t | WasStarted(p, t) ensures WasStarted(q, t) {
      var k :| 0 <= k < |p.started| && p.started[k].task == t;
      assert q.started[k].task == t;
    }
    if p.workers[a.w].pc == WantLock {
      assert q.started[|p.started|] == Given(a.w, p.workers[a.w].slot.value);
    }
  }

  lemma StartedWas(p: Pool, g: Given)
    requires g in p.started
    ensures WasStarted(p, g.task)
  {
    var k :| 0 <= k < |p.started| && p.started[k] == g;
  }

  lemma TurnDeletes(p: Pool, a: Action)
    requires HistoryInv(p) && Inv(p) && Enabled(p, a) && a.Turn? && !ShuttingDown(p)
    ensures forall i :: 0 <= i < |Step(p, a).deleted| ==> WasStarted(Step(p, a), Step(p, a).deleted[i])
  {
    var q := Step(p, a);
    TurnStarted(p, a);
    TurnSlots(p, a);
    assert SlotOk(p, a.w) && p.workers[a.w].running;
    forall i | 0 <= i < |q.deleted| ensures WasStarted(q, q.deleted[i]) {
      if i < |p.deleted| {
        assert WasStarted(p, p.deleted[i]);
      } else {
        StartedWas(p, Given(a.w, p.workers[a.w].slot.value));
      }
    }
  }

  lemma TurnHistory(p: Pool, a: Action)
    requires HistoryInv(p) && Inv(p) && Enabled(p, a) && a.Turn?
    ensures HistoryInv(Step(p, a))
  {
    var q := Step(p, a);
    TurnStarted(p, a);
    TurnSlots(p, a);
    if !ShuttingDown(p) { TurnDeletes(p, a); }
    forall w | 0 <= w < |q.workers| && WorkerHas(q, w) && q.workers[w].slot.Some?
      ensures Given(w, q.workers[w].slot.value) in q.started
    {
      if w != a.w { assert q.workers[w] == p.workers[w]; }
    }
  }

  lemma HistoryStep(p: Pool, a: Action)
    requires HistoryInv(p) && Inv(p) && Enabled(p, a)
    ensures HistoryInv(Step(p, a)) && Inv(Step(p, a))
  {
    StepKeepsInv(p, a);
    if a.Turn? { TurnHistory(p, a); } else { BossHistory(p, a); }
  }

  lemma {:induction false} RunKeepsHistory(p: Pool, actions: seq<Action>)
    requires HistoryInv(p) && Inv(p)
    ensures HistoryInv(Run(p, actions)) && Inv(Run(p, actions))
    decreases |actions|
  {
    if actions != [] {
      if Enabled(p, actions[0]) { HistoryStep(p, actions[0]); }
      RunKeepsHistory(if Enabled(p, actions[0]) then Step(p, actions[0]) else p, actions[1..]);
    }
  }

  // In every interleaving a task is run only by the worker that it was handed to.
  lemma RunByWhomItWasGiven(p: Pool, actions: seq<Action>, i: nat)
    requires Initial(p) && i < |Run(p, actions).started|
    ensures Run(p, actions).started[i] in Run(p, actions).handed
  {
    InitialInv(p);
    RunKeepsHistory(p, actions);
  }

  // ------------------------------------------------------------------- progress

  function PassPhase(p: Pool): nat {
    match p.boss
    case Scanning(_, _) => 2
    case Idle => 0
    case _ => 1
  }

  function PassRank(p: Pool): nat {
    match p.boss
    case Scanning(d, _) => if d < |p.workers| then |p.workers| - d else 0
    case Assigning(d, dormant) => if d <= |dormant| then 8 * (|dormant| - d) else 0
    case Holding(d, dormant, _) =>
      if d < |dormant| then 8 * (|dormant| - d) - (if WorkerHas(p, dormant[d]) then 1 else 2) else 0
    case Locked(d, dormant, _) => if d < |dormant| then 8 * (|dormant| - d) - 3 else 0
    case TaskSet(d, dormant) => if d < |dormant| then 8 * (|dormant| - d) - 4 else 0
    case Resumed(d, dormant) => if d < |dormant| then 8 * (|dormant| - d) - 5 else 0
    case _ => 0
  }

  function NextOfPass(p: Pool): Action {
    match p.boss
    case Scanning(_, _) => Scan
    case Assigning(_, _) => Assign
    case Holding(_, _, _) => if Aimed(p) && WorkerHas(p, Aim(p)) then Turn(Aim(p)) else LockIt
    case Locked(_, _, _) => SetTask
    case TaskSet(_, _) => Resume
    case _ => Unlock
  }

  lemma PassGoesOn(p: Pool)
    requires Inv(p) && !ShuttingDown(p) && !p.boss.Idle?
    ensures Enabled(p, NextOfPass(p)) && NoCalls([NextOfPass(p)])
    ensures var q := Step(p, NextOfPass(p));
      && !ShuttingDown(q) && q.added == p.added
      && (PassPhase(q) < PassPhase(p) || (PassPhase(q) == PassPhase(p) && PassRank(q) < PassRank(p)))
  {
    if p.boss.Holding? { assert SlotOk(p, Aim(p)); }
  }

  // If tasks return, a call of process returns.
  lemma {:induction false} ProcessCanReturn(p: Pool) returns (rest: seq<Action>)
    requires HistoryInv(p) && Inv(p) && !ShuttingDown(p)
    ensures NoCalls(rest) && Run(p, rest).boss.Idle? && Run(p, rest).added == p.added
    decreases PassPhase(p), PassRank(p)
  {
    if p.boss.Idle? {
      rest := [];
    } else {
      var a := NextOfPass(p);
      PassGoesOn(p);
      HistoryStep(p, a);
      var more := ProcessCanReturn(Step(p, a));
      rest := [a] + more;
      assert rest[1..] == more;
    }
  }

  // A worker on its way: to a paused state, or into its task.
  function ToPaused(pc: WorkerPc): nat {
    match pc
    case Top => 4
    case Poll => 3
    case WantLock => 2
    case Running => 1
    case _ => 0
  }

  lemma WorkerGoesOn(p: Pool, w: nat)
    requires Inv(p) && p.boss.Idle? && w < |p.workers| && !p.workers[w].paused
    ensures Enabled(p, Turn(w)) && Step(p, Turn(w)).boss.Idle?
    ensures var q := Step(p, Turn(w));
      && q.queue == p.queue && q.added == p.added && w < |q.workers|
      && (q.workers[w].paused || ToPaused(q.workers[w].pc) < ToPaused(p.workers[w].pc))
      && (q.workers[w].paused <==> p.workers[w].pc == Running)
  {
    assert SlotOk(p, w) && p.workers[w].running;
  }

  // If its task returns, a worker becomes free; and the task has then been started.
  lemma {:induction false} WorkerCanPause(p: Pool, w: nat) returns (rest: seq<Action>)
    requires HistoryInv(p) && Inv(p) && p.boss.Idle? && w < |p.workers|
    ensures var q := Run(p, rest);
      && q.boss.Idle? && q.queue == p.queue && q.added == p.added && Free(q, w)
      && (p.workers[w].slot.Some? ==> WasStarted(q, p.workers[w].slot.value))
    decreases if p.workers[w].paused then 0 else 1, ToPaused(p.workers[w].pc)
  {
    assert SlotOk(p, w) && p.workers[w].running;
    if p.workers[w].paused {
      rest := [];
      if p.workers[w].slot.Some? { StartedWas(p, Given(w, p.workers[w].slot.value)); }
    } else {
      var q := Step(p, Turn(w));
      WorkerGoesOn(p, w);
      HistoryStep(p, Turn(w));
      var more := WorkerCanPause(q, w);
      rest := [Turn(w)] + more;
      assert rest[1..] == more;
      assert q.workers[w].slot == p.workers[w].slot;
    }
  }

  lemma {:induction false} RunAppend(p: Pool, a: seq<Action>, b: seq<Action>)
    ensures Run(p, a + b) == Run(Run(p, a), b)
    decreases |a|
  {
    if a == [] {
      assert a + b == b;
    } else {
      assert (a + b)[1..] == a[1..] + b;
      RunAppend(if Enabled(p, a[0]) then Step(p, a[0]) else p, a[1..], b);
    }
  }

  // One more call of process takes something off the queue.
  lemma QueueCanShrink(p: Pool) returns (rest: seq<Action>)
    requires HistoryInv(p) && Inv(p) && p.boss.Idle? && p.workers != [] && p.queue != []
    ensures var q := Run(p, rest); q.boss.Idle? && |q.queue| < |p.queue| && q.added == p.added
  {
    var free := WorkerCanPause(p, 0);
    var p1 := Run(p, free);
    RunKeepsHistory(p, free);
    HistoryStep(p1, Process);
    var pass := ProcessCanReturn(Step(p1, Process));
    var dormant := ProcessHandsOut(p1, pass);
    assert 0 in dormant;
    RunAppend(p, free, [Process] + pass);
    assert ([Process] + pass)[1..] == pass;
    rest := free + ([Process] + pass);
  }

  lemma {:induction false} TaskCanStart(p: Pool, t: Task) returns (rest: seq<Action>)
    requires HistoryInv(p) && Inv(p) && p.boss.Idle? && p.workers != [] && t < p.added
    ensures WasStarted(Run(p, rest), t)
    decreases |p.queue|
  {
    QueueHolds(p, t);
    if t in p.queue {
      var first := QueueCanShrink(p);
      RunKeepsHistory(p, first);
      WorkersStay(p, first);
      var more := TaskCanStart(Run(p, first), t);
      RunAppend(p, first, more);
      rest := first + more;
    } else {
      assert Somewhere(p, t);
      if t in p.deleted {
        rest := [];
        var i :| 0 <= i < |p.deleted| && p.deleted[i] == t;
        assert WasStarted(p, p.deleted[i]);
      } else {
        var w: nat :| InSlot(p, w, t);
        rest := WorkerCanPause(p, w);
      }
    }
  }

  lemma {:induction false} WorkersStay(p: Pool, actions: seq<Action>)
    ensures |Run(p, actions).workers| == |p.workers|
    decreases |actions|
  {
    if actions != [] {
      WorkersStay(if Enabled(p, actions[0]) then Step(p, actions[0]) else p, actions[1..]);
    }
  }

  // No task is left for ever: if there is a worker, tasks return, and process is called
  // again, then from every reachable state before shut_down each task submitted so far
  // can still come to be started.
  lemma EveryTaskCanStart(p: Pool, actions: seq<Action>, t: Task) returns (rest: seq<Action>)
    requires Initial(p) && p.workers != [] && !ShuttingDown(Run(p, actions)) && t < Run(p, actions).added
    ensures WasStarted(Run(Run(p, actions), rest), t)
  {
    InitialInv(p);
    RunKeepsHistory(p, actions);
    WorkersStay(p, actions);
    var q := Run(p, actions);
    var first := ProcessCanReturn(q);
    RunKeepsHistory(q, first);
    WorkersStay(q, first);
    var more := TaskCanStart(Run(q, first), t);
    RunAppend(q, first, more);
    rest := first + more;
  }
}
