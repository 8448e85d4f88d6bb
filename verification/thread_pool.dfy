// backup/thread_pool.cpp and backup/sys_thread.cpp: one dispatcher hands tasks
// to any number of workers. The dispatcher reads isPaused without the lock and
// only then locks the worker, sets the task and resumes it; a worker holds its
// lock from the moment it takes the task until the slot is empty again.
module ThreadPool {
  import opened Prelude

  type Task = nat  // tasks are numbered in the order of add_task

  // Where a worker is in ThreadProc.
  datatype WorkerPc =
    | Top        // before the test of m_brunning
    | Poll       // before the test of m_bpaused
    | WantLock   // saw m_bpaused false
    | Running    // holds the lock, executes the task
    | Clearing   // holds the lock, m_bpaused is true, the task not yet deleted
    | Leaving    // out of the loop, before the final delete
    | Gone

  datatype Worker = Worker(slot: Option<Task>, running: bool, paused: bool, pc: WorkerPc)

  // Where the dispatcher is. `dormant` is pDormantThreads; `d` is i of the loops.
  datatype Dispatcher =
    | Idle
    | Scanning(d: nat, dormant: seq<nat>)            // process: reading isPaused
    | Assigning(d: nat, dormant: seq<nat>)
    | Holding(d: nat, dormant: seq<nat>, t: Task)    // popped, before Lock
    | Locked(d: nat, dormant: seq<nat>, t: Task)     // before set_task
    | TaskSet(d: nat, dormant: seq<nat>)             // before Resume
    | Resumed(d: nat, dormant: seq<nat>)             // before Unlock
    | Emptying                                       // shut_down: the queue
    | Ending(left: nat)                              // shut_down: m_vthreads has `left` entries
    | Joining(left: nat)                             // end of worker `left` is being waited for
    | Down

  datatype Given = Given(worker: nat, task: Task)

  // `handed` and `started` are histories of tasks given to a worker and of tasks
  // begun; `deleted` the history of delete; `added` the number of add_task calls.
  datatype Pool = Pool(
    queue: seq<Task>,
    workers: seq<Worker>,
    boss: Dispatcher,
    added: nat,
    handed: seq<Given>,
    started: seq<Given>,
    deleted: seq<Task>)

  datatype Action =
    | AddTask | Process | Scan | Assign | LockIt | SetTask | Resume | Unlock
    | ShutDown | DropQueued | EndNext | Join
    | Turn(w: nat)  // the next step of worker w

  predicate BossHas(p: Pool, w: nat) {
    && (p.boss.Locked? || p.boss.TaskSet? || p.boss.Resumed?)
    && p.boss.d < |p.boss.dormant| && p.boss.dormant[p.boss.d] == w
  }

  predicate WorkerHas(p: Pool, w: nat) {
    w < |p.workers| && (p.workers[w].pc == Running || p.workers[w].pc == Clearing)
  }

  // The worker a hand-off is meant for.
  predicate Aimed(p: Pool) {
    && (p.boss.Holding? || p.boss.Locked? || p.boss.TaskSet? || p.boss.Resumed?)
    && p.boss.d < |p.boss.dormant| && p.boss.dormant[p.boss.d] < |p.workers|
  }

  function Aim(p: Pool): nat requires Aimed(p) { p.boss.dormant[p.boss.d] }

  predicate Enabled(p: Pool, a: Action) {
    match a
    case AddTask => p.boss.Idle?
    case Process => p.boss.Idle?
    case Scan => p.boss.Scanning?
    case Assign => p.boss.Assigning?
    case LockIt => p.boss.Holding? && Aimed(p) && !WorkerHas(p, Aim(p))
    case SetTask => p.boss.Locked? && Aimed(p)
    case Resume => p.boss.TaskSet? && Aimed(p)
    case Unlock => p.boss.Resumed?
    case ShutDown => p.boss.Idle?
    case DropQueued => p.boss.Emptying?
    case EndNext => p.boss.Ending? && p.boss.left <= |p.workers|
    case Join => p.boss.Joining? && p.boss.left < |p.workers| && p.workers[p.boss.left].pc == Gone
    case Turn(w) =>
      && w < |p.workers| && p.workers[w].pc != Gone
      && (p.workers[w].pc == WantLock ==> !BossHas(p, w) && p.workers[w].slot.Some?)
      && (p.workers[w].pc == Clearing ==> p.workers[w].slot.Some?)
  }

  function SetWorker(p: Pool, w: nat, x: Worker): Pool
    requires w < |p.workers|
  {
    p.(workers := p.workers[w := x])
  }

  function WorkerTurn(p: Pool, w: nat): Pool
    requires Enabled(p, Turn(w))
  {
    var x := p.workers[w];
    match x.pc
    case Top => SetWorker(p, w, x.(pc := if x.running then Poll else Leaving))
    case Poll => SetWorker(p, w, x.(pc := if x.paused then Top else WantLock))
    case WantLock => SetWorker(p, w, x.(pc := Running)).(started := p.started + [Given(w, x.slot.value)])
    case Running => SetWorker(p, w, x.(pc := Clearing, paused := true))
    case Clearing => SetWorker(p, w, x.(pc := Top, slot := None)).(deleted := p.deleted + [x.slot.value])
    case Leaving =>
      var p' := SetWorker(p, w, x.(pc := Gone, slot := None));
      if x.slot.Some? then p'.(deleted := p.deleted + [x.slot.value]) else p'
  }

  function Step(p: Pool, a: Action): Pool
    requires Enabled(p, a)
  {
    match a
    case AddTask => p.(queue := p.queue + [p.added], added := p.added + 1)
    case Process => p.(boss := Scanning(0, []))
    case Scan =>
      var Scanning(d, dormant) := p.boss;
      if d >= |p.workers| then p.(boss := Assigning(0, dormant))
      else if p.workers[d].running && p.workers[d].paused then p.(boss := Scanning(d + 1, dormant + [d]))
      else p.(boss := Scanning(d + 1, dormant))
    case Assign =>
      var Assigning(d, dormant) := p.boss;
      if d < |dormant| && |p.queue| > 0
      then p.(boss := Holding(d, dormant, p.queue[0]), queue := p.queue[1..])
      else p.(boss := Idle)
    case LockIt => p.(boss := Locked(p.boss.d, p.boss.dormant, p.boss.t))
    case SetTask =>
      SetWorker(p, Aim(p), p.workers[Aim(p)].(slot := Some(p.boss.t)))
        .(boss := TaskSet(p.boss.d, p.boss.dormant), handed := p.handed + [Given(Aim(p), p.boss.t)])
    case Resume =>
      SetWorker(p, Aim(p), p.workers[Aim(p)].(paused := false)).(boss := Resumed(p.boss.d, p.boss.dormant))
    case Unlock => p.(boss := Assigning(p.boss.d + 1, p.boss.dormant))
    case ShutDown => p.(boss := Emptying)
    case DropQueued =>
      if |p.queue| > 0 then p.(queue := p.queue[1..], deleted := p.deleted + [p.queue[0]])
      else p.(boss := Ending(|p.workers|))
    case EndNext =>
      if p.boss.left == 0 then p.(boss := Down)
      else
        var w := p.boss.left - 1;
        SetWorker(p, w, p.workers[w].(running := false)).(boss := Joining(w))
    case Join => p.(boss := Ending(p.boss.left))
    case Turn(w) => WorkerTurn(p, w)
  }

  function Run(p: Pool, actions: seq<Action>): Pool
    decreases |actions|
  {
    if actions == [] then p
    else Run(if Enabled(p, actions[0]) then Step(p, actions[0]) else p, actions[1..])
  }

  // After initialize: workers run and are paused, with no task.
  ghost predicate Initial(p: Pool) {
    && p.queue == [] && p.boss == Idle && p.added == 0
    && p.handed == [] && p.started == [] && p.deleted == []
    && forall w :: 0 <= w < |p.workers| ==> p.workers[w] == Worker(None, true, true, Top)
  }

  // --------------------------------------------------------------- invariants

  // A worker that is not paused has a task; one that is paused has none, unless
  // it is still clearing up or the dispatcher is about to resume it.
  ghost predicate SlotOk(p: Pool, w: nat)
    requires w < |p.workers|
  {
    var x := p.workers[w];
    && (!x.paused && x.pc != Gone ==> x.slot.Some?)
    && (p.boss.TaskSet? && BossHas(p, w) ==> x.slot.Some? && x.paused)
    && (x.slot.Some? && x.paused ==> x.pc == Clearing || (p.boss.TaskSet? && BossHas(p, w)))
    && (x.pc == Clearing ==> x.paused && x.slot.Some?)
    && (x.pc == WantLock || x.pc == Running ==> !x.paused)
    && (x.pc == Gone ==> x.slot == None)
    && (x.running ==> x.pc != Leaving && x.pc != Gone)
    && (BossHas(p, w) ==> !WorkerHas(p, w))
  }

  ghost predicate SlotInv(p: Pool) {
    forall w {:trigger p.workers[w]} :: 0 <= w < |p.workers| ==> SlotOk(p, w)
  }

  // The dormant list has distinct workers, and those still to be served are paused.
  ghost predicate DormantInv(p: Pool) {
    match p.boss
    case Scanning(d, dormant) =>
      && (forall k :: 0 <= k < |dormant| ==> dormant[k] < d && dormant[k] < |p.workers|)
      && Waiters(p, dormant, 0)
    case Assigning(d, dormant) => Waiters(p, dormant, d)
    case Holding(d, dormant, _) => d < |dormant| && Waiters(p, dormant, d)
    case Locked(d, dormant, _) => d < |dormant| && Waiters(p, dormant, d)
    case TaskSet(d, dormant) => d < |dormant| && Waiters(p, dormant, d)
    case Resumed(d, dormant) => d < |dormant| && Waiters(p, dormant, d + 1) && dormant[d] < |p.workers|
    case _ => true
  }

  ghost predicate Waiters(p: Pool, dormant: seq<nat>, d: nat) {
    && (forall k :: d <= k < |dormant| ==>
          dormant[k] < |p.workers| && p.workers[dormant[k]].paused && p.workers[dormant[k]].running)
    && (forall j, k :: 0 <= j < k < |dormant| ==> dormant[j] != dormant[k])
  }

  // Before shut_down every worker runs; during it, those already joined are gone.
  ghost predicate RunningInv(p: Pool) {
    match p.boss
    case Ending(left) => left <= |p.workers| && EndedFrom(p, left, left)
    case Joining(left) => left < |p.workers| && EndedFrom(p, left, left + 1) && !p.workers[left].running
    case Down => EndedFrom(p, 0, 0)
    case _ => EndedFrom(p, |p.workers|, |p.workers|)
  }

  ghost predicate EndedFrom(p: Pool, runningBelow: nat, goneFrom: nat) {
    && (forall w :: 0 <= w < runningBelow && w < |p.workers| ==> p.workers[w].running)
    && (forall w :: goneFrom <= w < |p.workers| ==> p.workers[w].pc == Gone)
  }

  // The queue is always the run of numbers up to the newest task.
  ghost predicate QueueInv(p: Pool) {
    && |p.queue| <= p.added
    && (forall i :: 0 <= i < |p.queue| ==> p.queue[i] == p.added - |p.queue| + i)
    && (p.boss.Ending? || p.boss.Joining? || p.boss.Down? ==> p.queue == [])
  }

  function Taken(p: Pool): int { p.added - |p.queue| }

  // Tasks reach workers in the order in which they were added.
  ghost predicate HandedInv(p: Pool) {
    && (forall i :: 0 <= i < |p.handed| ==> p.handed[i].task == i)
    && (p.boss.Holding? || p.boss.Locked? ==> p.boss.t == |p.handed|)
    && (!ShuttingDown(p) ==> |p.handed| + (if p.boss.Holding? || p.boss.Locked? then 1 else 0) == Taken(p))
    && |p.handed| <= Taken(p)
  }

  ghost predicate ShuttingDown(p: Pool) {
    p.boss.Emptying? || p.boss.Ending? || p.boss.Joining? || p.boss.Down?
  }

  predicate InHand(p: Pool, t: Task) {
    (p.boss.Holding? || p.boss.Locked?) && p.boss.t == t
  }

  predicate InSlot(p: Pool, w: nat, t: Task) {
    w < |p.workers| && p.workers[w].slot == Some(t)
  }

  // The tasks taken off the queue are apart: in the dispatcher's hand, in one
  // slot, or deleted once.
  ghost predicate ApartInv(p: Pool) {
    && (forall w :: 0 <= w < |p.workers| && p.workers[w].slot.Some? ==>
          var t := p.workers[w].slot.value; t < Taken(p) && !InHand(p, t) && t !in p.deleted)
    && (forall v, w :: 0 <= v < w < |p.workers| && p.workers[v].slot.Some? ==> p.workers[v].slot != p.workers[w].slot)
    && (p.boss.Holding? || p.boss.Locked? ==> p.boss.t < Taken(p) && p.boss.t !in p.deleted)
    && (forall i :: 0 <= i < |p.deleted| ==> p.deleted[i] < Taken(p))
    && (forall i, j :: 0 <= i < j < |p.deleted| ==> p.deleted[i] != p.deleted[j])
  }

  ghost predicate Somewhere(p: Pool, t: Task) {
    InHand(p, t) || t in p.deleted || exists w: nat :: InSlot(p, w, t)
  }

  ghost predicate NoneLostInv(p: Pool) {
    forall t: Task :: t < Taken(p) ==> Somewhere(p, t)
  }

  ghost predicate Begun(p: Pool, t: Task) {
    t in p.deleted || exists w: nat :: WorkerHas(p, w) && InSlot(p, w, t)
  }

  // A task that was started is being run or cleared by its worker, or deleted.
  ghost predicate StartedInv(p: Pool) {
    && (forall i :: 0 <= i < |p.started| ==> Begun(p, p.started[i].task))
    && (forall i, j :: 0 <= i < j < |p.started| ==> p.started[i].task != p.started[j].task)
  }

  ghost predicate ShapeInv(p: Pool) {
    SlotInv(p) && DormantInv(p) && RunningInv(p) && QueueInv(p) && HandedInv(p)
  }

  ghost predicate Inv(p: Pool) {
    ShapeInv(p) && ApartInv(p) && NoneLostInv(p) && StartedInv(p)
  }

  // Each clause is kept by every step of the dispatcher and of the workers.

  lemma BossSlotInv(p: Pool, a: Action)
    requires Enabled(p, a) && !a.Turn?
    requires SlotInv(p) && DormantInv(p)
    ensures SlotInv(Step(p, a))
  {
    var q := Step(p, a);
    forall w | 0 <= w < |q.workers| ensures SlotOk(q, w) {
      assert SlotOk(p, w);
    }
  }

  lemma TurnOwnSlot(p: Pool, a: Action)
    requires Enabled(p, a) && a.Turn? && SlotOk(p, a.w) && DormantInv(p)
    ensures |Step(p, a).workers| == |p.workers| && SlotOk(Step(p, a), a.w)
  {
  }

  lemma TurnSlotInv(p: Pool, a: Action)
    requires Enabled(p, a) && a.Turn?
    requires SlotInv(p) && DormantInv(p)
    ensures SlotInv(Step(p, a))
  {
    TurnOwnSlot(p, a);
    var q := Step(p, a);
    forall w | 0 <= w < |q.workers| && w != a.w ensures SlotOk(q, w) {
      assert SlotOk(p, w) && q.workers[w] == p.workers[w];
    }
  }

  lemma ScanDormant(p: Pool)
    requires p.boss.Scanning? && DormantInv(p)
    ensures DormantInv(Step(p, Scan))
  {
  }

  lemma HandOffDormant(p: Pool, a: Action)
    requires Enabled(p, a) && (a.SetTask? || a.Resume?) && DormantInv(p)
    ensures DormantInv(Step(p, a))
  {
  }

  lemma BossDormantInv(p: Pool, a: Action)
    requires Enabled(p, a) && !a.Turn?
    requires DormantInv(p)
    ensures DormantInv(Step(p, a))
  {
    if a.Scan? { ScanDormant(p); }
    else if a.SetTask? || a.Resume? { HandOffDormant(p, a); }
  }

  // A worker never resumes itself.
  lemma TurnKeepsPaused(p: Pool, a: Action)
    requires Enabled(p, a) && a.Turn?
    ensures var q := Step(p, a);
      && |q.workers| == |p.workers| && q.boss == p.boss
      && forall w :: 0 <= w < |p.workers| ==>
           q.workers[w].running == p.workers[w].running && (p.workers[w].paused ==> q.workers[w].paused)
  {
  }

  lemma TurnDormantInv(p: Pool, a: Action)
    requires Enabled(p, a) && a.Turn? && DormantInv(p)
    ensures DormantInv(Step(p, a))
  {
    TurnKeepsPaused(p, a);
  }

  lemma BossRunningInv(p: Pool, a: Action)
    requires Enabled(p, a) && !a.Turn?
    requires RunningInv(p)
    ensures RunningInv(Step(p, a))
  {
  }

  lemma TurnRunningInv(p: Pool, a: Action)
    requires Enabled(p, a) && a.Turn?
    requires RunningInv(p)
    ensures RunningInv(Step(p, a))
  {
  }

  lemma BossQueueInv(p: Pool, a: Action)
    requires Enabled(p, a) && !a.Turn?
    requires QueueInv(p)
    ensures QueueInv(Step(p, a))
  {
  }

  lemma TurnQueueInv(p: Pool, a: Action)
    requires Enabled(p, a) && a.Turn?
    requires QueueInv(p)
    ensures QueueInv(Step(p, a))
  {
  }

  lemma BossHandedInv(p: Pool, a: Action)
    requires Enabled(p, a) && !a.Turn?
    requires QueueInv(p) && HandedInv(p)
    ensures HandedInv(Step(p, a))
  {
  }

  lemma TurnHandedInv(p: Pool, a: Action)
    requires Enabled(p, a) && a.Turn?
    requires QueueInv(p) && HandedInv(p)
    ensures HandedInv(Step(p, a))
  {
  }

  lemma SetTaskApart(p: Pool)
    requires Enabled(p, SetTask) && ApartInv(p)
    ensures ApartInv(Step(p, SetTask))
  {
  }

  lemma DropQueuedApart(p: Pool)
    requires Enabled(p, DropQueued) && QueueInv(p) && ApartInv(p)
    ensures ApartInv(Step(p, DropQueued))
  {
  }

  lemma OtherSteps(p: Pool, a: Action)
    requires Enabled(p, a) && !a.Turn? && !a.SetTask? && !a.DropQueued?
    requires QueueInv(p) && ApartInv(p)
    ensures var q := Step(p, a);
      && SameSlots(p, q) && Taken(p) <= Taken(q) && HandHolds(p, q)
  {
  }

  ghost predicate SameSlots(p: Pool, q: Pool) {
    && q.deleted == p.deleted && |q.workers| == |p.workers|
    && forall w :: 0 <= w < |p.workers| ==> q.workers[w].slot == p.workers[w].slot
  }

  // What the dispatcher holds it held before, or has just taken off the queue.
  ghost predicate HandHolds(p: Pool, q: Pool) {
    q.boss.Holding? || q.boss.Locked? ==> InHand(p, q.boss.t) || Taken(p) <= q.boss.t < Taken(q)
  }

  lemma ApartStays(p: Pool, q: Pool)
    requires ApartInv(p) && SameSlots(p, q) && Taken(p) <= Taken(q) && HandHolds(p, q)
    ensures ApartInv(q)
  {
  }

  lemma BossApartInv(p: Pool, a: Action)
    requires Enabled(p, a) && !a.Turn?
    requires QueueInv(p) && ApartInv(p)
    ensures ApartInv(Step(p, a))
  {
    if a.SetTask? { SetTaskApart(p); }
    else if a.DropQueued? { DropQueuedApart(p); }
    else {
      OtherSteps(p, a);
      ApartStays(p, Step(p, a));
    }
  }

  // The only slots change a turn can make is to empty its own.
  lemma TurnSlots(p: Pool, a: Action)
    requires Enabled(p, a) && a.Turn?
    ensures var q, x := Step(p, a), p.workers[a.w];
      && |q.workers| == |p.workers| && q.boss == p.boss && Taken(q) == Taken(p)
      && (forall v :: 0 <= v < |p.workers| && v != a.w ==> q.workers[v].slot == p.workers[v].slot)
      && ((q.workers[a.w].slot == x.slot && q.deleted == p.deleted)
          || (q.workers[a.w].slot == None && q.deleted == p.deleted + (if x.slot == None then [] else [x.slot.value])))
  {
  }

  lemma TurnApartInv(p: Pool, a: Action)
    requires Enabled(p, a) && a.Turn? && ApartInv(p)
    ensures ApartInv(Step(p, a))
  {
    TurnSlots(p, a);
  }

  lemma BossNoneLostInv(p: Pool, a: Action)
    requires Enabled(p, a) && !a.Turn?
    requires SlotInv(p) && DormantInv(p) && QueueInv(p) && NoneLostInv(p)
    ensures NoneLostInv(Step(p, a))
  {
    var q := Step(p, a);
    if a.SetTask? { assert InSlot(q, Aim(p), p.boss.t); }
    forall t: Task | t < Taken(q) ensures Somewhere(q, t) {
      if t < Taken(p) {
        assert Somewhere(p, t);
        if w: nat :| InSlot(p, w, t) {
          assert InSlot(q, w, t) || t in q.deleted;
        }
      } else {
        assert a.DropQueued? || a.Assign?;
        assert a.DropQueued? ==> q.deleted[|p.deleted|] == t;
      }
    }

  }

  lemma TurnNoneLostInv(p: Pool, a: Action)
    requires Enabled(p, a) && a.Turn?
    requires NoneLostInv(p)
    ensures NoneLostInv(Step(p, a))
  {
    var q := Step(p, a);
    forall t: Task | t < Taken(q) ensures Somewhere(q, t) {
      if t < Taken(p) {
        assert Somewhere(p, t);
        if w: nat :| InSlot(p, w, t) {
          assert InSlot(q, w, t) || t in q.deleted;
        }
      }
    }

  }

  lemma BossStartedInv(p: Pool, a: Action)
    requires Enabled(p, a) && !a.Turn?
    requires SlotInv(p) && DormantInv(p) && StartedInv(p)
    ensures StartedInv(Step(p, a))
  {
    var q := Step(p, a);
    forall i | 0 <= i < |q.started| ensures Begun(q, p.started[i].task) {
      var t := p.started[i].task;
      assert Begun(p, t);
      if w: nat :| WorkerHas(p, w) && InSlot(p, w, t) {
        assert t in q.deleted || (WorkerHas(q, w) && InSlot(q, w, t));
      }
    }

  }

  lemma TurnStartedInv(p: Pool, a: Action)
    requires Enabled(p, a) && a.Turn?
    requires ApartInv(p) && StartedInv(p)
    ensures StartedInv(Step(p, a))
  {
    var q := Step(p, a);
    forall i | 0 <= i < |p.started| ensures Begun(q, p.started[i].task) {
      var t := p.started[i].task;
      assert Begun(p, t);
      if w: nat :| WorkerHas(p, w) && InSlot(p, w, t) {
        assert t in q.deleted || (WorkerHas(q, w) && InSlot(q, w, t));
      }
    }
    if p.workers[a.w].pc == WantLock {
      var t := p.workers[a.w].slot.value;
      assert WorkerHas(q, a.w) && InSlot(q, a.w, t);
      forall i | 0 <= i < |p.started| ensures p.started[i].task != t { assert Begun(p, p.started[i].task); }
    }

  }

  lemma StepKeepsInv(p: Pool, a: Action)
    requires Inv(p) && Enabled(p, a)
    ensures Inv(Step(p, a))
  {
    if a.Turn? {
      TurnSlotInv(p, a); TurnDormantInv(p, a); TurnRunningInv(p, a); TurnQueueInv(p, a);
      TurnHandedInv(p, a); TurnApartInv(p, a); TurnNoneLostInv(p, a); TurnStartedInv(p, a);
    } else {
      BossSlotInv(p, a); BossDormantInv(p, a); BossRunningInv(p, a); BossQueueInv(p, a);
      BossHandedInv(p, a); BossApartInv(p, a); BossNoneLostInv(p, a); BossStartedInv(p, a);
    }
  }

  lemma InitialInv(p: Pool)
    requires Initial(p)
    ensures Inv(p)
  {
    forall w | 0 <= w < |p.workers| ensures SlotOk(p, w) {
    }
  }

  lemma {:induction false} RunKeepsInv(p: Pool, actions: seq<Action>)
    requires Inv(p)
    ensures Inv(Run(p, actions))
    decreases |actions|
  {
    if actions != [] {
      if Enabled(p, actions[0]) { StepKeepsInv(p, actions[0]); }
      RunKeepsInv(if Enabled(p, actions[0]) then Step(p, actions[0]) else p, actions[1..]);
    }
  }

  // ------------------------------------------------------------- main results

  // A worker never follows a null task: whoever is about to run a task, or to
  // delete one, has one in its slot.
  lemma WorkerNeverMeetsNull(p: Pool, actions: seq<Action>, w: nat)
    requires Initial(p) && w < |Run(p, actions).workers|
    ensures var x := Run(p, actions).workers[w];
      x.pc == WantLock || x.pc == Running || x.pc == Clearing ==> x.slot.Some?
  {
    InitialInv(p);
    RunKeepsInv(p, actions);
  }

  // set_task only ever fills an empty slot, although isPaused was read unlocked.
  lemma SetTaskNeverOverwrites(p: Pool, actions: seq<Action>)
    requires Initial(p)
    ensures var q := Run(p, actions);
      Enabled(q, SetTask) ==> q.workers[Aim(q)].slot == None && q.workers[Aim(q)].running
  {
    InitialInv(p);
    RunKeepsInv(p, actions);
  }

  // Every task is in exactly one place.
  ghost predicate ExactlyOnePlace(p: Pool, t: Task) {
    var queued, inHand, deleted := t in p.queue, InHand(p, t), t in p.deleted;
    && (queued ==> !inHand && !deleted && forall w: nat :: !InSlot(p, w, t))
    && (inHand ==> !deleted && forall w: nat :: !InSlot(p, w, t))
    && (deleted ==> forall w: nat :: !InSlot(p, w, t))
    && (forall v: nat, w: nat :: InSlot(p, v, t) && InSlot(p, w, t) ==> v == w)
    && (queued || inHand || deleted || exists w: nat :: InSlot(p, w, t))
  }

  lemma QueueHolds(p: Pool, t: Task)
    requires QueueInv(p)
    ensures t in p.queue <==> Taken(p) <= t < p.added
  {
    if Taken(p) <= t < p.added {
      assert p.queue[t - Taken(p)] == t;
    }
  }

  lemma TaskIsInExactlyOnePlace(p: Pool, actions: seq<Action>, t: Task)
    requires Initial(p) && t < Run(p, actions).added
    ensures ExactlyOnePlace(Run(p, actions), t)
  {
    InitialInv(p);
    RunKeepsInv(p, actions);
    var q := Run(p, actions);
    QueueHolds(q, t);
    if t < Taken(q) { assert Somewhere(q, t); }
  }

  // A task is run at most once and tasks are handed out in submission order.
  lemma RunOnceInOrder(p: Pool, actions: seq<Action>)
    requires Initial(p)
    ensures var q := Run(p, actions);
      && (forall i, j :: 0 <= i < j < |q.started| ==> q.started[i].task != q.started[j].task)
      && (forall i :: 0 <= i < |q.handed| ==> q.handed[i].task == i)
      && (forall i, j :: 0 <= i < j < |q.deleted| ==> q.deleted[i] != q.deleted[j])
  {
    InitialInv(p);
    RunKeepsInv(p, actions);
  }

  // After shut_down each task ever submitted has been deleted exactly once,
  // whether it was queued, assigned, or running, and no worker is left to start one.
  lemma ShutDownDeletesEachOnce(p: Pool, actions: seq<Action>)
    requires Initial(p) && Run(p, actions).boss.Down?
    ensures var q := Run(p, actions);
      && (forall t: Task :: t < q.added <==> t in q.deleted)
      && (forall i, j :: 0 <= i < j < |q.deleted| ==> q.deleted[i] != q.deleted[j])
      && (forall w: nat :: !Enabled(q, Turn(w)))
  {
    InitialInv(p);
    RunKeepsInv(p, actions);
    var q := Run(p, actions);
    forall t: Task ensures t < q.added <==> t in q.deleted {
      if t < q.added { assert Somewhere(q, t); }
    }
  }

  // What a worker that is to end has still before it.
  function StepsLeft(pc: WorkerPc): nat {
    match pc
    case Gone => 0
    case Leaving => 1
    case Top => 2
    case Clearing => 3
    case Running => 4
    case WantLock => 5
    case Poll => 6
  }

  function PhasesLeft(boss: Dispatcher): nat {
    match boss
    case Ending(left) => 2 * left + 1
    case Joining(left) => 2 * left + 2
    case _ => 0
  }

  // The next step of a shut_down in progress: of the dispatcher, or of the worker
  // that it waits for.
  function NextOfShutDown(p: Pool): Action {
    match p.boss
    case Emptying => DropQueued
    case Ending(_) => EndNext
    case Joining(w) => if w < |p.workers| && p.workers[w].pc == Gone then Join else Turn(w)
    case _ => ShutDown
  }

  lemma ShutDownGoesOn(p: Pool)
    requires Inv(p) && ShuttingDown(p) && !p.boss.Down?
    ensures Enabled(p, NextOfShutDown(p)) && ShuttingDown(Step(p, NextOfShutDown(p)))
    ensures var q := Step(p, NextOfShutDown(p));
      && (p.boss.Emptying? ==> !q.boss.Emptying? || |q.queue| < |p.queue|)
      && (!p.boss.Emptying? ==> !q.boss.Emptying? && q.queue == p.queue)
      && (!p.boss.Emptying? && NextOfShutDown(p).Turn? ==>
            q.boss == p.boss && StepsLeft(q.workers[p.boss.left].pc) < StepsLeft(p.workers[p.boss.left].pc))
      && (!p.boss.Emptying? && !NextOfShutDown(p).Turn? ==> PhasesLeft(q.boss) < PhasesLeft(p.boss))
  {
    if p.boss.Joining? { assert SlotOk(p, p.boss.left); }
  }

  function JoinStepsLeft(p: Pool): nat {
    if p.boss.Joining? && p.boss.left < |p.workers| then StepsLeft(p.workers[p.boss.left].pc) else 0
  }

  lemma {:induction false} ShutDownCanEnd(p: Pool) returns (rest: seq<Action>)
    requires Inv(p) && ShuttingDown(p)
    ensures Run(p, rest).boss.Down?
    decreases p.boss.Emptying?, |p.queue|, PhasesLeft(p.boss), JoinStepsLeft(p)
  {
    if p.boss.Down? {
      rest := [];
    } else {
      var a := NextOfShutDown(p);
      ShutDownGoesOn(p);
      StepKeepsInv(p, a);
      var more := ShutDownCanEnd(Step(p, a));
      rest := [a] + more;
      assert rest[1..] == more;
    }
  }

  // If tasks return, a shut_down in progress is never stuck: from every reachable
  // state of it the dispatcher and the workers can go on until it is over, with each
  // task ever submitted deleted.
  lemma ShutDownEnds(p: Pool, actions: seq<Action>) returns (rest: seq<Action>)
    requires Initial(p) && ShuttingDown(Run(p, actions))
    ensures var q := Run(Run(p, actions), rest); q.boss.Down? && forall t: Task :: t < q.added ==> t in q.deleted
  {
    InitialInv(p);
    RunKeepsInv(p, actions);
    rest := ShutDownCanEnd(Run(p, actions));
    RunKeepsInv(Run(p, actions), rest);
    var q := Run(Run(p, actions), rest);
    forall t: Task | t < q.added ensures t in q.deleted { assert Somewhere(q, t); }
  }

  predicate OutOfLoop(p: Pool, w: nat) {
    w < |p.workers| && (p.workers[w].pc == Leaving || p.workers[w].pc == Gone)
  }

  lemma StepAfterLoop(p: Pool, a: Action, w: nat)
    requires Enabled(p, a) && OutOfLoop(p, w)
    ensures OutOfLoop(Step(p, a), w)
    ensures Step(p, a).started == p.started
      || (a.Turn? && a.w != w && exists t :: Step(p, a).started == p.started + [Given(a.w, t)])
  {
  }

  // A worker out of its loop starts no task any more, however the others go on.
  lemma {:induction false} NoStartAfterLoop(p: Pool, actions: seq<Action>, w: nat)
    requires OutOfLoop(p, w)
    ensures var q := Run(p, actions);
      && OutOfLoop(q, w) && p.started <= q.started
      && forall i :: |p.started| <= i < |q.started| ==> q.started[i].worker != w
    decreases |actions|
  {
    if actions != [] {
      if Enabled(p, actions[0]) { StepAfterLoop(p, actions[0], w); }
      NoStartAfterLoop(if Enabled(p, actions[0]) then Step(p, actions[0]) else p, actions[1..], w);
    }
  }
}
