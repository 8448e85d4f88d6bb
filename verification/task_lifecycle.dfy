// What the user interface shows for each brick: backup_ui/backup_status.cpp fed
// by the consumer loop of backup_ui/deamon.cpp.
module BrickStatus {
  import opened BackupTables

  // The messages that reach the status map, and all others.
  datatype Note =
    | Config(brick: BrickId)
    | BrickStart(brick: BrickId)   // BACKUP_BRICK
    | BrickStop(brick: BrickId)    // BACKUP_BRICK_STOP
    | BrickError(brick: BrickId, text: string)
    | BrickMsg(key: string, text: string)  // the key may also be a disk id
    | Other

  datatype Shown = Shown(stat: string, msg: string)
  type StatusMap = map<string, Shown>

  function At(m: StatusMap, key: string): Shown { if key in m then m[key] else Shown("", "") }

  function Show(m: StatusMap, n: Note): StatusMap {
    match n
    case Config(b) => m[b := At(m, b).(stat := "STOP")]
    case BrickStart(b) => m[b := At(m, b).(stat := "START")]
    case BrickStop(b) => m[b := At(m, b).(stat := "STOP")]
    case BrickError(b, text) => m[b := At(m, b).(msg := text)]
    case BrickMsg(key, text) => m[key := At(m, key).(msg := text)]
    case Other => m
  }

  function ShowAll(log: seq<Note>): StatusMap {
    if log == [] then map[] else Show(ShowAll(log[..|log| - 1]), log[|log| - 1])
  }

  // The begin (true) and end (false) messages of one brick, in order.
  function Lives(log: seq<Note>, b: BrickId): seq<bool> {
    if log == [] then []
    else
      var n := log[|log| - 1];
      Lives(log[..|log| - 1], b)
        + (if n == BrickStart(b) then [true] else if n == BrickStop(b) then [false] else [])
  }

  // Strictly alternating, beginning with a begin.
  ghost predicate Alternates(s: seq<bool>) {
    forall i :: 0 <= i < |s| ==> (s[i] <==> i % 2 == 0)
  }

  // Configuration messages are posted before any brick is started.
  ghost predicate ConfigFirst(log: seq<Note>) {
    forall i, j :: 0 <= i < j < |log| && log[j].Config? ==> !log[i].BrickStart? && !log[i].BrickStop?
  }

  lemma {:induction false} NoLivesBeforeConfig(log: seq<Note>, b: BrickId)
    requires forall i :: 0 <= i < |log| ==> !log[i].BrickStart? && !log[i].BrickStop?
    ensures Lives(log, b) == []
  {
    if log != [] { NoLivesBeforeConfig(log[..|log| - 1], b); }
  }

  // The map shows START for a brick exactly when its last life message was a begin.
  lemma {:induction false} ShowsStartIffBegun(log: seq<Note>, b: BrickId)
    requires ConfigFirst(log) && Alternates(Lives(log, b))
    ensures At(ShowAll(log), b).stat == "START" <==> |Lives(log, b)| % 2 == 1
    decreases |log|
  {
    if log != [] {
      var front, n := log[..|log| - 1], log[|log| - 1];
      var l := Lives(log, b);
      assert Lives(front, b) == l[..|Lives(front, b)|];
      ShowsStartIffBegun(front, b);
      assert "STOP"[2] == 'O' && "START"[2] == 'A';
      if n.Config? {
        NoLivesBeforeConfig(front, b);
      } else if n == BrickStart(b) || n == BrickStop(b) {
        assert l[|l| - 1] == n.BrickStart?;
      }
    }
  }

  // The last text sent for a key, and the last message that sets its state.
  function LastText(log: seq<Note>, key: string): string {
    if log == [] then ""
    else
      var n := log[|log| - 1];
      if n == BrickError(key, if n.BrickError? then n.text else "") then n.text
      else if n == BrickMsg(key, if n.BrickMsg? then n.text else "") then n.text
      else LastText(log[..|log| - 1], key)
  }

  function LastState(log: seq<Note>, key: string): string {
    if log == [] then ""
    else
      var n := log[|log| - 1];
      if n == BrickStart(key) then "START"
      else if n == BrickStop(key) || n == Config(key) then "STOP"
      else LastState(log[..|log| - 1], key)
  }

  // The map shows these two for every key.
  lemma {:induction false} ShowsTheLast(log: seq<Note>, key: string)
    ensures At(ShowAll(log), key) == Shown(LastState(log, key), LastText(log, key))
  {
    if log != [] { ShowsTheLast(log[..|log| - 1], key); }
  }

  class BackupStatus {
    var bricks: StatusMap

    constructor ()
      ensures bricks == map[]
    {
      bricks := map[];
    }

    // One message taken from the queue.
    method Dispose(n: Note)
      modifies this
      ensures bricks == Show(old(bricks), n)
    {
      match n {
        case Config(b) => bricks := bricks[b := At(bricks, b).(stat := "STOP")];
        case BrickStart(b) => bricks := bricks[b := At(bricks, b).(stat := "START")];
        case BrickStop(b) => bricks := bricks[b := At(bricks, b).(stat := "STOP")];
        case BrickError(b, text) => bricks := bricks[b := At(bricks, b).(msg := text)];
        case BrickMsg(key, text) => bricks := bricks[key := At(bricks, key).(msg := text)];
        case Other =>
      }
    }
  }
}

// proc of backup/backup_task.cpp, run by any number of threads at the same time.
module TaskLifecycle {
  import opened BackupTables
  import opened DiskContainers
  import opened Prelude
  import opened TaskControls
  import opened BrickStatus

  datatype Phase =
    | New
    | Registered        // reg succeeded; worker.init is running
    | Ready             // init succeeded; BACKUP_BRICK not yet posted
    | InitFailed(msg: string)
    | Active            // between its two posts; worker.start is running
    | Stopped(msg: string)  // BACKUP_BRICK_STOP posted, still registered
    | Closing(msg: string)  // unregistered; an error is reported unless MSG_SHOW is empty
    | Done

  // `init` and `result` are what the two calls of the worker have answered so far.
  datatype Task = Task(brick: BrickId, phase: Phase, init: Option<InitCode>, result: Option<StartCode>)

  // The closing error of a task, and its place among the posts.
  datatype Report = Report(task: nat, at: nat)

  // `posted` is everything ever put on the message queue, `seen` how many of
  // these messages the user interface has taken; `reports` is the history of the
  // closing errors.
  datatype System = System(
    tasks: seq<Task>,
    regs: Registry,
    posted: seq<Note>,
    seen: nat,
    reports: seq<Report>)

  // What proc writes into MSG_SHOW.
  function InitText(code: InitCode): string {
    match code
    case InitSuccess => ""
    case InitErr => "BK_INIT_ERR"
    case InitNeedDel => "BK_INIT_NEED_DEL"
    case InitNoDiskMount => "BK_INIT_NO_DISK_MOUNT"
  }

  function StartText(code: StartCode): string { if code == BkStop then "" else "UNKNOW ERROR" }

  datatype Action =
    | Submit(brick: BrickId)
    | Enter(i: nat)                 // reg
    | Init(i: nat, code: InitCode)
    | PostStart(i: nat)
    | PostStop(i: nat, result: StartCode)   // worker.start has returned; BK_STOP only after a stop request
    | Unregister(i: nat)
    | Close(i: nat)
    | Talk(i: nat, n: Note)         // messages of a running init or worker
    | Stop(brick: BrickId)
    | StopAll
    | See

  predicate In(s: System, i: nat, phase: Phase) { i < |s.tasks| && s.tasks[i].phase == phase }

  predicate Enabled(s: System, a: Action) {
    match a
    case Submit(_) => true
    case Enter(i) => In(s, i, New)
    case Init(i, _) => In(s, i, Registered)
    case PostStart(i) => In(s, i, Ready)
    case PostStop(i, code) => In(s, i, Active) && (code == BkStop ==> StopRequested(s.regs, s.tasks[i].brick))
    case Unregister(i) => i < |s.tasks| && (s.tasks[i].phase.InitFailed? || s.tasks[i].phase.Stopped?)
    case Close(i) => i < |s.tasks| && s.tasks[i].phase.Closing?
    case Talk(i, n) => (In(s, i, Registered) || In(s, i, Active)) && (n.BrickMsg? || n.BrickError?)
    case Stop(_) => true
    case StopAll => true
    case See => s.seen < |s.posted|
  }

  function Move(s: System, i: nat, phase: Phase): System
    requires i < |s.tasks|
  {
    s.(tasks := s.tasks[i := s.tasks[i].(phase := phase)])
  }

  function Post(s: System, n: Note): System { s.(posted := s.posted + [n]) }

  function Step(s: System, a: Action): System
    requires Enabled(s, a)
  {
    match a
    case Submit(b) => s.(tasks := s.tasks + [Task(b, New, None, None)])
    case Enter(i) =>
      if s.tasks[i].brick in s.regs then Move(s, i, Done)
      else Move(s, i, Registered).(regs := WithReg(s.regs, s.tasks[i].brick))
    case Init(i, code) =>
      var phase := if code == InitSuccess then Ready else InitFailed(InitText(code));
      s.(tasks := s.tasks[i := s.tasks[i].(phase := phase, init := Some(code))])
    case PostStart(i) => Post(Move(s, i, Active), BrickStart(s.tasks[i].brick))
    case PostStop(i, code) =>
      var t := s.tasks[i].(phase := Stopped(StartText(code)), result := Some(code));
      Post(s.(tasks := s.tasks[i := t]), BrickStop(t.brick))
    case Unregister(i) =>
      Move(s, i, Closing(s.tasks[i].phase.msg)).(regs := s.regs - {s.tasks[i].brick})
    case Close(i) =>
      var msg := s.tasks[i].phase.msg;
      if msg != "" then
        Post(Move(s, i, Done), BrickError(s.tasks[i].brick, msg)).(reports := s.reports + [Report(i, |s.posted|)])
      else Move(s, i, Done)
    case Talk(_, n) => Post(s, n)
    case Stop(b) => s.(regs := WithStop(s.regs, b))
    case StopAll => s.(regs := WithStopAll(s.regs))
    case See => s.(seen := s.seen + 1)
  }

  function Run(s: System, actions: seq<Action>): System
    decreases |actions|
  {
    if actions == [] then s
    else Run(if Enabled(s, actions[0]) then Step(s, actions[0]) else s, actions[1..])
  }

  // After backup_init: only configuration messages have been posted.
  ghost predicate Initial(s: System) {
    && s.tasks == [] && s.regs == map[] && s.seen == 0 && s.reports == []
    && forall i :: 0 <= i < |s.posted| ==> s.posted[i].Config? || s.posted[i].Other?
  }

  // The phases between reg and unreg.
  predicate Holds(t: Task) {
    t.phase.Registered? || t.phase.Ready? || t.phase.InitFailed? || t.phase.Active? || t.phase.Stopped?
  }

  ghost predicate RegInv(s: System) {
    && (forall i :: 0 <= i < |s.tasks| && Holds(s.tasks[i]) ==> s.tasks[i].brick in s.regs)
    && (forall i, j :: 0 <= i < j < |s.tasks| && Holds(s.tasks[i]) && Holds(s.tasks[j]) ==>
          s.tasks[i].brick != s.tasks[j].brick)
    && (forall b :: b in s.regs ==> Held(s, b))
  }

  ghost predicate Held(s: System, b: BrickId) {
    exists i :: 0 <= i < |s.tasks| && Holds(s.tasks[i]) && s.tasks[i].brick == b
  }

  predicate Runs(t: Task, b: BrickId) { t.brick == b && t.phase == Active }

  ghost predicate IsActive(s: System, b: BrickId) {
    exists i :: 0 <= i < |s.tasks| && Runs(s.tasks[i], b)
  }

  ghost predicate LifeInv(s: System, b: BrickId) {
    && Alternates(Lives(s.posted, b))
    && (|Lives(s.posted, b)| % 2 == 1 <==> IsActive(s, b))
  }

  ghost predicate Inv(s: System) {
    && RegInv(s) && s.seen <= |s.posted| && ConfigFirst(s.posted)
    && forall b :: LifeInv(s, b)
  }

  // What a step does to the tasks that hold a registration.
  lemma HoldersStep(s: System, a: Action, i: nat)
    requires RegInv(s) && Enabled(s, a) && i < |Step(s, a).tasks| && Holds(Step(s, a).tasks[i])
    ensures Step(s, a).tasks[i].brick in Step(s, a).regs
    ensures (i < |s.tasks| && Holds(s.tasks[i]) && Step(s, a).tasks[i].brick == s.tasks[i].brick)
      || (a == Enter(i) && s.tasks[i].brick !in s.regs && Step(s, a).tasks[i].brick == s.tasks[i].brick)
  {
  }

  lemma HolderStays(s: System, a: Action, i: nat)
    requires Enabled(s, a) && i < |s.tasks| && Holds(s.tasks[i]) && a != Unregister(i)
    ensures var q := Step(s, a); i < |q.tasks| && Holds(q.tasks[i]) && q.tasks[i].brick == s.tasks[i].brick
  {
  }

  lemma NewlyRegistered(s: System, a: Action, b: BrickId)
    requires Enabled(s, a) && b in Step(s, a).regs
    ensures b in s.regs || (a.Enter? && Holds(Step(s, a).tasks[a.i]) && Step(s, a).tasks[a.i].brick == b)
    ensures a.Unregister? ==> s.tasks[a.i].brick != b
  {
  }

  lemma HeldStep(s: System, a: Action, b: BrickId)
    requires RegInv(s) && Enabled(s, a) && b in Step(s, a).regs
    ensures Held(Step(s, a), b)
  {
    NewlyRegistered(s, a, b);
    if b in s.regs {
      assert Held(s, b);
      var i :| 0 <= i < |s.tasks| && Holds(s.tasks[i]) && s.tasks[i].brick == b;
      HolderStays(s, a, i);
    }
  }

  lemma RegStep(s: System, a: Action)
    requires RegInv(s) && Enabled(s, a)
    ensures RegInv(Step(s, a))
  {
    var q := Step(s, a);
    forall i | 0 <= i < |q.tasks| && Holds(q.tasks[i]) ensures q.tasks[i].brick in q.regs {
      HoldersStep(s, a, i);
    }
    forall i, j | 0 <= i < j < |q.tasks| && Holds(q.tasks[i]) && Holds(q.tasks[j])
      ensures q.tasks[i].brick != q.tasks[j].brick
    {
      HoldersStep(s, a, i);
      HoldersStep(s, a, j);
    }
    forall b | b in q.regs ensures Held(q, b) { HeldStep(s, a, b); }
  }

  lemma LivesPost(log: seq<Note>, n: Note, b: BrickId)
    ensures Lives(log + [n], b)
         == Lives(log, b) + (if n == BrickStart(b) then [true] else if n == BrickStop(b) then [false] else [])
  {
    assert (log + [n])[..|log|] == log;
  }

  // A step that changes no task from or to Active leaves the active bricks alone.
  lemma ActiveStep(s: System, a: Action, b: BrickId)
    requires RegInv(s) && Enabled(s, a)
    ensures var s' := Step(s, a);
      if a.PostStart? && s.tasks[a.i].brick == b then !IsActive(s, b) && IsActive(s', b)
      else if a.PostStop? && s.tasks[a.i].brick == b then IsActive(s, b) && !IsActive(s', b)
      else IsActive(s, b) == IsActive(s', b)
  {
    var s' := Step(s, a);
    if a.PostStart? { assert Runs(s'.tasks[a.i], s.tasks[a.i].brick); }
    if a.PostStop? { assert Runs(s.tasks[a.i], s.tasks[a.i].brick); }
    if i :| 0 <= i < |s.tasks| && Runs(s.tasks[i], b) {
      assert s'.tasks[i] == s.tasks[i] || (a.PostStop? && a.i == i);
    }
    if i :| 0 <= i < |s'.tasks| && Runs(s'.tasks[i], b) {
      assert i < |s.tasks| && (s.tasks[i] == s'.tasks[i] || (a.PostStart? && a.i == i));
    }
  }

  lemma LivesStep(s: System, a: Action, b: BrickId)
    requires Enabled(s, a)
    ensures Lives(Step(s, a).posted, b) == Lives(s.posted, b) +
      (if a.PostStart? && s.tasks[a.i].brick == b then [true]
       else if a.PostStop? && s.tasks[a.i].brick == b then [false] else [])
  {
    var s' := Step(s, a);
    if |s'.posted| > |s.posted| {
      LivesPost(s.posted, s'.posted[|s.posted|], b);
    }
  }

  lemma NextLife(l: seq<bool>, begin: bool)
    requires Alternates(l) && (begin <==> |l| % 2 == 0)
    ensures Alternates(l + [begin])
  {
  }

  lemma LifeStep(s: System, a: Action, b: BrickId)
    requires RegInv(s) && Enabled(s, a) && LifeInv(s, b)
    ensures LifeInv(Step(s, a), b)
  {
    ActiveStep(s, a, b);
    LivesStep(s, a, b);
    var l := Lives(s.posted, b);
    if a.PostStart? && s.tasks[a.i].brick == b {
      NextLife(l, true);
    } else if a.PostStop? && s.tasks[a.i].brick == b {
      NextLife(l, false);
    } else {
      assert l + [] == l;
    }
  }

  lemma StepKeepsInv(s: System, a: Action)
    requires Inv(s) && Enabled(s, a)
    ensures Inv(Step(s, a))
  {
    RegStep(s, a);
    forall b ensures LifeInv(Step(s, a), b) {
      LifeStep(s, a, b);
    }
  }

  lemma InitialInv(s: System)
    requires Initial(s)
    ensures Inv(s)
  {
    forall b ensures LifeInv(s, b) {
      NoLivesBeforeConfig(s.posted, b);
    }
  }

  lemma {:induction false} RunKeepsInv(s: System, actions: seq<Action>)
    requires Inv(s)
    ensures Inv(Run(s, actions))
    decreases |actions|
  {
    if actions != [] {
      if Enabled(s, actions[0]) { StepKeepsInv(s, actions[0]); }
      RunKeepsInv(if Enabled(s, actions[0]) then Step(s, actions[0]) else s, actions[1..]);
    }
  }

  lemma {:induction false} LivesOfPrefix(log: seq<Note>, n: nat, b: BrickId)
    requires n <= |log| && Alternates(Lives(log, b))
    ensures Alternates(Lives(log[..n], b))
    decreases |log|
  {
    if n < |log| {
      var front := log[..|log| - 1];
      assert Lives(front, b) == Lives(log, b)[..|Lives(front, b)|];
      LivesOfPrefix(front, n, b);
      assert front[..n] == log[..n];
    } else {
      assert log[..n] == log;
    }
  }

  // For every brick and every interleaving: the begin and end messages strictly
  // alternate, beginning with a begin, and at most one worker is active.
  lemma MessagesAlternate(s: System, actions: seq<Action>, b: BrickId)
    requires Initial(s)
    ensures Alternates(Lives(Run(s, actions).posted, b))
    ensures var tasks := Run(s, actions).tasks;
      forall i, j :: 0 <= i < j < |tasks| && Holds(tasks[i]) && Holds(tasks[j]) ==> tasks[i].brick != tasks[j].brick
  {
    InitialInv(s);
    RunKeepsInv(s, actions);
    assert LifeInv(Run(s, actions), b);
  }

  lemma StopStep(s: System, a: Action, i: nat)
    requires RegInv(s) && Enabled(s, a) && a != Unregister(i)
    requires i < |s.tasks| && Holds(s.tasks[i]) && StopRequested(s.regs, s.tasks[i].brick)
    ensures var q := Step(s, a);
      && i < |q.tasks| && q.tasks[i].brick == s.tasks[i].brick && Holds(q.tasks[i])
      && StopRequested(q.regs, q.tasks[i].brick)
  {
    var other := if a.Enter? || a.Unregister? then s.tasks[a.i].brick else if a.Stop? then a.brick else "";
    StopIsSticky(s.regs, s.tasks[i].brick, other);
  }

  // In every interleaving: once a stop is requested for a brick, every poll of its
  // worker sees it until that worker's own unreg, whatever other tasks do.
  lemma {:induction false} StopHoldsUntilUnregistered(s: System, actions: seq<Action>, i: nat)
    requires RegInv(s) && Unregister(i) !in actions
    requires i < |s.tasks| && Holds(s.tasks[i]) && StopRequested(s.regs, s.tasks[i].brick)
    ensures var q := Run(s, actions);
      && i < |q.tasks| && q.tasks[i].brick == s.tasks[i].brick && Holds(q.tasks[i])
      && StopRequested(q.regs, q.tasks[i].brick)
    decreases |actions|
  {
    if actions != [] {
      if Enabled(s, actions[0]) {
        StopStep(s, actions[0], i);
        RegStep(s, actions[0]);
      }
      StopHoldsUntilUnregistered(if Enabled(s, actions[0]) then Step(s, actions[0]) else s, actions[1..], i);
    }
  }

  // The user interface shows START exactly when the messages it has seen end in
  // a begin; once it has seen all, exactly when a worker is between its posts.
  lemma StatusFollowsWorkers(s: System, actions: seq<Action>, b: BrickId)
    requires Initial(s)
    ensures var q := Run(s, actions);
      && q.seen <= |q.posted|
      && (At(ShowAll(q.posted[..q.seen]), b).stat == "START" <==> |Lives(q.posted[..q.seen], b)| % 2 == 1)
      && (q.seen == |q.posted| ==> (At(ShowAll(q.posted[..q.seen]), b).stat == "START" <==> IsActive(q, b)))
  {
    InitialInv(s);
    RunKeepsInv(s, actions);
    var q := Run(s, actions);
    assert LifeInv(q, b);
    LivesOfPrefix(q.posted, q.seen, b);
    ShowsStartIffBegun(q.posted[..q.seen], b);
    if q.seen == |q.posted| { assert q.posted[..q.seen] == q.posted; }
  }

  // ------------------------------------------------------- what a task came to

  // proc is over for a task whose worker was initialised, and if that succeeded, run.
  predicate Ended(t: Task) {
    t.init.Some? && (if t.init.value == InitSuccess then t.result.Some? else t.result.None?)
  }

  // The closing error that such a task owes; "" for none.
  function Owed(t: Task): string
    requires Ended(t)
  {
    if t.init.value == InitSuccess then StartText(t.result.value) else InitText(t.init.value)
  }

  predicate TaskOk(t: Task) {
    match t.phase
    case New => t.init == None && t.result == None
    case Registered => t.init == None && t.result == None
    case Ready => t.init == Some(InitSuccess) && t.result == None
    case InitFailed(msg) => Ended(t) && t.init.value != InitSuccess && msg == Owed(t)
    case Active => t.init == Some(InitSuccess) && t.result == None
    case Stopped(msg) => Ended(t) && t.init.value == InitSuccess && msg == Owed(t)
    case Closing(msg) => Ended(t) && msg == Owed(t)
    case Done => Ended(t) || (t.init == None && t.result == None)
  }

  // The task owed this error and has posted it.
  predicate ReportOk(s: System, r: Report) {
    && r.task < |s.tasks| && r.at < |s.posted|
    && s.tasks[r.task].phase == Done && Ended(s.tasks[r.task]) && Owed(s.tasks[r.task]) != ""
    && s.posted[r.at] == BrickError(s.tasks[r.task].brick, Owed(s.tasks[r.task]))
  }

  ghost predicate Reported(s: System, i: nat) { exists k :: 0 <= k < |s.reports| && s.reports[k].task == i }

  ghost predicate OutcomeInv(s: System) {
    && (forall i :: 0 <= i < |s.tasks| ==> TaskOk(s.tasks[i]))
    && (forall k :: 0 <= k < |s.reports| ==> ReportOk(s, s.reports[k]))
    && (forall j, k :: 0 <= j < k < |s.reports| ==> s.reports[j].task != s.reports[k].task)
    && (forall i :: 0 <= i < |s.tasks| && s.tasks[i].phase == Done && Ended(s.tasks[i]) && Owed(s.tasks[i]) != "" ==>
          Reported(s, i))
  }

  lemma TasksStep(s: System, a: Action)
    requires OutcomeInv(s) && Enabled(s, a)
    ensures forall i :: 0 <= i < |Step(s, a).tasks| ==> TaskOk(Step(s, a).tasks[i])
  {
  }

  lemma ReportsStep(s: System, a: Action, k: nat)
    requires OutcomeInv(s) && Enabled(s, a) && k < |Step(s, a).reports|
    ensures ReportOk(Step(s, a), Step(s, a).reports[k])
    ensures k < |s.reports| ==> Step(s, a).reports[k] == s.reports[k]
    ensures k >= |s.reports| ==> a == Close(Step(s, a).reports[k].task)
  {
    if k < |s.reports| { assert ReportOk(s, s.reports[k]); }
    else { assert TaskOk(s.tasks[a.i]); }
  }

  lemma ReportedStep(s: System, a: Action, i: nat)
    requires OutcomeInv(s) && Enabled(s, a) && i < |Step(s, a).tasks|
    requires var t := Step(s, a).tasks[i]; t.phase == Done && Ended(t) && Owed(t) != ""
    ensures Reported(Step(s, a), i)
  {
    var q := Step(s, a);
    if i < |s.tasks| && s.tasks[i].phase == Done {
      assert Reported(s, i);
      var k :| 0 <= k < |s.reports| && s.reports[k].task == i;
      assert q.reports[k].task == i;
    } else {
      assert TaskOk(s.tasks[i]);
      assert q.reports[|s.reports|].task == i;
    }
  }

  lemma OutcomeStep(s: System, a: Action)
    requires OutcomeInv(s) && Enabled(s, a)
    ensures OutcomeInv(Step(s, a))
  {
    var q := Step(s, a);
    TasksStep(s, a);
    forall k | 0 <= k < |q.reports| ensures ReportOk(q, q.reports[k]) { ReportsStep(s, a, k); }
    forall j, k | 0 <= j < k < |q.reports| ensures q.reports[j].task != q.reports[k].task {
      ReportsStep(s, a, j);
      ReportsStep(s, a, k);
      assert ReportOk(s, s.reports[j]);
    }
    forall i | 0 <= i < |q.tasks| && q.tasks[i].phase == Done && Ended(q.tasks[i]) && Owed(q.tasks[i]) != ""
      ensures Reported(q, i)
    {
      ReportedStep(s, a, i);
    }
  }

  lemma {:induction false} RunKeepsOutcome(s: System, actions: seq<Action>)
    requires OutcomeInv(s)
    ensures OutcomeInv(Run(s, actions))
    decreases |actions|
  {
    if actions != [] {
      if Enabled(s, actions[0]) { OutcomeStep(s, actions[0]); }
      RunKeepsOutcome(if Enabled(s, actions[0]) then Step(s, actions[0]) else s, actions[1..]);
    }
  }

  // In every interleaving: a worker is started only after its init has succeeded, and
  // a task that has ended has posted exactly one closing error, with the text for the
  // code that its init or start has answered, if that was a failure, and none if not.
  lemma EveryTaskIsReported(s: System, actions: seq<Action>, i: nat)
    requires Initial(s) && i < |Run(s, actions).tasks|
    ensures var q, t := Run(s, actions), Run(s, actions).tasks[i];
      && (t.phase.Ready? || t.phase.Active? || t.phase.Stopped? ==> t.init == Some(InitSuccess))
      && (t.phase.InitFailed? ==> t.init.Some? && t.init.value != InitSuccess)
      && (Reported(q, i) <==> t.phase == Done && Ended(t)
                              && (t.init.value != InitSuccess || t.result == Some(BkInitNeeded)))
      && (forall k :: 0 <= k < |q.reports| && q.reports[k].task == i ==>
            && q.reports[k].at < |q.posted| && Ended(t)
            && q.posted[q.reports[k].at] == BrickError(t.brick,
                 match t.init.value
                 case InitErr => "BK_INIT_ERR"
                 case InitNeedDel => "BK_INIT_NEED_DEL"
                 case InitNoDiskMount => "BK_INIT_NO_DISK_MOUNT"
                 case InitSuccess => "UNKNOW ERROR"))
      && (forall j, k :: 0 <= j < k < |q.reports| ==> q.reports[j].task != q.reports[k].task)
  {
    RunKeepsOutcome(s, actions);
    var q := Run(s, actions);
    assert TaskOk(q.tasks[i]);
    assert "UNKNOW ERROR"[0] == 'U';
    forall k | 0 <= k < |q.reports| && q.reports[k].task == i ensures ReportOk(q, q.reports[k]) {}
  }

  // A brick is registered exactly while one of its tasks is between reg and unreg, so
  // a new task of it is let in exactly if no other is.
  lemma RegisteredIffHeld(s: System, actions: seq<Action>, i: nat)
    requires Initial(s) && In(Run(s, actions), i, New)
    ensures var q, b := Run(s, actions), Run(s, actions).tasks[i].brick;
      && (b in q.regs <==> Held(q, b))
      && (In(Step(q, Enter(i)), i, Registered) <==> !Held(q, b))
      && (In(Step(q, Enter(i)), i, Done) <==> Held(q, b))
      && (In(Step(q, Enter(i)), i, Registered) ==> !StopRequested(Step(q, Enter(i)).regs, b))
  {
    InitialInv(s);
    RunKeepsInv(s, actions);
  }

  // ------------------------------------------------------------------- progress

  function StepsToUnregister(s: System, i: nat): nat
    requires i < |s.tasks|
  {
    match s.tasks[i].phase
    case Registered => 5
    case Ready => 4
    case Active => if StopRequested(s.regs, s.tasks[i].brick) then 2 else 3
    case InitFailed(_) => 1
    case Stopped(_) => 1
    case _ => 0
  }

  function NextOfTask(s: System, i: nat): Action
    requires i < |s.tasks|
  {
    match s.tasks[i].phase
    case New => Enter(i)
    case Registered => Init(i, InitSuccess)
    case Ready => PostStart(i)
    case Active => if StopRequested(s.regs, s.tasks[i].brick) then PostStop(i, BkStop) else Stop(s.tasks[i].brick)
    case _ => Unregister(i)
  }

  lemma {:induction false} HolderCanEnd(s: System, i: nat) returns (rest: seq<Action>)
    requires Inv(s) && i < |s.tasks| && Holds(s.tasks[i])
    ensures s.tasks[i].brick !in Run(s, rest).regs
    decreases StepsToUnregister(s, i)
  {
    var a := NextOfTask(s, i);
    StepKeepsInv(s, a);
    var q := Step(s, a);
    if Holds(q.tasks[i]) {
      var more := HolderCanEnd(q, i);
      rest := [a] + more;
      assert rest[1..] == more;
    } else {
      rest := [a];
      assert rest[1..] == [];
    }
  }

  lemma {:induction false} RunAppend(s: System, a: seq<Action>, b: seq<Action>)
    ensures Run(s, a + b) == Run(Run(s, a), b)
    decreases |a|
  {
    if a == [] {
      assert a + b == b;
    } else {
      assert (a + b)[1..] == a[1..] + b;
      RunAppend(if Enabled(s, a[0]) then Step(s, a[0]) else s, a[1..], b);
    }
  }

  lemma NewTaskStarts(s: System, b: BrickId) returns (rest: seq<Action>)
    requires b !in s.regs
    ensures |Run(s, rest).tasks| == |s.tasks| + 1 && Runs(Run(s, rest).tasks[|s.tasks|], b)
  {
    var n := |s.tasks|;
    var s1 := Step(s, Submit(b));
    var s2 := Step(s1, Enter(n));
    var s3 := Step(s2, Init(n, InitSuccess));
    rest := [Submit(b)] + ([Enter(n)] + ([Init(n, InitSuccess)] + [PostStart(n)]));
    RunFirst(s, Submit(b), [Enter(n)] + ([Init(n, InitSuccess)] + [PostStart(n)]));
    RunFirst(s1, Enter(n), [Init(n, InitSuccess)] + [PostStart(n)]);
    RunFirst(s2, Init(n, InitSuccess), [PostStart(n)]);
    assert [PostStart(n)] == [PostStart(n)] + [];
    RunFirst(s3, PostStart(n), []);
  }

  lemma RunFirst(s: System, a: Action, rest: seq<Action>)
    requires Enabled(s, a)
    ensures Run(s, [a] + rest) == Run(Step(s, a), rest)
  {
    assert ([a] + rest)[1..] == rest;
  }

  lemma BrickCanBeFreed(s: System, b: BrickId) returns (rest: seq<Action>)
    requires Inv(s)
    ensures b !in Run(s, rest).regs
  {
    rest := [];
    if b in s.regs {
      assert Held(s, b);
      var i :| 0 <= i < |s.tasks| && Holds(s.tasks[i]) && s.tasks[i].brick == b;
      rest := HolderCanEnd(s, i);
    }
  }

  // From every reachable state a brick can be started again: its present task, if there
  // is one, can be stopped and give up the registration, and a new one then gets to work.
  lemma BrickCanStartAgain(s: System, actions: seq<Action>, b: BrickId) returns (rest: seq<Action>)
    requires Initial(s)
    ensures var q := Run(Run(s, actions), rest);
      |q.tasks| > |Run(s, actions).tasks| && Runs(q.tasks[|q.tasks| - 1], b)
  {
    InitialInv(s);
    RunKeepsInv(s, actions);
    var p := Run(s, actions);
    var first := BrickCanBeFreed(p, b);
    var more := NewTaskStarts(Run(p, first), b);
    TasksStay(p, first);
    RunAppend(p, first, more);
    rest := first + more;
  }

  lemma {:induction false} TasksStay(s: System, actions: seq<Action>)
    ensures |Run(s, actions).tasks| >= |s.tasks|
    decreases |actions|
  {
    if actions != [] {
      TasksStay(if Enabled(s, actions[0]) then Step(s, actions[0]) else s, actions[1..]);
    }
  }
}
