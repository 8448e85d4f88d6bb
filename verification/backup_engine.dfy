// One worker put together: the walk of file_frame.cpp with the callbacks of
// backup_worker.cpp, the copies of disk_container.cpp, the stop semaphore of
// backup_task.cpp, and the checkpoint in the database.
module BackupEngine {
  import opened BackupTables
  import opened Prelude
  import opened DiskContainers
  import opened TaskControls
  import opened FileFrames
  import opened BackupWindows

  // What the worker of another brick may do to the database and the disks.
  datatype Deed =
    | TakeDisk(brick: BrickId, disk: DiskId)
    | WriteFile(brick: BrickId, disk: DiskId, path: Path, bytes: Bytes, logged: bool)
    | RemoveFile(brick: BrickId, disk: DiskId, path: Path)

  // It writes to disks of its own only, and not to a path recorded there.
  predicate Allowed(w: World, me: BrickId, d: Deed) {
    && d.brick != me
    && (d.TakeDisk?
        || (Owns(w.tables, d.brick, d.disk)
            && (d.path in w.tables.diskFile ==> w.tables.diskFile[d.path] != d.disk)))
  }

  function Done(w: World, me: BrickId, d: Deed): World {
    if !Allowed(w, me, d) then w
    else match d
      case TakeDisk(b, disk) => w.(tables := WithDisk(w.tables, b, disk, true))
      case WriteFile(_, disk, path, bytes, logged) =>
        World(WithFile(w.tables, disk, path, logged), WithBytes(w.disks, disk, path, bytes))
      case RemoveFile(_, disk, path) => w.(disks := WithoutFile(w.disks, disk, path))
  }

  function AllDone(w: World, me: BrickId, deeds: seq<Deed>): World
    decreases |deeds|
  {
    if deeds == [] then w else AllDone(Done(w, me, deeds[0]), me, deeds[1..])
  }

  // What happens outside between one poll of the semaphore and the next: other
  // threads may request a stop, and other bricks do their work; a copy or a
  // create_dir meets these answers.
  datatype Moment = Moment(stops: bool, others: seq<Deed>, readable: bool, copy: CopyEnv, mkdirFails: bool)
  type Env = nat -> Moment

  // How a copy that succeeds came by it: the path was in the index, a file of that
  // size lay at the target, or the bytes were written. Only in the last two cases is
  // a row tried for.
  datatype Way = Known | SameSize | Wrote

  function WayOf(c: Container, w: World, path: Path, src: Source, env: CopyEnv): Way {
    var b := BeginOf(c, w.tables, path, src, env.probes);
    if b.code != GoOn then Known
    else if SameSizeThere(b.c, w.disks, path, src.bytes) then SameSize
    else Wrote
  }

  // One call of create_dir or copy, in the window from `begin` to `end`. For a copy:
  // the bytes that the source held, the container as the call found it, and whether
  // the database would take the row.
  datatype Effect =
    | MadeDir(path: Path, begin: int, end: int, failed: bool)
    | Copied(path: Path, begin: int, end: int, bytes: Bytes, found: Container, way: Way, accepted: bool,
             code: CopyCode, diskFull: bool)

  // The state behind pdata. `clock` counts the polls; `log` is the history of effects.
  datatype Engine = Engine(
    brick: BrickId,
    c: Container,
    w: World,
    regs: Registry,
    clock: nat,
    folderErrors: nat,
    fileErrors: nat,
    successes: nat,
    log: seq<Effect>)

  // stop(): a poll, after what other threads did.
  function Polled(e: Engine, env: Env): Engine {
    var m := env(e.clock);
    e.(clock := e.clock + 1,
       regs := if m.stops then WithStop(e.regs, e.brick) else e.regs,
       w := AllDone(e.w, e.brick, m.others))
  }

  predicate Stopping(e: Engine) { StopRequested(e.regs, e.brick) }

  predicate InWindow(n: Node, span: Span) { n.File? && span.last <= n.mtime < span.end }

  // _filter: the semaphore first, then folders, then the window.
  function Filter(e: Engine, env: Env, span: Span, n: Node): (Engine, Verdict) {
    var e1 := Polled(e, env);
    if Stopping(e1) then (e1, FrameStop)
    else if n.Folder? || InWindow(n, span) then (e1, FilterIn)
    else (e1, FilterOut)
  }

  // _proc and _statistic.
  function Process(e: Engine, env: Env, span: Span, p: Path, n: Node): Engine {
    var m := env(e.clock);
    match n
    case Folder(_, _) =>
      e.(folderErrors := if m.mkdirFails then e.folderErrors + 1 else e.folderErrors,
         log := e.log + [MadeDir(p, span.last, span.end, m.mkdirFails)])
    case File(_, bytes) =>
      var src := if m.readable then Readable(bytes) else Unreadable;
      var o := CopyOf(e.c, e.w, p, src, m.copy);
      var way := WayOf(e.c, e.w, p, src, m.copy);
      e.(c := o.c, w := o.w,
         regs := if o.diskFull then WithStop(e.regs, e.brick) else e.regs,
         fileErrors := if o.code == FileErr then e.fileErrors + 1 else e.fileErrors,
         successes := if o.code == SuccessFile then e.successes + 1 else e.successes,
         log := e.log + [Copied(p, span.last, span.end, bytes, e.c, way, m.copy.logAccepted, o.code, o.diskFull)])
  }

  function WorkerCallbacks(env: Env, span: Span): Callbacks<Engine> {
    Callbacks((e, p, n) => Filter(e, env, span, n), (e, p, n) => Process(e, env, span, p, n))
  }

  // ------------------------------------------------------------- the main loop

  // One turn of while (1): the clock, the source tree as it then is, and whether
  // the checkpoint write is accepted.
  datatype Round = Round(curr: int, tree: Node, accepted: bool)

  datatype Worker = Worker(e: Engine, span: Span)
  datatype Turn = Turn(worker: Worker, stopped: bool)

  function WithCheckpoint(e: Engine, begin: int, accepted: bool): Engine {
    var t := e.w.tables;
    if accepted && e.brick in t.beginTime
    then e.(w := e.w.(tables := t.(beginTime := t.beginTime[e.brick := begin])))
    else e
  }

  function TurnOf(w: Worker, env: Env, space: int, r: Round): Turn {
    var span := Plan(w.span, r.curr, space);
    if !Executes(span) then
      var e1 := Polled(w.e, env);
      Turn(Worker(e1, span), Stopping(e1))
    else
      var walk := WalkRoot(WorkerCallbacks(env, span), w.e, r.tree);
      if walk.stopped then Turn(Worker(walk.state, span), true)
      else Turn(Worker(WithCheckpoint(walk.state, span.last, r.accepted), Completed(span)), false)
  }

  function RunOf(w: Worker, env: Env, space: int, rounds: seq<Round>): Turn
    decreases |rounds|
  {
    if rounds == [] then Turn(w, false)
    else
      var turn := TurnOf(w, env, space, rounds[0]);
      if turn.stopped then turn else RunOf(turn.worker, env, space, rounds[1..])
  }

  class BackupWorker {
    const space: int
    var e: Engine
    var lastBackupTime: int
    var endTime: int
    var firstRun: bool

    constructor (e: Engine, begin: int, space: int)
      ensures this.space == space && State() == Worker(e, Span(begin, 0, true))
    {
      this.e, this.space := e, space;
      lastBackupTime, endTime, firstRun := begin, 0, true;
    }

    function State(): Worker
      reads this
    {
      Worker(e, Span(lastBackupTime, endTime, firstRun))
    }

    // Sets m_end_time by the clock.
    method PlanWindow(curr: int)
      modifies this`endTime, this`firstRun
      ensures State() == Worker(e, Plan(old(State()).span, curr, space))
    {
      var incremental := if lastBackupTime + BACKUP_SPACE < curr - space
                         then lastBackupTime + BACKUP_SPACE else curr - space;
      if firstRun {
        firstRun := false;
        endTime := curr - FIRST_BACKUP_SPACE;
        if lastBackupTime > endTime {
          endTime := incremental;
        }
      } else {
        endTime := incremental;
      }
    }

    // m_frame.start(), and m_frame.finish() if it was not stopped.
    method WalkWindow(env: Env, tree: Node) returns (stopped: bool)
      modifies this`e
      ensures var walk := WalkRoot(WorkerCallbacks(env, State().span), old(e), tree);
        e == walk.state && stopped == walk.stopped
    {
      var frame := new FileFrame<Engine>(WorkerCallbacks(env, Span(lastBackupTime, endTime, firstRun)), tree, e);
      stopped := frame.Start();
      e := frame.pdata;
      if !stopped {
        frame.Finish();
      }
    }

    // The body of the endless loop.
    method OneTurn(env: Env, r: Round) returns (stopped: bool)
      modifies this
      ensures Turn(State(), stopped) == TurnOf(old(State()), env, space, r)
    {
      PlanWindow(r.curr);
      if endTime - lastBackupTime < MIN_BACKUP_SPACE {
        e := Polled(e, env);
        return Stopping(e);
      }
      stopped := WalkWindow(env, r.tree);
      if stopped {
        return true;
      }
      e := WithCheckpoint(e, lastBackupTime, r.accepted);
      lastBackupTime := endTime;
    }

    // start(): refuses a target that was not initialised; otherwise runs for as many
    // turns as `rounds` lists, and answers BK_STOP if it returned before they were
    // used up.
    method Start(env: Env, rounds: seq<Round>) returns (code: Option<StartCode>)
      modifies this
      ensures !old(e.c.initFlag) ==> code == Some(BkInitNeeded) && State() == old(State())
      ensures old(e.c.initFlag) ==>
        Turn(State(), code == Some(BkStop)) == RunOf(old(State()), env, space, rounds) && code != Some(BkInitNeeded)
    {
      if !e.c.initFlag {
        return Some(BkInitNeeded);
      }
      var i, stopped := 0, false;
      while i < |rounds| && !stopped
        invariant 0 <= i <= |rounds|
        invariant RunOf(old(State()), env, space, rounds)
               == if stopped then Turn(State(), true) else RunOf(State(), env, space, rounds[i..])
      {
        assert rounds[i..][0] == rounds[i] && rounds[i..][1..] == rounds[i + 1..];
        stopped := OneTurn(env, rounds[i]);
        i := i + 1;
      }
      return if stopped then Some(BkStop) else None;
    }
  }
}
