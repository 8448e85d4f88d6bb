// Any number of bricks copying at the same time to their own disks, through one
// database. A copy is two steps, so that other bricks act between the index
// lookup of one copy and its write; a worker may be killed between them.
module BrickFleet {
  import opened BackupTables
  import opened DiskContainers
  import opened CopyProperties

  datatype Pending = Pending(path: Path, bytes: Bytes)
  datatype Write = Write(brick: BrickId, disk: DiskId, path: Path)

  // `ready` holds the bricks whose last init succeeded; `pending` the copies that
  // decided to write; `writes` the history of files opened for writing.
  datatype Fleet = Fleet(
    world: World,
    bricks: map<BrickId, Container>,
    ready: set<BrickId>,
    pending: map<BrickId, Pending>,
    writes: seq<Write>)

  datatype Event =
    | Start(brick: BrickId, pos: seq<nat>)
    | Init(brick: BrickId, probe: Probe)
    | Begin(brick: BrickId, path: Path, src: Source, probes: seq<Probe>)
    | Finish(brick: BrickId, env: CopyEnv)
    | Stop(brick: BrickId)               // between two copies
    | Kill(brick: BrickId, left: Left)   // in the middle of one

  // What a killed copy leaves at its target.
  datatype Left = Untouched | Partial(bytes: Bytes)

  function NewContainer(brick: BrickId, pos: seq<nat>): Container {
    Container(brick, pos, "", -1, "", 0, 0, 0, false)
  }

  predicate Enabled(f: Fleet, e: Event) {
    match e
    case Start(b, pos) => b !in f.bricks && b !in f.pending && pos != []
    case Init(b, _) => b in f.bricks && b !in f.pending
    case Begin(b, _, _, _) => b in f.bricks && b in f.ready && b !in f.pending
    case Finish(b, _) => b in f.bricks && b in f.pending
    case Stop(b) => b in f.bricks && b !in f.pending
    case Kill(b, _) => b in f.bricks && b in f.pending
  }

  function Step(f: Fleet, e: Event): Fleet
    requires Enabled(f, e)
  {
    match e
    case Start(b, pos) => f.(bricks := f.bricks[b := NewContainer(b, pos)], ready := f.ready - {b})
    case Init(b, probe) =>
      var o := InitOf(f.bricks[b], f.world.tables, probe);
      f.(world := f.world.(tables := o.t), bricks := f.bricks[b := o.c],
         ready := if o.code == InitSuccess then f.ready + {b} else f.ready - {b})
    case Begin(b, path, src, probes) =>
      var o := BeginOf(f.bricks[b], f.world.tables, path, src, probes);
      f.(world := f.world.(tables := o.t), bricks := f.bricks[b := o.c],
         ready := if o.code == DiskFull then f.ready - {b} else f.ready,
         pending := if o.code == GoOn then f.pending[b := Pending(path, src.bytes)] else f.pending)
    case Finish(b, env) =>
      var c, p := f.bricks[b], f.pending[b];
      var o := FinishOf(c, f.world, p.path, p.bytes, env);
      f.(world := o.w, bricks := f.bricks[b := o.c], pending := f.pending - {b},
         writes := if SameSizeThere(c, f.world.disks, p.path, p.bytes) || env.write == TargetNotOpened
                   then f.writes else f.writes + [Write(b, c.mounted, p.path)])
    case Stop(b) => f.(bricks := f.bricks - {b}, ready := f.ready - {b})
    case Kill(b, left) =>
      var c, p := f.bricks[b], f.pending[b];
      var f' := f.(bricks := f.bricks - {b}, ready := f.ready - {b}, pending := f.pending - {b});
      if left == Untouched then f'
      else f'.(world := f.world.(disks := WithBytes(f.world.disks, c.mounted, p.path, left.bytes)),
               writes := f.writes + [Write(b, c.mounted, p.path)])
  }

  // Events that are not possible in the current state are passed over.
  function Run(f: Fleet, events: seq<Event>): Fleet
    decreases |events|
  {
    if events == [] then f
    else Run(if Enabled(f, events[0]) then Step(f, events[0]) else f, events[1..])
  }

  ghost predicate WorldInv(w: World) {
    IndexAgrees(w) && Referenced(w.tables) && "" !in w.tables.brickDisk
  }

  ghost predicate BricksInv(f: Fleet) {
    && (forall b :: b in f.bricks ==> f.bricks[b].brick == b && f.bricks[b].pos != [])
    && (forall b :: b in f.bricks && b in f.ready ==> Ready(f.bricks[b], f.world.tables))
    && (forall b :: b in f.pending ==> b in f.bricks && b in f.ready)
  }

  ghost predicate PendingInv(f: Fleet) {
    forall b :: b in f.pending && b in f.bricks ==> FreeHere(f.bricks[b], f.world.tables, f.pending[b].path)
  }

  ghost predicate WritesInv(f: Fleet) {
    forall i :: 0 <= i < |f.writes| ==> Owns(f.world.tables, f.writes[i].brick, f.writes[i].disk)
  }

  ghost predicate FleetInv(f: Fleet) {
    WorldInv(f.world) && BricksInv(f) && PendingInv(f) && WritesInv(f)
  }

  lemma InitStep(f: Fleet, e: Event)
    requires e.Init? && Enabled(f, e) && FleetInv(f)
    ensures FleetInv(Step(f, e)) && KeepsRecorded(f.world, Step(f, e).world)
  {
    var c := f.bricks[e.brick];
    InitOnlyAddsOwners(c, f.world.tables, e.probe);
    if InitOf(c, f.world.tables, e.probe).code == InitSuccess {
      InitMakesReady(c, f.world.tables, e.probe);
    }
  }

  lemma BeginStep(f: Fleet, e: Event)
    requires e.Begin? && Enabled(f, e) && FleetInv(f)
    ensures FleetInv(Step(f, e)) && KeepsRecorded(f.world, Step(f, e).world)
  {
    BeginKeepsReady(f.bricks[e.brick], f.world.tables, e.path, e.src, e.probes);
  }

  lemma FinishKeepsPending(f: Fleet, e: Event)
    requires e.Finish? && Enabled(f, e) && FleetInv(f)
    ensures PendingInv(Step(f, e))
  {
    var c, p := f.bricks[e.brick], f.pending[e.brick];
    FinishKeepsIndex(c, f.world, p.path, p.bytes, e.env);
  }

  lemma FinishKeepsWrites(f: Fleet, e: Event)
    requires e.Finish? && Enabled(f, e) && FleetInv(f)
    ensures WritesInv(Step(f, e))
  {
    var c, p := f.bricks[e.brick], f.pending[e.brick];
    FinishKeepsIndex(c, f.world, p.path, p.bytes, e.env);
  }

  lemma FinishStep(f: Fleet, e: Event)
    requires e.Finish? && Enabled(f, e) && FleetInv(f)
    ensures FleetInv(Step(f, e)) && KeepsRecorded(f.world, Step(f, e).world)
  {
    var c, p := f.bricks[e.brick], f.pending[e.brick];
    FinishKeepsPending(f, e);
    FinishKeepsWrites(f, e);
    FinishKeepsIndex(c, f.world, p.path, p.bytes, e.env);
  }

  lemma KillStep(f: Fleet, e: Event)
    requires e.Kill? && Enabled(f, e) && FleetInv(f)
    ensures FleetInv(Step(f, e)) && KeepsRecorded(f.world, Step(f, e).world)
  {
    var c, p := f.bricks[e.brick], f.pending[e.brick];
    if e.left.Partial? { FilesAfterWrite(f.world.disks, c.mounted, p.path, e.left.bytes); }
  }

  lemma StepKeepsInv(f: Fleet, e: Event)
    requires Enabled(f, e) && FleetInv(f)
    ensures FleetInv(Step(f, e)) && KeepsRecorded(f.world, Step(f, e).world)
  {
    match e {
      case Start(_, _) =>
      case Init(_, _) => InitStep(f, e);
      case Begin(_, _, _, _) => BeginStep(f, e);
      case Finish(_, _) => FinishStep(f, e);
      case Stop(_) =>
      case Kill(_, _) => KillStep(f, e);
    }
  }

  // In every reachable state the index agrees with the disks, owners are never
  // replaced, and what was recorded is still there, byte for byte.
  lemma {:induction false} RunKeepsInv(f: Fleet, events: seq<Event>)
    requires FleetInv(f)
    ensures FleetInv(Run(f, events)) && KeepsRecorded(f.world, Run(f, events).world)
    decreases |events|
  {
    if events != [] {
      var e := events[0];
      var f1 := if Enabled(f, e) then Step(f, e) else f;
      if Enabled(f, e) { StepKeepsInv(f, e); }
      RunKeepsInv(f1, events[1..]);
      KeepsRecordedTwice(f.world, f1.world, Run(f1, events[1..]).world);
    }
  }

  // No two bricks ever write to the same disk.
  lemma NoSharedDisk(f: Fleet, events: seq<Event>, i: nat, j: nat)
    requires FleetInv(f)
    requires i < |Run(f, events).writes| && j < |Run(f, events).writes|
    requires Run(f, events).writes[i].disk == Run(f, events).writes[j].disk
    ensures Run(f, events).writes[i].brick == Run(f, events).writes[j].brick
  {
    RunKeepsInv(f, events);
  }

  // A start from empty tables and any disks satisfies the invariant.
  lemma FreshFleet(disks: Disks, begin: map<BrickId, int>)
    ensures FleetInv(Fleet(World(Tables(map[], map[], begin), disks), map[], {}, map[], []))
  {
  }

  // The history of writes is complete: a step changes no file but on one disk, and
  // then it is in the history with its brick and that disk.
  lemma EveryChangeIsAWrite(f: Fleet, e: Event, d: DiskId)
    requires Enabled(f, e) && FilesOn(Step(f, e).world.disks, d) != FilesOn(f.world.disks, d)
    ensures |Step(f, e).writes| == |f.writes| + 1 && f.writes <= Step(f, e).writes
    ensures var x := Step(f, e).writes[|f.writes|]; x.brick == e.brick && x.disk == d
  {
    if e.Finish? {
      var c, p := f.bricks[e.brick], f.pending[e.brick];
      FinishChangesOnePath(c, f.world, p.path, p.bytes, e.env);
      FilesAfterWrite(f.world.disks, c.mounted, p.path, p.bytes);
    }
    if e.Kill? && e.left.Partial? {
      FilesAfterWrite(f.world.disks, f.bricks[e.brick].mounted, f.pending[e.brick].path, e.left.bytes);
    }
  }
}
