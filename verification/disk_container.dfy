// backup/disk_container.cpp: choosing a disk, accounting for its space in
// unsigned 64-bit arithmetic, and copying one file to it.
module DiskContainers {
  import opened BackupTables

  type Bytes = string  // the contents of a file; its size is the length

  const TWO64: nat := 0x1_0000_0000_0000_0000

  type U64 = x: nat | x < TWO64

  function USub(a: U64, b: U64): U64 { if a >= b then a - b else a + TWO64 - b }

  function UAdd(a: U64, b: nat): U64 { (a + b) % TWO64 }

  // What one call of init finds outside the program. `mounted` is the disk whose
  // first partition is mounted at the target path ("" when there is none): this
  // is what get_diskid answers, whatever the position. `accepted[i]` says whether
  // the database takes the insert tried for the i-th position.
  datatype Space = NoSpaceInfo | SpaceInfo(free: U64, total: U64)
  datatype Probe = Probe(accessible: bool, mounted: DiskId, accepted: seq<bool>, space: Space)

  const INACCESSIBLE := Probe(false, "", [], NoSpaceInfo)

  function Accepted(probe: Probe, i: nat): bool { i < |probe.accepted| && probe.accepted[i] }

  // statfs never reports more free than total blocks.
  ghost predicate Plausible(probe: Probe) {
    probe.space.SpaceInfo? ==> probe.space.free <= probe.space.total
  }

  datatype InitCode = InitSuccess | InitErr | InitNeedDel | InitNoDiskMount

  // `mounted` is the real disk under the target path; all others are the fields.
  datatype Container = Container(
    brick: BrickId,
    pos: seq<nat>,
    disk: DiskId,
    diskPos: int,
    mounted: DiskId,
    space: U64,
    used: U64,
    limit: U64,
    initFlag: bool)

  datatype InitOutcome = InitOutcome(c: Container, t: Tables, code: InitCode)

  // The loop over the disk positions, from position i on; `code` is `ret`.
  function PickDisk(c: Container, t: Tables, probe: Probe, i: nat, code: InitCode): InitOutcome
    requires i <= |c.pos|
    decreases |c.pos| - i
  {
    if i == |c.pos| then InitOutcome(c, t, code)
    else
      var c1 := c.(disk := probe.mounted);
      if probe.mounted == "" then PickDisk(c1, t, probe, i + 1, InitNoDiskMount)
      else
        var t1 := WithDisk(t, c.brick, probe.mounted, Accepted(probe, i));
        if Owns(t1, c.brick, probe.mounted)
        then InitOutcome(c1.(diskPos := c.pos[i]), t1, InitSuccess)
        else PickDisk(c1, t1, probe, i + 1, InitNoDiskMount)
  }

  function MeasureDisk(c: Container, space: Space): (Container, InitCode) {
    match space
    case NoSpaceInfo => (c, InitErr)
    case SpaceInfo(free, total) =>
      if 2 * free < total then (c.(space := total), InitNeedDel)
      else (c.(space := total, used := USub(total, free), limit := total * 19 / 20, initFlag := true), InitSuccess)
  }

  function InitOf(c: Container, t: Tables, probe: Probe): InitOutcome {
    var c0 := c.(mounted := probe.mounted);
    if !probe.accessible then InitOutcome(c0, t, InitErr)
    else
      var picked := PickDisk(c0, t, probe, 0, InitSuccess);
      if picked.code != InitSuccess then picked
      else
        var (c2, code) := MeasureDisk(picked.c, probe.space);
        InitOutcome(c2, picked.t, code)
  }

  datatype TryCode = Fits | SpaceLimit | SpaceWarning | StatError

  function TryOf(c: Container, size: nat): TryCode {
    if size > USub(c.space, c.used) then SpaceLimit
    else if c.used > c.limit then SpaceWarning
    else Fits
  }

  // The retry loop of copy. `probes` lists what the re-initialisations find, in
  // order; past its end the target path is no longer accessible. Every call that
  // ends is described by such a list. `tries` counts the calls of copy_try.
  datatype FitOutcome = FitOutcome(c: Container, t: Tables, fits: bool, tries: nat)

  function NextProbe(probes: seq<Probe>): Probe { if probes == [] then INACCESSIBLE else probes[0] }

  function FitOf(c: Container, t: Tables, size: nat, probes: seq<Probe>): FitOutcome
    decreases |probes|
  {
    if TryOf(c, size) == Fits then FitOutcome(c, t, true, 1)
    else
      var init := InitOf(c, t, NextProbe(probes));
      if init.code != InitSuccess then FitOutcome(init.c, init.t, false, 1)
      else
        var rest := FitOf(init.c, init.t, size, probes[1..]);
        rest.(tries := 1 + rest.tries)
  }

  type Disks = map<DiskId, map<Path, Bytes>>

  function FilesOn(disks: Disks, d: DiskId): map<Path, Bytes> { if d in disks then disks[d] else map[] }

  function WithBytes(disks: Disks, d: DiskId, p: Path, bytes: Bytes): Disks {
    disks[d := FilesOn(disks, d)[p := bytes]]
  }

  function WithoutFile(disks: Disks, d: DiskId, p: Path): Disks {
    disks[d := FilesOn(disks, d) - {p}]
  }

  datatype World = World(tables: Tables, disks: Disks)

  // How writing a file can end: the target does not open, the target opens
  // (and is truncated) but the source does not, the stream fails and the target
  // is removed, or all bytes arrive.
  datatype WriteOutcome = TargetNotOpened | SourceNotOpened | StreamFailed | Written

  datatype Source = Unreadable | Readable(bytes: Bytes)
  datatype CopyEnv = CopyEnv(probes: seq<Probe>, write: WriteOutcome, logAccepted: bool)
  datatype CopyCode = FileErr | SuccessFile
  datatype BeginCode = StatFailed | DiskFull | AlreadyRecorded | GoOn
  datatype BeginOutcome = BeginOutcome(c: Container, t: Tables, code: BeginCode)
  datatype CopyOutcome = CopyOutcome(c: Container, w: World, code: CopyCode, diskFull: bool)

  // copy up to the question whether the index already has the path ...
  function BeginOf(c: Container, t: Tables, path: Path, src: Source, probes: seq<Probe>): BeginOutcome {
    match src
    case Unreadable => BeginOutcome(c, t, StatFailed)
    case Readable(bytes) =>
      var fit := FitOf(c, t, |bytes|, probes);
      if !fit.fits then BeginOutcome(fit.c, fit.t, DiskFull)
      else if path in fit.t.diskFile then BeginOutcome(fit.c, fit.t, AlreadyRecorded)
      else BeginOutcome(fit.c, fit.t, GoOn)
  }

  predicate SameSizeThere(c: Container, disks: Disks, path: Path, bytes: Bytes) {
    var there := FilesOn(disks, c.mounted);
    path in there && |there[path]| == |bytes|
  }

  // ... and the rest of it.
  function FinishOf(c: Container, w: World, path: Path, bytes: Bytes, env: CopyEnv): CopyOutcome {
    if SameSizeThere(c, w.disks, path, bytes) then
      CopyOutcome(c, w.(tables := WithFile(w.tables, c.disk, path, env.logAccepted)), SuccessFile, false)
    else match env.write
      case TargetNotOpened => CopyOutcome(c, w, FileErr, false)
      case SourceNotOpened => CopyOutcome(c, w.(disks := WithBytes(w.disks, c.mounted, path, "")), FileErr, false)
      case StreamFailed => CopyOutcome(c, w.(disks := WithoutFile(w.disks, c.mounted, path)), FileErr, false)
      case Written =>
        CopyOutcome(c.(used := UAdd(c.used, |bytes|)),
                    World(WithFile(w.tables, c.disk, path, env.logAccepted),
                          WithBytes(w.disks, c.mounted, path, bytes)),
                    SuccessFile, false)
  }

  function CopyOf(c: Container, w: World, path: Path, src: Source, env: CopyEnv): CopyOutcome {
    var b := BeginOf(c, w.tables, path, src, env.probes);
    var w1 := w.(tables := b.t);
    match b.code
    case StatFailed => CopyOutcome(b.c, w1, FileErr, false)
    case DiskFull => CopyOutcome(b.c, w1, FileErr, true)
    case AlreadyRecorded => CopyOutcome(b.c, w1, SuccessFile, false)
    case GoOn => FinishOf(b.c, w1, path, src.bytes, env)
  }

  // The disks that bricks write to, shared by every container.
  class Shelf {
    var disks: Disks
  }

  class DiskContainer {
    const brick: BrickId
    const pos: seq<nat>
    const db: Database
    const shelf: Shelf
    var disk: DiskId
    var diskPos: int
    var mounted: DiskId
    var space: U64
    var used: U64
    var limit: U64
    var initFlag: bool

    constructor (brick: BrickId, pos: seq<nat>, db: Database, shelf: Shelf)
      ensures this.db == db && this.shelf == shelf
      ensures State() == Container(brick, pos, "", -1, "", 0, 0, 0, false)
    {
      this.brick, this.pos, this.db, this.shelf := brick, pos, db, shelf;
      disk, diskPos, mounted := "", -1, "";
      space, used, limit, initFlag := 0, 0, 0, false;
    }

    function State(): Container
      reads this
    {
      Container(brick, pos, disk, diskPos, mounted, space, used, limit, initFlag)
    }

    function Outside(): World
      reads this, db, shelf
    {
      World(db.Rows(), shelf.disks)
    }

    method Init(probe: Probe) returns (code: InitCode)
      modifies this, db
      ensures InitOutcome(State(), db.Rows(), code) == InitOf(old(State()), old(db.Rows()), probe)
    {
      mounted := probe.mounted;
      if !probe.accessible {
        return InitErr;
      }
      ghost var c0, t0 := State(), db.Rows();
      code := InitSuccess;
      var i := 0;
      while i < |pos|
        invariant 0 <= i <= |pos|
        invariant State().pos == pos
        invariant PickDisk(c0, t0, probe, 0, InitSuccess) == PickDisk(State(), db.Rows(), probe, i, code)
      {
        disk := probe.mounted;  // get_diskid
        if disk == "" {
          code := InitNoDiskMount;
          i := i + 1;
          continue;
        }
        var added := db.AddDiskForBrick(brick, disk, Accepted(probe, i));
        if !added {
          code := InitNoDiskMount;
          i := i + 1;
          continue;
        } else {
          code := InitSuccess;
          diskPos := pos[i];
          break;
        }
      }
      if code != InitSuccess {
        return;
      }
      match probe.space {
        case NoSpaceInfo => return InitErr;
        case SpaceInfo(free, total) =>
          space := total;
          if 2 * free < space {
            return InitNeedDel;
          }
          used := USub(space, free);
          limit := space * 19 / 20;
          initFlag := true;
          return InitSuccess;
      }
    }

    method CopyTry(src: Source) returns (code: TryCode)
      ensures code == if src.Unreadable? then StatError else TryOf(State(), |src.bytes|)
    {
      if src.Unreadable? {
        code := StatError;
      } else if |src.bytes| > USub(space, used) {
        code := SpaceLimit;
      } else if used > limit {
        code := SpaceWarning;
      } else {
        code := Fits;
      }
    }

    // Copies one file. `diskFull` tells that the stop semaphore of the brick was
    // posted because no usable disk could be found.
    method Copy(path: Path, src: Source, env: CopyEnv) returns (code: CopyCode, diskFull: bool)
      modifies this, db, shelf
      ensures CopyOutcome(State(), Outside(), code, diskFull) == CopyOf(old(State()), old(Outside()), path, src, env)
    {
      ghost var c0, t0 := State(), db.Rows();
      var probes := env.probes;
      ghost var tries := 0;
      var tryCode := SpaceLimit;
      while tryCode != Fits
        invariant shelf.disks == old(shelf.disks)
        invariant tryCode == Fits ==>
          src.Readable? && FitOf(c0, t0, |src.bytes|, env.probes) == FitOutcome(State(), db.Rows(), true, tries)
        invariant src.Unreadable? ==> State() == c0 && db.Rows() == t0
        invariant tryCode != Fits && src.Readable? ==>
          var rest := FitOf(State(), db.Rows(), |src.bytes|, probes);
          FitOf(c0, t0, |src.bytes|, env.probes) == rest.(tries := tries + rest.tries)
        decreases tryCode != Fits, |probes|
      {
        tryCode := CopyTry(src);
        tries := tries + 1;
        if tryCode == StatError {
          return FileErr, false;
        }
        if tryCode != Fits {
          var init := Init(NextProbe(probes));
          if init != InitSuccess {
            return FileErr, true;
          }
          probes := probes[1..];
        }
      }
      var recorded := db.IsBackuped(path);
      if recorded {
        return SuccessFile, false;
      }
      if path in FilesOn(shelf.disks, mounted) && |FilesOn(shelf.disks, mounted)[path]| == |src.bytes| {
        var _ := db.AddFileLog(disk, path, env.logAccepted);
        return SuccessFile, false;
      }
      match env.write {
        case TargetNotOpened => return FileErr, false;
        case SourceNotOpened =>
          shelf.disks := WithBytes(shelf.disks, mounted, path, "");
          return FileErr, false;
        case StreamFailed =>
          shelf.disks := WithoutFile(shelf.disks, mounted, path);
          return FileErr, false;
        case Written =>
          shelf.disks := WithBytes(shelf.disks, mounted, path, src.bytes);
          used := UAdd(used, |src.bytes|);
          var _ := db.AddFileLog(disk, path, env.logAccepted);
          return SuccessFile, false;
      }
    }
  }
}
