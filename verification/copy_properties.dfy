// What one container keeps, whatever its disks and its database do: space
// accounting, ownership of the disk, and agreement of the index with the disks.
module CopyProperties {
  import opened BackupTables
  import opened DiskContainers
  import opened Prelude

  // ---------------------------------------------------------------- ownership

  // The disk under the target path is the one the container believes in, and the
  // database says it is this brick's.
  ghost predicate Ready(c: Container, t: Tables) {
    c.disk == c.mounted && c.disk != "" && Owns(t, c.brick, c.disk)
  }

  ghost predicate SameIdentity(c: Container, c': Container) {
    c'.brick == c.brick && c'.pos == c.pos
  }

  lemma {:induction false} PickDiskOwns(c: Container, t: Tables, probe: Probe, i: nat, code: InitCode)
    requires i <= |c.pos| && c.mounted == probe.mounted
    ensures var o := PickDisk(c, t, probe, i, code);
      && SameIdentity(c, o.c) && o.c.mounted == c.mounted
      && o.c.space == c.space && o.c.used == c.used && o.c.limit == c.limit && o.c.initFlag == c.initFlag
      && o.c.disk == (if i < |c.pos| then probe.mounted else c.disk)
      && Extends(t, o.t) && o.t.diskFile == t.diskFile
      && (Referenced(t) ==> Referenced(o.t))
      && ("" !in t.brickDisk ==> "" !in o.t.brickDisk)
      && (i < |c.pos| && o.code == InitSuccess ==> Ready(o.c, o.t))
      && (i == |c.pos| ==> o == InitOutcome(c, t, code))
      && o.code in {code, InitSuccess, InitNoDiskMount}
    decreases |c.pos| - i
  {
    if i < |c.pos| {
      var t1 := WithDisk(t, c.brick, probe.mounted, Accepted(probe, i));
      if probe.mounted == "" {
        PickDiskOwns(c.(disk := ""), t, probe, i + 1, InitNoDiskMount);
      } else if !Owns(t1, c.brick, probe.mounted) {
        PickDiskOwns(c.(disk := probe.mounted), t1, probe, i + 1, InitNoDiskMount);
      }
    }
  }

  // Whatever init answers, rows are only added, and never to the file index.
  lemma InitOnlyAddsOwners(c: Container, t: Tables, probe: Probe)
    ensures var o := InitOf(c, t, probe);
      && SameIdentity(c, o.c) && Extends(t, o.t) && o.t.diskFile == t.diskFile
      && (Referenced(t) ==> Referenced(o.t)) && ("" !in t.brickDisk ==> "" !in o.t.brickDisk)
  {
    PickDiskOwns(c.(mounted := probe.mounted), t, probe, 0, InitSuccess);
  }

  lemma InitMakesReady(c: Container, t: Tables, probe: Probe)
    requires c.pos != [] && InitOf(c, t, probe).code == InitSuccess
    ensures Ready(InitOf(c, t, probe).c, InitOf(c, t, probe).t)
    ensures InitOf(c, t, probe).c.disk == probe.mounted
  {
    PickDiskOwns(c.(mounted := probe.mounted), t, probe, 0, InitSuccess);
  }

  lemma {:induction false} PickSucceedsIff(c: Container, t: Tables, probe: Probe, i: nat, code: InitCode)
    requires i <= |c.pos| && (i < |c.pos| || code != InitSuccess)
    ensures PickDisk(c, t, probe, i, code).code == InitSuccess
      <==> i < |c.pos| && probe.mounted != ""
           && (Owns(t, c.brick, probe.mounted)
               || (probe.mounted !in t.brickDisk && exists k :: i <= k < |c.pos| && Accepted(probe, k)))
    decreases |c.pos| - i
  {
    if i < |c.pos| {
      var c1, t1 := c.(disk := probe.mounted), WithDisk(t, c.brick, probe.mounted, Accepted(probe, i));
      if probe.mounted == "" {
        PickSucceedsIff(c1, t, probe, i + 1, InitNoDiskMount);
      } else if !Owns(t1, c.brick, probe.mounted) {
        assert t1 == t;
        PickSucceedsIff(c1, t, probe, i + 1, InitNoDiskMount);
      }
    }
  }

  // The disk position that a successful init settles on: the first one if the disk is
  // the brick's already, otherwise the first for which the database takes the disk.
  lemma {:induction false} FirstUsablePosition(c: Container, t: Tables, probe: Probe, i: nat, code: InitCode)
    returns (k: nat)
    requires i < |c.pos| && PickDisk(c, t, probe, i, code).code == InitSuccess
    ensures i <= k < |c.pos| && PickDisk(c, t, probe, i, code).c.diskPos == c.pos[k]
    ensures Owns(t, c.brick, probe.mounted) ==> k == i
    ensures !Owns(t, c.brick, probe.mounted) ==>
      Accepted(probe, k) && forall j :: i <= j < k ==> !Accepted(probe, j)
    decreases |c.pos| - i
  {
    var c1, t1 := c.(disk := probe.mounted), WithDisk(t, c.brick, probe.mounted, Accepted(probe, i));
    PickSucceedsIff(c, t, probe, i, code);
    if Owns(t1, c.brick, probe.mounted) {
      k := i;
    } else {
      assert t1 == t;
      k := FirstUsablePosition(c1, t, probe, i + 1, InitNoDiskMount);
    }
  }

  lemma InitTakesFirstPosition(c: Container, t: Tables, probe: Probe) returns (k: nat)
    requires c.pos != [] && InitOf(c, t, probe).code == InitSuccess
    ensures k < |c.pos| && InitOf(c, t, probe).c.diskPos == c.pos[k]
    ensures Owns(t, c.brick, probe.mounted) ==> k == 0
    ensures !Owns(t, c.brick, probe.mounted) ==> Accepted(probe, k) && forall j :: 0 <= j < k ==> !Accepted(probe, j)
  {
    k := FirstUsablePosition(c.(mounted := probe.mounted), t, probe, 0, InitSuccess);
  }

  // The disk mounted at the target is the brick's, or can become it.
  predicate CanOwn(c: Container, t: Tables, probe: Probe) {
    && probe.mounted != ""
    && (Owns(t, c.brick, probe.mounted)
        || (probe.mounted !in t.brickDisk && exists k :: 0 <= k < |c.pos| && Accepted(probe, k)))
  }

  // When init of a brick with positions succeeds: the target is accessible, a
  // disk is mounted there that is the brick's or can still become it, and at
  // least half of that disk is free.
  lemma InitSucceedsIff(c: Container, t: Tables, probe: Probe)
    requires c.pos != []
    ensures InitOf(c, t, probe).code == InitSuccess
      <==> probe.accessible && CanOwn(c, t, probe)
           && probe.space.SpaceInfo? && 2 * probe.space.free >= probe.space.total
  {
    PickSucceedsIff(c.(mounted := probe.mounted), t, probe, 0, InitSuccess);
  }

  lemma {:induction false} PickDiskRows(c: Container, t: Tables, probe: Probe, i: nat, code: InitCode)
    requires i < |c.pos|
    ensures var o := PickDisk(c, t, probe, i, code);
      o.t == if o.code == InitSuccess then t.(brickDisk := t.brickDisk[probe.mounted := c.brick]) else t
    decreases |c.pos| - i
  {
    var c1, t1 := c.(disk := probe.mounted), WithDisk(t, c.brick, probe.mounted, Accepted(probe, i));
    PickSucceedsIff(c, t, probe, i, code);
    if Owns(t1, c.brick, probe.mounted) && Owns(t, c.brick, probe.mounted) {
      assert t.brickDisk[probe.mounted := c.brick] == t.brickDisk;
    }
    if i + 1 < |c.pos| && (probe.mounted == "" || !Owns(t1, c.brick, probe.mounted)) {
      PickDiskRows(c1, t, probe, i + 1, InitNoDiskMount);
    }
  }

  // What init answers in every case, and what it leaves: the one row that it may add is
  // that of the mounted disk, also when the disk is then found too full or cannot be
  // measured; the mounted disk is the current one even if it is not the brick's; usage
  // and limit are those of the last success.
  lemma InitAnswers(c: Container, t: Tables, probe: Probe)
    ensures var o, taken := InitOf(c, t, probe), c.pos == [] || CanOwn(c, t, probe);
      && (o.code == InitErr <==> !probe.accessible || (taken && probe.space.NoSpaceInfo?))
      && (o.code == InitNoDiskMount <==> probe.accessible && !taken)
      && (o.code == InitNeedDel <==>
            probe.accessible && taken && probe.space.SpaceInfo? && 2 * probe.space.free < probe.space.total)
      && o.t == (if probe.accessible && c.pos != [] && CanOwn(c, t, probe)
                 then t.(brickDisk := t.brickDisk[probe.mounted := c.brick]) else t)
      && o.c.mounted == probe.mounted
      && o.c.disk == (if probe.accessible && c.pos != [] then probe.mounted else c.disk)
      && (o.c.initFlag <==> c.initFlag || o.code == InitSuccess)
      && (o.code != InitSuccess ==> o.c.used == c.used && o.c.limit == c.limit)
  {
    if c.pos != [] {
      PickSucceedsIff(c.(mounted := probe.mounted), t, probe, 0, InitSuccess);
      PickDiskOwns(c.(mounted := probe.mounted), t, probe, 0, InitSuccess);
      PickDiskRows(c.(mounted := probe.mounted), t, probe, 0, InitSuccess);
    }
  }

  // A first init that succeeds has made the brick the owner of its disk exactly
  // when the brick has a disk position at all: with none the loop never runs and
  // its preset answer is success.
  lemma FirstInitOwnsIffPositions(c: Container, t: Tables, probe: Probe)
    requires c.disk == "" && "" !in t.brickDisk
    requires InitOf(c, t, probe).code == InitSuccess
    ensures Owns(InitOf(c, t, probe).t, c.brick, InitOf(c, t, probe).c.disk) <==> c.pos != []
  {
    PickDiskOwns(c.(mounted := probe.mounted), t, probe, 0, InitSuccess);
    if c.pos != [] { InitMakesReady(c, t, probe); }
  }

  // `c` without positions passes init and writes `path` on a disk of another brick.
  ghost predicate WritesForeignDisk(c: Container, w: World, probe: Probe, path: Path, bytes: Bytes, env: CopyEnv) {
    var init := InitOf(c, w.tables, probe);
    var o := CopyOf(init.c, w, path, Readable(bytes), env);
    && c.pos == [] && init.code == InitSuccess && init.t == w.tables
    && probe.mounted in w.tables.brickDisk && w.tables.brickDisk[probe.mounted] != c.brick
    && o.code == SuccessFile
    && FilesOn(o.w.disks, probe.mounted) == FilesOn(w.disks, probe.mounted)[path := bytes]
  }

  lemma NoPositionsWritesForeignDisk()
    ensures exists c, w, probe, path, bytes, env :: WritesForeignDisk(c, w, probe, path, bytes, env)
  {
    var c := Container("B", [], "", -1, "", 0, 0, 0, false);
    var w := World(Tables(map["D" := "A"], map[], map[]), map["D" := map[]]);
    var probe := Probe(true, "D", [], SpaceInfo(10, 10));
    var env := CopyEnv([], Written, true);
    var init := InitOf(c, w.tables, probe);
    var o := CopyOf(init.c, w, ["f"], Readable("x"), env);
    assert FitOf(init.c, w.tables, 1, []) == FitOutcome(init.c, w.tables, true, 1);
    FilesAfterWrite(w.disks, "D", ["f"], "x");
    assert WritesForeignDisk(c, w, probe, ["f"], "x", env);
  }

  // -------------------------------------------------------------------- space

  ghost predicate AllPlausible(probes: seq<Probe>) {
    forall i :: 0 <= i < |probes| ==> Plausible(probes[i])
  }

  // The warning line is 95 percent of the disk, rounded down.
  predicate LineAt95(c: Container) { 20 * c.limit <= 19 * c.space < 20 * (c.limit + 1) }

  // What copy_try answers while usage is within the disk: by the free space first,
  // then by the warning line.
  lemma TryMeaning(c: Container, size: nat)
    requires c.used <= c.space
    ensures TryOf(c, size) == SpaceLimit <==> c.used + size > c.space
    ensures TryOf(c, size) == Fits <==> c.used + size <= c.space && c.used <= c.limit
    ensures LineAt95(c) ==> (TryOf(c, size) == Fits <==> c.used + size <= c.space && 20 * c.used <= 19 * c.space)
    ensures LineAt95(c) ==>
      (TryOf(c, size) == SpaceWarning <==> c.used + size <= c.space && 20 * c.used > 19 * c.space)
  {
  }

  // A successful init leaves at most half of the disk in use, which is below the
  // warning line at 95 percent, rounded down, and the accounted free space is the
  // disk's free space.
  lemma InitLeavesHalfFree(c: Container, t: Tables, probe: Probe)
    requires Plausible(probe) && InitOf(c, t, probe).code == InitSuccess
    ensures var c' := InitOf(c, t, probe).c;
      && 2 * c'.used <= c'.space && c'.used <= c'.limit
      && c'.space == probe.space.total && c'.space - c'.used == probe.space.free
      && c'.initFlag && LineAt95(c')
  {
  }

  // A re-init breaks the accounting in one case only: it measures a disk that is
  // too full, and smaller than what was in use on the previous one (or a disk that
  // reports more free than total space).
  lemma InitWrapsIff(c: Container, t: Tables, probe: Probe)
    requires c.used <= c.space
    ensures var o := InitOf(c, t, probe);
      o.c.used > o.c.space
      <==> probe.accessible && (c.pos == [] || CanOwn(c, t, probe)) && probe.space.SpaceInfo?
           && (if 2 * probe.space.free < probe.space.total then probe.space.total < c.used
               else probe.space.total < probe.space.free)
  {
    PickDiskOwns(c.(mounted := probe.mounted), t, probe, 0, InitSuccess);
    if c.pos != [] { PickSucceedsIff(c.(mounted := probe.mounted), t, probe, 0, InitSuccess); }
  }

  // A failed re-init after which copy_try, were it called again, would let a file
  // of `size` pass that is larger than the whole disk.
  ghost predicate AcceptsTooMuch(c: Container, t: Tables, probe: Probe, size: nat) {
    var o := InitOf(c, t, probe);
    && c.used <= c.space && Plausible(probe) && o.code == InitNeedDel
    && TryOf(o.c, size) == Fits && o.c.space < size
  }

  lemma WrappedSpaceAcceptsTooMuch()
    ensures exists c, t, probe, size :: AcceptsTooMuch(c, t, probe, size)
  {
    var c := Container("A", [1], "D", 1, "D", 100, 60, 95, true);
    var t := Tables(map["D" := "A"], map[], map[]);
    var probe := Probe(true, "E", [true], SpaceInfo(0, 10));
    assert WithDisk(t, "A", "E", true).brickDisk["E"] == "A";
    assert AcceptsTooMuch(c, t, probe, 1000);
  }

  // A file for which there is room, with usage at or below 95 percent, is decided in
  // one try: the disk is kept, nothing is initialised again, and no answer but the
  // index, the disk and the write matter.
  lemma RoomIsTaken(c: Container, t: Tables, path: Path, bytes: Bytes, probes: seq<Probe>)
    requires LineAt95(c) && c.used + |bytes| <= c.space && 20 * c.used <= 19 * c.space
    ensures FitOf(c, t, |bytes|, probes) == FitOutcome(c, t, true, 1)
    ensures BeginOf(c, t, path, Readable(bytes), probes)
         == BeginOutcome(c, t, if path in t.diskFile then AlreadyRecorded else GoOn)
  {
    TryMeaning(c, |bytes|);
  }

  // And a copy asks for another disk, or reports the disks full, only if there is no
  // room or usage is above 95 percent.
  lemma FullMeansNoRoom(c: Container, w: World, path: Path, src: Source, env: CopyEnv)
    requires c.used <= c.space && LineAt95(c)
    requires CopyOf(c, w, path, src, env).diskFull
    ensures src.Readable? && (c.used + |src.bytes| > c.space || 20 * c.used > 19 * c.space)
    ensures exists k :: 0 <= k <= |env.probes| && RejectedBy(c, w.tables, |src.bytes|, env.probes, k)
  {
    if src.Readable? {
      TryMeaning(c, |src.bytes|);
      var k := LastRejected(c, w.tables, |src.bytes|, env.probes);
    }
  }

  // k disks were taken and found too small for the file, and no further one could be.
  ghost predicate RejectedBy(c: Container, t: Tables, size: nat, probes: seq<Probe>, k: nat)
    decreases k
  {
    && TryOf(c, size) != Fits
    && var init := InitOf(c, t, NextProbe(probes));
       if k == 0 then init.code != InitSuccess
       else init.code == InitSuccess && probes != [] && RejectedBy(init.c, init.t, size, probes[1..], k - 1)
  }

  lemma {:induction false} LastRejected(c: Container, t: Tables, size: nat, probes: seq<Probe>) returns (k: nat)
    requires !FitOf(c, t, size, probes).fits
    ensures k <= |probes| && RejectedBy(c, t, size, probes, k) && FitOf(c, t, size, probes).tries == k + 1
    decreases |probes|
  {
    var init := InitOf(c, t, NextProbe(probes));
    if init.code != InitSuccess {
      k := 0;
    } else {
      var more := LastRejected(init.c, init.t, size, probes[1..]);
      k := more + 1;
    }
  }

  // Each call of copy_try in the retry loop finds usage within the disk.
  ghost predicate TriesInside(c: Container, t: Tables, size: nat, probes: seq<Probe>)
    decreases |probes|
  {
    && c.used <= c.space
    && (TryOf(c, size) != Fits && InitOf(c, t, NextProbe(probes)).code == InitSuccess ==>
          var init := InitOf(c, t, NextProbe(probes)); TriesInside(init.c, init.t, size, probes[1..]))
  }

  lemma {:induction false} TriesStayInside(c: Container, t: Tables, size: nat, probes: seq<Probe>)
    requires c.used <= c.space && AllPlausible(probes)
    ensures TriesInside(c, t, size, probes)
    decreases |probes|
  {
    if TryOf(c, size) != Fits && InitOf(c, t, NextProbe(probes)).code == InitSuccess {
      var init := InitOf(c, t, probes[0]);
      InitLeavesHalfFree(c, t, probes[0]);
      TriesStayInside(init.c, init.t, size, probes[1..]);
    }
  }

  lemma {:induction false} FitLeavesRoom(c: Container, t: Tables, size: nat, probes: seq<Probe>)
    requires c.used <= c.space && AllPlausible(probes)
    ensures var o := FitOf(c, t, size, probes);
      o.fits ==> o.c.used + size <= o.c.space && o.c.used <= o.c.limit
    decreases |probes|
  {
    if TryOf(c, size) != Fits && InitOf(c, t, NextProbe(probes)).code == InitSuccess {
      var init := InitOf(c, t, probes[0]);
      InitLeavesHalfFree(c, t, probes[0]);
      FitLeavesRoom(init.c, init.t, size, probes[1..]);
    }
  }

  // Usage grows by the size of the file exactly when its bytes were written.
  lemma FinishAccounts(c: Container, w: World, path: Path, bytes: Bytes, env: CopyEnv)
    requires c.used + |bytes| <= c.space
    ensures var writes := env.write == Written && !SameSizeThere(c, w.disks, path, bytes);
      FinishOf(c, w, path, bytes, env).c == c.(used := c.used + (if writes then |bytes| else 0))
  {
  }

  // A copy that found room keeps the accounting inside the disk.
  lemma CopyKeepsSpace(c: Container, w: World, path: Path, src: Source, env: CopyEnv)
    requires c.used <= c.space && AllPlausible(env.probes)
    ensures var b, o := BeginOf(c, w.tables, path, src, env.probes), CopyOf(c, w, path, src, env);
      && (!o.diskFull ==> o.c.used <= o.c.space)
      && (b.code == GoOn ==>
            var writes := env.write == Written && !SameSizeThere(b.c, w.disks, path, src.bytes);
            o.c == b.c.(used := o.c.used) && o.c.used == b.c.used + (if writes then |src.bytes| else 0))
      && (b.code != GoOn ==> o.c == b.c)
  {
    if src.Readable? {
      FitLeavesRoom(c, w.tables, |src.bytes|, env.probes);
      var b := BeginOf(c, w.tables, path, src, env.probes);
      if b.code == GoOn { FinishAccounts(b.c, w.(tables := b.t), path, src.bytes, env); }
    }
  }

  lemma {:induction false} FitKeepsLine(c: Container, t: Tables, size: nat, probes: seq<Probe>)
    requires LineAt95(c) && AllPlausible(probes)
    ensures FitOf(c, t, size, probes).fits ==> LineAt95(FitOf(c, t, size, probes).c)
    decreases |probes|
  {
    if TryOf(c, size) != Fits && InitOf(c, t, NextProbe(probes)).code == InitSuccess {
      var init := InitOf(c, t, probes[0]);
      InitLeavesHalfFree(c, t, probes[0]);
      FitKeepsLine(init.c, init.t, size, probes[1..]);
    }
  }

  lemma CopyKeepsLine(c: Container, w: World, path: Path, src: Source, env: CopyEnv)
    requires LineAt95(c) && AllPlausible(env.probes)
    ensures var o := CopyOf(c, w, path, src, env); o.diskFull || LineAt95(o.c)
  {
    if src.Readable? {
      FitKeepsLine(c, w.tables, |src.bytes|, env.probes);
      var b := BeginOf(c, w.tables, path, src, env.probes);
      FinishChangesOnePath(b.c, w.(tables := b.t), path, src.bytes, env);
    }
  }

  datatype Job = Job(path: Path, src: Source, env: CopyEnv)

  // The copies of one container in sequence, up to the first disk-full failure.
  function CopyAll(c: Container, w: World, jobs: seq<Job>): CopyOutcome
    decreases |jobs|
  {
    if jobs == [] then CopyOutcome(c, w, SuccessFile, false)
    else
      var o := CopyOf(c, w, jobs[0].path, jobs[0].src, jobs[0].env);
      if o.diskFull then o else CopyAll(o.c, o.w, jobs[1..])
  }

  lemma {:induction false} CopiesKeepSpace(c: Container, w: World, jobs: seq<Job>)
    requires c.used <= c.space
    requires forall j :: 0 <= j < |jobs| ==> AllPlausible(jobs[j].env.probes)
    ensures !CopyAll(c, w, jobs).diskFull ==> CopyAll(c, w, jobs).c.used <= CopyAll(c, w, jobs).c.space
    decreases |jobs|
  {
    if jobs != [] {
      CopyKeepsSpace(c, w, jobs[0].path, jobs[0].src, jobs[0].env);
      var o := CopyOf(c, w, jobs[0].path, jobs[0].src, jobs[0].env);
      if !o.diskFull { CopiesKeepSpace(o.c, o.w, jobs[1..]); }
    }
  }

  // ------------------------------------------------------------- the retry loop

  // After a successful re-init only the free space decides.
  lemma ReinitFitsIffFree(c: Container, t: Tables, probe: Probe, size: nat)
    requires Plausible(probe) && InitOf(c, t, probe).code == InitSuccess
    ensures TryOf(InitOf(c, t, probe).c, size) == Fits <==> size <= probe.space.free
  {
    InitLeavesHalfFree(c, t, probe);
  }

  // A file no larger than half of every disk offered is decided in two tries.
  lemma RetryAtMostTwice(c: Container, t: Tables, size: nat, probes: seq<Probe>)
    requires AllPlausible(probes)
    requires forall i :: 0 <= i < |probes| && probes[i].space.SpaceInfo? ==> 2 * size <= probes[i].space.total
    ensures FitOf(c, t, size, probes).tries <= 2
  {
    if TryOf(c, size) != Fits && InitOf(c, t, NextProbe(probes)).code == InitSuccess {
      var init := InitOf(c, t, probes[0]);
      ReinitFitsIffFree(c, t, probes[0], size);
      assert FitOf(init.c, init.t, size, probes[1..]).tries == 1;
    }
  }

  lemma OwnerInitAgain(c: Container, t: Tables, probe: Probe)
    requires c.pos != [] && InitOf(c, t, probe).code == InitSuccess
    ensures var o := InitOf(c, t, probe); InitOf(o.c, o.t, probe).code == InitSuccess
  {
    InitMakesReady(c, t, probe);
    InitOnlyAddsOwners(c, t, probe);
  }

  // A file larger than the free space of a disk that keeps passing init is
  // retried as often as the disk is offered: no bound holds for such files.
  lemma {:induction false} RetryUnbounded(c: Container, t: Tables, size: nat, probe: Probe, n: nat)
    requires c.pos != [] && Plausible(probe) && InitOf(c, t, probe).code == InitSuccess
    requires TryOf(c, size) != Fits && probe.space.free < size
    ensures FitOf(c, t, size, Repeat(probe, n)).tries == n + 1
    ensures !FitOf(c, t, size, Repeat(probe, n)).fits
    decreases n
  {
    if n > 0 {
      var init := InitOf(c, t, probe);
      ReinitFitsIffFree(c, t, probe, size);
      OwnerInitAgain(c, t, probe);
      InitOnlyAddsOwners(c, t, probe);
      assert Repeat(probe, n)[1..] == Repeat(probe, n - 1);
      RetryUnbounded(init.c, init.t, size, probe, n - 1);
    }
  }

  // --------------------------------------------------------------------- index

  // Every recorded path exists on the disk it is recorded for.
  ghost predicate IndexAgrees(w: World) {
    forall p :: p in w.tables.diskFile ==> p in FilesOn(w.disks, w.tables.diskFile[p])
  }

  // Every path recorded in `w` is still recorded for the same disk, and that
  // disk still holds the same bytes under it.
  ghost predicate KeepsRecorded(w: World, w': World) {
    && Extends(w.tables, w'.tables)
    && forall p :: p in w.tables.diskFile && p in FilesOn(w.disks, w.tables.diskFile[p]) ==>
         var d := w.tables.diskFile[p];
         p in FilesOn(w'.disks, d) && FilesOn(w'.disks, d)[p] == FilesOn(w.disks, d)[p]
  }

  lemma KeepsRecordedTwice(w0: World, w1: World, w2: World)
    requires KeepsRecorded(w0, w1) && KeepsRecorded(w1, w2)
    ensures KeepsRecorded(w0, w2)
  {
  }

  // The path is not recorded for the disk that the container writes to.
  ghost predicate FreeHere(c: Container, t: Tables, path: Path) {
    path in t.diskFile ==> t.diskFile[path] != c.mounted
  }

  lemma {:induction false} FitKeepsReady(c: Container, t: Tables, size: nat, probes: seq<Probe>)
    requires Ready(c, t) && c.pos != []
    ensures var o := FitOf(c, t, size, probes);
      && SameIdentity(c, o.c) && Extends(t, o.t) && o.t.diskFile == t.diskFile
      && (Referenced(t) ==> Referenced(o.t)) && ("" !in t.brickDisk ==> "" !in o.t.brickDisk)
      && (o.fits ==> Ready(o.c, o.t))
    decreases |probes|
  {
    if TryOf(c, size) != Fits {
      InitOnlyAddsOwners(c, t, NextProbe(probes));
      if InitOf(c, t, NextProbe(probes)).code == InitSuccess {
        var init := InitOf(c, t, probes[0]);
        InitMakesReady(c, t, probes[0]);
        FitKeepsReady(init.c, init.t, size, probes[1..]);
      }
    }
  }

  lemma BeginKeepsReady(c: Container, t: Tables, path: Path, src: Source, probes: seq<Probe>)
    requires Ready(c, t) && c.pos != []
    ensures var o := BeginOf(c, t, path, src, probes);
      && SameIdentity(c, o.c) && Extends(t, o.t) && o.t.diskFile == t.diskFile
      && (Referenced(t) ==> Referenced(o.t)) && ("" !in t.brickDisk ==> "" !in o.t.brickDisk)
      && (o.code != DiskFull ==> Ready(o.c, o.t))
      && (o.code == GoOn ==> path !in o.t.diskFile)
  {
    if src.Readable? { FitKeepsReady(c, t, |src.bytes|, probes); }
  }

  lemma FilesAfterWrite(disks: Disks, d: DiskId, p: Path, bytes: Bytes)
    ensures FilesOn(WithBytes(disks, d, p, bytes), d) == FilesOn(disks, d)[p := bytes]
    ensures forall e :: e != d ==> FilesOn(WithBytes(disks, d, p, bytes), e) == FilesOn(disks, e)
    ensures FilesOn(WithoutFile(disks, d, p), d) == FilesOn(disks, d) - {p}
    ensures forall e :: e != d ==> FilesOn(WithoutFile(disks, d, p), e) == FilesOn(disks, e)
  {
  }

  // Only `path` on disk `d` may differ.
  ghost predicate OnlyChanges(disks: Disks, disks': Disks, d: DiskId, path: Path) {
    && (forall e :: e != d ==> FilesOn(disks', e) == FilesOn(disks, e))
    && (forall p :: p != path && p in FilesOn(disks, d) ==>
          p in FilesOn(disks', d) && FilesOn(disks', d)[p] == FilesOn(disks, d)[p])
  }

  lemma FinishChangesOnePath(c: Container, w: World, path: Path, bytes: Bytes, env: CopyEnv)
    ensures var o := FinishOf(c, w, path, bytes, env);
      && OnlyChanges(w.disks, o.w.disks, c.mounted, path)
      && o.c == c.(used := o.c.used)
      && (o.w.tables == w.tables
          || (o.w.tables == WithFile(w.tables, c.disk, path, true) && path in FilesOn(o.w.disks, c.mounted)))
  {
    FilesAfterWrite(w.disks, c.mounted, path, bytes);
    FilesAfterWrite(w.disks, c.mounted, path, "");
  }

  lemma FinishKeepsIndex(c: Container, w: World, path: Path, bytes: Bytes, env: CopyEnv)
    requires IndexAgrees(w) && Referenced(w.tables)
    requires Ready(c, w.tables) && FreeHere(c, w.tables, path)
    ensures var o := FinishOf(c, w, path, bytes, env);
      && IndexAgrees(o.w) && Referenced(o.w.tables) && KeepsRecorded(w, o.w)
      && o.w.tables.brickDisk == w.tables.brickDisk
      && Ready(o.c, o.w.tables) && SameIdentity(c, o.c) && o.c.mounted == c.mounted
      && OnlyChanges(w.disks, o.w.disks, c.mounted, path)
      && (forall p :: p in o.w.tables.diskFile && p !in w.tables.diskFile ==>
            p == path && o.w.tables.diskFile[p] == c.disk)
  {
    FinishChangesOnePath(c, w, path, bytes, env);
    var o := FinishOf(c, w, path, bytes, env);
    forall p | p in w.tables.diskFile
      ensures var d := w.tables.diskFile[p];
        p in FilesOn(o.w.disks, d) && FilesOn(o.w.disks, d)[p] == FilesOn(w.disks, d)[p]
    {
    }
  }

  lemma CopyKeepsIndex(c: Container, w: World, path: Path, src: Source, env: CopyEnv)
    requires IndexAgrees(w) && Referenced(w.tables) && Ready(c, w.tables) && c.pos != []
    ensures var o := CopyOf(c, w, path, src, env);
      IndexAgrees(o.w) && Referenced(o.w.tables) && KeepsRecorded(w, o.w) && (!o.diskFull ==> Ready(o.c, o.w.tables))
  {
    BeginKeepsReady(c, w.tables, path, src, env.probes);
    var b := BeginOf(c, w.tables, path, src, env.probes);
    var w1 := w.(tables := b.t);
    assert IndexAgrees(w1) && KeepsRecorded(w, w1);
    if b.code == GoOn {
      FinishKeepsIndex(b.c, w1, path, src.bytes, env);
    }
  }

  // Success means: the path is recorded, or a file of the source's size is on
  // the disk under the target path.
  lemma SuccessMeaning(c: Container, w: World, path: Path, src: Source, env: CopyEnv)
    requires CopyOf(c, w, path, src, env).code == SuccessFile
    ensures var o := CopyOf(c, w, path, src, env);
      && src.Readable?
      && (path in o.w.tables.diskFile || SameSizeThere(o.c, o.w.disks, path, src.bytes))
  {
  }

  // When a copy fails: the source cannot be read, or no disk takes the file, or it has
  // to be written and the writing fails. A refused row is no failure.
  lemma CopyFailsIff(c: Container, w: World, path: Path, src: Source, env: CopyEnv)
    ensures var b := BeginOf(c, w.tables, path, src, env.probes);
      CopyOf(c, w, path, src, env).code == FileErr
      <==> src.Unreadable? || !FitOf(c, w.tables, |src.bytes|, env.probes).fits
           || (path !in b.t.diskFile && !SameSizeThere(b.c, w.disks, path, src.bytes) && env.write != Written)
  {
  }

  // What lies at the target after a copy that had to write: as before, an empty file,
  // nothing, or the bytes of the source; other paths and disks are untouched.
  lemma TargetAfterWrite(c: Container, w: World, path: Path, bytes: Bytes, env: CopyEnv)
    requires !SameSizeThere(c, w.disks, path, bytes)
    ensures
      var before := FilesOn(w.disks, c.mounted);
      var after := FilesOn(FinishOf(c, w, path, bytes, env).w.disks, c.mounted);
      match env.write
      case TargetNotOpened => after == before
      case SourceNotOpened => path in after && after[path] == "" && after - {path} == before - {path}
      case StreamFailed => path !in after && after == before - {path}
      case Written => path in after && after[path] == bytes && after - {path} == before - {path}
  {
    FilesAfterWrite(w.disks, c.mounted, path, bytes);
    FilesAfterWrite(w.disks, c.mounted, path, "");
    var before := FilesOn(w.disks, c.mounted);
    assert before[path := bytes] - {path} == before - {path};
    assert before[path := ""] - {path} == before - {path};
  }

  // A failed copy records nothing, and whatever is left at the target is not a
  // complete copy: nothing, or a file that was opened and not filled.
  lemma FailureRecordsNothing(c: Container, w: World, path: Path, bytes: Bytes, env: CopyEnv)
    requires Ready(c, w.tables) && c.pos != []
    requires CopyOf(c, w, path, Readable(bytes), env).code == FileErr
    ensures var o := CopyOf(c, w, path, Readable(bytes), env);
      var b := BeginOf(c, w.tables, path, Readable(bytes), env.probes);
      && o.w.tables.diskFile == w.tables.diskFile
      && (o.diskFull <==> b.code == DiskFull)
      && (o.diskFull ==> o.w.disks == w.disks)
      && (o.w.disks != w.disks ==>
            var left := FilesOn(o.w.disks, b.c.mounted);
            path !in left || (left[path] == "" && env.write == SourceNotOpened))
  {
    BeginKeepsReady(c, w.tables, path, Readable(bytes), env.probes);
    FilesAfterWrite(w.disks, BeginOf(c, w.tables, path, Readable(bytes), env.probes).c.mounted, path, "");
  }

  // The index leads to these very bytes.
  ghost predicate Backed(w: World, path: Path, bytes: Bytes) {
    && path in w.tables.diskFile
    && path in FilesOn(w.disks, w.tables.diskFile[path])
    && FilesOn(w.disks, w.tables.diskFile[path])[path] == bytes
  }

  // For a path that is not yet in the index, success leaves the source's bytes
  // behind the index exactly when the log row was taken and no other file of the
  // same size already lay at the target.
  lemma NewPathBackedIff(c: Container, w: World, path: Path, bytes: Bytes, env: CopyEnv)
    requires Ready(c, w.tables) && c.pos != [] && path !in w.tables.diskFile
    requires CopyOf(c, w, path, Readable(bytes), env).code == SuccessFile
    ensures var b := BeginOf(c, w.tables, path, Readable(bytes), env.probes);
      Backed(CopyOf(c, w, path, Readable(bytes), env).w, path, bytes)
      <==> env.logAccepted
           && (SameSizeThere(b.c, w.disks, path, bytes) ==> FilesOn(w.disks, b.c.mounted)[path] == bytes)
  {
    BeginKeepsReady(c, w.tables, path, Readable(bytes), env.probes);
  }

  // For a path already in the index nothing is written, so success says nothing
  // about these bytes: they are behind the index only if they were before.
  lemma RecordedPathBackedIff(c: Container, w: World, path: Path, bytes: Bytes, env: CopyEnv)
    requires Ready(c, w.tables) && c.pos != [] && path in w.tables.diskFile
    requires CopyOf(c, w, path, Readable(bytes), env).code == SuccessFile
    ensures CopyOf(c, w, path, Readable(bytes), env).w.disks == w.disks
    ensures Backed(CopyOf(c, w, path, Readable(bytes), env).w, path, bytes) <==> Backed(w, path, bytes)
  {
    BeginKeepsReady(c, w.tables, path, Readable(bytes), env.probes);
  }

  // A file of another brick under the same relative path makes copy answer
  // success although no disk holds the bytes.
  ghost predicate ClaimedButNowhere(c: Container, w: World, path: Path, bytes: Bytes, env: CopyEnv) {
    var o := CopyOf(c, w, path, Readable(bytes), env);
    && Ready(c, w.tables) && c.pos != [] && IndexAgrees(w)
    && path in w.tables.diskFile && !Owns(w.tables, c.brick, w.tables.diskFile[path])
    && o.code == SuccessFile
    && forall d :: path in FilesOn(o.w.disks, d) ==> FilesOn(o.w.disks, d)[path] != bytes
  }

  lemma SamePathInTwoBricks()
    ensures exists c, w, path, bytes, env :: ClaimedButNowhere(c, w, path, bytes, env)
  {
    var c := Container("B", [2], "E", 2, "E", 100, 10, 95, true);
    var w := World(Tables(map["D" := "A", "E" := "B"], map[["f"] := "D"], map[]),
                   map["D" := map[["f"] := "old"]]);
    var env := CopyEnv([], Written, true);
    var o := CopyOf(c, w, ["f"], Readable("new"), env);
    assert o.w == w && o.code == SuccessFile;
    assert "old"[0] != "new"[0];
    assert forall d :: ["f"] in FilesOn(w.disks, d) ==> d == "D";
    assert ClaimedButNowhere(c, w, ["f"], "new", env);
  }
}
