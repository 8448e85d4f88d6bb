// What a worker sees of the other bricks is what they do in the fleet.
module FleetDeeds {
  import opened BackupTables
  import opened DiskContainers
  import opened CopyProperties
  import opened BrickFleet
  import opened BackupEngine

  lemma {:induction false} AllDoneAppend(w: World, me: BrickId, a: seq<Deed>, b: seq<Deed>)
    ensures AllDone(w, me, a + b) == AllDone(AllDone(w, me, a), me, b)
    decreases |a|
  {
    if a == [] {
      assert a + b == b;
    } else {
      assert (a + b)[1..] == a[1..] + b;
      AllDoneAppend(Done(w, me, a[0]), me, a[1..], b);
    }
  }

  lemma OneDone(w: World, me: BrickId, d: Deed)
    ensures AllDone(w, me, [d]) == Done(w, me, d)
  {
    assert [d][1..] == [];
  }

  lemma {:induction false} PickTakes(c: Container, t: Tables, probe: Probe, i: nat, code: InitCode)
    requires i <= |c.pos|
    ensures PickDisk(c, t, probe, i, code).t == t
      || PickDisk(c, t, probe, i, code).t == WithDisk(t, c.brick, probe.mounted, true)
    decreases |c.pos| - i
  {
    if i < |c.pos| {
      var c1, t1 := c.(disk := probe.mounted), WithDisk(t, c.brick, probe.mounted, Accepted(probe, i));
      if probe.mounted == "" {
        PickTakes(c1, t, probe, i + 1, InitNoDiskMount);
      } else if !Owns(t1, c.brick, probe.mounted) {
        assert t1 == t;
        PickTakes(c1, t, probe, i + 1, InitNoDiskMount);
      }
    }
  }

  lemma InitIsDeeds(c: Container, w: World, probe: Probe, me: BrickId) returns (deeds: seq<Deed>)
    requires c.brick != me
    ensures AllDone(w, me, deeds) == w.(tables := InitOf(c, w.tables, probe).t)
  {
    PickTakes(c.(mounted := probe.mounted), w.tables, probe, 0, InitSuccess);
    if InitOf(c, w.tables, probe).t == w.tables {
      deeds := [];
    } else {
      deeds := [TakeDisk(c.brick, probe.mounted)];
      OneDone(w, me, deeds[0]);
    }
  }

  lemma {:induction false} FitIsDeeds(c: Container, w: World, size: nat, probes: seq<Probe>, me: BrickId)
      returns (deeds: seq<Deed>)
    requires c.brick != me
    ensures AllDone(w, me, deeds) == w.(tables := FitOf(c, w.tables, size, probes).t)
    decreases |probes|
  {
    if TryOf(c, size) == Fits {
      deeds := [];
    } else {
      deeds := InitIsDeeds(c, w, NextProbe(probes), me);
      var init := InitOf(c, w.tables, NextProbe(probes));
      InitOnlyAddsOwners(c, w.tables, NextProbe(probes));
      if init.code == InitSuccess {
        var more := FitIsDeeds(init.c, w.(tables := init.t), size, probes[1..], me);
        AllDoneAppend(w, me, deeds, more);
        deeds := deeds + more;
      }
    }
  }

  lemma SameFileWritten(disks: Disks, d: DiskId, p: Path)
    requires p in FilesOn(disks, d)
    ensures WithBytes(disks, d, p, FilesOn(disks, d)[p]) == disks
  {
    assert FilesOn(disks, d)[p := FilesOn(disks, d)[p]] == FilesOn(disks, d);
  }

  lemma FinishIsDeeds(c: Container, w: World, path: Path, bytes: Bytes, env: CopyEnv, me: BrickId)
      returns (deeds: seq<Deed>)
    requires c.brick != me && Ready(c, w.tables) && FreeHere(c, w.tables, path)
    ensures AllDone(w, me, deeds) == FinishOf(c, w, path, bytes, env).w
  {
    var d := c.mounted;
    if SameSizeThere(c, w.disks, path, bytes) {
      deeds := [WriteFile(c.brick, d, path, FilesOn(w.disks, d)[path], env.logAccepted)];
      SameFileWritten(w.disks, d, path);
    } else {
      match env.write {
        case TargetNotOpened => deeds := [];
        case SourceNotOpened => deeds := [WriteFile(c.brick, d, path, "", false)];
        case StreamFailed => deeds := [RemoveFile(c.brick, d, path)];
        case Written => deeds := [WriteFile(c.brick, d, path, bytes, env.logAccepted)];
      }
    }
    if deeds != [] { OneDone(w, me, deeds[0]); }
  }

  lemma KillIsDeeds(c: Container, w: World, path: Path, left: Left, me: BrickId) returns (deeds: seq<Deed>)
    requires c.brick != me && Ready(c, w.tables) && FreeHere(c, w.tables, path)
    ensures AllDone(w, me, deeds)
         == if left == Untouched then w else w.(disks := WithBytes(w.disks, c.mounted, path, left.bytes))
  {
    deeds := if left == Untouched then [] else [WriteFile(c.brick, c.mounted, path, left.bytes, false)];
    if deeds != [] { OneDone(w, me, deeds[0]); }
  }

  // Every step of another brick, in every state that a fleet can reach, is a
  // sequence of deeds that are allowed to it; so a worker that meets arbitrary
  // deeds between its polls meets everything that a fleet does there.
  lemma FleetStepIsDeeds(f: Fleet, e: Event, me: BrickId) returns (deeds: seq<Deed>)
    requires FleetInv(f) && Enabled(f, e) && e.brick != me
    ensures AllDone(f.world, me, deeds) == Step(f, e).world
  {
    match e {
      case Start(_, _) => deeds := [];
      case Stop(_) => deeds := [];
      case Init(b, probe) => deeds := InitIsDeeds(f.bricks[b], f.world, probe, me);
      case Begin(b, path, src, probes) =>
        if src.Readable? { deeds := FitIsDeeds(f.bricks[b], f.world, |src.bytes|, probes, me); } else { deeds := []; }
      case Finish(b, env) =>
        deeds := FinishIsDeeds(f.bricks[b], f.world, f.pending[b].path, f.pending[b].bytes, env, me);
      case Kill(b, left) => deeds := KillIsDeeds(f.bricks[b], f.world, f.pending[b].path, left, me);
    }
  }
}
