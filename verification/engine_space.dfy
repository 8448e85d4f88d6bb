// The unsigned subtraction of copy_try over whole runs of a worker.
module EngineSpace {
  import opened BackupTables
  import opened DiskContainers
  import opened CopyProperties
  import opened FileFrames
  import opened BackupWindows
  import opened BackupEngine

  ghost predicate PlausibleEnv(env: Env) { forall i: nat :: AllPlausible(env(i).copy.probes) }

  // A copy that found the accounting right, and reported the disks full only if its
  // disk had no room for the file or was above the warning line.
  predicate FoundRight(x: Effect)
    requires x.Copied?
  {
    && x.found.used <= x.found.space && LineAt95(x.found)
    && (x.diskFull ==> x.found.used + |x.bytes| > x.found.space || 20 * x.found.used > 19 * x.found.space)
  }

  // Every copy so far did, and so will the next one: the accounting is right unless
  // the worker has been told to stop.
  ghost predicate SpaceKept(e: Engine) {
    && e.brick in e.regs
    && (Stopping(e) || (e.c.used <= e.c.space && LineAt95(e.c)))
    && forall i :: 0 <= i < |e.log| && e.log[i].Copied? ==> FoundRight(e.log[i])
  }

  lemma ProcessKeepsSpace(e: Engine, env: Env, span: Span, p: Path, n: Node)
    requires SpaceKept(e) && !Stopping(e) && PlausibleEnv(env)
    ensures SpaceKept(Process(e, env, span, p, n))
  {
    if n.File? {
      var m := env(e.clock);
      var src := if m.readable then Readable(n.bytes) else Unreadable;
      CopyKeepsSpace(e.c, e.w, p, src, m.copy);
      CopyKeepsLine(e.c, e.w, p, src, m.copy);
      if CopyOf(e.c, e.w, p, src, m.copy).diskFull { FullMeansNoRoom(e.c, e.w, p, src, m.copy); }
    }
  }

  lemma {:induction false} ScanKeepsSpace(env: Env, span: Span, e: Engine, path: Path, entries: seq<Entry>)
    requires SpaceKept(e) && PlausibleEnv(env)
    ensures SpaceKept(ScanOf(WorkerCallbacks(env, span), e, path, entries).state)
    decreases |entries|
  {
    if entries != [] {
      var p, n := path + [entries[0].name], entries[0].node;
      var (e1, v1) := Filter(e, env, span, n);
      var (e2, v2) := Filter(e1, env, span, n);
      if v1 == FilterIn {
        ProcessKeepsSpace(e1, env, span, p, n);
        ScanKeepsSpace(env, span, Process(e1, env, span, p, n), path, entries[1..]);
      } else if v2 != FrameStop {
        ScanKeepsSpace(env, span, e2, path, entries[1..]);
      }
    }
  }

  lemma {:induction false} WalkKeepsSpace(env: Env, span: Span, e: Engine, col: seq<Work>)
    requires SpaceKept(e) && PlausibleEnv(env)
    ensures SpaceKept(WalkOf(WorkerCallbacks(env, span), e, col).state)
    decreases QueueSize(col)
  {
    if col != [] {
      var cb := WorkerCallbacks(env, span);
      var scan := SearchOf(cb, e, col[0]);
      if col[0].folder.Folder? && col[0].folder.readable {
        ScanKeepsSpace(env, span, e, col[0].path, col[0].folder.entries);
      }
      if !scan.stopped {
        QueueSizeAppend(col[1..], scan.found);
        WalkKeepsSpace(env, span, scan.state, col[1..] + scan.found);
      }
    }
  }

  lemma TurnKeepsSpace(w: Worker, env: Env, space: int, r: Round)
    requires SpaceKept(w.e) && PlausibleEnv(env)
    ensures SpaceKept(TurnOf(w, env, space, r).worker.e)
  {
    var span := Plan(w.span, r.curr, space);
    if Executes(span) { WalkKeepsSpace(env, span, w.e, [Work([], r.tree)]); }
  }

  // Over every run of a worker, failed re-inits included, no copy ever begins with
  // more in use than the disk holds: a failed re-init requests a stop, and a worker
  // told to stop copies no more. (Inside one copy: TriesStayInside.) And no copy
  // reports the disks full while its own has room below the warning line.
  lemma {:induction false} NoCopyMeetsWrap(w: Worker, env: Env, space: int, rounds: seq<Round>)
    requires SpaceKept(w.e) && PlausibleEnv(env)
    ensures SpaceKept(RunOf(w, env, space, rounds).worker.e)
    decreases |rounds|
  {
    if rounds != [] {
      TurnKeepsSpace(w, env, space, rounds[0]);
      var t := TurnOf(w, env, space, rounds[0]);
      if !t.stopped { NoCopyMeetsWrap(t.worker, env, space, rounds[1..]); }
    }
  }

  // That is where a successful init leaves a worker.
  lemma InitStartsInside(e: Engine, probe: Probe)
    requires e.brick in e.regs && e.log == [] && Plausible(probe)
    requires InitOf(e.c, e.w.tables, probe).code == InitSuccess
    ensures SpaceKept(e.(c := InitOf(e.c, e.w.tables, probe).c, w := e.w.(tables := InitOf(e.c, e.w.tables, probe).t)))
  {
    InitLeavesHalfFree(e.c, e.w.tables, probe);
  }

  // So it holds for every worker that a successful init has made.
  lemma NoCopyMeetsWrapAfterInit(e: Engine, probe: Probe, span: Span, env: Env, space: int, rounds: seq<Round>)
    requires e.brick in e.regs && e.log == [] && Plausible(probe) && PlausibleEnv(env)
    requires InitOf(e.c, e.w.tables, probe).code == InitSuccess
    ensures var o := InitOf(e.c, e.w.tables, probe);
      var log := RunOf(Worker(e.(c := o.c, w := e.w.(tables := o.t)), span), env, space, rounds).worker.e.log;
      forall i :: 0 <= i < |log| && log[i].Copied? ==> FoundRight(log[i])
  {
    var o := InitOf(e.c, e.w.tables, probe);
    InitStartsInside(e, probe);
    NoCopyMeetsWrap(Worker(e.(c := o.c, w := e.w.(tables := o.t)), span), env, space, rounds);
  }
}
