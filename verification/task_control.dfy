// The registry task_control of backup/backup_task.cpp: one stop semaphore for
// each brick that is being worked on. Every operation runs under the one lock.
module TaskControls {
  import opened BackupTables
  import opened Prelude

  // How backup_worker::start can return.
  datatype StartCode = BkStop | BkInitNeeded

  type Registry = map<BrickId, nat>  // the semaphore count of each registered brick

  function WithReg(r: Registry, b: BrickId): Registry { if b in r then r else r[b := 0] }

  function WithStop(r: Registry, b: BrickId): Registry { if b in r then r[b := r[b] + 1] else r }

  function WithStopAll(r: Registry): Registry { map b | b in r :: r[b] + 1 }

  predicate StopRequested(r: Registry, b: BrickId) { b in r && r[b] > 0 }

  datatype TaskSem = TaskSem(brick: BrickId, count: nat)

  ghost predicate Distinct(v: seq<TaskSem>) {
    forall i, j :: 0 <= i < j < |v| ==> v[i].brick != v[j].brick
  }

  // The registry that a list of semaphores stands for.
  ghost function RegsOf(v: seq<TaskSem>): Registry {
    if v == [] then map[]
    else RegsOf(v[..|v| - 1])[v[|v| - 1].brick := v[|v| - 1].count]
  }

  lemma {:induction false} RegsLookup(v: seq<TaskSem>, b: BrickId)
    requires Distinct(v)
    ensures b in RegsOf(v) <==> exists k :: 0 <= k < |v| && v[k].brick == b
    ensures forall k :: 0 <= k < |v| && v[k].brick == b ==> RegsOf(v)[b] == v[k].count
  {
    if v != [] { RegsLookup(v[..|v| - 1], b); }
  }

  lemma AppendRegs(v: seq<TaskSem>, b: BrickId)
    ensures RegsOf(v + [TaskSem(b, 0)]) == RegsOf(v)[b := 0]
  {
    assert (v + [TaskSem(b, 0)])[..|v|] == v;
  }

  function Without(v: seq<TaskSem>, i: nat): seq<TaskSem>
    requires i < |v|
  {
    v[..i] + v[i + 1..]
  }

  lemma WithoutIsDistinct(v: seq<TaskSem>, i: nat)
    requires Distinct(v) && i < |v|
    ensures Distinct(Without(v, i))
  {
    var w := Without(v, i);
    assert forall k :: 0 <= k < |w| ==> w[k] == v[if k < i then k else k + 1];
  }

  lemma RemoveThenAdd(r: Registry, x: BrickId, y: BrickId, n: nat)
    ensures x != y ==> (r - {x})[y := n] == r[y := n] - {x}
    ensures x !in r ==> r[x := n] - {x} == r
  {
  }

  lemma WithoutKeepsLast(v: seq<TaskSem>, i: nat)
    requires i < |v| - 1
    ensures Without(v, i) == Without(v[..|v| - 1], i) + [v[|v| - 1]]
  {
    var last := |v| - 1;
    assert v[..last][..i] == v[..i];
    assert v[i + 1..] == v[..last][i + 1..] + [v[last]];
    Regroup(v[..i], v[..last][i + 1..], [v[last]]);
  }

  lemma {:induction false} RemoveRegs(v: seq<TaskSem>, i: nat)
    requires Distinct(v) && i < |v|
    ensures RegsOf(Without(v, i)) == RegsOf(v) - {v[i].brick}
    decreases |v|
  {
    var last := |v| - 1;
    var front := v[..last];
    RemoveThenAdd(RegsOf(front), v[i].brick, v[last].brick, v[last].count);
    if i == last {
      assert Without(v, i) == front;
      RegsLookup(front, v[i].brick);
    } else {
      RemoveRegs(front, i);
      WithoutKeepsLast(v, i);
      assert (Without(front, i) + [v[last]])[..|Without(v, i)| - 1] == Without(front, i);
    }
  }

  lemma AddThenAdd(r: Registry, x: BrickId, m: nat, y: BrickId, n: nat)
    ensures x != y ==> r[x := m][y := n] == r[y := n][x := m]
    ensures r[x := m][x := n] == r[x := n]
  {
  }

  lemma {:induction false} UpdateRegs(v: seq<TaskSem>, i: nat, count: nat)
    requires Distinct(v) && i < |v|
    ensures RegsOf(v[i := TaskSem(v[i].brick, count)]) == RegsOf(v)[v[i].brick := count]
    decreases |v|
  {
    var last := |v| - 1;
    var front := v[..last];
    var w := v[i := TaskSem(v[i].brick, count)];
    AddThenAdd(RegsOf(front), v[i].brick, count, v[last].brick, v[last].count);
    AddThenAdd(RegsOf(front), v[last].brick, v[last].count, v[i].brick, count);
    if i == last {
      assert w[..last] == front;
    } else {
      UpdateRegs(front, i, count);
      assert w[..last] == front[i := TaskSem(v[i].brick, count)];
    }
  }

  lemma BumpRegs(v: seq<TaskSem>, i: nat)
    requires Distinct(v) && i < |v|
    ensures var w := v[i := TaskSem(v[i].brick, v[i].count + 1)];
      Distinct(w) && RegsOf(w) == WithStop(RegsOf(v), v[i].brick)
  {
    var w := v[i := TaskSem(v[i].brick, v[i].count + 1)];
    assert forall k :: 0 <= k < |v| ==> w[k].brick == v[k].brick;
    RegsLookup(v, v[i].brick);
    UpdateRegs(v, i, v[i].count + 1);
  }

  lemma {:induction false} BumpAllRegs(v: seq<TaskSem>, w: seq<TaskSem>)
    requires Distinct(v) && |w| == |v|
    requires forall k :: 0 <= k < |v| ==> w[k] == TaskSem(v[k].brick, v[k].count + 1)
    ensures Distinct(w) && RegsOf(w) == WithStopAll(RegsOf(v))
    decreases |v|
  {
    assert forall k :: 0 <= k < |v| ==> w[k].brick == v[k].brick;
    if v != [] {
      var last := |v| - 1;
      BumpAllRegs(v[..last], w[..last]);
      assert RegsOf(w) == WithStopAll(RegsOf(v[..last]))[v[last].brick := v[last].count + 1];
    }
  }

  class TaskControl {
    var v: seq<TaskSem>

    ghost predicate Valid()
      reads this
    {
      Distinct(v)
    }

    ghost function Regs(): Registry
      reads this
    {
      RegsOf(v)
    }

    constructor ()
      ensures Valid() && Regs() == map[]
    {
      v := [];
    }

    method Reg(b: BrickId) returns (ok: bool)
      requires Valid()
      modifies this
      ensures Valid() && Regs() == WithReg(old(Regs()), b)
      ensures ok <==> b !in old(Regs())
    {
      for i := 0 to |v|
        invariant forall k :: 0 <= k < i ==> v[k].brick != b
        invariant v == old(v)
      {
        if v[i].brick == b {
          RegsLookup(v, b);
          return false;
        }
      }
      RegsLookup(v, b);
      AppendRegs(v, b);
      v := v + [TaskSem(b, 0)];
      return true;
    }

    method Unreg(b: BrickId)
      requires Valid()
      modifies this
      ensures Valid() && Regs() == old(Regs()) - {b}
    {
      for i := 0 to |v|
        invariant forall k :: 0 <= k < i ==> v[k].brick != b
        invariant v == old(v)
      {
        if v[i].brick == b {
          WithoutIsDistinct(v, i);
          RemoveRegs(v, i);
          v := v[..i] + v[i + 1..];
          return;
        }
      }
      RegsLookup(v, b);
    }

    method SetSem(b: BrickId)
      requires Valid()
      modifies this
      ensures Valid() && Regs() == WithStop(old(Regs()), b)
    {
      for i := 0 to |v|
        invariant forall k :: 0 <= k < i ==> v[k].brick != b
        invariant v == old(v)
      {
        if v[i].brick == b {
          BumpRegs(v, i);
          v := v[i := TaskSem(b, v[i].count + 1)];
          return;
        }
      }
      RegsLookup(v, b);
    }

    // The non-blocking wait: a token that is taken is put back at once, so the
    // answer is the same for every later caller.
    method WaitSem(b: BrickId) returns (stop: bool)
      requires Valid()
      modifies this
      ensures Valid() && Regs() == old(Regs())
      ensures stop <==> StopRequested(Regs(), b)
    {
      for i := 0 to |v|
        invariant forall k :: 0 <= k < i ==> v[k].brick != b
        invariant v == old(v)
      {
        if v[i].brick == b {
          RegsLookup(v, b);
          if v[i].count == 0 {
            return false;  // sem_trywait fails
          }
          v := v[i := TaskSem(b, v[i].count - 1)];
          v := v[i := TaskSem(b, v[i].count + 1)];
          assert v == old(v);
          return true;
        }
      }
      RegsLookup(v, b);
      return false;
    }

    method SetAll()
      requires Valid()
      modifies this
      ensures Valid() && Regs() == WithStopAll(old(Regs()))
    {
      for i := 0 to |v|
        invariant |v| == |old(v)|
        invariant forall k :: 0 <= k < i ==> v[k] == TaskSem(old(v)[k].brick, old(v)[k].count + 1)
        invariant forall k :: i <= k < |v| ==> v[k] == old(v)[k]
      {
        v := v[i := TaskSem(v[i].brick, v[i].count + 1)];
      }
      BumpAllRegs(old(v), v);
    }
  }

  // A request reaches the brick it names and no other; set_all reaches every one.
  lemma StopReaches(r: Registry, b: BrickId, c: BrickId)
    ensures StopRequested(WithStop(r, b), c) <==> StopRequested(r, c) || (b == c && b in r)
    ensures StopRequested(WithStopAll(r), c) <==> c in r
    ensures b in WithReg(r, b) && (StopRequested(WithReg(r, b), c) <==> StopRequested(r, c))
  {
  }

  // Until the brick is taken out of the registry, a stop request stays: no poll
  // and no other request can withdraw it.
  lemma StopIsSticky(r: Registry, b: BrickId, c: BrickId)
    requires StopRequested(r, b)
    ensures StopRequested(WithReg(r, c), b) && StopRequested(WithStop(r, c), b) && StopRequested(WithStopAll(r), b)
    ensures c != b ==> StopRequested(r - {c}, b)
  {
  }
}
