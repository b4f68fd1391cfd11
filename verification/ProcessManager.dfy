/** The process manager and scheduler as they update the table in place, each call tied to its
    function in ProcessTable. */
module ProcessManager {
  import opened Options
  import opened ProcessTable

  class Manager {
    const slots: array<Process>
    var current: nat
    var nextPid: nat
    var enabled: bool

    ghost predicate Valid()
      reads this
    {
      slots.Length == MAX_PROCESSES && current < MAX_PROCESSES
    }

    ghost function State(): System
      requires Valid()
      reads this, slots
    {
      System(slots[..], current, nextPid, enabled)
    }

    /** process_init. */
    constructor ()
      ensures Valid() && State() == Boot() && fresh(slots)
    {
      slots := new Process[MAX_PROCESSES](_ => Process(0, Unused, 0, 0, 0, 0, 0));
      current, nextPid, enabled := 0, 1, false;
      new;
      slots[0] := slots[0].(state := Running);
      assert slots[..] == Boot().table;
    }

    /** process_get */
    method Get(pid: nat) returns (slot: Option<nat>)
      requires Valid()
      ensures slot == FindPid(slots[..], pid, 0)
    {
      var i := 0;
      while i < MAX_PROCESSES
        invariant 0 <= i <= MAX_PROCESSES && FindPid(slots[..], pid, 0) == FindPid(slots[..], pid, i)
      {
        if slots[i].pid == pid && InUse(slots[i]) {
          return Some(i);
        }
        i := i + 1;
      }
      return None;
    }

    /** process_alloc */
    method Alloc() returns (slot: Option<nat>)
      requires Valid()
      ensures slot == FindFree(slots[..], 0)
    {
      var i := 0;
      while i < MAX_PROCESSES
        invariant 0 <= i <= MAX_PROCESSES && FindFree(slots[..], 0) == FindFree(slots[..], i)
      {
        if !InUse(slots[i]) {
          return Some(i);
        }
        i := i + 1;
      }
      return None;
    }

    method CreateProcess(priority: nat, memory: bool) returns (pid: nat)
      requires Valid()
      modifies this`nextPid, slots
      ensures Valid() && (State(), pid) == old(Create(State(), priority, memory))
    {
      var found := Alloc();
      if found == None {
        return 0;
      }
      var slot := found.value;
      pid := nextPid;
      nextPid := nextPid + 1;
      var parent := slots[current].pid;
      slots[slot] := Process(pid, Ready, priority, parent, TIME_SLICE, 0, 0);
      ghost var t1 := old(slots[..])[slot := Process(pid, Ready, priority, parent, TIME_SLICE, 0, 0)];
      assert slots[..] == t1;
      if parent != 0 {
        var k := Get(parent);
        if k.Some? {
          slots[k.value] := slots[k.value].(childCount := slots[k.value].childCount + 1);
        }
      }
      assert slots[..] == CountChild(t1, parent);
      if !memory {
        slots[slot] := slots[slot].(state := Unused);
        return 0;
      }
    }

    method ExitWithCode(pid: nat, code: nat)
      requires Valid()
      modifies slots
      ensures Valid() && State() == old(Exit(State(), pid, code))
    {
      var found := Get(pid);
      if found == None {
        return;
      }
      var slot := found.value;
      slots[slot] := slots[slot].(exitCode := code);
      ghost var t1 := old(slots[..])[slot := old(slots[slot]).(exitCode := code)];
      assert slots[..] == t1;
      var parent := slots[slot].parentPid;
      if parent != 0 {
        var k := Get(parent);
        if k.Some? && slots[k.value].childCount > 0 {
          slots[k.value] := slots[k.value].(childCount := slots[k.value].childCount - 1);
        }
      }
      ghost var t2 := DiscountChild(t1, parent);
      assert slots[..] == t2;
      if slots[slot].childCount > 0 {
        Adopt(pid);
      }
      slots[slot] := slots[slot].(state := Unused, pid := 0);
    }

    /** Gives the children of a PID to PID 0. */
    method Adopt(pid: nat)
      requires Valid()
      modifies slots
      ensures slots[..] == old(Reparent(slots[..], pid))
    {
      var i := 0;
      while i < MAX_PROCESSES
        invariant 0 <= i <= MAX_PROCESSES
        invariant forall k :: 0 <= k < MAX_PROCESSES ==>
          slots[k] == if k < i then Orphaned(old(slots[k]), pid) else old(slots[k])
      {
        if InUse(slots[i]) && slots[i].parentPid == pid {
          slots[i] := slots[i].(parentPid := 0);
        }
        i := i + 1;
      }
    }

    method FindNextProcess() returns (slot: nat)
      requires Valid()
      ensures slot == FindNext(State())
    {
      ghost var t: Table := slots[..];
      var startPid := slots[current].pid + 1;
      var i := 0;
      while i < MAX_PROCESSES * 2
        invariant 0 <= i <= 2 * MAX_PROCESSES && Probe(t, startPid, 0) == Probe(t, startPid, i)
      {
        var idx := (startPid + i) % MAX_PROCESSES;
        if Runnable(slots[idx]) {
          return idx;
        }
        i := i + 1;
      }
      return 0;
    }

    method RunScheduler()
      requires Valid()
      modifies this`current, slots
      ensures Valid() && State() == old(Schedule(State()))
    {
      if !enabled {
        return;
      }
      var next := FindNextProcess();
      if next == current {
        return;
      }
      if slots[current].state == Running {
        slots[current] := slots[current].(state := Ready);
      }
      slots[next] := slots[next].(state := Running);
      slots[next] := slots[next].(timeSlice := TIME_SLICE);
      current := next;
    }

    method TimerTick()
      requires Valid()
      modifies this`current, slots
      ensures Valid() && State() == old(Tick(State()))
    {
      if !enabled {
        return;
      }
      if slots[current].timeSlice > 0 {
        slots[current] := slots[current].(timeSlice := slots[current].timeSlice - 1);
      }
      if slots[current].timeSlice == 0 {
        RunScheduler();
      }
    }

    /** The PIDs of the first `max` children of a PID, in slot order. */
    method ListChildren(pid: nat, out: array<nat>, max: nat) returns (count: nat)
      requires Valid() && max <= out.Length
      modifies out
      ensures count == if |ChildPids(slots[..], pid, 0)| < max then |ChildPids(slots[..], pid, 0)| else max
      ensures out[..count] == ChildPids(slots[..], pid, 0)[..count]
      ensures out[count..] == old(out[count..])
    {
      count := 0;
      var i := 0;
      while i < MAX_PROCESSES && count < max
        invariant 0 <= i <= MAX_PROCESSES && count <= max
        invariant ChildPids(slots[..], pid, 0) == out[..count] + ChildPids(slots[..], pid, i)
        invariant forall k :: count <= k < out.Length ==> out[k] == old(out[k])
      {
        if InUse(slots[i]) && slots[i].parentPid == pid {
          count := AddChild(out, count, slots[i].pid);
        }
        i := i + 1;
      }
    }

    /** `child_pids[count++] = pid` */
    method AddChild(out: array<nat>, count: nat, pid: nat) returns (next: nat)
      requires count < out.Length
      modifies out
      ensures next == count + 1 && out[..next] == old(out[..count]) + [pid]
      ensures forall k :: next <= k < out.Length ==> out[k] == old(out[k])
    {
      out[count] := pid;
      next := count + 1;
    }
  }
}
