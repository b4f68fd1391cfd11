/** What every run of the process table keeps: unique PIDs, a forest of parents rooted at the idle
    process, child counts that never fall short, and one running process. */
module ProcessForest {
  import opened Options
  import opened ProcessTable

  /** Slot i is used by the process with this PID. */
  ghost predicate HasPid(t: Table, i: nat, pid: nat) {
    i < MAX_PROCESSES && InUse(t[i]) && t[i].pid == pid
  }

  ghost predicate Lives(t: Table, pid: nat) {
    exists i: nat :: HasPid(t, i, pid)
  }

  /** PIDs are unique and below next_pid, and PID 0 is slot 0. */
  ghost predicate Pids(t: Table, nextPid: nat) {
    && HasPid(t, 0, 0) && nextPid > 0
    && (forall i: nat, pid: nat :: HasPid(t, i, pid) ==> pid < nextPid && (i == 0 <==> pid == 0))
    && (forall i: nat, j: nat, pid: nat :: HasPid(t, i, pid) && HasPid(t, j, pid) ==> i == j)
  }

  ghost predicate ParentOk(t: Table, i: nat)
    requires i < MAX_PROCESSES
  {
    InUse(t[i]) && t[i].parentPid != 0 ==> t[i].parentPid < t[i].pid && Lives(t, t[i].parentPid)
  }

  /** Every parent is the idle process or a live process with a smaller PID. */
  ghost predicate Forest(t: Table) {
    forall i: nat :: i < MAX_PROCESSES ==> ParentOk(t, i)
  }

  ghost predicate IsChild(t: Table, i: nat, pid: nat) {
    i < MAX_PROCESSES && InUse(t[i]) && t[i].parentPid == pid
  }

  ghost function ChildSlots(t: Table, pid: nat): set<nat> {
    set i: nat | i < MAX_PROCESSES && IsChild(t, i, pid)
  }

  /** child_count is at least the number of live children; with `exact`, it is that number. */
  ghost predicate CountOk(t: Table, i: nat, exact: bool)
    requires i < MAX_PROCESSES
  {
    InUse(t[i]) ==>
      && t[i].childCount >= |ChildSlots(t, t[i].pid)|
      && (exact ==> t[i].childCount == |ChildSlots(t, t[i].pid)|)
  }

  ghost predicate Counts(t: Table, exact: bool) {
    forall i: nat :: 0 < i < MAX_PROCESSES ==> CountOk(t, i, exact)
  }

  /** Nothing but the current process is RUNNING, and no slice exceeds ten ticks. */
  ghost predicate RunOk(t: Table, i: nat, current: nat)
    requires i < MAX_PROCESSES
  {
    (t[i].state == Running ==> i == current) && t[i].timeSlice <= TIME_SLICE
  }

  ghost predicate OneRunning(t: Table, current: nat) {
    forall i: nat :: i < MAX_PROCESSES ==> RunOk(t, i, current)
  }

  ghost predicate Family(t: Table, nextPid: nat, exact: bool) {
    Pids(t, nextPid) && Forest(t) && Counts(t, exact)
  }

  ghost predicate Inv(s: System, exact: bool) {
    && s.current < MAX_PROCESSES && InUse(s.table[s.current])
    && Family(s.table, s.nextPid, exact) && OneRunning(s.table, s.current)
  }

  // ----- Steps that change only states and time slices -----

  ghost predicate SameFamily(t: Table, t': Table) {
    forall i: nat :: i < MAX_PROCESSES ==> SameKin(t[i], t'[i])
  }

  predicate SameKin(p: Process, p': Process) {
    (InUse(p') <==> InUse(p)) && p'.pid == p.pid && p'.parentPid == p.parentPid && p'.childCount == p.childCount
  }

  lemma FamilyKept(t: Table, t': Table, nextPid: nat, exact: bool)
    requires Family(t, nextPid, exact) && SameFamily(t, t')
    ensures Family(t', nextPid, exact)
  {
    assert forall i: nat, pid: nat :: HasPid(t', i, pid) <==> HasPid(t, i, pid);
    forall pid: nat | Lives(t, pid)
      ensures Lives(t', pid)
    {
      var i: nat :| HasPid(t, i, pid);
      assert HasPid(t', i, pid);
    }
    forall i: nat | i < MAX_PROCESSES
      ensures ParentOk(t', i) && (i > 0 ==> CountOk(t', i, exact))
    {
      assert ParentOk(t, i) && (i > 0 ==> CountOk(t, i, exact)) && SameKin(t[i], t'[i]);
      assert ChildSlots(t', t[i].pid) == ChildSlots(t, t[i].pid);
    }
  }

  ghost predicate RunnableAt(t: Table, start: nat, j: nat) {
    Runnable(t[(start + j) % MAX_PROCESSES])
  }

  /** The search finds the first runnable slot, counting round the table twice from its start. */
  lemma {:induction false} ProbeIsFirst(t: Table, start: nat, i: nat) returns (k: nat)
    requires i <= 2 * MAX_PROCESSES
    ensures i <= k <= 2 * MAX_PROCESSES && forall j :: i <= j < k ==> !RunnableAt(t, start, j)
    ensures Probe(t, start, i) == if k < 2 * MAX_PROCESSES then (start + k) % MAX_PROCESSES else 0
    ensures k < 2 * MAX_PROCESSES ==> RunnableAt(t, start, k)
    decreases 2 * MAX_PROCESSES - i
  {
    if i < 2 * MAX_PROCESSES && !RunnableAt(t, start, i) {
      k := ProbeIsFirst(t, start, i + 1);
    } else {
      k := i;
    }
  }

  lemma OnTheWay(start: nat, slot: nat) returns (j: nat)
    requires slot < MAX_PROCESSES
    ensures j < MAX_PROCESSES && (start + j) % MAX_PROCESSES == slot
  {
    var first := start % MAX_PROCESSES;
    j := if slot >= first then slot - first else slot + MAX_PROCESSES - first;
  }

  /** The idle process is chosen if and only if no process is ready. */
  lemma IdleWhenNoneReady(s: System)
    requires s.current < MAX_PROCESSES && Pids(s.table, s.nextPid)
    ensures FindNext(s) == 0 <==> forall p: nat :: p < MAX_PROCESSES ==> !Runnable(s.table[p])
    ensures FindNext(s) == 0 || Runnable(s.table[FindNext(s)])
  {
    var start := s.table[s.current].pid + 1;
    var k := ProbeIsFirst(s.table, start, 0);
    assert HasPid(s.table, 0, 0);
    if k == 2 * MAX_PROCESSES {
      forall p: nat | p < MAX_PROCESSES
        ensures !Runnable(s.table[p])
      {
        var j := OnTheWay(start, p);
        assert !RunnableAt(s.table, start, j);
      }
    }
  }

  /** Scheduling, from a state whose current slot may just have been vacated. */
  lemma ScheduleKeeps(s: System, exact: bool)
    requires s.current < MAX_PROCESSES && Family(s.table, s.nextPid, exact) && OneRunning(s.table, s.current)
    requires !InUse(s.table[s.current]) ==> s.enabled
    ensures Inv(Schedule(s), exact)
  {
    var s' := Schedule(s);
    var t, t', next := s.table, s'.table, FindNext(s);
    IdleWhenNoneReady(s);
    assert HasPid(t, 0, 0);
    forall i: nat | i < MAX_PROCESSES
      ensures SameKin(t[i], t'[i]) && RunOk(t', i, s'.current)
    {
      assert RunOk(t, i, s.current);
    }
    FamilyKept(t, t', s.nextPid, exact);
  }

  lemma TickKeeps(s: System, exact: bool)
    requires Inv(s, exact)
    ensures Inv(Tick(s), exact)
  {
    var cur := s.table[s.current];
    if s.enabled && cur.timeSlice > 0 {
      var s1 := s.(table := s.table[s.current := cur.(timeSlice := cur.timeSlice - 1)]);
      forall i: nat | i < MAX_PROCESSES
        ensures SameKin(s.table[i], s1.table[i]) && RunOk(s1.table, i, s.current)
      {
        assert RunOk(s.table, i, s.current);
      }
      FamilyKept(s.table, s1.table, s.nextPid, exact);
      ScheduleKeeps(s1, exact);
    } else if s.enabled {
      ScheduleKeeps(s, exact);
    }
  }

  lemma SetStateKeeps(s: System, slot: nat, state: PState, exact: bool)
    requires Inv(s, exact) && slot < MAX_PROCESSES && InUse(s.table[slot]) && state in {Ready, Blocked}
    ensures Inv(SetState(s, slot, state), exact)
  {
    var t' := SetState(s, slot, state).table;
    forall i: nat | i < MAX_PROCESSES
      ensures SameKin(s.table[i], t'[i]) && RunOk(t', i, s.current)
    {
      assert RunOk(s.table, i, s.current);
    }
    FamilyKept(s.table, t', s.nextPid, exact);
  }

  /** Adding a process makes it READY, removing one makes it BLOCKED, and no other changes. */
  lemma AddedAndRemoved(s: System, slot: nat, i: nat)
    requires s.current < MAX_PROCESSES && slot < MAX_PROCESSES && InUse(s.table[slot]) && i < MAX_PROCESSES
    ensures Apply(s, Added(slot)).table[i] == if i == slot then s.table[i].(state := Ready) else s.table[i]
    ensures Apply(s, Removed(slot)).table[i] == if i == slot then s.table[i].(state := Blocked) else s.table[i]
  {}

  // ----- Creation -----

  /** The slot whose child_count a create raises, if any. */
  ghost predicate IsParent(s: System, i: nat)
    requires s.current < MAX_PROCESSES
  {
    i == s.current && s.table[s.current].pid != 0
  }

  /** What a create that finds a free slot does, slot by slot. */
  ghost predicate CreatedIn(s: System, s': System, slot: nat, memory: bool)
    requires s.current < MAX_PROCESSES && slot < MAX_PROCESSES
  {
    && s'.current == s.current && s'.nextPid == s.nextPid + 1 && slot != s.current && slot != 0
    && !InUse(s.table[slot]) && s'.table[slot].state == (if memory then Ready else Unused)
    && s'.table[slot].pid == s.nextPid && s'.table[slot].parentPid == s.table[s.current].pid
    && s'.table[slot].childCount == 0 && s'.table[slot].timeSlice == TIME_SLICE
    && s'.table[slot].exitCode == 0
    && forall i: nat :: i < MAX_PROCESSES && i != slot ==> s'.table[i] == Counted(s, i)
  }

  ghost function Counted(s: System, i: nat): Process
    requires s.current < MAX_PROCESSES && i < MAX_PROCESSES
  {
    if IsParent(s, i) then s.table[i].(childCount := s.table[i].childCount + 1) else s.table[i]
  }

  lemma CreateShape(s: System, priority: nat, memory: bool, slot: nat)
    requires s.current < MAX_PROCESSES && InUse(s.table[s.current]) && Pids(s.table, s.nextPid)
    requires FindFree(s.table, 0) == Some(slot)
    ensures CreatedIn(s, Create(s, priority, memory).0, slot, memory)
  {
    var parent := s.table[s.current].pid;
    var t := s.table[slot := Process(s.nextPid, Ready, priority, parent, TIME_SLICE, 0, 0)];
    assert HasPid(s.table, s.current, parent) && HasPid(s.table, 0, 0);
    if parent != 0 {
      var k := FindPid(t, parent, 0);
      assert InUse(t[s.current]) && t[s.current].pid == parent;
      assert HasPid(s.table, k.value, parent);
    }
  }

  /** The create counts a child that it then has no memory for. */
  ghost predicate Miscounts(s: System, memory: bool)
    requires s.current < MAX_PROCESSES
  {
    !memory && s.table[s.current].pid != 0 && FindFree(s.table, 0).Some?
  }

  /** What a caller of process_create gets: 0 exactly when the table is full or memory runs out, and then no
      process is new; otherwise the PID, unused before, of one new READY process with a full slice. */
  lemma CreateAnswer(s: System, priority: nat, memory: bool)
    requires s.current < MAX_PROCESSES && InUse(s.table[s.current]) && Pids(s.table, s.nextPid)
    ensures var r := Create(s, priority, memory);
      && (r.1 == 0 <==> !memory || forall i: nat :: i < MAX_PROCESSES ==> InUse(s.table[i]))
      && (forall pid: nat :: Lives(r.0.table, pid) <==> Lives(s.table, pid) || (pid == r.1 != 0))
      && (r.1 != 0 ==>
           !Lives(s.table, r.1)
           && exists slot: nat :: NewIn(r.0.table, slot, r.1, priority, s.table[s.current].pid))
  {
    var r := Create(s, priority, memory);
    if FindFree(s.table, 0).Some? {
      var slot := FindFree(s.table, 0).value;
      CreateShape(s, priority, memory, slot);
      forall i: nat, pid: nat
        ensures HasPid(r.0.table, i, pid) <==> HasPid(s.table, i, pid) || (memory && i == slot && pid == s.nextPid)
      {
        if i < MAX_PROCESSES && i != slot {
          assert r.0.table[i] == Counted(s, i);
        }
      }
      CreatedLives(s.table, r.0.table, slot, s.nextPid, memory);
      assert memory ==> NewIn(r.0.table, slot, r.1, priority, s.table[s.current].pid);
    }
  }

  lemma CreatedLives(t: Table, t': Table, slot: nat, pid: nat, memory: bool)
    requires forall i: nat, p: nat :: HasPid(t', i, p) <==> HasPid(t, i, p) || (memory && i == slot && p == pid)
    ensures forall p: nat :: Lives(t', p) <==> Lives(t, p) || (memory && p == pid)
  {
    forall p: nat
      ensures Lives(t', p) <==> Lives(t, p) || (memory && p == pid)
    {
      if Lives(t, p) {
        var i: nat :| HasPid(t, i, p);
        assert HasPid(t', i, p);
      }
      if memory && p == pid {
        assert HasPid(t', slot, p);
      }
    }
  }

  /** Slot i holds a process as process_create leaves it. */
  ghost predicate NewIn(t: Table, i: nat, pid: nat, priority: nat, parent: nat) {
    i < MAX_PROCESSES && t[i] == Process(pid, Ready, priority, parent, 10, 0, 0)
  }

  lemma WeakerCounts(t: Table, exact: bool, also: bool)
    requires Counts(t, exact)
    ensures Counts(t, exact && also)
  {
    forall i: nat | 0 < i < MAX_PROCESSES && InUse(t[i])
      ensures CountOk(t, i, exact && also)
    {
      assert CountOk(t, i, exact);
    }
  }

  lemma CreateKeeps(s: System, priority: nat, memory: bool, exact: bool)
    requires Inv(s, exact)
    ensures Inv(Create(s, priority, memory).0, exact && !Miscounts(s, memory))
  {
    var s' := Create(s, priority, memory).0;
    match FindFree(s.table, 0)
    case None =>
    case Some(slot) =>
      CreateShape(s, priority, memory, slot);
      CreatePids(s, s', slot, memory);
      CreateCounts(s, s', slot, memory, exact);
      forall i: nat | i < MAX_PROCESSES
        ensures RunOk(s'.table, i, s'.current)
      {
        assert RunOk(s.table, i, s.current);
      }
  }

  lemma CreatePids(s: System, s': System, slot: nat, memory: bool)
    requires s.current < MAX_PROCESSES && InUse(s.table[s.current]) && slot < MAX_PROCESSES
    requires Pids(s.table, s.nextPid) && Forest(s.table) && CreatedIn(s, s', slot, memory)
    ensures Pids(s'.table, s'.nextPid) && Forest(s'.table)
  {
    var t, t' := s.table, s'.table;
    assert forall i: nat, pid: nat ::
      HasPid(t', i, pid) <==> HasPid(t, i, pid) || (memory && i == slot && pid == s.nextPid);
    forall pid: nat | Lives(t, pid)
      ensures Lives(t', pid)
    {
      var i: nat :| HasPid(t, i, pid);
      assert HasPid(t', i, pid);
    }
    forall i: nat | i < MAX_PROCESSES
      ensures ParentOk(t', i)
    {
      assert ParentOk(t, i) && HasPid(t, s.current, t[s.current].pid) && Lives(t, t[s.current].pid);
    }
  }

  lemma CreateCounts(s: System, s': System, slot: nat, memory: bool, exact: bool)
    requires s.current < MAX_PROCESSES && InUse(s.table[s.current]) && slot < MAX_PROCESSES
    requires Family(s.table, s.nextPid, exact) && CreatedIn(s, s', slot, memory)
    ensures Counts(s'.table, exact && (memory || s.table[s.current].pid == 0))
  {
    forall i: nat | 0 < i < MAX_PROCESSES && InUse(s'.table[i])
      ensures CountOk(s'.table, i, exact && (memory || s.table[s.current].pid == 0))
    {
      CreateExtra(s, s', slot, memory, i);
      assert InUse(s.table[i]) ==> CountOk(s.table, i, exact);
    }
  }

  /** How far child_count is above the number of children. */
  ghost function Extra(t: Table, i: nat): int
    requires i < MAX_PROCESSES
  {
    t[i].childCount - |ChildSlots(t, t[i].pid)|
  }

  /** A create leaves every count as far off as it was, but for the caller's when it miscounts. */
  lemma CreateExtra(s: System, s': System, slot: nat, memory: bool, i: nat)
    requires s.current < MAX_PROCESSES && InUse(s.table[s.current]) && slot < MAX_PROCESSES
    requires Pids(s.table, s.nextPid) && Forest(s.table) && CreatedIn(s, s', slot, memory)
    requires 0 < i < MAX_PROCESSES && InUse(s'.table[i])
    ensures i == slot ==> !InUse(s.table[i]) && s'.table[i].pid == s.nextPid && Extra(s'.table, i) == 0
    ensures i != slot ==> InUse(s.table[i]) && s'.table[i].pid == s.table[i].pid
    ensures i != slot ==> Extra(s'.table, i) == Extra(s.table, i) + if !memory && IsParent(s, i) then 1 else 0
  {
    var t, pid := s.table, s'.table[i].pid;
    ChildrenCreated(s, s', slot, memory, pid);
    assert HasPid(t, s.current, t[s.current].pid);
    if i == slot {
      NoChildrenYet(t, s.nextPid);
    } else {
      assert s'.table[i] == Counted(s, i) && HasPid(t, i, pid);
      assert pid == t[s.current].pid <==> i == s.current;
    }
  }

  lemma ChildrenCreated(s: System, s': System, slot: nat, memory: bool, pid: nat)
    requires s.current < MAX_PROCESSES && slot < MAX_PROCESSES && CreatedIn(s, s', slot, memory)
    ensures |ChildSlots(s'.table, pid)| ==
      |ChildSlots(s.table, pid)| + if memory && pid == s.table[s.current].pid then 1 else 0
  {
    var before, after := ChildSlots(s.table, pid), ChildSlots(s'.table, pid);
    assert forall i: nat :: IsChild(s'.table, i, pid) <==>
      IsChild(s.table, i, pid) || (memory && i == slot && pid == s.table[s.current].pid);
    if memory && pid == s.table[s.current].pid {
      assert after == before + {slot} && slot !in before;
    } else {
      assert after == before;
    }
  }

  lemma NoChildrenYet(t: Table, nextPid: nat)
    requires Pids(t, nextPid) && Forest(t)
    ensures ChildSlots(t, nextPid) == {}
  {
    forall i: nat | i < MAX_PROCESSES
      ensures !IsChild(t, i, nextPid)
    {
      assert ParentOk(t, i) && HasPid(t, i, t[i].pid) == InUse(t[i]);
    }
  }

  // ----- Termination -----

  /** What the end of the process in slot k does to another slot. */
  ghost function Bereaved(t: Table, k: nat, i: nat): Process
    requires k < MAX_PROCESSES && i < MAX_PROCESSES
  {
    var p := t[i];
    var discounted := if t[k].parentPid != 0 && HasPid(t, i, t[k].parentPid) && p.childCount > 0
                      then p.(childCount := p.childCount - 1) else p;
    Orphaned(discounted, t[k].pid)
  }

  ghost predicate ExitedIn(t: Table, t': Table, k: nat)
    requires k < MAX_PROCESSES
  {
    && !InUse(t'[k]) && t'[k].pid == 0 && t'[k].timeSlice == t[k].timeSlice
    && forall i: nat :: i < MAX_PROCESSES && i != k ==> t'[i] == Bereaved(t, k, i)
  }

  /** The guard on child_count leaves no orphan behind. */
  lemma ExitShape(s: System, pid: nat, code: nat, k: nat, exact: bool)
    requires Family(s.table, s.nextPid, exact) && pid != 0 && HasPid(s.table, k, pid)
    ensures ExitedIn(s.table, Exit(s, pid, code).table, k)
    ensures Exit(s, pid, code).(table := s.table) == s
  {
    var t := s.table;
    var slot := FindPid(t, pid, 0);
    assert HasPid(t, slot.value, pid) && slot == Some(k);
    var t1 := t[k := t[k].(exitCode := code)];
    var t2 := DiscountChild(t1, t1[k].parentPid);
    DiscountShape(s, t1, k);
    if t[k].childCount == 0 {
      Childless(t, k, exact);
    }
    var t' := Exit(s, pid, code).table;
    assert t' == (if t2[k].childCount > 0 then Reparent(t2, pid) else t2)[k := t'[k]];
    forall i: nat | i < MAX_PROCESSES && i != k
      ensures t'[i] == Bereaved(t, k, i)
    {
      assert IsChild(t, i, pid) <==> InUse(t2[i]) && t2[i].parentPid == pid;
    }
  }

  /** What is left in the slot of a process that ended: its exit code, no PID, and otherwise what it was. */
  lemma ExitLeaves(s: System, pid: nat, code: nat, k: nat)
    requires Pids(s.table, s.nextPid) && Forest(s.table) && pid != 0 && HasPid(s.table, k, pid)
    ensures Exit(s, pid, code).table[k] == s.table[k].(state := Unused, pid := 0, exitCode := code)
    ensures forall other: nat :: !Lives(s.table, other) ==> Exit(s, other, code) == s
  {
    var t := s.table;
    assert HasPid(t, FindPid(t, pid, 0).value, pid);
    var t1 := t[k := t[k].(exitCode := code)];
    DiscountShape(s, t1, k);
    assert ParentOk(t, k);
    forall other: nat | !Lives(t, other)
      ensures Exit(s, other, code) == s
    {
      assert FindPid(t, other, 0).Some? ==> HasPid(t, FindPid(t, other, 0).value, other);
    }
  }

  /** A count of zero means there are no children. */
  lemma Childless(t: Table, k: nat, exact: bool)
    requires Counts(t, exact) && 0 < k < MAX_PROCESSES && InUse(t[k]) && t[k].childCount == 0
    ensures forall i: nat :: !IsChild(t, i, t[k].pid)
  {
    assert CountOk(t, k, exact) && ChildSlots(t, t[k].pid) == {};
    forall i: nat
      ensures !IsChild(t, i, t[k].pid)
    {
      assert i in ChildSlots(t, t[k].pid) <==> IsChild(t, i, t[k].pid);
    }
  }

  lemma DiscountShape(s: System, t1: Table, k: nat)
    requires Pids(s.table, s.nextPid) && Forest(s.table) && k < MAX_PROCESSES && InUse(s.table[k])
    requires t1 == s.table[k := s.table[k].(exitCode := t1[k].exitCode)]
    ensures forall i: nat :: i < MAX_PROCESSES ==>
      DiscountChild(t1, t1[k].parentPid)[i] ==
        if t1[k].parentPid != 0 && HasPid(s.table, i, t1[k].parentPid) && t1[i].childCount > 0
        then t1[i].(childCount := t1[i].childCount - 1) else t1[i]
    ensures DiscountChild(t1, t1[k].parentPid)[k] == t1[k]
  {
    var t, parent := s.table, t1[k].parentPid;
    assert ParentOk(t, k);
    if parent != 0 {
      var q: nat :| HasPid(t, q, parent);
      assert forall i: nat :: HasPid(t1, i, parent) <==> HasPid(t, i, parent);
      var found := FindPid(t1, parent, 0);
      assert HasPid(t1, q, parent);
      assert HasPid(t, found.value, parent);
    }
  }

  /** Exiting the idle process is what breaks the family, and the only exit that does. */
  lemma ExitKeepsFamily(s: System, pid: nat, code: nat, exact: bool)
    requires Inv(s, exact)
    ensures Family(Exit(s, pid, code).table, s.nextPid, exact) <==> pid != 0
  {
    if pid != 0 {
      ExitKeeps(s, pid, code, exact);
    } else {
      assert HasPid(s.table, 0, 0);
      assert FindPid(s.table, 0, 0) == Some(0);
      assert !HasPid(Exit(s, 0, code).table, 0, 0);
    }
  }

  lemma ExitKeeps(s: System, pid: nat, code: nat, exact: bool)
    requires Inv(s, exact) && pid != 0
    ensures var s' := Exit(s, pid, code);
      && Family(s'.table, s'.nextPid, exact) && OneRunning(s'.table, s'.current)
      && s'.current == s.current && s'.enabled == s.enabled
      && (pid != s.table[s.current].pid ==> InUse(s'.table[s'.current]))
  {
    var s' := Exit(s, pid, code);
    if FindPid(s.table, pid, 0).Some? {
      var k := FindPid(s.table, pid, 0).value;
      assert HasPid(s.table, k, pid);
      ExitShape(s, pid, code, k, exact);
      ExitPids(s.table, s'.table, s.nextPid, k, exact);
      ExitCounts(s.table, s'.table, s.nextPid, k, exact);
      forall i: nat | i < MAX_PROCESSES
        ensures RunOk(s'.table, i, s.current)
      {
        assert RunOk(s.table, i, s.current);
      }
    }
  }

  lemma ExitPids(t: Table, t': Table, nextPid: nat, k: nat, exact: bool)
    requires Pids(t, nextPid) && Forest(t) && 0 < k < MAX_PROCESSES && InUse(t[k]) && ExitedIn(t, t', k)
    ensures Pids(t', nextPid) && Forest(t')
  {
    assert forall i: nat, pid: nat :: HasPid(t', i, pid) <==> i != k && HasPid(t, i, pid);
    assert HasPid(t, k, t[k].pid);
    forall i: nat | i < MAX_PROCESSES
      ensures ParentOk(t', i)
    {
      assert ParentOk(t, i);
      if InUse(t'[i]) && t'[i].parentPid != 0 {
        var j: nat :| HasPid(t, j, t[i].parentPid);
        assert HasPid(t', j, t[i].parentPid);
      }
    }
  }

  lemma ExitCounts(t: Table, t': Table, nextPid: nat, k: nat, exact: bool)
    requires Family(t, nextPid, exact) && 0 < k < MAX_PROCESSES && InUse(t[k]) && ExitedIn(t, t', k)
    ensures Counts(t', exact)
  {
    assert HasPid(t, k, t[k].pid);
    forall i: nat | 0 < i < MAX_PROCESSES && InUse(t'[i])
      ensures CountOk(t', i, exact)
    {
      assert CountOk(t, i, exact) && HasPid(t, i, t[i].pid);
      ChildrenExited(t, t', k, t[i].pid);
    }
  }

  lemma ChildrenExited(t: Table, t': Table, k: nat, pid: nat)
    requires k < MAX_PROCESSES && InUse(t[k]) && ExitedIn(t, t', k) && pid != 0 && pid != t[k].pid
    ensures ChildSlots(t', pid) == ChildSlots(t, pid) - {k}
    ensures k in ChildSlots(t, pid) <==> t[k].parentPid == pid
  {
    assert forall i: nat :: IsChild(t', i, pid) <==> i != k && IsChild(t, i, pid);
  }

  /** A create keeps exact counts exact if and only if it has memory, is called by the idle process, or
      finds the table full. */
  lemma CreateCountsExactly(s: System, priority: nat, memory: bool)
    requires Inv(s, true)
    ensures Counts(Create(s, priority, memory).0.table, true) <==>
      memory || s.table[s.current].pid == 0 || FindFree(s.table, 0).None?
  {
    CreateKeeps(s, priority, memory, true);
    if Miscounts(s, memory) {
      FailedCreateOvercounts(s, priority);
      assert !CountOk(Create(s, priority, memory).0.table, s.current, true);
    }
  }

  /** Otherwise the caller's count is then one too high. */
  lemma FailedCreateOvercounts(s: System, priority: nat)
    requires Inv(s, true) && s.table[s.current].pid != 0 && FindFree(s.table, 0).Some?
    ensures var t' := Create(s, priority, false).0.table;
      && InUse(t'[s.current]) && t'[s.current].pid == s.table[s.current].pid
      && t'[s.current].childCount == |ChildSlots(t', t'[s.current].pid)| + 1
  {
    var slot, s', c := FindFree(s.table, 0).value, Create(s, priority, false).0, s.current;
    CreateShape(s, priority, false, slot);
    assert s'.table[c] == Counted(s, c) && HasPid(s.table, c, s.table[c].pid);
    CreateExtra(s, s', slot, false, c);
    assert CountOk(s.table, c, true);
  }

  ghost function ChildrenFrom(t: Table, pid: nat, i: nat): set<nat> {
    set k: nat | i <= k < MAX_PROCESSES && IsChild(t, k, pid)
  }

  lemma {:induction false} ChildrenListed(t: Table, pid: nat, i: nat)
    requires i <= MAX_PROCESSES
    ensures |ChildPids(t, pid, i)| == |ChildrenFrom(t, pid, i)|
    decreases MAX_PROCESSES - i
  {
    if i < MAX_PROCESSES {
      ChildrenListed(t, pid, i + 1);
      if IsChild(t, i, pid) {
        assert ChildrenFrom(t, pid, i) == {i} + ChildrenFrom(t, pid, i + 1);
      } else {
        assert ChildrenFrom(t, pid, i) == ChildrenFrom(t, pid, i + 1);
      }
    }
  }

  /** What process_list_children lists: the PIDs of the live processes with that parent, and no others. */
  lemma {:induction false} ChildrenAre(t: Table, pid: nat, i: nat)
    requires i <= MAX_PROCESSES
    ensures forall child :: child in ChildPids(t, pid, i) <==>
      exists k :: i <= k < MAX_PROCESSES && IsChild(t, k, pid) && t[k].pid == child
    decreases MAX_PROCESSES - i
  {
    if i < MAX_PROCESSES {
      ChildrenAre(t, pid, i + 1);
      forall child
        ensures child in ChildPids(t, pid, i) <==>
          (IsChild(t, i, pid) && t[i].pid == child) || child in ChildPids(t, pid, i + 1)
      {}
    }
  }

  /** process_list_children never has more to list than child_count says. */
  lemma ListingFitsCount(s: System, slot: nat, exact: bool)
    requires Inv(s, exact) && 0 < slot < MAX_PROCESSES && InUse(s.table[slot])
    ensures |ChildPids(s.table, s.table[slot].pid, 0)| <= s.table[slot].childCount
    ensures exact ==> |ChildPids(s.table, s.table[slot].pid, 0)| == s.table[slot].childCount
  {
    var pid := s.table[slot].pid;
    ChildrenListed(s.table, pid, 0);
    assert ChildrenFrom(s.table, pid, 0) == ChildSlots(s.table, pid);
    assert CountOk(s.table, slot, exact);
  }

  // ----- Every run -----

  ghost predicate MiscountsIn(s: System, e: Event) {
    e.Created? && s.current < MAX_PROCESSES && Miscounts(s, e.memory)
  }

  /** The first k events miscount no child. */
  ghost predicate NoneMiscounts(states: seq<System>, events: seq<Event>, k: nat)
    requires k <= |events| <= |states|
  {
    forall j :: 0 <= j < k ==> !MiscountsIn(states[j], events[j])
  }

  lemma BootHolds()
    ensures Inv(Boot(), true) && Boot().current == 0 && Boot().nextPid == 1 && !Boot().enabled
    ensures Boot().table[0].state == Running && forall i :: 1 <= i < 32 ==> !InUse(Boot().table[i])
  {
    var t := Boot().table;
    assert forall i: nat :: i < MAX_PROCESSES ==> (InUse(t[i]) <==> i == 0);
    assert forall i: nat :: i < MAX_PROCESSES ==> ParentOk(t, i) && RunOk(t, i, 0);
    assert HasPid(t, 0, 0);
  }

  lemma StepKeeps(s: System, e: Event, exact: bool)
    requires Inv(s, exact) && Allowed(s, e)
    ensures Inv(Apply(s, e), exact && !MiscountsIn(s, e))
  {
    match e
    case Started =>
    case Created(priority, memory) => CreateKeeps(s, priority, memory, exact);
    case Exited(pid, code) =>
      ExitKeeps(s, pid, code, exact);
      if pid == s.table[s.current].pid {
        ScheduleKeeps(Exit(s, pid, code), exact);
      }
    case Scheduled => ScheduleKeeps(s, exact);
    case Ticked => TickKeeps(s, exact);
    case Added(slot) => SetStateKeeps(s, slot, Ready, exact);
    case Removed(slot) => SetStateKeeps(s, slot, Blocked, exact);
  }

  /** In every state of every run from boot PIDs are unique, parents form a forest rooted at the idle
      process, child counts are at least the number of live children, and at most the current process
      is RUNNING; the counts are exact as long as no create miscounts. */
  lemma {:induction false} RunKeeps(states: seq<System>, events: seq<Event>, k: nat)
    requires Run(states, events) && states[0] == Boot() && k <= |events|
    ensures Inv(states[k], NoneMiscounts(states, events, k))
  {
    if k == 0 {
      BootHolds();
    } else {
      RunKeeps(states, events, k - 1);
      assert StepsTo(states[k - 1], events[k - 1], states[k]);
      StepKeeps(states[k - 1], events[k - 1], NoneMiscounts(states, events, k - 1));
    }
  }

  // ----- How far counts are off -----

  /** No event but a create that miscounts changes how far a live process's count is off; a new process
      starts with a right one. */
  lemma StepExtra(s: System, e: Event, i: nat)
    requires Inv(s, false) && Allowed(s, e) && 0 < i < MAX_PROCESSES && InUse(Apply(s, e).table[i])
    ensures var p, p' := s.table[i], Apply(s, e).table[i];
      if InUse(p) then
        && p'.pid == p.pid
        && Extra(Apply(s, e).table, i) == Extra(s.table, i) + if MiscountsIn(s, e) && i == s.current then 1 else 0
      else p'.pid == s.nextPid && Extra(Apply(s, e).table, i) == 0 && !MiscountsIn(s, e)
  {
    match e
    case Created(priority, memory) =>
      if FindFree(s.table, 0).Some? {
        var slot := FindFree(s.table, 0).value;
        CreateShape(s, priority, memory, slot);
        CreateExtra(s, Create(s, priority, memory).0, slot, memory, i);
        assert HasPid(s.table, i, s.table[i].pid) || i == slot;
      }
    case Exited(pid, code) => ExitedExtra(s, pid, code, i);
    case _ =>
      SameFamilyStep(s, e);
      SameKinExtra(s.table, Apply(s, e).table, i);
  }

  lemma ExitedExtra(s: System, pid: nat, code: nat, i: nat)
    requires Inv(s, false) && Allowed(s, Exited(pid, code)) && 0 < i < MAX_PROCESSES
    requires InUse(Apply(s, Exited(pid, code)).table[i])
    ensures InUse(s.table[i]) && Apply(s, Exited(pid, code)).table[i].pid == s.table[i].pid
    ensures Extra(Apply(s, Exited(pid, code)).table, i) == Extra(s.table, i)
  {
    var s1, s' := Exit(s, pid, code), Apply(s, Exited(pid, code));
    ExitKeeps(s, pid, code, false);
    if pid == s.table[s.current].pid {
      ScheduleSame(s1);
      SameKinExtra(s1.table, s'.table, i);
      assert SameKin(s1.table[i], s'.table[i]);
    }
    ExitExtra(s, pid, code, i);
  }

  lemma ExitExtra(s: System, pid: nat, code: nat, i: nat)
    requires Inv(s, false) && pid != 0 && 0 < i < MAX_PROCESSES && InUse(Exit(s, pid, code).table[i])
    ensures InUse(s.table[i]) && Exit(s, pid, code).table[i].pid == s.table[i].pid
    ensures Extra(Exit(s, pid, code).table, i) == Extra(s.table, i)
  {
    var t, t' := s.table, Exit(s, pid, code).table;
    if FindPid(t, pid, 0).Some? {
      var k := FindPid(t, pid, 0).value;
      assert HasPid(t, k, pid);
      ExitShape(s, pid, code, k, false);
      assert t'[i] == Bereaved(t, k, i);
      assert HasPid(t, i, t[i].pid) && CountOk(t, i, false);
      ChildrenExited(t, t', k, t[i].pid);
    }
  }

  lemma ScheduleSame(s: System)
    requires s.current < MAX_PROCESSES && Pids(s.table, s.nextPid)
    ensures SameFamily(s.table, Schedule(s).table)
  {
    IdleWhenNoneReady(s);
    assert HasPid(s.table, 0, 0);
  }

  lemma SameFamilyStep(s: System, e: Event)
    requires Inv(s, false) && Allowed(s, e) && !e.Created? && !e.Exited?
    ensures SameFamily(s.table, Apply(s, e).table)
  {
    if e.Scheduled? {
      ScheduleSame(s);
    } else if e.Ticked? {
      var cur := s.table[s.current];
      var t1 := s.table[s.current := cur.(timeSlice := if cur.timeSlice > 0 then cur.timeSlice - 1 else 0)];
      assert SameFamily(s.table, t1);
      FamilyKept(s.table, t1, s.nextPid, false);
      ScheduleSame(s.(table := t1));
      assert cur.timeSlice == 0 ==> t1 == s.table;
    }
  }

  lemma SameKinExtra(t: Table, t': Table, i: nat)
    requires i < MAX_PROCESSES && SameFamily(t, t')
    ensures Extra(t', i) == Extra(t, i)
  {
    assert SameKin(t[i], t'[i]);
    assert forall k: nat :: IsChild(t', k, t[i].pid) <==>
      k < MAX_PROCESSES && SameKin(t[k], t'[k]) && IsChild(t, k, t[i].pid);
    assert ChildSlots(t', t[i].pid) == ChildSlots(t, t[i].pid);
  }

  /** The creates of the first k events that miscounted a child of the process with this PID. */
  ghost function Failures(states: seq<System>, events: seq<Event>, pid: nat, k: nat): nat
    requires k <= |events| <= |states|
  {
    if k == 0 then 0
    else
      var s := states[k - 1];
      Failures(states, events, pid, k - 1) +
        if MiscountsIn(s, events[k - 1]) && s.table[s.current].pid == pid then 1 else 0
  }

  /** What the run's k-th event does to the slots' counts and to the PID counter. */
  lemma RunStep(states: seq<System>, events: seq<Event>, k: nat)
    requires Run(states, events) && states[0] == Boot() && 0 < k <= |events|
    ensures var s, s', e := states[k - 1], states[k], events[k - 1];
      && s.current < MAX_PROCESSES && s.table[s.current].pid < s.nextPid <= s'.nextPid
      && forall i: nat :: 0 < i < MAX_PROCESSES && InUse(s'.table[i]) ==> CountStep(s, s', MiscountsIn(s, e), i)
  {
    var s, s', e := states[k - 1], states[k], events[k - 1];
    RunKeeps(states, events, k - 1);
    WeakerCounts(s.table, NoneMiscounts(states, events, k - 1), false);
    assert StepsTo(s, e, s');
    OneStep(s, s', e);
  }

  lemma OneStep(s: System, s': System, e: Event)
    requires Inv(s, false) && Allowed(s, e) && s' == Apply(s, e)
    ensures s.table[s.current].pid < s.nextPid <= s'.nextPid
    ensures forall i: nat :: 0 < i < MAX_PROCESSES && InUse(s'.table[i]) ==> CountStep(s, s', MiscountsIn(s, e), i)
  {
    assert HasPid(s.table, s.current, s.table[s.current].pid);
    forall i: nat | 0 < i < MAX_PROCESSES && InUse(s'.table[i])
      ensures CountStep(s, s', MiscountsIn(s, e), i)
    {
      StepExtra(s, e, i);
      assert HasPid(s.table, i, s.table[i].pid) == InUse(s.table[i]);
    }
  }

  ghost predicate CountStep(s: System, s': System, miscounts: bool, i: nat)
    requires s.current < MAX_PROCESSES && i < MAX_PROCESSES
  {
    if InUse(s.table[i]) then
      && s'.table[i].pid == s.table[i].pid
      && Extra(s'.table, i) == Extra(s.table, i) +
           if miscounts && s.table[s.current].pid == s.table[i].pid then 1 else 0
    else s'.table[i].pid == s.nextPid && Extra(s'.table, i) == 0
  }

  /** In every state of every run from boot a live process's child_count is its number of live children
      plus the creates it made that ran out of memory, ever. */
  lemma {:induction false} CountsOnRun(states: seq<System>, events: seq<Event>, k: nat, i: nat)
    requires Run(states, events) && states[0] == Boot() && k <= |events|
    requires 0 < i < MAX_PROCESSES && InUse(states[k].table[i])
    ensures Extra(states[k].table, i) == Failures(states, events, states[k].table[i].pid, k)
    decreases k
  {
    if k > 0 {
      var s := states[k - 1];
      SlotStep(states, events, k, i);
      if InUse(s.table[i]) {
        CountsOnRun(states, events, k - 1, i);
      } else {
        NoFailuresYet(states, events, k - 1, s.nextPid);
      }
    }
  }

  lemma SlotStep(states: seq<System>, events: seq<Event>, k: nat, i: nat)
    requires Run(states, events) && states[0] == Boot() && 0 < k <= |events|
    requires 0 < i < MAX_PROCESSES && InUse(states[k].table[i])
    ensures var s := states[k - 1];
      && s.current < MAX_PROCESSES && s.table[s.current].pid < s.nextPid
      && CountStep(s, states[k], MiscountsIn(s, events[k - 1]), i)
  {
    RunStep(states, events, k);
  }

  /** A PID not given out has made no call. */
  lemma {:induction false} NoFailuresYet(states: seq<System>, events: seq<Event>, k: nat, pid: nat)
    requires Run(states, events) && states[0] == Boot() && k <= |events| && pid >= states[k].nextPid
    ensures Failures(states, events, pid, k) == 0
    decreases k
  {
    if k > 0 {
      RunStep(states, events, k);
      NoFailuresYet(states, events, k - 1, pid);
    }
  }
}
