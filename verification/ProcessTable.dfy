/** The process table of simpleos and its round-robin scheduler as functions on values: what each
    call does to the table, the current slot and the PID counter. */
module ProcessTable {
  import opened Options

  const MAX_PROCESSES: int := 32
  const TIME_SLICE: int := 10

  datatype PState = Unused | Ready | Running | Blocked

  datatype Process = Process(pid: nat, state: PState, priority: nat, parentPid: nat, timeSlice: nat,
                             exitCode: nat, childCount: nat)

  type Table = t: seq<Process> | |t| == MAX_PROCESSES witness seq(MAX_PROCESSES, _ => Process(0, Unused, 0, 0, 0, 0, 0))

  /** `current` is the slot current_process points at. */
  datatype System = System(table: Table, current: nat, nextPid: nat, enabled: bool)

  predicate InUse(p: Process) {
    p.state != Unused
  }

  /** process_init after the statics' initial values. */
  function Boot(): System {
    System(seq(MAX_PROCESSES, i => Process(0, if i == 0 then Running else Unused, 0, 0, 0, 0, 0)), 0, 1, false)
  }

  // ----- Looking up slots -----

  /** The first used slot from i on with a PID. */
  function FindPid(t: Table, pid: nat, i: nat): (slot: Option<nat>)
    requires i <= MAX_PROCESSES
    ensures slot.Some? ==> i <= slot.value < MAX_PROCESSES && InUse(t[slot.value]) && t[slot.value].pid == pid
    ensures slot.Some? ==> forall k :: i <= k < slot.value ==> !(InUse(t[k]) && t[k].pid == pid)
    ensures slot == None ==> forall k :: i <= k < MAX_PROCESSES ==> !(InUse(t[k]) && t[k].pid == pid)
    decreases MAX_PROCESSES - i
  {
    if i == MAX_PROCESSES then None
    else if t[i].pid == pid && InUse(t[i]) then Some(i)
    else FindPid(t, pid, i + 1)
  }

  /** The first unused slot from i on. */
  function FindFree(t: Table, i: nat): (slot: Option<nat>)
    requires i <= MAX_PROCESSES
    ensures slot.Some? ==> i <= slot.value < MAX_PROCESSES && !InUse(t[slot.value])
    ensures slot.Some? ==> forall k :: i <= k < slot.value ==> InUse(t[k])
    ensures slot == None ==> forall k :: i <= k < MAX_PROCESSES ==> InUse(t[k])
    decreases MAX_PROCESSES - i
  {
    if i == MAX_PROCESSES then None else if !InUse(t[i]) then Some(i) else FindFree(t, i + 1)
  }

  // ----- Creating and ending processes -----

  /** process_create; `memory` says whether page directory, stacks and mapping could be allocated. */
  function Create(s: System, priority: nat, memory: bool): (r: (System, nat))
    requires s.current < MAX_PROCESSES
  {
    match FindFree(s.table, 0)
    case None => (s, 0)
    case Some(slot) =>
      var parent := s.table[s.current].pid;
      var t := CountChild(s.table[slot := Process(s.nextPid, Ready, priority, parent, TIME_SLICE, 0, 0)], parent);
      var t' := if memory then t else t[slot := t[slot].(state := Unused)];
      (s.(table := t', nextPid := s.nextPid + 1), if memory then s.nextPid else 0)
  }

  /** `parent->child_count++` for a parent that exists and is not PID 0. */
  function CountChild(t: Table, parent: nat): Table {
    if parent == 0 then t
    else match FindPid(t, parent, 0)
         case None => t
         case Some(k) => t[k := t[k].(childCount := t[k].childCount + 1)]
  }

  /** process_exit_with_code. */
  function Exit(s: System, pid: nat, code: nat): System {
    match FindPid(s.table, pid, 0)
    case None => s
    case Some(slot) =>
      var t1 := s.table[slot := s.table[slot].(exitCode := code)];
      var t2 := DiscountChild(t1, t1[slot].parentPid);
      var t3 := if t2[slot].childCount > 0 then Reparent(t2, pid) else t2;
      s.(table := t3[slot := t3[slot].(state := Unused, pid := 0)])
  }

  function DiscountChild(t: Table, parent: nat): Table {
    if parent == 0 then t
    else match FindPid(t, parent, 0)
         case None => t
         case Some(k) => if t[k].childCount > 0 then t[k := t[k].(childCount := t[k].childCount - 1)] else t
  }

  /** The loop that hands the children of a PID to PID 0. */
  function Reparent(t: Table, pid: nat): Table {
    seq(MAX_PROCESSES, i requires 0 <= i < MAX_PROCESSES => Orphaned(t[i], pid))
  }

  function Orphaned(p: Process, pid: nat): Process {
    if InUse(p) && p.parentPid == pid then p.(parentPid := 0) else p
  }

  /** The PIDs of the live children of a PID in the slots from i on. */
  ghost function ChildPids(t: Table, pid: nat, i: nat): seq<nat>
    requires i <= MAX_PROCESSES
    decreases MAX_PROCESSES - i
  {
    if i == MAX_PROCESSES then []
    else if InUse(t[i]) && t[i].parentPid == pid then [t[i].pid] + ChildPids(t, pid, i + 1)
    else ChildPids(t, pid, i + 1)
  }

  // ----- Scheduling -----

  predicate Runnable(p: Process) {
    p.state == Ready && p.pid != 0
  }

  /** The slot the search loop of find_next_process returns, from its i-th probe on. */
  function Probe(t: Table, start: nat, i: nat): (slot: nat)
    ensures slot < MAX_PROCESSES
    decreases 2 * MAX_PROCESSES - i
  {
    if i >= 2 * MAX_PROCESSES then 0
    else if Runnable(t[(start + i) % MAX_PROCESSES]) then (start + i) % MAX_PROCESSES
    else Probe(t, start, i + 1)
  }

  function FindNext(s: System): (slot: nat)
    requires s.current < MAX_PROCESSES
    ensures slot < MAX_PROCESSES
  {
    Probe(s.table, s.table[s.current].pid + 1, 0)
  }

  /** scheduler_schedule. */
  function Schedule(s: System): System
    requires s.current < MAX_PROCESSES
  {
    var next := FindNext(s);
    if !s.enabled || next == s.current then s
    else
      var cur := s.table[s.current];
      var t := if cur.state == Running then s.table[s.current := cur.(state := Ready)] else s.table;
      s.(table := t[next := t[next].(state := Running, timeSlice := TIME_SLICE)], current := next)
  }

  /** The state of a tick just before it looks at the slice. */
  function Ticking(s: System): System
    requires s.current < MAX_PROCESSES
  {
    var cur := s.table[s.current];
    if cur.timeSlice > 0 then s.(table := s.table[s.current := cur.(timeSlice := cur.timeSlice - 1)]) else s
  }

  /** scheduler_tick. */
  function Tick(s: System): System
    requires s.current < MAX_PROCESSES
  {
    if !s.enabled then s
    else
      var s' := Ticking(s);
      if s'.table[s.current].timeSlice == 0 then Schedule(s') else s'
  }

  function SetState(s: System, slot: nat, state: PState): System
    requires slot < MAX_PROCESSES
  {
    s.(table := s.table[slot := s.table[slot].(state := state)])
  }

  // ----- Runs -----

  /** What can happen between two states: a process other than the idle one ends (and if it is the
      running one, the scheduler is called at once, as the exit system call does), is created, made
      ready or blocked, or the scheduler runs. */
  datatype Event =
    | Started
    | Created(priority: nat, memory: bool)
    | Exited(pid: nat, code: nat)
    | Scheduled
    | Ticked
    | Added(slot: nat)
    | Removed(slot: nat)

  predicate Allowed(s: System, e: Event)
    requires s.current < MAX_PROCESSES
  {
    match e
    case Exited(pid, _) => pid != 0 && (pid == s.table[s.current].pid ==> s.enabled)
    case Added(slot) => slot < MAX_PROCESSES && InUse(s.table[slot])
    case Removed(slot) => slot < MAX_PROCESSES && InUse(s.table[slot])
    case _ => true
  }

  function Apply(s: System, e: Event): System
    requires s.current < MAX_PROCESSES && Allowed(s, e)
  {
    match e
    case Started => s.(enabled := true)
    case Created(priority, memory) => Create(s, priority, memory).0
    case Exited(pid, code) =>
      if pid == s.table[s.current].pid then Schedule(Exit(s, pid, code)) else Exit(s, pid, code)
    case Scheduled => Schedule(s)
    case Ticked => Tick(s)
    case Added(slot) => SetState(s, slot, Ready)
    case Removed(slot) => SetState(s, slot, Blocked)
  }

  ghost predicate Run(states: seq<System>, events: seq<Event>) {
    |states| == |events| + 1 && forall k :: 0 <= k < |events| ==> StepsTo(states[k], events[k], states[k + 1])
  }

  ghost predicate StepsTo(s: System, e: Event, s': System) {
    s.current < MAX_PROCESSES && Allowed(s, e) && s' == Apply(s, e)
  }
}
