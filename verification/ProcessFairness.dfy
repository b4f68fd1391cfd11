/** How long a ready process waits for the round-robin scheduler. */
module ProcessFairness {
  import opened ProcessTable
  import opened ProcessForest

  /** The scheduler's use of a PID as a table index is right: each used slot is its PID's remainder. */
  ghost predicate Aligned(s: System) {
    forall i: nat :: i < MAX_PROCESSES ==> AlignedAt(s.table, i)
  }

  predicate AlignedAt(t: Table, i: nat)
    requires i < MAX_PROCESSES
  {
    InUse(t[i]) ==> t[i].pid % MAX_PROCESSES == i
  }

  /** How many slots the search passes from slot c to reach slot p. */
  function Gap(c: nat, p: nat): nat
    requires c < MAX_PROCESSES && p < MAX_PROCESSES
  {
    if p >= c then p - c else p + MAX_PROCESSES - c
  }

  function Distance(s: System, p: nat): nat
    requires p < MAX_PROCESSES && s.current < MAX_PROCESSES
  {
    Gap(s.current, p)
  }

  /** Slot p holds a ready process other than the idle and the current one. */
  ghost predicate Waiting(s: System, p: nat) {
    && p < MAX_PROCESSES && s.current < MAX_PROCESSES && p != s.current
    && Runnable(s.table[p]) && InUse(s.table[s.current]) && s.enabled && Aligned(s)
  }

  /** The probe stops no later than at a runnable slot ahead. */
  lemma {:induction false} ProbeStops(t: Table, start: nat, i: nat, d: nat) returns (k: nat)
    requires i <= d < 2 * MAX_PROCESSES && Runnable(t[(start + d) % MAX_PROCESSES])
    ensures i <= k <= d && Probe(t, start, i) == (start + k) % MAX_PROCESSES
    ensures Runnable(t[(start + k) % MAX_PROCESSES])
    decreases d - i
  {
    if Runnable(t[(start + i) % MAX_PROCESSES]) {
      k := i;
    } else {
      k := ProbeStops(t, start, i + 1, d);
    }
  }

  /** The k-th slot after slot c, going round. */
  function Ahead(c: nat, k: nat): nat
    requires c < MAX_PROCESSES && k < MAX_PROCESSES
  {
    if c + 1 + k < MAX_PROCESSES then c + 1 + k else c + 1 + k - MAX_PROCESSES
  }

  lemma SlotOfPid(pid: nat, c: nat, k: nat)
    requires c < MAX_PROCESSES && k < MAX_PROCESSES && pid % MAX_PROCESSES == c
    ensures (pid + 1 + k) % MAX_PROCESSES == Ahead(c, k)
  {}

  lemma SearchFrom(t: Table, pid: nat, c: nat, d: nat) returns (k: nat)
    requires c < MAX_PROCESSES && d < MAX_PROCESSES && pid % MAX_PROCESSES == c && Runnable(t[Ahead(c, d)])
    ensures k <= d && Probe(t, pid + 1, 0) == Ahead(c, k) && Runnable(t[Ahead(c, k)])
  {
    SlotOfPid(pid, c, d);
    k := ProbeStops(t, pid + 1, 0, d);
    SlotOfPid(pid, c, k);
  }

  lemma CurrentAligned(s: System)
    requires s.current < MAX_PROCESSES && InUse(s.table[s.current]) && Aligned(s)
    ensures s.table[s.current].pid % MAX_PROCESSES == s.current
  {
    assert AlignedAt(s.table, s.current);
  }

  /** The search stops at the waiting process or before it. */
  lemma NextIsNearer(s: System, p: nat) returns (k: nat)
    requires Waiting(s, p)
    ensures k < Distance(s, p) && FindNext(s) == Ahead(s.current, k) && Runnable(s.table[FindNext(s)])
  {
    var d := Distance(s, p) - 1;
    assert Ahead(s.current, d) == p;
    CurrentAligned(s);
    k := SearchFrom(s.table, s.table[s.current].pid, s.current, d);
  }

  /** One call of the scheduler either dispatches the waiting process or brings the search nearer. */
  lemma ScheduleNears(s: System, p: nat)
    requires Waiting(s, p)
    ensures var s' := Schedule(s);
      && s'.current < MAX_PROCESSES && s'.current != s.current && s'.table[s'.current].timeSlice == TIME_SLICE
      && (s'.current == p || Distance(s', p) < Distance(s, p))
  {
    var k := NextIsNearer(s, p);
  }

  /** Ticks the process may still have to wait: ten for each slot between, and what is left of the
      running slice. */
  ghost function Patience(s: System, p: nat): nat
    requires p < MAX_PROCESSES && s.current < MAX_PROCESSES && Distance(s, p) > 0
  {
    var left := s.table[s.current].timeSlice;
    TIME_SLICE * (Distance(s, p) - 1) + if left == 0 then 1 else left
  }

  /** What one event does to a process that waits before and after it. */
  lemma WaitingStep(s: System, e: Event, p: nat)
    requires Inv(s, false) && Allowed(s, e) && Waiting(s, p) && Waiting(Apply(s, e), p)
    requires e.Exited? ==> e.pid != s.table[s.current].pid
    ensures Distance(Apply(s, e), p) <= Distance(s, p) - if e.Scheduled? then 1 else 0
    ensures Patience(Apply(s, e), p) <= Patience(s, p) - if e.Scheduled? || e.Ticked? then 1 else 0
  {
    match e
    case Scheduled =>
      assert RunOk(s.table, s.current, s.current);
      ScheduleNears(s, p);
    case Ticked =>
      assert RunOk(s.table, s.current, s.current);
      TickNears(s, p);
    case _ => OtherwiseNoLoss(s, e, p);
  }

  /** The other events leave the current slot and its slice alone. */
  lemma OtherwiseNoLoss(s: System, e: Event, p: nat)
    requires Inv(s, false) && Allowed(s, e) && !e.Scheduled? && !e.Ticked?
    requires e.Exited? ==> e.pid != s.table[s.current].pid
    ensures Apply(s, e).current == s.current
    ensures Apply(s, e).table[s.current].timeSlice == s.table[s.current].timeSlice
  {
    match e
    case Created(priority, memory) =>
      if FindFree(s.table, 0).Some? {
        CreateShape(s, priority, memory, FindFree(s.table, 0).value);
        assert Apply(s, e).table[s.current] == Counted(s, s.current);
      }
    case Exited(pid, code) => ExitElsewhere(s, pid, code);
    case _ =>
  }

  lemma TickingWaits(s: System, p: nat)
    requires Waiting(s, p)
    ensures Waiting(Ticking(s), p)
  {
    forall i: nat | i < MAX_PROCESSES
      ensures AlignedAt(Ticking(s).table, i)
    {
      assert AlignedAt(s.table, i);
    }
  }

  lemma TickNears(s: System, p: nat)
    requires Waiting(s, p) && s.table[s.current].timeSlice <= TIME_SLICE && Waiting(Tick(s), p)
    ensures Distance(Tick(s), p) <= Distance(s, p) && Patience(Tick(s), p) < Patience(s, p)
  {
    TickingWaits(s, p);
    if Ticking(s).table[s.current].timeSlice == 0 {
      ScheduleNears(Ticking(s), p);
    }
  }

  lemma ExitElsewhere(s: System, pid: nat, code: nat)
    requires Inv(s, false) && pid != 0 && pid != s.table[s.current].pid
    ensures Exit(s, pid, code).current == s.current
    ensures Exit(s, pid, code).table[s.current].timeSlice == s.table[s.current].timeSlice
  {
    if FindPid(s.table, pid, 0).Some? {
      var k := FindPid(s.table, pid, 0).value;
      assert HasPid(s.table, k, pid);
      ExitShape(s, pid, code, k, false);
      assert Exit(s, pid, code).table[s.current] == Bereaved(s.table, k, s.current);
    }
  }

  // ----- Bounded waiting -----

  ghost function Schedules(events: seq<Event>): nat {
    if events == [] then 0 else Schedules(events[..|events| - 1]) + if events[|events| - 1].Scheduled? then 1 else 0
  }

  ghost function Ticks(events: seq<Event>): nat {
    if events == [] then 0 else Ticks(events[..|events| - 1]) + if events[|events| - 1].Ticked? then 1 else 0
  }

  /** A stretch of a run during which slot p waits, slots are aligned and the running process does not
      exit. */
  ghost predicate WaitingRun(states: seq<System>, events: seq<Event>, p: nat) {
    && Run(states, events) && Inv(states[0], false)
    && (forall k :: 0 <= k < |states| ==> Waiting(states[k], p))
    && forall k :: 0 <= k < |events| && events[k].Exited? ==>
         events[k].pid != states[k].table[states[k].current].pid
  }

  lemma {:induction false} WaitingShrinks(states: seq<System>, events: seq<Event>, p: nat)
    requires WaitingRun(states, events, p)
    ensures Inv(states[|events|], false)
    ensures Waiting(states[|events|], p) && Waiting(states[0], p)
    ensures Distance(states[|events|], p) + Schedules(events) <= Distance(states[0], p)
    ensures Patience(states[|events|], p) + Ticks(events) <= Patience(states[0], p)
  {
    assert Waiting(states[0], p);
    if events != [] {
      var n := |events| - 1;
      var s, s', e := states[n], states[n + 1], events[n];
      WaitingShrinks(states[..n + 1], events[..n], p);
      assert Waiting(s, p) && Waiting(s', p) && StepsTo(s, e, s');
      WaitingNext(s, e, p);
    }
  }

  lemma WaitingNext(s: System, e: Event, p: nat)
    requires Inv(s, false) && Allowed(s, e) && Waiting(s, p) && Waiting(Apply(s, e), p)
    requires e.Exited? ==> e.pid != s.table[s.current].pid
    ensures Inv(Apply(s, e), false)
    ensures Distance(Apply(s, e), p) + Schedules([e]) <= Distance(s, p)
    ensures Patience(Apply(s, e), p) + Ticks([e]) <= Patience(s, p)
  {
    WaitingStep(s, e, p);
    StepKeeps(s, e, false);
  }

  /** A ready process that stays ready is running by the 31st call of the scheduler and by the 310th
      tick: while it still waits, there were at most 30 calls and 309 ticks. */
  lemma BoundedWaiting(states: seq<System>, events: seq<Event>, p: nat)
    requires WaitingRun(states, events, p)
    ensures Schedules(events) <= 30 && Ticks(events) <= 309
  {
    WaitingShrinks(states, events, p);
    assert RunOk(states[0].table, states[0].current, states[0].current);
  }
}
