/** Exactly when the scheduler passes a ready process over for ever.  Between schedules that nothing
    else disturbs, the running slot alone decides which slot runs next, so the calls walk a path through
    the table; a process is passed over if and only if the path is caught in slots without it. */
module ProcessTraps {
  import opened Options
  import opened ProcessTable
  import opened ProcessForest
  import opened ProcessFairness
  import opened Routes

  // ----- The path of the scheduler -----

  /** Takes part in the rotation: ready, or running and ready again at the next schedule. */
  predicate Contender(p: Process) {
    p.pid != 0 && (p.state == Ready || p.state == Running)
  }

  /** The table while slot c runs and every other contender is ready. */
  function Turn(t: Table, c: nat): Table {
    seq(MAX_PROCESSES, i requires 0 <= i < MAX_PROCESSES =>
      if i == c then t[i].(state := Running) else if Contender(t[i]) then t[i].(state := Ready) else t[i])
  }

  /** The slot that runs after slot c. */
  function Next(t: Table, c: nat): (slot: nat)
    requires c < MAX_PROCESSES
    ensures slot < MAX_PROCESSES
  {
    Probe(Turn(t, c), t[c].pid + 1, 0)
  }

  /** For every slot the one that runs after it. */
  ghost function Route(t: Table): (next: seq<nat>)
    ensures |next| == MAX_PROCESSES && IsRoute(next)
    ensures forall c {:trigger Next(t, c)} :: 0 <= c < MAX_PROCESSES ==> next[c] == Next(t, c)
  {
    seq(MAX_PROCESSES, c requires 0 <= c < MAX_PROCESSES => Next(t, c))
  }

  /** The current process runs and the scheduler is on. */
  ghost predicate Settled(s: System) {
    Inv(s, false) && s.enabled && s.table[s.current].state == Running
  }

  // ----- Schedules follow the path -----

  /** Later, with slot `s.current` running, the contenders of t are still the contenders. */
  ghost predicate Follows(t: Table, s: System) {
    && s.enabled && s.current < MAX_PROCESSES && s.table[s.current].state == Running
    && t[0].pid == 0 && (s.current != 0 ==> Contender(t[s.current]))
    && forall i: nat :: i < MAX_PROCESSES ==> SameChance(t, s, i)
  }

  ghost predicate SameChance(t: Table, s: System, i: nat)
    requires i < MAX_PROCESSES
  {
    s.table[i].pid == t[i].pid && (Runnable(s.table[i]) <==> i != s.current && Contender(t[i]))
  }

  lemma FollowsItself(s: System)
    requires Settled(s)
    ensures Follows(s.table, s)
  {
    assert HasPid(s.table, 0, 0) && HasPid(s.table, s.current, s.table[s.current].pid);
    forall i: nat | i < MAX_PROCESSES
      ensures SameChance(s.table, s, i)
    {
      assert RunOk(s.table, i, s.current);
    }
  }

  lemma {:induction false} SameProbe(t: Table, t': Table, start: nat, i: nat)
    requires forall k: nat :: k < MAX_PROCESSES ==> (Runnable(t[k]) <==> Runnable(t'[k]))
    ensures Probe(t, start, i) == Probe(t', start, i)
    decreases 2 * MAX_PROCESSES - i
  {
    if i < 2 * MAX_PROCESSES {
      SameProbe(t, t', start, i + 1);
    }
  }

  lemma ProbeFinds(t: Table, start: nat)
    ensures Probe(t, start, 0) == 0 || Runnable(t[Probe(t, start, 0)])
  {
    var k := ProbeIsFirst(t, start, 0);
  }

  lemma TurnRunnable(t: Table, s: System)
    requires Follows(t, s)
    ensures forall k: nat :: k < MAX_PROCESSES ==> (Runnable(Turn(t, s.current)[k]) <==> Runnable(s.table[k]))
  {
    forall k: nat | k < MAX_PROCESSES
      ensures Runnable(Turn(t, s.current)[k]) <==> Runnable(s.table[k])
    {
      assert SameChance(t, s, k);
    }
  }

  lemma SameSearch(t: Table, s: System)
    requires Follows(t, s)
    ensures FindNext(s) == Next(t, s.current)
  {
    TurnRunnable(t, s);
    assert SameChance(t, s, s.current);
    SameProbe(Turn(t, s.current), s.table, t[s.current].pid + 1, 0);
  }

  lemma NextFollows(t: Table, s: System)
    requires Follows(t, s)
    ensures FindNext(s) == Next(t, s.current)
    ensures FindNext(s) == 0 || (FindNext(s) != s.current && Contender(t[FindNext(s)]))
  {
    SameSearch(t, s);
    var next := FindNext(s);
    ProbeFinds(s.table, s.table[s.current].pid + 1);
    if next != 0 {
      RunnableContends(t, s, next);
    }
  }

  lemma RunnableContends(t: Table, s: System, i: nat)
    requires Follows(t, s) && i < MAX_PROCESSES && Runnable(s.table[i])
    ensures i != s.current && Contender(t[i])
  {
    assert SameChance(t, s, i);
  }

  lemma ScheduleFollows(t: Table, s: System)
    requires Follows(t, s)
    ensures Follows(t, Schedule(s)) && Schedule(s).current == Next(t, s.current)
  {
    NextFollows(t, s);
    if FindNext(s) != s.current {
      Dispatched(t, s, Schedule(s), FindNext(s));
    }
  }

  lemma Dispatched(t: Table, s: System, s': System, next: nat)
    requires Follows(t, s) && next < MAX_PROCESSES && next != s.current && (next == 0 || Contender(t[next]))
    requires s'.enabled && s'.current == next && s'.table[next].state == Running
    requires s'.table[next].pid == s.table[next].pid
    requires s'.table[s.current] == s.table[s.current].(state := Ready)
    requires forall i: nat :: i < MAX_PROCESSES && i != next && i != s.current ==> s'.table[i] == s.table[i]
    ensures Follows(t, s')
  {
    forall i: nat | i < MAX_PROCESSES
      ensures SameChance(t, s', i)
    {
      assert SameChance(t, s, i);
    }
  }

  lemma TickFollows(t: Table, s: System)
    requires Follows(t, s)
    ensures Follows(t, Ticking(s))
  {
    forall i: nat | i < MAX_PROCESSES
      ensures SameChance(t, Ticking(s), i)
    {
      assert SameChance(t, s, i);
    }
  }

  ghost function Scheduled(s: System): System {
    if s.current < MAX_PROCESSES then Schedule(s) else s
  }

  /** The state after n schedules. */
  ghost function ScheduledTimes(s: System, n: nat): System {
    Times(Scheduled, s, n)
  }

  lemma SchedulesFollowPath(s: System, n: nat)
    requires Settled(s)
    ensures ScheduledTimes(s, n).current == Path(Route(s.table), s.current, n)
  {
    FollowsItself(s);
    FollowsPath(s.table, s, n);
  }

  lemma FollowsPath(t: Table, s: System, n: nat)
    requires Follows(t, s)
    ensures ScheduledTimes(s, n).current == Path(Route(t), s.current, n)
  {
    forall x | Follows(t, x)
      ensures Follows(t, Scheduled(x)) && Scheduled(x).current == Route(t)[x.current]
    {
      ScheduleFollows(t, x);
    }
    TimesWalk(Scheduled, x => Follows(t, x), (x: System) => x.current, Route(t), s, n);
  }

  // ----- The exact condition -----

  /** The n-th schedule from here runs slot p. */
  ghost predicate RunsAt(s: System, n: nat, p: nat) {
    ScheduledTimes(s, n).current == p
  }

  ghost predicate PassedOver(s: System, p: nat) {
    forall n: nat :: !RunsAt(s, n, p)
  }

  /** Every later schedule passes slot p over if and only if the running slot is trapped away from it. */
  lemma PassedOverIffTrapped(s: System, p: nat)
    requires Settled(s) && p < MAX_PROCESSES
    ensures PassedOver(s, p) <==> Trapped(Route(s.table), s.current, p)
  {
    if Trapped(Route(s.table), s.current, p) {
      var slots :| Trap(Route(s.table), s.current, p, slots);
      forall n: nat
        ensures !RunsAt(s, n, p)
      {
        SchedulesFollowPath(s, n);
        StaysTrapped(Route(s.table), s.current, p, slots, n);
      }
    } else {
      var n := RunsSoon(s, p);
    }
  }

  /** A slot that is not passed over runs by the 31st schedule. */
  lemma RunsSoon(s: System, p: nat) returns (n: nat)
    requires Settled(s) && p < MAX_PROCESSES && !Trapped(Route(s.table), s.current, p)
    ensures n < MAX_PROCESSES && RunsAt(s, n, p)
  {
    n := ReachedOrTrapped(Route(s.table), s.current, p);
    SchedulesFollowPath(s, n);
  }

  /** A current process that does not run (it was just blocked or made ready) either stays current for
      ever, or the first schedule settles the state. */
  lemma FirstScheduleSettles(s: System)
    requires Inv(s, false) && s.enabled
    ensures Schedule(s) == s || Settled(Schedule(s))
  {
    ScheduleKeeps(s, false);
  }

  /** The condition for any current process. */
  lemma PassedOverExactly(s: System, p: nat)
    requires Inv(s, false) && s.enabled && p < MAX_PROCESSES
    ensures PassedOver(s, p) <==>
      s.current != p && (Schedule(s) == s || Trapped(Route(Schedule(s).table), Schedule(s).current, p))
  {
    FirstScheduleSettles(s);
    OneEarlierEach(s, p);
    if Schedule(s) == s {
      forall n: nat
        ensures RunsAt(s, n, p) <==> s.current == p
      {
        TimesStill(Scheduled, s, n);
      }
    } else {
      PassedOverIffTrapped(Schedule(s), p);
    }
  }

  lemma OneEarlierEach(s: System, p: nat)
    ensures PassedOver(s, p) <==> s.current != p && PassedOver(Scheduled(s), p)
  {
    var s' := Scheduled(s);
    forall n: nat
      ensures RunsAt(s, n + 1, p) <==> RunsAt(s', n, p)
    {
      TimesEarlier(Scheduled, s, n);
    }
    assert RunsAt(s, 0, p) <==> s.current == p;
    if s.current != p && PassedOver(s', p) {
      forall n: nat
        ensures !RunsAt(s, n, p)
      {
        assert n > 0 ==> !RunsAt(s', n - 1, p);
      }
    }
  }

  // ----- The same under the timer -----

  /** Nothing happens but schedules and ticks. */
  ghost predicate ClockRun(states: seq<System>, events: seq<Event>) {
    && Run(states, events) && Settled(states[0])
    && forall k :: 0 <= k < |events| ==> events[k].Scheduled? || events[k].Ticked?
  }

  /** What a schedule or a tick does to a state on the way. */
  lemma ClockStep(t: Table, s: System, e: Event)
    requires Follows(t, s) && (e.Scheduled? || e.Ticked?)
    ensures Follows(t, Apply(s, e))
    ensures Apply(s, e).current == s.current || Apply(s, e).current == Next(t, s.current)
    ensures Next(t, s.current) != s.current ==> Apply(s, e).current == s.current ==>
      e.Ticked? && Slice(Apply(s, e)) == Slice(s) - 1
    ensures Apply(s, e).current != s.current ==> Slice(Apply(s, e)) == TIME_SLICE
  {
    ScheduleFollows(t, s);
    TickFollows(t, s);
    ScheduleFollows(t, Ticking(s));
  }

  /** Ticks until the running slot is taken away: a slice of 0 ends at the next tick, like one of 1. */
  ghost function Slice(s: System): nat
    requires s.current < MAX_PROCESSES
  {
    if s.table[s.current].timeSlice == 0 then 1 else s.table[s.current].timeSlice
  }

  /** A trap holds under the timer too. */
  lemma {:induction false} ClockKeepsTrap(states: seq<System>, events: seq<Event>, p: nat, slots: set<nat>)
    requires ClockRun(states, events) && Trap(Route(states[0].table), states[0].current, p, slots)
    ensures Follows(states[0].table, states[|events|])
    ensures states[|events|].current in slots && states[|events|].current != p
  {
    if events == [] {
      FollowsItself(states[0]);
    } else {
      var n := |events| - 1;
      ClockKeepsTrap(states[..n + 1], events[..n], p, slots);
      ClockStep(states[0].table, states[n], events[n]);
    }
  }

  /** Slot p is n steps along the path, the current slot m, with its slice. */
  ghost function Left(s: System, n: nat, m: nat): int
    requires s.current < MAX_PROCESSES
  {
    TIME_SLICE * (n - m - 1) + Slice(s)
  }

  lemma {:induction false} ClockNears(states: seq<System>, events: seq<Event>, p: nat, n: nat) returns (m: nat)
    requires ClockRun(states, events) && forall k :: 0 <= k < |states| ==> states[k].current != p
    requires Path(Route(states[0].table), states[0].current, n) == p
    ensures Follows(states[0].table, states[|events|])
    ensures m < n && states[|events|].current == Path(Route(states[0].table), states[0].current, m)
    ensures Schedules(events) <= m
    ensures Left(states[|events|], n, m) + Ticks(events) <= Left(states[0], n, 0)
  {
    var t, c := states[0].table, states[0].current;
    if events == [] {
      FollowsItself(states[0]);
      m := 0;
    } else {
      var k := |events| - 1;
      var i := ClockNears(states[..k + 1], events[..k], p, n);
      m := NextNears(t, c, p, n, i, states[k], events[k]);
    }
  }

  /** A step of the clock that has not dispatched slot p leaves it nearer. */
  lemma NextNears(t: Table, c: nat, p: nat, n: nat, i: nat, s: System, e: Event) returns (m: nat)
    requires c < MAX_PROCESSES && Path(Route(t), c, n) == p && i < n && (e.Scheduled? || e.Ticked?)
    requires Follows(t, s) && s.current == Path(Route(t), c, i) && s.current != p && Apply(s, e).current != p
    ensures Follows(t, Apply(s, e)) && m < n && Apply(s, e).current == Path(Route(t), c, m)
    ensures i + (if e.Scheduled? then 1 else 0) <= m
    ensures Left(Apply(s, e), n, m) + (if e.Ticked? then 1 else 0) <= Left(s, n, i)
  {
    ClockStep(t, s, e);
    m := FurtherOn(Route(t), c, p, n, i, Apply(s, e).current);
  }

  lemma FurtherOn(next: seq<nat>, c: nat, p: nat, n: nat, i: nat, place: nat) returns (m: nat)
    requires IsRoute(next) && c < |next| && Path(next, c, n) == p && i < n && Path(next, c, i) != p && place != p
    requires place == Path(next, c, i) || place == next[Path(next, c, i)]
    ensures m < n && Path(next, c, m) == place && m == if place == Path(next, c, i) then i else i + 1
    ensures next[Path(next, c, i)] != Path(next, c, i)
  {
    Rests(next, c, i, n);
    m := if place == Path(next, c, i) then i else i + 1;
  }

  /** Under schedules and ticks alone, a process that is not trapped away from runs by the 31st schedule
      and by the 310th tick. */
  lemma ClockDispatches(states: seq<System>, events: seq<Event>, p: nat)
    requires ClockRun(states, events) && p < MAX_PROCESSES && !Trapped(Route(states[0].table), states[0].current, p)
    requires forall k :: 0 <= k < |states| ==> states[k].current != p
    ensures Schedules(events) <= 30 && Ticks(events) <= 309
  {
    var n := ReachedOrTrapped(Route(states[0].table), states[0].current, p);
    var m := ClockNears(states, events, p, n);
    assert RunOk(states[0].table, states[0].current, states[0].current);
  }

  /** Slots that are their PIDs' remainders make no trap for a ready process. */
  lemma AlignedMakesNoTrap(s: System, p: nat)
    requires Settled(s) && Waiting(s, p)
    ensures !Trapped(Route(s.table), s.current, p)
  {
    if Trapped(Route(s.table), s.current, p) {
      var slots :| Trap(Route(s.table), s.current, p, slots);
      Escapes(s.table, s.current, p, slots);
    }
  }

  /** From slot c in a trap the search would reach p, or a slot of the trap nearer to it. */
  lemma {:induction false} Escapes(t: Table, c: nat, p: nat, slots: set<nat>)
    requires c < MAX_PROCESSES && p < MAX_PROCESSES && c != p && InUse(t[c]) && Contender(t[p])
    requires (forall i :: 0 <= i < MAX_PROCESSES ==> AlignedAt(t, i)) && Trap(Route(t), c, p, slots)
    ensures false
    decreases Gap(c, p)
  {
    var next := NextNearer(t, c, p);
    assert next in slots;
    Escapes(t, next, p, slots);
  }

  lemma NextNearer(t: Table, c: nat, p: nat) returns (next: nat)
    requires c < MAX_PROCESSES && p < MAX_PROCESSES && c != p && InUse(t[c]) && Contender(t[p]) && AlignedAt(t, c)
    ensures next < MAX_PROCESSES && next == Next(t, c) == Route(t)[c]
    ensures next == p || (InUse(t[next]) && Gap(next, p) < Gap(c, p))
  {
    var d := Gap(c, p) - 1;
    assert Ahead(c, d) == p;
    var k := SearchFrom(Turn(t, c), t[c].pid, c, d);
    next := Ahead(c, k);
  }

  // ----- A trap that a run from boot leads to -----

  ghost predicate Reachable(s: System) {
    exists states: seq<System>, events: seq<Event> ::
      Run(states, events) && states[0] == Boot() && states[|events|] == s
  }

  lemma ReachNext(s: System, e: Event)
    requires Reachable(s) && s.current < MAX_PROCESSES && Allowed(s, e)
    ensures Reachable(Apply(s, e))
  {
    var states: seq<System>, events: seq<Event> :|
      Run(states, events) && states[0] == Boot() && states[|events|] == s;
    var states', events' := states + [Apply(s, e)], events + [e];
    assert Run(states', events') && states'[0] == Boot() && states'[|events'|] == Apply(s, e);
  }

  function Fresh(pid: nat): Process {
    Process(pid, Ready, 0, 0, TIME_SLICE, 0, 0)
  }

  /** The idle process runs, and slots 1, 2 and 3 hold ready processes with PIDs a, 2 and b. */
  function Trio(a: nat, b: nat, nextPid: nat): System {
    System(Boot().table[1 := Fresh(a)][2 := Fresh(2)][3 := Fresh(b)], 0, nextPid, true)
  }

  lemma TrioAtFirst()
    ensures Reachable(Trio(1, 3, 4))
  {
    var s0 := Boot();
    assert Run([s0], []);
    assert Reachable(s0);
    ReachNext(s0, Started);
    var s1 := s0.(enabled := true);
    ReachNext(s1, Created(0, true));
    assert FindFree(s1.table, 0) == Some(1);
    SlotRefilled(s1, 1);
    var s2 := Create(s1, 0, true).0;
    ReachNext(s2, Created(0, true));
    assert FindFree(s2.table, 0) == Some(2);
    SlotRefilled(s2, 2);
    var s3 := Create(s2, 0, true).0;
    ReachNext(s3, Created(0, true));
    assert FindFree(s3.table, 0) == Some(3);
    SlotRefilled(s3, 3);
  }

  /** A childless process of the idle one, in slot k. */
  ghost predicate Lone(s: System, k: nat) {
    && s.current == 0 && 0 < k < MAX_PROCESSES && s.table[0].pid == 0 && InUse(s.table[0])
    && s.table[k] == Fresh(s.table[k].pid) && s.table[k].pid != 0
    && forall i :: 0 <= i < k ==> InUse(s.table[i]) && s.table[i].pid != s.table[k].pid
  }

  lemma LoneExits(s: System, k: nat)
    requires Lone(s, k)
    ensures Exit(s, s.table[k].pid, 0) == s.(table := s.table[k := Fresh(0).(state := Unused)])
    ensures FindFree(s.table[k := Fresh(0).(state := Unused)], 0) == Some(k)
  {
    var t' := s.table[k := Fresh(0).(state := Unused)];
    assert !InUse(t'[k]) && forall i :: 0 <= i < k ==> t'[i] == s.table[i];
    assert FindPid(s.table, s.table[k].pid, 0) == Some(k);
    assert s.table[k := s.table[k].(exitCode := 0)] == s.table;
  }

  lemma SlotRefilled(s: System, k: nat)
    requires s.current == 0 && s.table[0].pid == 0 && FindFree(s.table, 0) == Some(k)
    ensures Create(s, 0, true).0 == s.(table := s.table[k := Fresh(s.nextPid)], nextPid := s.nextPid + 1)
  {}

  /** The process in slot k ends and the next one created takes its slot. */
  lemma Replace(s: System, k: nat)
    requires Reachable(s) && Lone(s, k)
    ensures Reachable(s.(table := s.table[k := Fresh(s.nextPid)], nextPid := s.nextPid + 1))
  {
    LoneExits(s, k);
    var s1 := Exit(s, s.table[k].pid, 0);
    ReachNext(s, Exited(s.table[k].pid, 0));
    SlotRefilled(s1, k);
    ReachNext(s1, Created(0, true));
    assert s1.table[k := Fresh(s.nextPid)] == s.table[k := Fresh(s.nextPid)];
  }

  lemma {:induction false} TrioLater(b: nat)
    requires b >= 3
    ensures Reachable(Trio(1, b, b + 1))
  {
    if b == 3 {
      TrioAtFirst();
    } else {
      TrioLater(b - 1);
      var s := Trio(1, b - 1, b);
      Replace(s, 3);
      assert s.table[3 := Fresh(b)] == Trio(1, b, b + 1).table;
    }
  }

  /** A run from boot reaches a state in which a ready process is trapped away from the running slot:
      slots 1 and 3, with PIDs 34 and 32, send the search to each other past slot 2. */
  lemma CanStarve() returns (s: System)
    ensures Reachable(s) && Settled(s) && Runnable(s.table[2])
    ensures Trapped(Route(s.table), s.current, 2) && PassedOver(s, 2)
  {
    TrioLater(32);
    Replace(Trio(1, 32, 33), 1);
    assert Trio(1, 32, 33).table[1 := Fresh(33)] == Trio(33, 32, 34).table;
    Replace(Trio(33, 32, 34), 1);
    assert Trio(33, 32, 34).table[1 := Fresh(34)] == Trio(34, 32, 35).table;
    s := Trio(34, 32, 35);
    ReachableHolds(s);
    ThreeSlots(s.table);
    assert Trap(Route(s.table), 0, 2, {0, 1, 3});
    PassedOverIffTrapped(s, 2);
  }

  lemma ReachableHolds(s: System)
    requires Reachable(s)
    ensures Inv(s, false)
  {
    var states: seq<System>, events: seq<Event> :|
      Run(states, events) && states[0] == Boot() && states[|events|] == s;
    RunKeeps(states, events, |events|);
    WeakerCounts(s.table, NoneMiscounts(states, events, |events|), false);
  }

  lemma FirstProbe(t: Table, start: nat)
    requires Runnable(t[start % MAX_PROCESSES])
    ensures Probe(t, start, 0) == start % MAX_PROCESSES
  {}

  lemma ThreeSlots(t: Table)
    requires t == Trio(34, 32, 35).table
    ensures Next(t, 0) == 1 && Next(t, 1) == 3 && Next(t, 3) == 1
  {
    FirstProbe(Turn(t, 0), 1);
    FirstProbe(Turn(t, 1), 35);
    FirstProbe(Turn(t, 3), 33);
  }
}
