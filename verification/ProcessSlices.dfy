/** What the timer leaves a running process: the whole of its slice. */
module ProcessSlices {
  import opened ProcessTable

  /** A tick does nothing while the scheduler is off.  While it is on, a tick takes one off a slice of two or
      more and does nothing else; the last tick of a slice, and any after it, is a call of the scheduler. */
  lemma TickIs(s: System)
    requires s.current < MAX_PROCESSES
    ensures var cur := s.table[s.current];
      && (!s.enabled ==> Tick(s) == s)
      && (s.enabled && cur.timeSlice > 1 ==>
           Tick(s) == s.(table := s.table[s.current := cur.(timeSlice := cur.timeSlice - 1)]))
      && (s.enabled && cur.timeSlice <= 1 ==>
           Tick(s) == Schedule(Spent(s)))
  {
    var cur := s.table[s.current];
    if cur.timeSlice == 0 {
      assert s.table[s.current := cur.(timeSlice := 0)] == s.table;
    }
  }

  /** The process dispatched is RUNNING with a slice of ten ticks, the one before it is READY if it was
      RUNNING, and nothing else changes. */
  lemma ScheduleIs(s: System)
    requires s.current < MAX_PROCESSES
    ensures Schedule(s).nextPid == s.nextPid && Schedule(s).enabled == s.enabled
    ensures Schedule(s).current == if s.enabled then FindNext(s) else s.current
    ensures Schedule(s).current == s.current ==> Schedule(s) == s
    ensures Schedule(s).current != s.current ==>
      forall i :: 0 <= i < MAX_PROCESSES ==>
        Schedule(s).table[i] ==
          if i == Schedule(s).current then s.table[i].(state := Running, timeSlice := 10)
          else if i == s.current && s.table[i].state == Running then s.table[i].(state := Ready)
          else s.table[i]
  {}

  /** Nothing happens but ticks. */
  ghost predicate TickRun(states: seq<System>, events: seq<Event>) {
    Run(states, events) && forall k :: 0 <= k < |events| ==> events[k] == Ticked
  }

  /** Fewer ticks than its slice leave the process running, with that much less of the slice. */
  lemma {:induction false} SliceLasts(states: seq<System>, events: seq<Event>)
    requires TickRun(states, events) && states[0].current < MAX_PROCESSES && states[0].enabled
    requires |events| < states[0].table[states[0].current].timeSlice
    ensures var s := states[0];
      var cur := s.table[s.current];
      states[|events|] == s.(table := s.table[s.current := cur.(timeSlice := cur.timeSlice - |events|)])
  {
    var s := states[0];
    if events == [] {
      assert s.table[s.current := s.table[s.current]] == s.table;
    } else {
      var n := |events| - 1;
      SliceLasts(states[..n + 1], events[..n]);
      assert StepsTo(states[n], events[n], states[n + 1]);
      TickIs(states[n]);
    }
  }

  /** A process just dispatched runs through nine ticks, and the tenth is a call of the scheduler. */
  lemma TenTicks(states: seq<System>, events: seq<Event>, before: System)
    requires TickRun(states, events) && before.current < MAX_PROCESSES
    requires states[0] == Schedule(before) && states[0].current != before.current
    ensures |events| <= 9 ==> states[|events|].current == states[0].current
    ensures |events| == 10 ==> states[10] == Schedule(Spent(states[0]))
  {
    ScheduleIs(before);
    if |events| <= 9 {
      SliceLasts(states, events);
    } else if |events| == 10 {
      TenthTick(states, events);
    }
  }

  /** With nothing left of the running slice. */
  ghost function Spent(s: System): System
    requires s.current < MAX_PROCESSES
  {
    s.(table := s.table[s.current := s.table[s.current].(timeSlice := 0)])
  }

  lemma TenthTick(states: seq<System>, events: seq<Event>)
    requires TickRun(states, events) && |events| == 10
    requires states[0].current < MAX_PROCESSES && states[0].enabled
    requires states[0].table[states[0].current].timeSlice == 10
    ensures states[10] == Schedule(Spent(states[0]))
  {
    SliceLasts(states[..10], events[..9]);
    assert StepsTo(states[9], events[9], states[10]);
    TickIs(states[9]);
    assert Spent(states[9]).table == Spent(states[0]).table;
  }

  ghost function Switches(states: seq<System>): nat {
    if |states| <= 1 then 0
    else
      var n := |states| - 1;
      Switches(states[..n]) + if states[n].current != states[n - 1].current then 1 else 0
  }

  /** Under the timer alone, processes change at most once in ten ticks. */
  lemma TenTicksASwitch(states: seq<System>, events: seq<Event>)
    requires TickRun(states, events)
    ensures Switches(states) > 0 ==> |events| >= 10 * (Switches(states) - 1)
  {
    SwitchesCost(states, events);
  }

  lemma {:induction false} SwitchesCost(states: seq<System>, events: seq<Event>)
    requires TickRun(states, events)
    ensures Switches(states) > 0 ==> states[|events|].current < MAX_PROCESSES
    ensures Switches(states) > 0 ==>
      var last := states[|events|];
      last.table[last.current].timeSlice <= 10 &&
      |events| >= 10 * Switches(states) - last.table[last.current].timeSlice
  {
    if events != [] {
      var n := |events| - 1;
      SwitchesCost(states[..n + 1], events[..n]);
      var s, s' := states[n], states[n + 1];
      assert states[..n + 2] == states && StepsTo(s, events[n], s');
      OneTick(s);
    }
  }

  /** A tick that switches ends a slice of one or none and begins one of ten; another takes at most one. */
  lemma OneTick(s: System)
    requires s.current < MAX_PROCESSES
    ensures Tick(s).current < MAX_PROCESSES
    ensures var left, left' := s.table[s.current].timeSlice, Tick(s).table[Tick(s).current].timeSlice;
      if Tick(s).current != s.current then left <= 1 && left' == 10
      else left' <= left <= left' + 1
  {
    TickIs(s);
    var cur := s.table[s.current];
    if s.enabled && cur.timeSlice <= 1 {
      ScheduleIs(s.(table := s.table[s.current := cur.(timeSlice := 0)]));
    }
  }
}
