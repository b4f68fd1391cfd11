/** Runs from boot to calls that the scheduler does not stop and that leave a thread in two places: a second
    wake-up of a thread, and a change of a queued thread's priority. */
module SmpWakers {
  import opened Options
  import opened Bits
  import opened RunLists
  import opened Balancing
  import opened SmpProtocol
  import opened SmpSafety

  const THE_THREAD: Tid := 1
  const BOTH_CPUS: Word := 3

  /** A machine of two CPUs of which the second is idle, and one thread, not yet created when absent. */
  function Machine(owner: Option<nat>, lists: Lists<Tid>, num: int, current: Option<Tid>, pc: Pc,
                   thread: Option<ThreadState>): State
  {
    State([RunQ(owner, lists, num, current), RunQ(None, NoThreads(), 0, None)], [pc, Idle],
      if thread.None? then map[] else map[THE_THREAD := SmpProtocol.Thread(0, BOTH_CPUS, thread.value, 0)],
      if thread.None? then THE_THREAD else THE_THREAD + 1)
  }

  function NoThreads(): Lists<Tid> {
    seq(PRIORITIES, _ => [])
  }

  function OneQueued(): Lists<Tid> {
    Push(NoThreads(), 0, THE_THREAD)
  }

  lemma Extend(tr: seq<State>, s: State)
    requires Run(tr) && Step(tr[|tr| - 1], s)
    ensures Run(tr + [s])
  {
    var longer := tr + [s];
    forall k | 0 <= k < |longer| - 1
      ensures Step(longer[k], longer[k + 1])
    {
      if k < |tr| - 1 {
        assert longer[k] == tr[k] && longer[k + 1] == tr[k + 1];
      }
    }
  }

  lemma ByAdvance(tr: seq<State>, s: State)
    requires Run(tr) && Advance(tr[|tr| - 1], s, 0)
    ensures Run(tr + [s])
  {
    Extend(tr, s);
  }

  lemma MaskOfBoth()
    ensures Test(BOTH_CPUS, 0) && Placement(BOTH_CPUS, 2, 0)
  {
    assert Test(BOTH_CPUS, 0);
    assert Meets(BOTH_CPUS, 2);
  }

  /** Created and queued on CPU 0. */
  lemma Queued() returns (tr: seq<State>)
    ensures Run(tr) && tr[|tr| - 1] == Machine(None, OneQueued(), 1, None, Idle, Some(Ready))
  {
    var s0 := Machine(None, NoThreads(), 0, None, Idle, None);
    var s1 := Machine(None, NoThreads(), 0, None, WantPush(THE_THREAD, 0, Return), Some(Ready));
    var s2 := Machine(Some(0), NoThreads(), 0, None, Pushing(THE_THREAD, 0, Return), Some(Ready));
    var s3 := Machine(None, OneQueued(), 1, None, Idle, Some(Ready));
    MaskOfBoth();
    tr := [s0];
    assert Create(s0, s1, 0, 0, BOTH_CPUS, 0);
    Extend(tr, s1);
    tr := tr + [s1];
    ByAdvance(tr, s2);
    tr := tr + [s2];
    ByAdvance(tr, s3);
    tr := tr + [s3];
  }

  lemma TakenBack()
    ensures Highest(OneQueued(), 0) && OneQueued()[0][0] == THE_THREAD
    ensures RemoveAt(OneQueued(), 0, 0) == NoThreads()
  {
    assert OneQueued()[0] == [THE_THREAD];
    assert OneQueued()[0][..0] + OneQueued()[0][1..] == NoThreads()[0];
  }

  /** Dequeued by CPU 0 and running there. */
  lemma Dispatched() returns (tr: seq<State>)
    ensures Run(tr) && tr[|tr| - 1] == Machine(None, NoThreads(), 0, Some(THE_THREAD), Idle, Some(Running))
  {
    tr := Queued();
    var s3 := Machine(None, OneQueued(), 1, None, Idle, Some(Ready));
    var s4 := Machine(None, OneQueued(), 1, None, WantPop, Some(Ready));
    var s5 := Machine(Some(0), OneQueued(), 1, None, Popping, Some(Ready));
    var s6 := Machine(None, NoThreads(), 0, None, Popped(Some(THE_THREAD)), Some(Ready));
    var s7 := Machine(None, NoThreads(), 0, Some(THE_THREAD), Idle, Some(Running));
    assert Schedule(s3, s4, 0);
    Extend(tr, s4);
    tr := tr + [s4];
    ByAdvance(tr, s5);
    tr := tr + [s5];
    TakenBack();
    assert s6 == TakeOut(s5, 0, 0, 0, 0, Popped(Some(THE_THREAD)));
    ByAdvance(tr, s6);
    tr := tr + [s6];
    ByAdvance(tr, s7);
    tr := tr + [s7];
  }

  /** Blocked, and in the hands of CPU 0 that wakes it. */
  lemma BeingWoken() returns (tr: seq<State>)
    ensures Run(tr)
    ensures tr[|tr| - 1] == Machine(None, NoThreads(), 0, None, WantPush(THE_THREAD, 0, Return), Some(Blocked))
  {
    tr := Dispatched();
    var s7 := Machine(None, NoThreads(), 0, Some(THE_THREAD), Idle, Some(Running));
    var s8 := Machine(None, NoThreads(), 0, Some(THE_THREAD), Clearing, Some(Blocked));
    var s9 := Machine(None, NoThreads(), 0, None, Idle, Some(Blocked));
    var s10 := Machine(None, NoThreads(), 0, None, WantPush(THE_THREAD, 0, Return), Some(Blocked));
    assert Block(s7, s8, 0);
    Extend(tr, s8);
    tr := tr + [s8];
    ByAdvance(tr, s9);
    tr := tr + [s9];
    MaskOfBoth();
    assert Unblock(s9, s10, 0, THE_THREAD, 0);
    Extend(tr, s10);
    tr := tr + [s10];
  }

  /** A run from boot after which a second wake-up is not stopped and leaves the thread in two places. */
  lemma SecondWakerDoubles() returns (tr: seq<State>, s: State)
    ensures Run(tr) && InHand(tr[|tr| - 1], THE_THREAD)
    ensures WakeUp(tr[|tr| - 1], s, 1, THE_THREAD, 0) && !OnePlaceEach(s)
  {
    tr := BeingWoken();
    var last := tr[|tr| - 1];
    MaskOfBoth();
    s := SetPc(last, 1, WantPush(THE_THREAD, 0, Return));
    assert SetThread(last, THE_THREAD, last.threads[THE_THREAD].(cpuId := 0)).threads == last.threads;
    assert Local(last.pcs[0]) == Some(THE_THREAD);
    WokenTwice(last, s, 1, THE_THREAD, 0);
  }

  /** A run from boot after which a change of priority leaves the thread in two places: it is queued, and it
      is in the hands of the CPU that changes its priority. */
  lemma PriorityDoubles() returns (tr: seq<State>, s: State)
    ensures Run(tr) && ChangePriority(tr[|tr| - 1], s, 1, THE_THREAD, 5) && !OnePlaceEach(s)
  {
    tr := Queued();
    var last := tr[|tr| - 1];
    s := SetPc(SetThread(last, THE_THREAD, last.threads[THE_THREAD].(prio := 5)), 1, WantPush(THE_THREAD, 0, Return));
    RunKeeps(tr, |tr| - 1);
    PriorityOnlyAtRest(last, s, 1, THE_THREAD, 5);
  }
}
