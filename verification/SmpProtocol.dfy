/** The SMP scheduler as a protocol: every CPU runs scheduler calls one atomic step at a time, the
    steps being what lies between taking and releasing a run-queue lock.  A step that holds a lock
    acts on the lists as RunQueues proves the pointer code does. */
module SmpProtocol {
  import opened Options
  import opened Bits
  import opened RunLists
  import opened Balancing

  type Tid = nat

  datatype Thread = Thread(prio: nat, mask: Word, state: ThreadState, cpuId: nat)

  /** What follows the return of enqueue_thread in its caller. */
  datatype After = Return | ThenDequeue | ThenClear

  /** Where a CPU stands between two atomic steps, with the locals that are still needed. */
  datatype Pc =
    | Idle
    | WantPush(t: Tid, rq: nat, after: After)   // about to take rq's lock to enqueue t
    | Pushing(t: Tid, rq: nat, after: After)
    | WantPop                                   // about to take its own lock to dequeue
    | Popping
    | Popped(next: Option<Tid>)                 // lock released, current not yet set
    | Clearing                                  // about to set current to NULL
    | Balancing                                 // found its own queue short, load not yet read
    | Scanning(i: nat, load: int)               // about to look at CPU i for work
    | WantSteal(i: nat, load: int)
    | Stealing(i: nat, load: int)
    | Stolen(t: Tid)                            // victim's lock released, t in a local

  /** One CPU's queue; `owner` is the CPU that took the lock. */
  datatype RunQ = RunQ(owner: Option<nat>, lists: Lists<Tid>, num: int, current: Option<Tid>)

  datatype State = State(rqs: seq<RunQ>, pcs: seq<Pc>, threads: map<Tid, Thread>, nextTid: Tid)

  ghost predicate Shape(s: State) {
    1 <= |s.rqs| <= 31 && |s.pcs| == |s.rqs|
  }

  ghost function NumCpus(s: State): nat {
    |s.rqs|
  }

  /** `(1U << num_cpus) - 1` when no mask was asked for. */
  function CreatedMask(mask: nat, numCpus: nat): nat {
    if mask == 0 then Pow2(numCpus) - 1 else mask
  }

  // ----- Steps -----

  function SetPc(s: State, c: nat, pc: Pc): State
    requires c < |s.pcs|
  {
    s.(pcs := s.pcs[c := pc])
  }

  function SetThread(s: State, t: Tid, th: Thread): State {
    s.(threads := s.threads[t := th])
  }

  function SetRq(s: State, r: nat, rq: RunQ): State
    requires r < |s.rqs|
  {
    s.(rqs := s.rqs[r := rq])
  }

  /** sched_create_thread up to its call of enqueue_thread, placed on any CPU find_best_cpu may
      choose whatever loads it reads. */
  ghost predicate Create(s: State, s': State, c: nat, prio: nat, mask: Word, r: nat) {
    && Shape(s) && c < NumCpus(s) && s.pcs[c] == Idle && prio < PRIORITIES
    && CreatedMask(mask, NumCpus(s)) < WORD_LIMIT && Placement(CreatedMask(mask, NumCpus(s)), NumCpus(s), r)
    && var t := s.nextTid;
       s' == SetPc(SetThread(s, t, Thread(prio, CreatedMask(mask, NumCpus(s)), Ready, r)), c, WantPush(t, r, Return))
               .(nextTid := t + 1)
  }

  ghost predicate Schedule(s: State, s': State, c: nat) {
    && Shape(s) && c < NumCpus(s) && s.pcs[c] == Idle
    && match s.rqs[c].current
       case Some(t) =>
         t in s.threads &&
         if s.threads[t].state == Running
         then s' == SetPc(SetThread(s, t, s.threads[t].(state := Ready)), c, WantPush(t, c, ThenDequeue))
         else s' == SetPc(s, c, WantPop)
       case None => s' == SetPc(s, c, WantPop)
  }

  ghost predicate Yield(s: State, s': State, c: nat) {
    && Shape(s) && c < NumCpus(s) && s.pcs[c] == Idle
    && match s.rqs[c].current
       case Some(t) =>
         && t in s.threads
         && s' == SetPc(SetThread(s, t, s.threads[t].(state := Ready)), c, WantPush(t, c, ThenClear))
       case None => s' == s
  }

  ghost predicate Block(s: State, s': State, c: nat) {
    && Shape(s) && c < NumCpus(s) && s.pcs[c] == Idle
    && match s.rqs[c].current
       case Some(t) =>
         && t in s.threads
         && s' == SetPc(SetThread(s, t, s.threads[t].(state := Blocked)), c, Clearing)
       case None => s' == s
  }

  /** sched_unblock by CPU c; the caller's duty is that no other CPU is already waking t. */
  ghost predicate Unblock(s: State, s': State, c: nat, t: Tid, r: nat) {
    WakeUp(s, s', c, t, r) && !InHand(s, t)
  }

  ghost predicate WakeUp(s: State, s': State, c: nat, t: Tid, r: nat) {
    && Shape(s) && c < NumCpus(s) && s.pcs[c] == Idle
    && t in s.threads && s.threads[t].state == Blocked
    && Placement(s.threads[t].mask, NumCpus(s), r)
    && s' == SetPc(SetThread(s, t, s.threads[t].(cpuId := r)), c, WantPush(t, r, Return))
  }

  /** sched_set_priority; the caller's duty is that the thread is not READY. */
  ghost predicate SetPriority(s: State, s': State, c: nat, t: Tid, prio: nat) {
    ChangePriority(s, s', c, t, prio) && s.threads[t].state != Ready
  }

  ghost predicate ChangePriority(s: State, s': State, c: nat, t: Tid, prio: nat) {
    && Shape(s) && c < NumCpus(s) && s.pcs[c] == Idle && t in s.threads && prio < PRIORITIES
    && var changed := SetThread(s, t, s.threads[t].(prio := prio));
       s' == if s.threads[t].state == Ready then SetPc(changed, c, WantPush(t, s.threads[t].cpuId, Return)) else changed
  }

  ghost predicate Balance(s: State, s': State, c: nat) {
    && Shape(s) && c < NumCpus(s) && s.pcs[c] == Idle
    && s' == if s.rqs[c].num < 2 then SetPc(s, c, Balancing) else s
  }

  /** The next step of the call CPU c is in. */
  ghost predicate Advance(s: State, s': State, c: nat) {
    && Shape(s) && c < NumCpus(s)
    && match s.pcs[c]
       case Idle => false
       case WantPush(t, rq, after) => Acquire(s, s', c, rq, Pushing(t, rq, after))
       case Pushing(t, rq, after) => FinishPush(s, s', c, t, rq, after)
       case WantPop => Acquire(s, s', c, c, Popping)
       case Popping => FinishPop(s, s', c)
       case Popped(next) => SetCurrent(s, s', c, next)
       case Clearing => s' == SetPc(SetRq(s, c, s.rqs[c].(current := None)), c, Idle)
       case Balancing => s' == SetPc(s, c, Scanning(0, s.rqs[c].num))
       case Scanning(i, load) => s' == SetPc(s, c, Looked(s, c, i, load))
       case WantSteal(i, load) => Acquire(s, s', c, i, Stealing(i, load))
       case Stealing(i, load) => FinishSteal(s, s', c, i, load)
       case Stolen(t) =>
         && t in s.threads
         && s' == SetPc(SetThread(s, t, s.threads[t].(cpuId := c)), c, WantPush(t, c, Return))
  }

  /** The compare-and-exchange succeeds only on a free lock. */
  ghost predicate Acquire(s: State, s': State, c: nat, r: nat, pc: Pc)
    requires c < |s.pcs|
  {
    r < |s.rqs| && s.rqs[r].owner == None && s' == SetPc(SetRq(s, r, s.rqs[r].(owner := Some(c))), c, pc)
  }

  /** The body of enqueue_thread and its unlocking. */
  ghost predicate FinishPush(s: State, s': State, c: nat, t: Tid, r: nat, after: After)
    requires c < |s.pcs|
  {
    && r < |s.rqs| && t in s.threads && s.threads[t].prio < PRIORITIES
    && s' == SetPc(
         SetThread(
           SetRq(s, r, s.rqs[r].(
             owner := None, lists := Push(s.rqs[r].lists, s.threads[t].prio, t), num := s.rqs[r].num + 1)),
           t, s.threads[t].(state := Ready)),
         c, match after case Return => Idle case ThenDequeue => WantPop case ThenClear => Clearing)
  }

  /** The body of dequeue_highest_priority and its unlocking. */
  ghost predicate FinishPop(s: State, s': State, c: nat)
    requires c < |s.pcs| == |s.rqs|
  {
    var rq := s.rqs[c];
    if Empty(rq.lists) then s' == SetPc(SetRq(s, c, rq.(owner := None)), c, Popped(None))
    else exists p: nat :: Highest(rq.lists, p) && s' == TakeOut(s, c, c, p, 0, Popped(Some(rq.lists[p][0])))
  }

  /** The scan of steal_thread over victim i under its lock. */
  ghost predicate FinishSteal(s: State, s': State, c: nat, i: nat, load: int)
    requires c < |s.pcs|
  {
    && i < |s.rqs|
    && var rq := s.rqs[i];
       if NoneAllowed(rq.lists, MayRunOn(s, c)) then
         s' == SetPc(SetRq(s, i, rq.(owner := None)), c, Scanning(i + 1, load))
       else exists p: nat, k: nat ::
         && FirstAllowed(rq.lists, MayRunOn(s, c), p, k)
         && s' == TakeOut(s, c, i, p, k, Stolen(rq.lists[p][k]))
  }

  ghost function MayRunOn(s: State, c: nat): set<Tid> {
    set t | t in s.threads && Test(s.threads[t].mask, c)
  }

  function TakeOut(s: State, c: nat, r: nat, p: nat, k: nat, pc: Pc): State
    requires c < |s.pcs| && r < |s.rqs| && p < PRIORITIES && k < |s.rqs[r].lists[p]|
  {
    SetPc(
      SetRq(s, r, s.rqs[r].(owner := None, lists := RemoveAt(s.rqs[r].lists, p, k), num := s.rqs[r].num - 1)),
      c, pc)
  }

  ghost predicate SetCurrent(s: State, s': State, c: nat, next: Option<Tid>)
    requires c < |s.pcs| == |s.rqs|
  {
    match next
    case None => s' == SetPc(SetRq(s, c, s.rqs[c].(current := None)), c, Idle)
    case Some(t) =>
      && t in s.threads
      && s' == SetPc(
           SetThread(SetRq(s, c, s.rqs[c].(current := Some(t))), t, s.threads[t].(state := Running, cpuId := c)),
           c, Idle)
  }

  /** One look of steal_thread at CPU i. */
  function Looked(s: State, c: nat, i: nat, load: int): Pc {
    if i >= |s.rqs| then Idle
    else if i == c || s.rqs[i].num < load + 2 then Scanning(i + 1, load)
    else WantSteal(i, load)
  }

  ghost predicate Call(s: State, s': State) {
    || (exists c, prio, mask, r :: Create(s, s', c, prio, mask, r))
    || (exists c :: Schedule(s, s', c) || Yield(s, s', c) || Block(s, s', c) || Balance(s, s', c))
    || (exists c, t, r :: Unblock(s, s', c, t, r))
    || (exists c, t, prio :: SetPriority(s, s', c, t, prio))
  }

  ghost predicate Step(s: State, s': State) {
    Call(s, s') || exists c :: Advance(s, s', c)
  }

  ghost predicate Init(s: State) {
    && Shape(s) && s.threads == map[] && (forall c :: 0 <= c < |s.pcs| ==> s.pcs[c] == Idle)
    && forall r :: 0 <= r < |s.rqs| ==>
         s.rqs[r].owner == None && Empty(s.rqs[r].lists) && s.rqs[r].num == 0 && s.rqs[r].current == None
  }

  /** A state some interleaving of the CPUs' steps leads to. */
  ghost predicate Run(tr: seq<State>) {
    |tr| > 0 && Init(tr[0]) && forall k :: 0 <= k < |tr| - 1 ==> Step(tr[k], tr[k + 1])
  }

  // ----- Where threads are -----

  /** The thread a CPU holds in a local variable. */
  function Local(pc: Pc): Option<Tid> {
    match pc
    case WantPush(t, _, _) => Some(t)
    case Pushing(t, _, _) => Some(t)
    case Popped(next) => next
    case Stolen(t) => Some(t)
    case _ => None
  }

  /** `current` does not say which thread the CPU runs: the CPU is inside schedule, yield or block. */
  predicate Stale(pc: Pc) {
    match pc
    case WantPush(_, _, after) => after != Return
    case Pushing(_, _, after) => after != Return
    case WantPop => true
    case Popping => true
    case Popped(_) => true
    case Clearing => true
    case _ => false
  }

  /** The queue whose lock a CPU holds. */
  function Holding(pc: Pc, c: nat): Option<nat> {
    match pc
    case Pushing(_, rq, _) => Some(rq)
    case Popping => Some(c)
    case Stealing(i, _) => Some(i)
    case _ => None
  }

  ghost predicate InHand(s: State, t: Tid) {
    exists c :: 0 <= c < |s.pcs| && Local(s.pcs[c]) == Some(t)
  }

  /** Every place a thread can be in. */
  datatype Spot = Queued(cpu: nat, prio: nat, i: nat) | RunningOn(cpu: nat) | InLocal(cpu: nat) | Asleep

  ghost predicate At(s: State, t: Tid, spot: Spot) {
    match spot
    case Queued(c, p, i) => c < |s.rqs| && p < PRIORITIES && i < |s.rqs[c].lists[p]| && s.rqs[c].lists[p][i] == t
    case RunningOn(c) => c < |s.pcs| && c < |s.rqs| && !Stale(s.pcs[c]) && s.rqs[c].current == Some(t)
    case InLocal(c) => c < |s.pcs| && Local(s.pcs[c]) == Some(t)
    case Asleep => t in s.threads && s.threads[t].state == Blocked && !InHand(s, t)
  }
}
