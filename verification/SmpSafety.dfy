/** What every interleaving of the SMP scheduler's steps keeps: no thread is lost or doubled, locks
    have one owner and no CPU two locks, and threads stay on CPUs their masks allow. */
module SmpSafety {
  import opened Options
  import opened Bits
  import opened RunLists
  import opened Balancing
  import opened SmpProtocol

  /** The one place of a thread, without its position in a list. */
  datatype Loc = InQueue(cpu: nat) | On(cpu: nat) | InFlight(cpu: nat) | Sleeping

  // ----- The invariant; w says where each thread is -----

  ghost predicate Known(s: State, w: map<Tid, Loc>) {
    w.Keys == s.threads.Keys && (forall t :: t in s.threads ==> t < s.nextTid && s.threads[t].prio < PRIORITIES)
  }

  ghost predicate WhereHolds(s: State, t: Tid, l: Loc)
    requires Shape(s) && t in s.threads
  {
    match l
    case InQueue(c) => c < |s.rqs| && Holds(s.rqs[c].lists, t) && s.threads[t].state == Ready
    case On(c) =>
      && c < |s.rqs| && s.rqs[c].current == Some(t) && !Stale(s.pcs[c])
      && s.threads[t].state == Running && s.threads[t].cpuId == c
    case InFlight(c) => c < |s.rqs| && Local(s.pcs[c]) == Some(t) && s.threads[t].state != Running
    case Sleeping => s.threads[t].state == Blocked
  }

  /** Every thread is where w says. */
  ghost predicate Placed(s: State, w: map<Tid, Loc>)
    requires Shape(s) && Known(s, w)
  {
    forall t :: t in w ==> WhereHolds(s, t, w[t])
  }

  /** Queues, CPUs and locals hold no thread that w puts elsewhere. */
  ghost predicate QueuesAgree(s: State, w: map<Tid, Loc>) {
    forall c, t :: 0 <= c < |s.rqs| && Holds(s.rqs[c].lists, t) ==> t in w && w[t] == InQueue(c)
  }

  ghost predicate CpusAgree(s: State, w: map<Tid, Loc>)
    requires Shape(s)
  {
    CurrentsAgree(s, w) && LocalsAgree(s, w)
  }

  ghost predicate CurrentsAgree(s: State, w: map<Tid, Loc>)
    requires Shape(s)
  {
    forall c :: 0 <= c < |s.rqs| && s.rqs[c].current.Some? && !Stale(s.pcs[c]) ==>
      s.rqs[c].current.value in w && w[s.rqs[c].current.value] == On(c)
  }

  ghost predicate LocalsAgree(s: State, w: map<Tid, Loc>) {
    forall c :: 0 <= c < |s.pcs| && Local(s.pcs[c]).Some? ==>
      Local(s.pcs[c]).value in w && w[Local(s.pcs[c]).value] == InFlight(c)
  }

  ghost predicate ListsGood(s: State) {
    && (forall c :: 0 <= c < |s.rqs| ==> NoRepeats(s.rqs[c].lists) && s.rqs[c].num == Size(s.rqs[c].lists))
    && forall c, p, i :: 0 <= c < |s.rqs| && 0 <= p < PRIORITIES && 0 <= i < |s.rqs[c].lists[p]| ==>
         s.rqs[c].lists[p][i] in s.threads && s.threads[s.rqs[c].lists[p][i]].prio == p
  }

  /** A lock's owner is the CPU that stands inside its critical section. */
  ghost predicate LocksGood(s: State)
    requires Shape(s)
  {
    && (forall r :: 0 <= r < |s.rqs| && s.rqs[r].owner.Some? ==>
         s.rqs[r].owner.value < |s.pcs| && Holding(s.pcs[s.rqs[r].owner.value], s.rqs[r].owner.value) == Some(r))
    && (forall c :: 0 <= c < |s.pcs| && Holding(s.pcs[c], c).Some? ==>
         Holding(s.pcs[c], c).value < |s.rqs| && s.rqs[Holding(s.pcs[c], c).value].owner == Some(c))
    && (forall c :: 0 <= c < |s.pcs| ==> TargetsExist(s.pcs[c], |s.rqs|))
  }

  predicate TargetsExist(pc: Pc, n: nat) {
    match pc
    case WantPush(_, rq, _) => rq < n
    case WantSteal(i, _) => i < n
    case Scanning(i, _) => i <= n
    case Stealing(i, _) => i < n
    case _ => true
  }

  /** The CPU a thread in hand is bound for. */
  function Bound(pc: Pc, c: nat): nat {
    match pc
    case WantPush(_, rq, _) => rq
    case Pushing(_, rq, _) => rq
    case _ => c
  }

  /** Threads whose mask allows any CPU of the machine are queued, running or bound only where it
      allows. */
  ghost predicate MasksKept(s: State)
    requires Shape(s)
  {
    && (forall c, t :: 0 <= c < |s.rqs| && Holds(s.rqs[c].lists, t) ==> Permitted(s, t, c))
    && (forall c :: 0 <= c < |s.rqs| && s.rqs[c].current.Some? && !Stale(s.pcs[c]) ==>
         Permitted(s, s.rqs[c].current.value, c))
    && (forall c :: 0 <= c < |s.pcs| && Local(s.pcs[c]).Some? ==>
         Permitted(s, Local(s.pcs[c]).value, Bound(s.pcs[c], c)))
  }

  ghost predicate Permitted(s: State, t: Tid, c: nat) {
    t in s.threads && (Meets(s.threads[t].mask, |s.rqs|) ==> Test(s.threads[t].mask, c))
  }

  ghost predicate Places(s: State, w: map<Tid, Loc>) {
    Shape(s) && Known(s, w) && Placed(s, w) && QueuesAgree(s, w) && CpusAgree(s, w)
  }

  ghost predicate InvAt(s: State, w: map<Tid, Loc>) {
    Places(s, w) && ListsGood(s) && LocksGood(s) && MasksKept(s)
  }

  ghost predicate Inv(s: State) {
    exists w :: InvAt(s, w)
  }

  // ----- Locks -----

  /** CPU c moves from pc to pc' and owners change only for the lock it takes or drops. */
  lemma LocksKept(s: State, s': State, c: nat)
    requires Shape(s) && Shape(s') && |s'.pcs| == |s.pcs| && LocksGood(s) && c < |s.pcs|
    requires forall d :: 0 <= d < |s.pcs| && d != c ==> s'.pcs[d] == s.pcs[d]
    requires TargetsExist(s'.pcs[c], |s.rqs|)
    requires forall r :: 0 <= r < |s.rqs| ==>
      s'.rqs[r].owner == if Holding(s'.pcs[c], c) == Some(r) then Some(c)
                         else if Holding(s.pcs[c], c) == Some(r) then None else s.rqs[r].owner
    requires Holding(s'.pcs[c], c).Some? ==>
      Holding(s'.pcs[c], c).value < |s.rqs| && s.rqs[Holding(s'.pcs[c], c).value].owner == None
    ensures LocksGood(s')
  {
    forall r | 0 <= r < |s'.rqs| && s'.rqs[r].owner.Some?
      ensures var d := s'.rqs[r].owner.value; d < |s'.pcs| && Holding(s'.pcs[d], d) == Some(r)
    {
      assert s.rqs[r].owner.Some? || Holding(s'.pcs[c], c) == Some(r);
    }
    forall d | 0 <= d < |s'.pcs| && Holding(s'.pcs[d], d).Some?
      ensures var r := Holding(s'.pcs[d], d).value; r < |s'.rqs| && s'.rqs[r].owner == Some(d)
    {
      assert d != c ==> s.rqs[Holding(s.pcs[d], d).value].owner == Some(d);
    }
  }

  // ----- One thread moves -----

  /** s' differs from s in the pc of CPU c, in `current` of c, in thread t and in which queue holds t. */
  ghost predicate OnlyMoves(s: State, s': State, c: nat, t: Tid) {
    && Shape(s) && Shape(s') && |s'.rqs| == |s.rqs| && c < |s.pcs|
    && (forall d :: 0 <= d < |s.pcs| && d != c ==> s'.pcs[d] == s.pcs[d])
    && (forall d :: 0 <= d < |s.rqs| && d != c ==> s'.rqs[d].current == s.rqs[d].current)
    && s'.threads.Keys == s.threads.Keys + {t}
    && (forall x :: x in s.threads && x != t ==> s'.threads[x] == s.threads[x])
    && forall d, x :: 0 <= d < |s.rqs| && x != t ==> (Holds(s'.rqs[d].lists, x) <==> Holds(s.rqs[d].lists, x))
  }

  /** On CPU c, `current` counts after the step only as it did before or for the moved thread. */
  ghost predicate CurrentMoves(s: State, s': State, c: nat, t: Tid, l: Loc)
    requires Shape(s) && Shape(s') && |s'.rqs| == |s.rqs| && c < |s.pcs|
  {
    && (s'.rqs[c].current.Some? && !Stale(s'.pcs[c]) ==>
         || (s'.rqs[c].current == Some(t) && l == On(c))
         || (s'.rqs[c].current == s.rqs[c].current != Some(t) && !Stale(s.pcs[c])))
    && (s.rqs[c].current.Some? && s.rqs[c].current != Some(t) && !Stale(s.pcs[c]) ==>
         s'.rqs[c].current == s.rqs[c].current && !Stale(s'.pcs[c]))
  }

  /** Thread t moves to l in a step of CPU c. */
  ghost predicate Moves(s: State, s': State, w: map<Tid, Loc>, c: nat, t: Tid, l: Loc) {
    && Places(s, w) && OnlyMoves(s, s', c, t) && CurrentMoves(s, s', c, t, l)
    && s.nextTid <= s'.nextTid && t < s'.nextTid && s'.threads[t].prio < PRIORITIES
    && (t in w ==> w[t] in {InFlight(c), On(c), Sleeping} || w[t].InQueue?)
    && (forall d :: 0 <= d < |s.rqs| ==> (Holds(s'.rqs[d].lists, t) <==> l == InQueue(d)))
    && Local(s.pcs[c]) in {None, Some(t)}
    && (Local(s'.pcs[c]) == if l == InFlight(c) then Some(t) else None)
    && (l.InFlight? ==> l.cpu == c)
    && WhereHolds(s', t, l)
  }

  lemma Relocate(s: State, s': State, w: map<Tid, Loc>, c: nat, t: Tid, l: Loc)
    requires Moves(s, s', w, c, t, l)
    ensures Places(s', w[t := l])
  {
    OthersStay(s, s', w, c, t, l);
    OtherCpus(s, s', w, c, t, l);
  }

  lemma OthersStay(s: State, s': State, w: map<Tid, Loc>, c: nat, t: Tid, l: Loc)
    requires Moves(s, s', w, c, t, l)
    ensures Known(s', w[t := l]) && Placed(s', w[t := l])
  {
    forall x | x in w && x != t
      ensures WhereHolds(s', x, w[x])
    {
      assert WhereHolds(s, x, w[x]);
    }
  }

  lemma OtherCpus(s: State, s': State, w: map<Tid, Loc>, c: nat, t: Tid, l: Loc)
    requires Moves(s, s', w, c, t, l)
    ensures QueuesAgree(s', w[t := l]) && CpusAgree(s', w[t := l])
  {
    QueuesMove(s, s', w, c, t, l);
    CurrentsMove(s, s', w, c, t, l);
    LocalsMove(s, s', w, c, t, l);
  }

  lemma QueuesMove(s: State, s': State, w: map<Tid, Loc>, c: nat, t: Tid, l: Loc)
    requires OnlyMoves(s, s', c, t) && QueuesAgree(s, w)
    requires forall d :: 0 <= d < |s.rqs| ==> (Holds(s'.rqs[d].lists, t) <==> l == InQueue(d))
    ensures QueuesAgree(s', w[t := l])
  {}

  lemma CurrentsMove(s: State, s': State, w: map<Tid, Loc>, c: nat, t: Tid, l: Loc)
    requires OnlyMoves(s, s', c, t) && CurrentMoves(s, s', c, t, l) && CpusAgree(s, w)
    requires t in w ==> w[t] in {InFlight(c), On(c), Sleeping} || w[t].InQueue?
    ensures CurrentsAgree(s', w[t := l])
  {
    forall d | 0 <= d < |s.rqs| && s'.rqs[d].current.Some? && !Stale(s'.pcs[d])
      ensures s'.rqs[d].current.value in w[t := l] && w[t := l][s'.rqs[d].current.value] == On(d)
    {
      if d != c {
        assert w[s.rqs[d].current.value] == On(d);
      }
    }
  }

  lemma LocalsMove(s: State, s': State, w: map<Tid, Loc>, c: nat, t: Tid, l: Loc)
    requires OnlyMoves(s, s', c, t) && CpusAgree(s, w)
    requires t in w ==> w[t] in {InFlight(c), On(c), Sleeping} || w[t].InQueue?
    requires Local(s'.pcs[c]) == if l == InFlight(c) then Some(t) else None
    ensures LocalsAgree(s', w[t := l])
  {
    forall d | 0 <= d < |s.pcs| && Local(s'.pcs[d]).Some?
      ensures Local(s'.pcs[d]).value in w[t := l] && w[t := l][Local(s'.pcs[d]).value] == InFlight(d)
    {
      if d != c {
        assert w[Local(s.pcs[d]).value] == InFlight(d);
      }
    }
  }

  /** A step of CPU c that moves no thread. */
  lemma StayPut(s: State, s': State, w: map<Tid, Loc>, c: nat)
    requires Places(s, w) && MasksKept(s) && c < |s.pcs| && Shape(s') && |s'.rqs| == |s.rqs|
    requires s'.threads == s.threads && s'.nextTid == s.nextTid
    requires forall d :: 0 <= d < |s.pcs| && d != c ==> s'.pcs[d] == s.pcs[d]
    requires forall d :: 0 <= d < |s.rqs| && d != c ==> s'.rqs[d].current == s.rqs[d].current
    requires forall d :: 0 <= d < |s.rqs| ==> s'.rqs[d].lists == s.rqs[d].lists
    requires Local(s.pcs[c]) == None && Local(s'.pcs[c]) == None
    requires s'.rqs[c].current.Some? && !Stale(s'.pcs[c]) ==> s.rqs[c].current == s'.rqs[c].current && !Stale(s.pcs[c])
    requires s.rqs[c].current.Some? && !Stale(s.pcs[c]) ==> s.rqs[c].current == s'.rqs[c].current && !Stale(s'.pcs[c])
    ensures Places(s', w) && MasksKept(s')
  {
    forall t | t in w
      ensures WhereHolds(s', t, w[t])
    {
      assert WhereHolds(s, t, w[t]);
    }
    assert forall x, d :: Permitted(s, x, d) ==> Permitted(s', x, d);
  }

  // ----- Steps outside the critical sections that concern one thread -----

  /** CPU c rewrites thread t and goes on to pc, touching no queue and no lock. */
  ghost predicate ThreadStep(s: State, s': State, c: nat, t: Tid, th: Thread, pc: Pc) {
    && Shape(s) && c < |s.pcs| && Holding(s.pcs[c], c) == None && Holding(pc, c) == None
    && TargetsExist(pc, |s.rqs|) && th.prio < PRIORITIES
    && (t in s.threads ==> th.prio == s.threads[t].prio && th.mask == s.threads[t].mask)
    && s' == SetPc(SetThread(s, t, th), c, pc).(nextTid := s'.nextTid)
    && s.nextTid <= s'.nextTid && t < s'.nextTid
    && Local(s.pcs[c]) in {None, Some(t)}
    && (Stale(pc) == Stale(s.pcs[c]) || s.rqs[c].current in {None, Some(t)})
  }

  lemma ThreadStepQueues(s: State, s': State, c: nat, t: Tid, th: Thread, pc: Pc)
    requires ThreadStep(s, s', c, t, th, pc) && ListsGood(s) && LocksGood(s)
    ensures ListsGood(s') && LocksGood(s')
  {
    LocksKept(s, s', c);
  }

  lemma ThreadStepMasks(s: State, s': State, c: nat, t: Tid, th: Thread, pc: Pc)
    requires ThreadStep(s, s', c, t, th, pc) && MasksKept(s)
    requires t !in s.threads ==> forall d :: 0 <= d < |s.rqs| ==> !Holds(s.rqs[d].lists, t)
    requires Local(pc) in {None, Some(t)} && (Local(pc) == Some(t) ==> Permitted(s', t, Bound(pc, c)))
    requires Stale(pc) || Stale(s.pcs[c]) == Stale(pc)
    ensures MasksKept(s')
  {
    assert forall x, d :: Permitted(s, x, d) ==> Permitted(s', x, d);
  }

  lemma ThreadStepPlaces(s: State, s': State, w: map<Tid, Loc>, c: nat, t: Tid, th: Thread, pc: Pc, l: Loc)
    requires ThreadStep(s, s', c, t, th, pc) && Places(s, w)
    requires t in w ==> w[t] in {InFlight(c), On(c), Sleeping}
    requires l in {InFlight(c), Sleeping} && Local(pc) == if l == InFlight(c) then Some(t) else None
    requires th.state != Running && (l == Sleeping ==> th.state == Blocked)
    requires Stale(pc) || (Stale(s.pcs[c]) == Stale(pc) && s.rqs[c].current != Some(t))
    ensures Places(s', w[t := l])
  {
    Relocate(s, s', w, c, t, l);
  }

  lemma CreateKeeps(s: State, s': State, w: map<Tid, Loc>, c: nat, prio: nat, mask: Word, r: nat)
    requires InvAt(s, w) && Create(s, s', c, prio, mask, r)
    ensures InvAt(s', w[s.nextTid := InFlight(c)])
  {
    var t, th := s.nextTid, s'.threads[s.nextTid];
    assert t !in w && (s.rqs[c].current.Some? ==> s.rqs[c].current.value in w);
    PlacementAllowed(th.mask, |s.rqs|, r);
    ThreadStepQueues(s, s', c, t, th, WantPush(t, r, Return));
    ThreadStepMasks(s, s', c, t, th, WantPush(t, r, Return));
    ThreadStepPlaces(s, s', w, c, t, th, WantPush(t, r, Return), InFlight(c));
  }

  /** schedule and yield begin by making the running thread READY, block by making it BLOCKED. */
  lemma LeaveCpu(s: State, s': State, w: map<Tid, Loc>, c: nat, t: Tid, state: ThreadState, pc: Pc)
    requires InvAt(s, w) && c < |s.pcs| && s.pcs[c] == Idle && s.rqs[c].current == Some(t)
    requires t in s.threads && s' == SetPc(SetThread(s, t, s.threads[t].(state := state)), c, pc)
    requires (state == Ready && (pc == WantPush(t, c, ThenDequeue) || pc == WantPush(t, c, ThenClear)))
          || (state == Blocked && pc == Clearing)
    ensures InvAt(s', w[t := if state == Ready then InFlight(c) else Sleeping])
  {
    assert w[t] == On(c);
    var th := s'.threads[t];
    assert Permitted(s, t, c) && Permitted(s', t, c);
    ThreadStepQueues(s, s', c, t, th, pc);
    ThreadStepMasks(s, s', c, t, th, pc);
    ThreadStepPlaces(s, s', w, c, t, th, pc, if state == Ready then InFlight(c) else Sleeping);
  }

  lemma UnblockKeeps(s: State, s': State, w: map<Tid, Loc>, c: nat, t: Tid, r: nat)
    requires InvAt(s, w) && Unblock(s, s', c, t, r)
    ensures InvAt(s', w[t := InFlight(c)])
  {
    assert WhereHolds(s, t, w[t]) && w[t] == Sleeping;
    var th, pc := s'.threads[t], WantPush(t, r, Return);
    PlacementAllowed(th.mask, |s.rqs|, r);
    ThreadStepQueues(s, s', c, t, th, pc);
    ThreadStepMasks(s, s', c, t, th, pc);
    ThreadStepPlaces(s, s', w, c, t, th, pc, InFlight(c));
  }

  lemma StolenKeeps(s: State, s': State, w: map<Tid, Loc>, c: nat, t: Tid)
    requires InvAt(s, w) && c < |s.pcs| && s.pcs[c] == Stolen(t) && Advance(s, s', c)
    ensures InvAt(s', w[t := InFlight(c)])
  {
    assert w[t] == InFlight(c) && WhereHolds(s, t, w[t]);
    var th, pc := s'.threads[t], WantPush(t, c, Return);
    assert Permitted(s, t, c) && Permitted(s', t, c);
    ThreadStepQueues(s, s', c, t, th, pc);
    ThreadStepMasks(s, s', c, t, th, pc);
    ThreadStepPlaces(s, s', w, c, t, th, pc, InFlight(c));
  }

  // ----- Taking a lock -----

  lemma AcquireKeeps(s: State, s': State, w: map<Tid, Loc>, c: nat, r: nat, pc: Pc)
    requires InvAt(s, w) && c < |s.pcs| && Acquire(s, s', c, r, pc)
    requires Local(pc) == Local(s.pcs[c]) && Stale(pc) == Stale(s.pcs[c]) && Bound(pc, c) == Bound(s.pcs[c], c)
    requires Holding(s.pcs[c], c) == None && Holding(pc, c) == Some(r) && TargetsExist(pc, |s.rqs|)
    ensures InvAt(s', w)
  {
    AcquireLocks(s, s', c, r, pc);
    AcquireLists(s, s', c, r, pc);
    AcquirePlaces(s, s', w, c, r, pc);
    AcquireMasks(s, s', c, r, pc);
  }

  lemma AcquireLocks(s: State, s': State, c: nat, r: nat, pc: Pc)
    requires Shape(s) && LocksGood(s) && c < |s.pcs| && Acquire(s, s', c, r, pc)
    requires Holding(s.pcs[c], c) == None && Holding(pc, c) == Some(r) && TargetsExist(pc, |s.rqs|)
    ensures LocksGood(s')
  {
    LocksKept(s, s', c);
  }

  lemma AcquireLists(s: State, s': State, c: nat, r: nat, pc: Pc)
    requires ListsGood(s) && c < |s.pcs| && Acquire(s, s', c, r, pc)
    ensures ListsGood(s')
  {}

  lemma AcquirePlaces(s: State, s': State, w: map<Tid, Loc>, c: nat, r: nat, pc: Pc)
    requires Places(s, w) && c < |s.pcs| && Acquire(s, s', c, r, pc)
    requires Local(pc) == Local(s.pcs[c]) && Stale(pc) == Stale(s.pcs[c])
    ensures Places(s', w)
  {
    AcquirePlaced(s, s', w, c, r, pc);
    AcquireAgree(s, s', w, c, r, pc);
  }

  lemma AcquirePlaced(s: State, s': State, w: map<Tid, Loc>, c: nat, r: nat, pc: Pc)
    requires Shape(s) && Known(s, w) && Placed(s, w) && c < |s.pcs| && Acquire(s, s', c, r, pc)
    requires Local(pc) == Local(s.pcs[c]) && Stale(pc) == Stale(s.pcs[c])
    ensures Known(s', w) && Placed(s', w)
  {
    forall t | t in w
      ensures WhereHolds(s', t, w[t])
    {
      assert WhereHolds(s, t, w[t]);
    }
  }

  lemma AcquireAgree(s: State, s': State, w: map<Tid, Loc>, c: nat, r: nat, pc: Pc)
    requires Shape(s) && QueuesAgree(s, w) && CpusAgree(s, w) && c < |s.pcs| && Acquire(s, s', c, r, pc)
    requires Local(pc) == Local(s.pcs[c]) && Stale(pc) == Stale(s.pcs[c])
    ensures QueuesAgree(s', w) && CpusAgree(s', w)
  {}

  lemma AcquireMasks(s: State, s': State, c: nat, r: nat, pc: Pc)
    requires Shape(s) && MasksKept(s) && c < |s.pcs| && Acquire(s, s', c, r, pc)
    requires Local(pc) == Local(s.pcs[c]) && Stale(pc) == Stale(s.pcs[c]) && Bound(pc, c) == Bound(s.pcs[c], c)
    ensures MasksKept(s')
  {
    assert forall x, d :: Permitted(s, x, d) ==> Permitted(s', x, d);
  }

  // ----- Inside a lock: a thread enters or leaves a queue -----

  /** CPU c, inside the lock of queue r, puts the thread in its local into that queue. */
  ghost predicate PutsIn(s: State, s': State, c: nat, t: Tid, r: nat, pc: Pc) {
    && Shape(s) && c < |s.pcs| && r < |s.rqs| && t in s.threads && s.threads[t].prio < PRIORITIES
    && Holding(s.pcs[c], c) == Some(r) && Holding(pc, c) == None && TargetsExist(pc, |s.rqs|)
    && Local(s.pcs[c]) == Some(t) && Local(pc) == None && Bound(s.pcs[c], c) == r
    && Stale(pc) == Stale(s.pcs[c])
    && s' == SetPc(
         SetThread(
           SetRq(s, r, s.rqs[r].(
             owner := None, lists := Push(s.rqs[r].lists, s.threads[t].prio, t), num := s.rqs[r].num + 1)),
           t, s.threads[t].(state := Ready)),
         c, pc)
  }

  lemma PutInKeeps(s: State, s': State, w: map<Tid, Loc>, c: nat, t: Tid, r: nat, pc: Pc)
    requires InvAt(s, w) && PutsIn(s, s', c, t, r, pc)
    ensures InvAt(s', w[t := InQueue(r)])
  {
    PutInPlaces(s, s', w, c, t, r, pc);
    PutInMasks(s, s', c, t, r, pc);
    PushLists(s, s', c, t, r, s.threads[t].prio);
    PutInLocks(s, s', c, t, r, pc);
  }

  lemma PutInPlaces(s: State, s': State, w: map<Tid, Loc>, c: nat, t: Tid, r: nat, pc: Pc)
    requires Places(s, w) && PutsIn(s, s', c, t, r, pc)
    ensures !Holds(s.rqs[r].lists, t) && Places(s', w[t := InQueue(r)])
  {
    assert w[t] == InFlight(c);
    assert forall d :: 0 <= d < |s.rqs| ==> !Holds(s.rqs[d].lists, t);
    assert !Stale(s.pcs[c]) && s.rqs[c].current.Some? ==> w[s.rqs[c].current.value] == On(c);
    PutInMoves(s, s', c, t, r, pc);
    Relocate(s, s', w, c, t, InQueue(r));
  }

  lemma PutInMoves(s: State, s': State, c: nat, t: Tid, r: nat, pc: Pc)
    requires PutsIn(s, s', c, t, r, pc) && (!Stale(s.pcs[c]) ==> s.rqs[c].current != Some(t))
    requires forall d :: 0 <= d < |s.rqs| ==> !Holds(s.rqs[d].lists, t)
    ensures OnlyMoves(s, s', c, t) && CurrentMoves(s, s', c, t, InQueue(r))
    ensures forall d :: 0 <= d < |s.rqs| ==> (Holds(s'.rqs[d].lists, t) <==> d == r)
  {
    PushHolds(s.rqs[r].lists, s.threads[t].prio, t);
  }

  lemma PutInMasks(s: State, s': State, c: nat, t: Tid, r: nat, pc: Pc)
    requires Shape(s) && MasksKept(s) && PutsIn(s, s', c, t, r, pc)
    ensures MasksKept(s')
  {
    assert Permitted(s, t, r);
    PushHolds(s.rqs[r].lists, s.threads[t].prio, t);
    assert forall x, d :: Permitted(s, x, d) ==> Permitted(s', x, d);
  }

  lemma PutInLocks(s: State, s': State, c: nat, t: Tid, r: nat, pc: Pc)
    requires Shape(s) && LocksGood(s) && PutsIn(s, s', c, t, r, pc)
    ensures LocksGood(s')
  {
    LocksKept(s, s', c);
  }

  lemma PushLists(s: State, s': State, c: nat, t: Tid, r: nat, p: nat)
    requires Shape(s) && Shape(s') && |s'.rqs| == |s.rqs| && ListsGood(s) && r < |s.rqs| && p < PRIORITIES
    requires !Holds(s.rqs[r].lists, t) && t in s.threads && s.threads[t].prio == p
    requires s'.threads == s.threads[t := s.threads[t].(state := Ready)]
    requires forall d :: 0 <= d < |s.rqs| && d != r ==> s'.rqs[d] == s.rqs[d]
    requires s'.rqs[r].lists == Push(s.rqs[r].lists, p, t) && s'.rqs[r].num == s.rqs[r].num + 1
    ensures ListsGood(s')
  {
    PushCounts(s.rqs[r].lists, p, t);
    PushNoRepeats(s.rqs[r].lists, p, t);
    forall q, i | 0 <= q < PRIORITIES && 0 <= i < |s'.rqs[r].lists[q]|
      ensures s'.rqs[r].lists[q][i] in s'.threads && s'.threads[s'.rqs[r].lists[q][i]].prio == q
    {
      if q == p && i == 0 {
        assert s'.rqs[r].lists[q][i] == t;
      } else {
        assert s'.rqs[r].lists[q][i] == s.rqs[r].lists[q][if q == p then i - 1 else i];
      }
    }
  }

  /** CPU c, inside the lock of queue r, takes position (p, k) into a local. */
  ghost predicate TakesOut(s: State, s': State, c: nat, r: nat, p: nat, k: nat, pc: Pc) {
    && Shape(s) && c < |s.pcs| && r < |s.rqs| && p < PRIORITIES && k < |s.rqs[r].lists[p]|
    && Holding(s.pcs[c], c) == Some(r) && Holding(pc, c) == None && TargetsExist(pc, |s.rqs|)
    && Local(s.pcs[c]) == None && Local(pc) == Some(s.rqs[r].lists[p][k])
    && Stale(pc) == Stale(s.pcs[c]) && Bound(pc, c) == c
    && s' == TakeOut(s, c, r, p, k, pc)
  }

  lemma TakeOutKeeps(s: State, s': State, w: map<Tid, Loc>, c: nat, r: nat, p: nat, k: nat, pc: Pc)
    requires InvAt(s, w) && TakesOut(s, s', c, r, p, k, pc) && Permitted(s, s.rqs[r].lists[p][k], c)
    ensures InvAt(s', w[s.rqs[r].lists[p][k] := InFlight(c)])
  {
    TakeOutLists(s, s', c, r, p, k, pc);
    TakeOutLocks(s, s', c, r, p, k, pc);
    TakeOutPlaces(s, s', w, c, r, p, k, pc);
    TakeOutMasks(s, s', c, r, p, k, pc);
  }

  lemma TakeOutPlaces(s: State, s': State, w: map<Tid, Loc>, c: nat, r: nat, p: nat, k: nat, pc: Pc)
    requires Places(s, w) && TakesOut(s, s', c, r, p, k, pc) && NoRepeats(s.rqs[r].lists)
    ensures Places(s', w[s.rqs[r].lists[p][k] := InFlight(c)])
  {
    var t := s.rqs[r].lists[p][k];
    assert Holds(s.rqs[r].lists, t);
    assert w[t] == InQueue(r) && WhereHolds(s, t, w[t]);
    assert forall d :: 0 <= d < |s.rqs| && d != r ==> !Holds(s.rqs[d].lists, t);
    assert !Stale(s.pcs[c]) && s.rqs[c].current.Some? ==> w[s.rqs[c].current.value] == On(c);
    TakeOutMoves(s, s', c, r, p, k, pc);
    Relocate(s, s', w, c, t, InFlight(c));
  }

  lemma TakeOutMoves(s: State, s': State, c: nat, r: nat, p: nat, k: nat, pc: Pc)
    requires TakesOut(s, s', c, r, p, k, pc) && NoRepeats(s.rqs[r].lists) && s.rqs[r].lists[p][k] in s.threads
    requires !Stale(s.pcs[c]) ==> s.rqs[c].current != Some(s.rqs[r].lists[p][k])
    requires forall d :: 0 <= d < |s.rqs| && d != r ==> !Holds(s.rqs[d].lists, s.rqs[r].lists[p][k])
    ensures OnlyMoves(s, s', c, s.rqs[r].lists[p][k])
    ensures CurrentMoves(s, s', c, s.rqs[r].lists[p][k], InFlight(c))
    ensures forall d :: 0 <= d < |s.rqs| ==> !Holds(s'.rqs[d].lists, s.rqs[r].lists[p][k])
  {
    RemoveHolds(s.rqs[r].lists, p, k);
    RemoveNoRepeats(s.rqs[r].lists, p, k);
  }

  lemma TakeOutMasks(s: State, s': State, c: nat, r: nat, p: nat, k: nat, pc: Pc)
    requires Shape(s) && MasksKept(s) && TakesOut(s, s', c, r, p, k, pc) && Permitted(s, s.rqs[r].lists[p][k], c)
    ensures MasksKept(s')
  {
    RemoveHolds(s.rqs[r].lists, p, k);
    assert forall x, d :: Permitted(s, x, d) ==> Permitted(s', x, d);
  }

  lemma TakeOutLists(s: State, s': State, c: nat, r: nat, p: nat, k: nat, pc: Pc)
    requires TakesOut(s, s', c, r, p, k, pc) && ListsGood(s)
    ensures ListsGood(s')
  {
    RemoveCounts(s.rqs[r].lists, p, k);
    RemoveNoRepeats(s.rqs[r].lists, p, k);
    forall q, i | 0 <= q < PRIORITIES && 0 <= i < |s'.rqs[r].lists[q]|
      ensures s'.rqs[r].lists[q][i] in s'.threads && s'.threads[s'.rqs[r].lists[q][i]].prio == q
    {
      assert s'.rqs[r].lists[q][i] == s.rqs[r].lists[q][if q == p && i >= k then i + 1 else i];
    }
  }

  lemma TakeOutLocks(s: State, s': State, c: nat, r: nat, p: nat, k: nat, pc: Pc)
    requires TakesOut(s, s', c, r, p, k, pc) && LocksGood(s)
    ensures LocksGood(s')
  {
    LocksKept(s, s', c);
  }

  // ----- Steps that move no thread, and the arrival on a CPU -----

  /** CPU c goes on to pc, dropping the lock of queue r if it holds it. */
  ghost predicate PlainStep(s: State, s': State, c: nat, r: nat, pc: Pc, current: Option<Tid>) {
    && Shape(s) && c < |s.pcs| && r < |s.rqs|
    && Holding(s.pcs[c], c) in {None, Some(r)} && Holding(pc, c) == None && TargetsExist(pc, |s.rqs|)
    && s.rqs[r].owner in {None, Some(c)} + (if Holding(s.pcs[c], c) == None then {s.rqs[r].owner} else {})
    && (r != c ==> current == s.rqs[r].current)
    && s' == SetPc(SetRq(s, r, s.rqs[r].(
         owner := if Holding(s.pcs[c], c) == None then s.rqs[r].owner else None, current := current)), c, pc)
  }

  lemma PlainStepKeeps(s: State, s': State, w: map<Tid, Loc>, c: nat, r: nat, pc: Pc, current: Option<Tid>)
    requires InvAt(s, w) && PlainStep(s, s', c, r, pc, current)
    requires Local(s.pcs[c]) == None && Local(pc) == None
    requires if Stale(s.pcs[c]) then Stale(pc) || s'.rqs[c].current == None
             else (s'.rqs[c].current == s.rqs[c].current && (Stale(pc) ==> s.rqs[c].current == None))
    ensures InvAt(s', w)
  {
    LocksKept(s, s', c);
    StayPut(s, s', w, c);
  }

  /** sched_schedule sets `current` to the thread it dequeued. */
  lemma ArriveKeeps(s: State, s': State, w: map<Tid, Loc>, c: nat, t: Tid)
    requires InvAt(s, w) && c < |s.pcs| && s.pcs[c] == Popped(Some(t)) && SetCurrent(s, s', c, Some(t))
    ensures InvAt(s', w[t := On(c)])
  {
    LocksKept(s, s', c);
    ArrivePlaces(s, s', w, c, t);
    ArriveMasks(s, s', c, t);
    ArriveLists(s, s', c, t);
  }

  lemma ArriveMasks(s: State, s': State, c: nat, t: Tid)
    requires Shape(s) && MasksKept(s) && c < |s.pcs|
    requires s.pcs[c] == Popped(Some(t)) && SetCurrent(s, s', c, Some(t))
    ensures MasksKept(s')
  {
    assert Permitted(s, t, c);
    assert forall x, d :: Permitted(s, x, d) ==> Permitted(s', x, d);
  }

  lemma ArriveLists(s: State, s': State, c: nat, t: Tid)
    requires Shape(s) && ListsGood(s) && c < |s.pcs| && SetCurrent(s, s', c, Some(t))
    ensures ListsGood(s')
  {}

  lemma ArrivePlaces(s: State, s': State, w: map<Tid, Loc>, c: nat, t: Tid)
    requires Places(s, w) && c < |s.pcs| && s.pcs[c] == Popped(Some(t)) && SetCurrent(s, s', c, Some(t))
    ensures Places(s', w[t := On(c)])
  {
    ArriveMoves(s, s', w, c, t);
    InHandOnly(s, w, c, t);
    Relocate(s, s', w, c, t, On(c));
  }

  lemma ArriveMoves(s: State, s': State, w: map<Tid, Loc>, c: nat, t: Tid)
    requires Shape(s) && c < |s.pcs| && s.pcs[c] == Popped(Some(t)) && SetCurrent(s, s', c, Some(t))
    ensures OnlyMoves(s, s', c, t) && CurrentMoves(s, s', c, t, On(c)) && WhereHolds(s', t, On(c))
    ensures forall d :: 0 <= d < |s.rqs| ==> s'.rqs[d].lists == s.rqs[d].lists
  {}

  /** A thread in a CPU's hand is in no queue. */
  lemma InHandOnly(s: State, w: map<Tid, Loc>, c: nat, t: Tid)
    requires Places(s, w) && c < |s.pcs| && Local(s.pcs[c]) == Some(t)
    ensures t in w && w[t] == InFlight(c) && t < s.nextTid && s.threads[t].prio < PRIORITIES
    ensures forall d :: 0 <= d < |s.rqs| ==> !Holds(s.rqs[d].lists, t)
  {}

  // ----- A change of priority -----

  lemma PriorityKeeps(s: State, s': State, w: map<Tid, Loc>, c: nat, t: Tid, prio: nat)
    requires InvAt(s, w) && SetPriority(s, s', c, t, prio)
    ensures InvAt(s', w)
  {
    NotReadyNotQueued(s, w, t);
    PriorityPlaces(s, s', w, t, prio);
    PriorityLists(s, s', t, prio);
    PriorityMasks(s, s', t, prio);
  }

  lemma NotReadyNotQueued(s: State, w: map<Tid, Loc>, t: Tid)
    requires Places(s, w) && t in s.threads && s.threads[t].state != Ready
    ensures forall d :: 0 <= d < |s.rqs| ==> !Holds(s.rqs[d].lists, t)
  {
    assert WhereHolds(s, t, w[t]);
  }

  ghost predicate OnlyPriority(s: State, s': State, t: Tid, prio: nat) {
    t in s.threads && prio < PRIORITIES && s' == SetThread(s, t, s.threads[t].(prio := prio))
  }

  lemma PriorityPlaces(s: State, s': State, w: map<Tid, Loc>, t: Tid, prio: nat)
    requires Places(s, w) && OnlyPriority(s, s', t, prio)
    ensures Places(s', w)
  {
    PriorityPlaced(s, s', w, t, prio);
  }

  lemma PriorityPlaced(s: State, s': State, w: map<Tid, Loc>, t: Tid, prio: nat)
    requires Shape(s) && Known(s, w) && Placed(s, w) && OnlyPriority(s, s', t, prio)
    ensures Known(s', w) && Placed(s', w)
  {
    forall x | x in w
      ensures WhereHolds(s', x, w[x])
    {
      assert WhereHolds(s, x, w[x]);
    }
  }

  lemma PriorityLists(s: State, s': State, t: Tid, prio: nat)
    requires ListsGood(s) && OnlyPriority(s, s', t, prio)
    requires forall d :: 0 <= d < |s.rqs| ==> !Holds(s.rqs[d].lists, t)
    ensures ListsGood(s')
  {
    forall d, p, i | 0 <= d < |s.rqs| && 0 <= p < PRIORITIES && 0 <= i < |s.rqs[d].lists[p]|
      ensures s.rqs[d].lists[p][i] in s'.threads && s'.threads[s.rqs[d].lists[p][i]].prio == p
    {
      assert Holds(s.rqs[d].lists, s.rqs[d].lists[p][i]);
    }
  }

  lemma PriorityMasks(s: State, s': State, t: Tid, prio: nat)
    requires Shape(s) && OnlyPriority(s, s', t, prio)
    ensures MasksKept(s) ==> MasksKept(s')
    ensures LocksGood(s) ==> LocksGood(s')
  {
    assert forall x, d :: Permitted(s, x, d) ==> Permitted(s', x, d);
  }

  // ----- Every step keeps the invariant -----

  lemma CallKeeps(s: State, s': State, w: map<Tid, Loc>) returns (w': map<Tid, Loc>)
    requires InvAt(s, w) && Call(s, s')
    ensures InvAt(s', w')
  {
    if c, prio, mask, r :| Create(s, s', c, prio, mask, r) {
      w' := w[s.nextTid := InFlight(c)];
      CreateKeeps(s, s', w, c, prio, mask, r);
    } else if c, t, r :| Unblock(s, s', c, t, r) {
      w' := w[t := InFlight(c)];
      UnblockKeeps(s, s', w, c, t, r);
    } else if c, t, prio :| SetPriority(s, s', c, t, prio) {
      w' := w;
      PriorityKeeps(s, s', w, c, t, prio);
    } else {
      var c :| Schedule(s, s', c) || Yield(s, s', c) || Block(s, s', c) || Balance(s, s', c);
      w' := LocalCallKeeps(s, s', w, c);
    }
  }

  lemma LocalCallKeeps(s: State, s': State, w: map<Tid, Loc>, c: nat) returns (w': map<Tid, Loc>)
    requires InvAt(s, w) && (Schedule(s, s', c) || Yield(s, s', c) || Block(s, s', c) || Balance(s, s', c))
    ensures InvAt(s', w')
  {
    w' := w;
    if Balance(s, s', c) {
      if s' != s {
        PlainStepKeeps(s, s', w, c, c, Balancing, s.rqs[c].current);
      }
    } else {
      match s.rqs[c].current
      case None =>
        if s' != s {
          PlainStepKeeps(s, s', w, c, c, WantPop, None);
        }
      case Some(t) =>
        assert w[t] == On(c) && WhereHolds(s, t, w[t]);
        var state := if Block(s, s', c) then Blocked else Ready;
        w' := w[t := if state == Ready then InFlight(c) else Sleeping];
        LeaveCpu(s, s', w, c, t, state, s'.pcs[c]);
    }
  }

  lemma AdvanceKeeps(s: State, s': State, w: map<Tid, Loc>, c: nat) returns (w': map<Tid, Loc>)
    requires InvAt(s, w) && Advance(s, s', c)
    ensures InvAt(s', w')
  {
    w' := w;
    match s.pcs[c]
    case WantPush(_, _, _) => WantKeeps(s, s', w, c);
    case WantPop => WantKeeps(s, s', w, c);
    case WantSteal(_, _) => WantKeeps(s, s', w, c);
    case Pushing(t, rq, after) =>
      w' := w[t := InQueue(rq)];
      PutInKeeps(s, s', w, c, t, rq, s'.pcs[c]);
    case Popping => w' := PopKeeps(s, s', w, c);
    case Stealing(i, load) => w' := StealKeeps(s, s', w, c, i, load);
    case _ => w' := UnlockedKeeps(s, s', w, c);
  }

  lemma WantKeeps(s: State, s': State, w: map<Tid, Loc>, c: nat)
    requires InvAt(s, w) && Advance(s, s', c)
    requires s.pcs[c].WantPush? || s.pcs[c].WantPop? || s.pcs[c].WantSteal?
    ensures InvAt(s', w)
  {
    match s.pcs[c]
    case WantPush(t, rq, after) => AcquireKeeps(s, s', w, c, rq, Pushing(t, rq, after));
    case WantPop => AcquireKeeps(s, s', w, c, c, Popping);
    case WantSteal(i, load) => AcquireKeeps(s, s', w, c, i, Stealing(i, load));
  }

  lemma UnlockedKeeps(s: State, s': State, w: map<Tid, Loc>, c: nat) returns (w': map<Tid, Loc>)
    requires InvAt(s, w) && Advance(s, s', c)
    requires s.pcs[c].Popped? || s.pcs[c].Clearing? || s.pcs[c].Balancing? || s.pcs[c].Scanning? || s.pcs[c].Stolen?
    ensures InvAt(s', w')
  {
    w' := w;
    match s.pcs[c]
    case Popped(None) => PlainStepKeeps(s, s', w, c, c, Idle, None);
    case Popped(Some(t)) =>
      w' := w[t := On(c)];
      ArriveKeeps(s, s', w, c, t);
    case Clearing => PlainStepKeeps(s, s', w, c, c, Idle, None);
    case Balancing => PlainStepKeeps(s, s', w, c, c, s'.pcs[c], s.rqs[c].current);
    case Scanning(i, load) => PlainStepKeeps(s, s', w, c, c, s'.pcs[c], s.rqs[c].current);
    case Stolen(t) =>
      w' := w[t := InFlight(c)];
      StolenKeeps(s, s', w, c, t);
  }

  lemma PopKeeps(s: State, s': State, w: map<Tid, Loc>, c: nat) returns (w': map<Tid, Loc>)
    requires InvAt(s, w) && c < |s.pcs| && s.pcs[c] == Popping && FinishPop(s, s', c)
    ensures InvAt(s', w')
  {
    w' := w;
    var q := s.rqs[c].lists;
    assert s.rqs[c].owner == Some(c);
    if Empty(q) {
      PlainStepKeeps(s, s', w, c, c, Popped(None), s.rqs[c].current);
    } else {
      var p: nat :| Highest(q, p) && s' == TakeOut(s, c, c, p, 0, Popped(Some(q[p][0])));
      assert Holds(q, q[p][0]) && Permitted(s, q[p][0], c);
      TakeOutKeeps(s, s', w, c, c, p, 0, Popped(Some(q[p][0])));
      w' := w[q[p][0] := InFlight(c)];
    }
  }

  lemma StealKeeps(s: State, s': State, w: map<Tid, Loc>, c: nat, i: nat, load: int)
    returns (w': map<Tid, Loc>)
    requires InvAt(s, w) && c < |s.pcs| && s.pcs[c] == Stealing(i, load) && FinishSteal(s, s', c, i, load)
    ensures InvAt(s', w')
  {
    w' := w;
    var q := s.rqs[i].lists;
    assert s.rqs[i].owner == Some(c);
    if NoneAllowed(q, MayRunOn(s, c)) {
      PlainStepKeeps(s, s', w, c, i, Scanning(i + 1, load), s.rqs[i].current);
    } else {
      var p: nat, k: nat :| FirstAllowed(q, MayRunOn(s, c), p, k) && s' == TakeOut(s, c, i, p, k, Stolen(q[p][k]));
      TakeOutKeeps(s, s', w, c, i, p, k, Stolen(q[p][k]));
      w' := w[q[p][k] := InFlight(c)];
    }
  }

  lemma StepKeeps(s: State, s': State)
    requires Inv(s) && Step(s, s')
    ensures Inv(s')
  {
    var w :| InvAt(s, w);
    if Call(s, s') {
      var w' := CallKeeps(s, s', w);
    } else {
      var c :| Advance(s, s', c);
      var w' := AdvanceKeeps(s, s', w, c);
    }
  }

  lemma InitHolds(s: State)
    requires Init(s)
    ensures Inv(s)
  {
    forall r | 0 <= r < |s.rqs|
      ensures Size(s.rqs[r].lists) == 0 && forall t :: !Holds(s.rqs[r].lists, t)
    {
      EmptySize(s.rqs[r].lists, PRIORITIES);
    }
    assert InvAt(s, map[]);
  }

  /** The invariant holds at every moment of every interleaving. */
  lemma {:induction false} RunKeeps(tr: seq<State>, k: nat)
    requires Run(tr) && k < |tr|
    ensures Inv(tr[k])
  {
    if k == 0 {
      InitHolds(tr[0]);
    } else {
      RunKeeps(tr, k - 1);
      StepKeeps(tr[k - 1], tr[k]);
    }
  }

  // ----- What the invariant says -----

  /** Every live thread is in exactly one place: at one position of one queue, running on one CPU, in
      one CPU's local, or asleep. */
  ghost predicate OnePlaceEach(s: State) {
    forall t :: t in s.threads ==>
      && (exists spot :: At(s, t, spot))
      && forall a, b :: At(s, t, a) && At(s, t, b) ==> a == b
  }

  /** Queued threads are READY, running ones RUNNING and assigned to their CPU. */
  ghost predicate StatesMatch(s: State) {
    forall t, spot :: At(s, t, spot) ==> t in s.threads && StateMatches(s.threads[t], spot)
  }

  ghost predicate StateMatches(th: Thread, spot: Spot) {
    match spot
    case Queued(_, p, _) => th.state == Ready && th.prio == p
    case RunningOn(c) => th.state == Running && th.cpuId == c
    case InLocal(_) => th.state != Running
    case Asleep => th.state == Blocked
  }

  function LocOf(spot: Spot): Loc {
    match spot
    case Queued(c, _, _) => InQueue(c)
    case RunningOn(c) => On(c)
    case InLocal(c) => InFlight(c)
    case Asleep => Sleeping
  }

  lemma SpotsAgree(s: State, w: map<Tid, Loc>, t: Tid, spot: Spot)
    requires InvAt(s, w) && At(s, t, spot)
    ensures t in w && w[t] == LocOf(spot) && WhereHolds(s, t, w[t])
  {
    match spot
    case Queued(c, p, i) => assert Holds(s.rqs[c].lists, t);
    case RunningOn(c) =>
    case InLocal(c) =>
    case Asleep => assert WhereHolds(s, t, w[t]);
  }

  lemma HasSpot(s: State, w: map<Tid, Loc>, t: Tid)
    requires InvAt(s, w) && t in s.threads
    ensures exists spot :: At(s, t, spot)
  {
    assert WhereHolds(s, t, w[t]);
    if w[t] == Sleeping {
      NotInHand(s, w, t);
    }
    SpotAt(s, t, w[t]);
  }

  lemma NotInHand(s: State, w: map<Tid, Loc>, t: Tid)
    requires LocalsAgree(s, w) && t in w && w[t] == Sleeping
    ensures !InHand(s, t)
  {
    forall d | 0 <= d < |s.pcs|
      ensures Local(s.pcs[d]) != Some(t)
    {}
  }

  lemma SpotAt(s: State, t: Tid, l: Loc)
    requires Shape(s) && t in s.threads && WhereHolds(s, t, l) && (l == Sleeping ==> !InHand(s, t))
    ensures exists spot :: At(s, t, spot)
  {
    match l
    case InQueue(c) =>
      var p: nat, i: nat :| p < PRIORITIES && i < |s.rqs[c].lists[p]| && s.rqs[c].lists[p][i] == t;
      assert At(s, t, Queued(c, p, i));
    case On(c) => assert At(s, t, RunningOn(c));
    case InFlight(c) => assert At(s, t, InLocal(c));
    case Sleeping => assert At(s, t, Asleep);
  }

  lemma SameSpot(s: State, w: map<Tid, Loc>, t: Tid, a: Spot, b: Spot)
    requires InvAt(s, w) && At(s, t, a) && At(s, t, b)
    ensures a == b
  {
    SpotsAgree(s, w, t, a);
    SpotsAgree(s, w, t, b);
  }

  lemma StateAtSpot(s: State, w: map<Tid, Loc>, t: Tid, spot: Spot)
    requires InvAt(s, w) && At(s, t, spot)
    ensures t in s.threads && StateMatches(s.threads[t], spot)
  {
    SpotsAgree(s, w, t, spot);
  }

  lemma OnePlaceHolds(s: State, w: map<Tid, Loc>)
    requires InvAt(s, w)
    ensures OnePlaceEach(s)
  {
    forall t | t in s.threads
      ensures exists spot :: At(s, t, spot)
    {
      HasSpot(s, w, t);
    }
    forall t, a, b | t in s.threads && At(s, t, a) && At(s, t, b)
      ensures a == b
    {
      SameSpot(s, w, t, a, b);
    }
  }

  lemma InvMeaning(s: State)
    requires Inv(s)
    ensures OnePlaceEach(s) && StatesMatch(s)
  {
    var w :| InvAt(s, w);
    OnePlaceHolds(s, w);
    forall t, spot | At(s, t, spot)
      ensures t in s.threads && StateMatches(s.threads[t], spot)
    {
      StateAtSpot(s, w, t, spot);
    }
  }

  /** In every state any interleaving reaches, no thread is lost, doubled or in a wrong state. */
  lemma ThreadsNeverLost(tr: seq<State>, k: nat)
    requires Run(tr) && k < |tr|
    ensures OnePlaceEach(tr[k]) && StatesMatch(tr[k])
  {
    RunKeeps(tr, k);
    InvMeaning(tr[k]);
  }

  /** In every such state a thread whose mask allows some CPU is queued, running or bound only on a
      CPU its mask allows. */
  lemma MasksRespected(tr: seq<State>, k: nat, t: Tid, spot: Spot)
    requires Run(tr) && k < |tr| && t in tr[k].threads && At(tr[k], t, spot)
    requires Meets(tr[k].threads[t].mask, |tr[k].rqs|)
    ensures match spot
            case Queued(c, _, _) => Test(tr[k].threads[t].mask, c)
            case RunningOn(c) => Test(tr[k].threads[t].mask, c)
            case InLocal(c) => Test(tr[k].threads[t].mask, Bound(tr[k].pcs[c], c))
            case Asleep => true
  {
    RunKeeps(tr, k);
    SpotPermitted(tr[k], t, spot);
  }

  lemma SpotPermitted(s: State, t: Tid, spot: Spot)
    requires Inv(s) && t in s.threads && At(s, t, spot) && Meets(s.threads[t].mask, |s.rqs|)
    ensures match spot
            case Queued(c, _, _) => Test(s.threads[t].mask, c)
            case RunningOn(c) => Test(s.threads[t].mask, c)
            case InLocal(c) => Test(s.threads[t].mask, Bound(s.pcs[c], c))
            case Asleep => true
  {
    match spot
    case Queued(c, p, i) => assert Holds(s.rqs[c].lists, t) && Permitted(s, t, c);
    case RunningOn(c) => assert Permitted(s, t, c);
    case InLocal(c) => assert Permitted(s, t, Bound(s.pcs[c], c));
    case Asleep =>
  }

  // ----- Two wakers -----

  /** Waking a thread keeps every thread in one place if and only if no other CPU has it in hand:
      `state` stays BLOCKED until the enqueue, so it does not stop a second waker. */
  lemma WakersMustBeAlone(s: State, s': State, c: nat, t: Tid, r: nat)
    requires Inv(s) && WakeUp(s, s', c, t, r)
    ensures OnePlaceEach(s') <==> !InHand(s, t)
  {
    if InHand(s, t) {
      WokenTwice(s, s', c, t, r);
    } else {
      WokenAlone(s, s', c, t, r);
    }
  }

  lemma WokenAlone(s: State, s': State, c: nat, t: Tid, r: nat)
    requires Inv(s) && WakeUp(s, s', c, t, r) && !InHand(s, t)
    ensures OnePlaceEach(s')
  {
    var w :| InvAt(s, w);
    UnblockKeeps(s, s', w, c, t, r);
    InvMeaning(s');
  }

  lemma WokenTwice(s: State, s': State, c: nat, t: Tid, r: nat)
    requires WakeUp(s, s', c, t, r) && InHand(s, t)
    ensures !OnePlaceEach(s')
  {
    var d :| 0 <= d < |s.pcs| && Local(s.pcs[d]) == Some(t);
    assert At(s', t, InLocal(d)) && At(s', t, InLocal(c)) && t in s'.threads;
  }

  // ----- A priority changed under way -----

  /** Changing a thread's priority keeps every thread in one place if and only if the thread is not READY:
      a READY one is enqueued without being taken out of where it is. */
  lemma PriorityOnlyAtRest(s: State, s': State, c: nat, t: Tid, prio: nat)
    requires Inv(s) && ChangePriority(s, s', c, t, prio)
    ensures OnePlaceEach(s') <==> s.threads[t].state != Ready
  {
    var w :| InvAt(s, w);
    if s.threads[t].state == Ready {
      ReadyTwice(s, s', w, c, t, prio);
    } else {
      PriorityKeeps(s, s', w, c, t, prio);
      InvMeaning(s');
    }
  }

  lemma ReadyTwice(s: State, s': State, w: map<Tid, Loc>, c: nat, t: Tid, prio: nat)
    requires InvAt(s, w) && ChangePriority(s, s', c, t, prio) && s.threads[t].state == Ready
    ensures !OnePlaceEach(s')
  {
    HasSpot(s, w, t);
    var spot :| At(s, t, spot);
    StateAtSpot(s, w, t, spot);
    StillAt(s, s', c, t, prio, spot);
    assert At(s', t, InLocal(c)) && t in s'.threads;
  }

  lemma StillAt(s: State, s': State, c: nat, t: Tid, prio: nat, spot: Spot)
    requires ChangePriority(s, s', c, t, prio) && s.threads[t].state == Ready
    requires At(s, t, spot) && !spot.RunningOn? && !spot.Asleep?
    ensures At(s', t, spot) && spot != InLocal(c)
  {}

  // ----- Locks and progress -----

  /** The queue whose lock a CPU is about to take. */
  function Wanted(pc: Pc, c: nat): Option<nat> {
    match pc
    case WantPush(_, rq, _) => Some(rq)
    case WantPop => Some(c)
    case WantSteal(i, _) => Some(i)
    case _ => None
  }

  /** CPU d waits for a lock that CPU h has. */
  ghost predicate WaitsFor(s: State, d: nat, h: nat) {
    && Shape(s) && d < |s.pcs| && Wanted(s.pcs[d], d).Some?
    && var r := Wanted(s.pcs[d], d).value; r < |s.rqs| && s.rqs[r].owner == Some(h)
  }

  ghost predicate OneLockEach(s: State) {
    forall a: nat, b: nat ::
      a < |s.rqs| && b < |s.rqs| && s.rqs[a].owner.Some? && s.rqs[a].owner == s.rqs[b].owner ==> a == b
  }

  lemma LockFacts(s: State, d: nat, h: nat, g: nat)
    requires Shape(s) && LocksGood(s)
    ensures OneLockEach(s)
    ensures WaitsFor(s, d, h) ==> h < |s.pcs| && Holding(s.pcs[h], h).Some? && !WaitsFor(s, h, g)
  {}

  /** In every reachable state a CPU owns at most one lock, and a CPU that another one waits for waits
      for nobody: there is no cycle of waiting. */
  lemma NoDeadlock(tr: seq<State>, k: nat, d: nat, h: nat, g: nat)
    requires Run(tr) && k < |tr|
    ensures OneLockEach(tr[k])
    ensures WaitsFor(tr[k], d, h) ==> !WaitsFor(tr[k], h, g)
  {
    RunKeeps(tr, k);
    LockFacts(tr[k], d, h, g);
  }

  /** How many steps of its own a CPU's current call can still take. */
  function Remaining(pc: Pc, n: nat): nat {
    match pc
    case Idle => 0
    case Clearing => 1
    case Popped(_) => 1
    case Popping => 2
    case WantPop => 3
    case Pushing(_, _, after) => PushRest(after)
    case WantPush(_, _, after) => PushRest(after) + 1
    case Stolen(_) => 3
    case Scanning(i, _) => 4 + 3 * Left(n, i)
    case WantSteal(i, _) => 3 + 3 * Left(n, i)
    case Stealing(i, _) => 2 + 3 * Left(n, i)
    case Balancing => 5 + 3 * n
  }

  function PushRest(after: After): nat {
    match after
    case Return => 1
    case ThenDequeue => 4
    case ThenClear => 2
  }

  function Left(n: nat, i: nat): nat {
    if i < n then n - i else 0
  }

  ghost function TotalRemaining(pcs: seq<Pc>, n: nat): nat {
    if pcs == [] then 0 else TotalRemaining(pcs[..|pcs| - 1], n) + Remaining(pcs[|pcs| - 1], n)
  }

  lemma {:induction false} TotalChange(pcs: seq<Pc>, c: nat, pc: Pc, n: nat)
    requires c < |pcs|
    ensures TotalRemaining(pcs[c := pc], n) == TotalRemaining(pcs, n) - Remaining(pcs[c], n) + Remaining(pc, n)
  {
    var m := |pcs| - 1;
    if c < m {
      TotalChange(pcs[..m], c, pc, n);
      assert pcs[c := pc][..m] == pcs[..m][c := pc];
    } else {
      assert pcs[c := pc][..m] == pcs[..m];
    }
  }

  /** Each step a call takes brings it nearer its end. */
  lemma AdvanceShortens(s: State, s': State, c: nat)
    requires Advance(s, s', c)
    ensures |s'.rqs| == |s.rqs| && TotalRemaining(s'.pcs, |s'.rqs|) < TotalRemaining(s.pcs, |s.rqs|)
  {
    PcShortens(s, s', c);
    TotalChange(s.pcs, c, s'.pcs[c], |s.rqs|);
  }

  lemma PcShortens(s: State, s': State, c: nat)
    requires Advance(s, s', c)
    ensures |s'.rqs| == |s.rqs| && |s'.pcs| == |s.pcs| && s'.pcs == s.pcs[c := s'.pcs[c]]
    ensures Remaining(s'.pcs[c], |s.rqs|) < Remaining(s.pcs[c], |s.rqs|)
  {}

  /** A CPU inside its critical section can always leave it. */
  lemma CanLeave(s: State, w: map<Tid, Loc>, c: nat) returns (s': State)
    requires InvAt(s, w) && c < |s.pcs| && Holding(s.pcs[c], c).Some?
    ensures Advance(s, s', c)
  {
    match s.pcs[c]
    case Pushing(t, r, after) =>
      InHandOnly(s, w, c, t);
      s' := LeavePush(s, c, t, r, after);
    case Popping => s' := LeavePop(s, c);
    case Stealing(i, load) => s' := LeaveSteal(s, c, i, load);
  }

  lemma LeavePush(s: State, c: nat, t: Tid, r: nat, after: After) returns (s': State)
    requires Shape(s) && c < |s.pcs| && s.pcs[c] == Pushing(t, r, after)
    requires r < |s.rqs| && t in s.threads && s.threads[t].prio < PRIORITIES
    ensures Advance(s, s', c)
  {
    var th := s.threads[t];
    s' := SetPc(
      SetThread(
        SetRq(s, r, s.rqs[r].(owner := None, lists := Push(s.rqs[r].lists, th.prio, t), num := s.rqs[r].num + 1)),
        t, th.(state := Ready)),
      c, match after case Return => Idle case ThenDequeue => WantPop case ThenClear => Clearing);
  }

  lemma LeavePop(s: State, c: nat) returns (s': State)
    requires Shape(s) && c < |s.pcs| && s.pcs[c] == Popping
    ensures Advance(s, s', c)
  {
    var rq := s.rqs[c];
    if Empty(rq.lists) {
      s' := SetPc(SetRq(s, c, rq.(owner := None)), c, Popped(None));
    } else {
      var p := HighestExists(rq.lists);
      s' := TakeOut(s, c, c, p, 0, Popped(Some(rq.lists[p][0])));
    }
  }

  lemma LeaveSteal(s: State, c: nat, i: nat, load: int) returns (s': State)
    requires Shape(s) && c < |s.pcs| && s.pcs[c] == Stealing(i, load) && i < |s.rqs|
    ensures Advance(s, s', c)
  {
    var rq := s.rqs[i];
    if NoneAllowed(rq.lists, MayRunOn(s, c)) {
      s' := SetPc(SetRq(s, i, rq.(owner := None)), c, Scanning(i + 1, load));
    } else {
      var p, k := FirstAllowedExists(rq.lists, MayRunOn(s, c));
      s' := TakeOut(s, c, i, p, k, Stolen(rq.lists[p][k]));
    }
  }

  /** A CPU that neither holds a lock nor waits for one can go on. */
  lemma CanGoOn(s: State, w: map<Tid, Loc>, c: nat) returns (s': State)
    requires InvAt(s, w) && c < |s.pcs| && s.pcs[c] != Idle && Holding(s.pcs[c], c) == None
    requires Wanted(s.pcs[c], c).Some? ==>
      Wanted(s.pcs[c], c).value < |s.rqs| && s.rqs[Wanted(s.pcs[c], c).value].owner == None
    ensures Advance(s, s', c)
  {
    match s.pcs[c]
    case WantPush(t, rq, after) => s' := Taken(s, c, rq, Pushing(t, rq, after));
    case WantPop => s' := Taken(s, c, c, Popping);
    case WantSteal(i, load) => s' := Taken(s, c, i, Stealing(i, load));
    case Popped(None) => s' := SetPc(SetRq(s, c, s.rqs[c].(current := None)), c, Idle);
    case Popped(Some(t)) =>
      s' := SetPc(
        SetThread(SetRq(s, c, s.rqs[c].(current := Some(t))), t, s.threads[t].(state := Running, cpuId := c)), c, Idle);
    case Clearing => s' := SetPc(SetRq(s, c, s.rqs[c].(current := None)), c, Idle);
    case Balancing => s' := SetPc(s, c, Scanning(0, s.rqs[c].num));
    case Scanning(i, load) => s' := SetPc(s, c, Looked(s, c, i, load));
    case Stolen(t) => s' := SetPc(SetThread(s, t, s.threads[t].(cpuId := c)), c, WantPush(t, c, Return));
  }

  function Taken(s: State, c: nat, r: nat, pc: Pc): State
    requires c < |s.pcs| && r < |s.rqs|
  {
    SetPc(SetRq(s, r, s.rqs[r].(owner := Some(c))), c, pc)
  }

  /** While any CPU is inside a call, some CPU can take a step; with AdvanceShortens, calls already
      begun all return if no new ones are made. */
  lemma NeverStuck(tr: seq<State>, k: nat, c: nat)
    requires Run(tr) && k < |tr| && c < |tr[k].pcs| && tr[k].pcs[c] != Idle
    ensures exists d, s' :: Advance(tr[k], s', d)
  {
    RunKeeps(tr, k);
    var w :| InvAt(tr[k], w);
    var d, s' := CanStep(tr[k], w, c);
  }

  /** The CPU itself, or the one whose lock it waits for. */
  lemma CanStep(s: State, w: map<Tid, Loc>, c: nat) returns (d: nat, s': State)
    requires InvAt(s, w) && c < |s.pcs| && s.pcs[c] != Idle
    ensures Advance(s, s', d)
  {
    d := OwnerOrSelf(s, c);
    if Holding(s.pcs[d], d).Some? {
      s' := CanLeave(s, w, d);
    } else {
      s' := CanGoOn(s, w, d);
    }
  }

  lemma OwnerOrSelf(s: State, c: nat) returns (d: nat)
    requires Shape(s) && LocksGood(s) && c < |s.pcs| && s.pcs[c] != Idle
    ensures d < |s.pcs| && s.pcs[d] != Idle
    ensures Holding(s.pcs[d], d) == None && Wanted(s.pcs[d], d).Some? ==>
      Wanted(s.pcs[d], d).value < |s.rqs| && s.rqs[Wanted(s.pcs[d], d).value].owner == None
  {
    d := c;
    if Wanted(s.pcs[c], c).Some? {
      assert TargetsExist(s.pcs[c], |s.rqs|);
      var owner := s.rqs[Wanted(s.pcs[c], c).value].owner;
      if owner.Some? {
        d := owner.value;
      }
    }
  }

  /** A run of steps in which no new call is made. */
  ghost predicate DrainRun(tr: seq<State>) {
    |tr| > 0 && forall k :: 0 <= k < |tr| - 1 ==> SomeAdvance(tr[k], tr[k + 1])
  }

  ghost predicate SomeAdvance(s: State, s': State) {
    exists c :: Advance(s, s', c)
  }

  lemma {:induction false} DrainIsShort(tr: seq<State>)
    requires DrainRun(tr)
    ensures |tr| - 1 <= TotalRemaining(tr[0].pcs, |tr[0].rqs|) - TotalRemaining(tr[|tr| - 1].pcs, |tr[|tr| - 1].rqs|)
  {
    if |tr| > 1 {
      var m := |tr| - 2;
      DrainIsShort(tr[..m + 1]);
      assert SomeAdvance(tr[m], tr[m + 1]);
      var c :| Advance(tr[m], tr[m + 1], c);
      AdvanceShortens(tr[m], tr[m + 1], c);
    }
  }
}
