/** What each scheduler call does for threads among all CPUs, said of where threads stand and of their
    priorities: who is dequeued, who is stolen, where a thread is put, and how calls end. */
module SmpLaws {
  import opened Options
  import opened Bits
  import opened RunLists
  import opened Balancing
  import opened SmpProtocol
  import opened SmpSafety

  // ----- Queues as sets of threads -----

  /** The threads queued on CPU c. */
  ghost function QueuedOn(s: State, c: nat): set<Tid> {
    set t | t in s.threads && IsQueued(s, c, t)
  }

  ghost predicate IsQueued(s: State, c: nat, t: Tid) {
    exists p: nat, i: nat :: At(s, t, Queued(c, p, i))
  }

  lemma QueuedIsHeld(s: State, c: nat, t: Tid)
    requires c < |s.rqs|
    ensures IsQueued(s, c, t) <==> Holds(s.rqs[c].lists, t)
  {
    if Holds(s.rqs[c].lists, t) {
      var p: nat, i: nat :| p < PRIORITIES && i < |s.rqs[c].lists[p]| && s.rqs[c].lists[p][i] == t;
      assert At(s, t, Queued(c, p, i));
    }
  }

  /** A queued thread is READY and stands in the list of its priority. */
  lemma QueuedAtPriority(s: State, c: nat, t: Tid, p: nat, i: nat)
    requires Inv(s) && At(s, t, Queued(c, p, i))
    ensures t in s.threads && s.threads[t].prio == p && s.threads[t].state == Ready
  {
    var w :| InvAt(s, w);
    StateAtSpot(s, w, t, Queued(c, p, i));
  }

  ghost function Elements(l: seq<Tid>): set<Tid> {
    set t | t in l
  }

  lemma {:induction false} ElementsCount(l: seq<Tid>)
    requires forall i, j :: 0 <= i < j < |l| ==> l[i] != l[j]
    ensures |Elements(l)| == |l|
  {
    if l != [] {
      var n := |l| - 1;
      ElementsCount(l[..n]);
      assert Elements(l) == Elements(l[..n]) + {l[n]};
    }
  }

  ghost function HeldUpto(q: seq<seq<Tid>>, n: nat): set<Tid>
    requires n <= |q|
  {
    if n == 0 then {} else HeldUpto(q, n - 1) + Elements(q[n - 1])
  }

  lemma {:induction false} HeldAre(q: seq<seq<Tid>>, n: nat, t: Tid)
    requires n <= |q|
    ensures t in HeldUpto(q, n) <==> exists p: nat, i: nat :: p < n && i < |q[p]| && q[p][i] == t
  {
    if n > 0 {
      HeldAre(q, n - 1, t);
      if t in Elements(q[n - 1]) {
        var i: nat :| i < |q[n - 1]| && q[n - 1][i] == t;
      }
    }
  }

  lemma {:induction false} HeldCount(q: Lists<Tid>, n: nat)
    requires n <= PRIORITIES && NoRepeats(q)
    ensures |HeldUpto(q, n)| == SizeUpto(q, n)
  {
    if n > 0 {
      HeldCount(q, n - 1);
      ElementsCount(q[n - 1]);
      var here, before := Elements(q[n - 1]), HeldUpto(q, n - 1);
      Apart(q, n);
      assert before + here == HeldUpto(q, n) && |before + here| == |before| + |here|;
    }
  }

  lemma NotBefore(q: Lists<Tid>, n: nat, t: Tid)
    requires 0 < n <= PRIORITIES && NoRepeats(q) && t in Elements(q[n - 1])
    ensures t !in HeldUpto(q, n - 1)
  {
    HeldAre(q, n - 1, t);
    var i: nat :| i < |q[n - 1]| && q[n - 1][i] == t;
  }

  lemma Apart(q: Lists<Tid>, n: nat)
    requires 0 < n <= PRIORITIES && NoRepeats(q)
    ensures Elements(q[n - 1]) !! HeldUpto(q, n - 1)
  {
    var here, before := Elements(q[n - 1]), HeldUpto(q, n - 1);
    forall t | t in here
      ensures t !in before
    {
      NotBefore(q, n, t);
    }
  }

  /** num_threads is the number of threads queued. */
  lemma NumIsQueued(s: State, c: nat)
    requires Inv(s) && c < |s.rqs|
    ensures |QueuedOn(s, c)| == s.rqs[c].num
  {
    var w :| InvAt(s, w);
    HeldCount(s.rqs[c].lists, PRIORITIES);
    QueuedAre(s, w, c);
  }

  lemma QueuedAre(s: State, w: map<Tid, Loc>, c: nat)
    requires Shape(s) && Known(s, w) && QueuesAgree(s, w) && c < |s.rqs|
    ensures QueuedOn(s, c) == HeldUpto(s.rqs[c].lists, PRIORITIES)
  {
    var q := s.rqs[c].lists;
    forall t
      ensures t in QueuedOn(s, c) <==> t in HeldUpto(q, PRIORITIES)
    {
      HeldAre(q, PRIORITIES, t);
      QueuedIsHeld(s, c, t);
      assert Holds(q, t) ==> t in w;
    }
  }

  // ----- Dequeuing -----

  /** A CPU that leaves the lock after dequeuing carries the first thread queued on it of the highest
      priority queued on it, and carries none exactly when none was queued. */
  lemma PopTakesBest(s: State, s': State, c: nat)
    requires Inv(s) && Advance(s, s', c) && s.pcs[c] == Popping
    ensures s'.pcs[c].Popped? && s'.threads == s.threads
    ensures s'.pcs[c].next == None <==> forall t: Tid :: !IsQueued(s, c, t)
    ensures s'.pcs[c].next.Some? ==> Best(s, c, s'.pcs[c].next.value)
  {
    var p := PopIs(s, s', c);
    NoneQueued(s, c);
    if s'.pcs[c].next.Some? {
      HighestIsBest(s, c, p);
    }
  }

  lemma RemovedHolds(q: Lists<Tid>, p: nat, i: nat)
    requires p < PRIORITIES && i < |q[p]| && NoRepeats(q)
    ensures forall t :: Holds(RemoveAt(q, p, i), t) <==> Holds(q, t) && t != q[p][i]
  {
    RemoveHolds(q, p, i);
    RemoveNoRepeats(q, p, i);
  }

  lemma PopIs(s: State, s': State, c: nat) returns (p: nat)
    requires Advance(s, s', c) && s.pcs[c] == Popping
    ensures s'.pcs[c].Popped? && s'.threads == s.threads
    ensures s'.pcs[c].next == None ==> Empty(s.rqs[c].lists) && s'.rqs[c].lists == s.rqs[c].lists
    ensures s'.pcs[c].next.Some? ==>
      && Highest(s.rqs[c].lists, p) && s'.pcs[c].next == Some(s.rqs[c].lists[p][0])
      && s'.rqs[c].lists == RemoveAt(s.rqs[c].lists, p, 0)
  {
    p := 0;
    if !Empty(s.rqs[c].lists) {
      p :| Highest(s.rqs[c].lists, p) && s' == TakeOut(s, c, c, p, 0, Popped(Some(s.rqs[c].lists[p][0])));
    }
  }

  lemma NoneQueued(s: State, c: nat)
    requires c < |s.rqs|
    ensures Empty(s.rqs[c].lists) <==> forall t: Tid :: !IsQueued(s, c, t)
  {
    var q := s.rqs[c].lists;
    if !Empty(q) {
      var p: nat :| p < PRIORITIES && q[p] != [];
      assert At(s, q[p][0], Queued(c, p, 0)) && IsQueued(s, c, q[p][0]);
    }
  }

  /** It takes that thread out of the queue and no other. */
  lemma PopTakesOne(s: State, s': State, c: nat)
    requires Inv(s) && Advance(s, s', c) && s.pcs[c] == Popping && s'.pcs[c].Popped?
    ensures forall t: Tid :: IsQueued(s', c, t) <==> IsQueued(s, c, t) && s'.pcs[c].next != Some(t)
  {
    var p := PopIs(s, s', c);
    if s'.pcs[c].next.Some? {
      ListsOf(s, c);
      RemovedHolds(s.rqs[c].lists, p, 0);
    }
    forall t: Tid
      ensures IsQueued(s', c, t) <==> IsQueued(s, c, t) && s'.pcs[c].next != Some(t)
    {
      QueuedIsHeld(s, c, t);
      QueuedIsHeld(s', c, t);
    }
  }

  lemma ListsOf(s: State, c: nat)
    requires Inv(s) && c < |s.rqs|
    ensures NoRepeats(s.rqs[c].lists)
  {
    var w :| InvAt(s, w);
  }

  /** The first thread queued on CPU c of a priority that none queued there exceeds. */
  ghost predicate Best(s: State, c: nat, t: Tid) {
    && t in s.threads && At(s, t, Queued(c, s.threads[t].prio, 0))
    && forall x :: IsQueued(s, c, x) ==> x in s.threads && s.threads[x].prio <= s.threads[t].prio
  }

  lemma HighestIsBest(s: State, c: nat, p: nat)
    requires Inv(s) && c < |s.rqs| && Highest(s.rqs[c].lists, p)
    ensures Best(s, c, s.rqs[c].lists[p][0])
  {
    var q := s.rqs[c].lists;
    QueuedAtPriority(s, c, q[p][0], p, 0);
    forall x | IsQueued(s, c, x)
      ensures x in s.threads && s.threads[x].prio <= p
    {
      var r: nat, i: nat :| At(s, x, Queued(c, r, i));
      QueuedAtPriority(s, c, x, r, i);
    }
  }

  // ----- Enqueuing -----

  /** A CPU that leaves the lock after enqueuing has put the thread, READY, in front of those of its priority;
      the others of that list move one back and everything else queued stays where it was. */
  lemma PushPutsFirst(s: State, s': State, c: nat)
    requires Advance(s, s', c) && s.pcs[c].Pushing?
    ensures var t, r := s.pcs[c].t, s.pcs[c].rq;
      && t in s.threads && s'.threads == s.threads[t := s.threads[t].(state := Ready)]
      && At(s', t, Queued(r, s.threads[t].prio, 0))
      && forall x, d: nat, p: nat, i: nat :: At(s, x, Queued(d, p, i)) ==>
           At(s', x, Queued(d, p, if d == r && p == s.threads[t].prio then i + 1 else i))
    ensures forall x, d: nat :: IsQueued(s', d, x) ==> IsQueued(s, d, x) || (d == s.pcs[c].rq && x == s.pcs[c].t)
  {
    var t, r := s.pcs[c].t, s.pcs[c].rq;
    var prio := s.threads[t].prio;
    forall x, d: nat | IsQueued(s', d, x)
      ensures IsQueued(s, d, x) || (d == r && x == t)
    {
      var p: nat, i: nat :| At(s', x, Queued(d, p, i));
      if d != r || p != prio {
        assert At(s, x, Queued(d, p, i));
      } else if i > 0 {
        assert At(s, x, Queued(d, p, i - 1));
      }
    }
  }

  // ----- Stealing -----

  /** Thread t may be stolen by CPU c from CPU v: it is queued on v and its mask allows c. */
  ghost predicate Stealable(s: State, c: nat, v: nat, t: Tid, p: nat, k: nat) {
    At(s, t, Queued(v, p, k)) && t in s.threads && Test(s.threads[t].mask, c)
  }

  /** A CPU that leaves a victim's lock carries the first thread it may run, of the lowest priority that has
      one; it goes on to the next CPU exactly when there is none. */
  lemma StealTakesLowest(s: State, s': State, c: nat)
    requires Inv(s) && Advance(s, s', c) && s.pcs[c].Stealing?
    ensures var v := s.pcs[c].i;
      && (s'.pcs[c].Stolen? || s'.pcs[c] == Scanning(v + 1, s.pcs[c].load))
      && (s'.pcs[c].Stolen? <==> exists t, p: nat, k: nat :: Stealable(s, c, v, t, p, k))
    ensures s'.pcs[c].Stolen? ==>
      var v, t := s.pcs[c].i, s'.pcs[c].t;
      exists p: nat, k: nat :: Stealable(s, c, v, t, p, k) &&
        forall x, r: nat, j: nat :: Stealable(s, c, v, x, r, j) ==> p < r || (p == r && k <= j)
  {
    var v := s.pcs[c].i;
    var q := s.rqs[v].lists;
    var p, k := StealIs(s, s', c);
    forall t, r: nat, j: nat
      ensures Stealable(s, c, v, t, r, j) <==> r < PRIORITIES && j < |q[r]| && q[r][j] == t && t in MayRunOn(s, c)
    {}
    if s'.pcs[c].Stolen? {
      assert Stealable(s, c, v, q[p][k], p, k);
    }
  }

  lemma StealIs(s: State, s': State, c: nat) returns (p: nat, k: nat)
    requires Advance(s, s', c) && s.pcs[c].Stealing?
    ensures var v := s.pcs[c].i;
      && v < |s.rqs|
      && if NoneAllowed(s.rqs[v].lists, MayRunOn(s, c)) then
           s'.pcs[c] == Scanning(v + 1, s.pcs[c].load) && s'.rqs[v].lists == s.rqs[v].lists
         else
           && FirstAllowed(s.rqs[v].lists, MayRunOn(s, c), p, k) && s'.pcs[c] == Stolen(s.rqs[v].lists[p][k])
           && s'.rqs[v].lists == RemoveAt(s.rqs[v].lists, p, k)
  {
    p, k := 0, 0;
    var v := s.pcs[c].i;
    var q := s.rqs[v].lists;
    if !NoneAllowed(q, MayRunOn(s, c)) {
      p, k :| FirstAllowed(q, MayRunOn(s, c), p, k) && s' == TakeOut(s, c, v, p, k, Stolen(q[p][k]));
    }
  }

  /** Balancing begins exactly on a CPU with fewer than two threads queued, reads how many that is, and looks
      under the lock of exactly the other CPUs that then hold at least two more. */
  lemma BalanceLooksForLonger(s: State, s': State, c: nat)
    requires Inv(s)
    ensures Balance(s, s', c) ==> s'.pcs[c] == if |QueuedOn(s, c)| < 2 then Balancing else Idle
    ensures Advance(s, s', c) && s.pcs[c] == Balancing ==> s'.pcs[c] == Scanning(0, |QueuedOn(s, c)|)
    ensures Advance(s, s', c) && s.pcs[c].Scanning? ==>
      var i, load := s.pcs[c].i, s.pcs[c].load;
      s'.pcs[c] == if i >= |s.rqs| then Idle
                   else if i != c && |QueuedOn(s, i)| >= load + 2 then WantSteal(i, load) else Scanning(i + 1, load)
  {
    if c < |s.rqs| {
      NumIsQueued(s, c);
    }
    if c < |s.pcs| && s.pcs[c].Scanning? && s.pcs[c].i < |s.rqs| {
      NumIsQueued(s, s.pcs[c].i);
    }
  }

  /** A stolen thread is assigned to the thief and is on its way to the thief's queue. */
  lemma StolenComesHome(s: State, s': State, c: nat)
    requires Advance(s, s', c) && s.pcs[c].Stolen?
    ensures var t := s.pcs[c].t;
      t in s.threads && s'.pcs[c] == WantPush(t, c, Return) && s'.threads == s.threads[t := s.threads[t].(cpuId := c)]
  {}

  // ----- Creating and waking -----

  /** A created thread is new, READY, of the priority asked for, allowed where the mask asked for allows it or
      everywhere when none was asked for, and on its way to a CPU it is allowed on if there is one. */
  lemma CreateMakes(s: State, s': State, c: nat, prio: nat, mask: Word, r: nat)
    requires Inv(s) && Create(s, s', c, prio, mask, r)
    ensures var t := s.nextTid;
      && t !in s.threads && s'.threads.Keys == s.threads.Keys + {t} && s'.pcs[c] == WantPush(t, r, Return)
      && s'.threads[t].prio == prio && s'.threads[t].state == Ready
      && (mask != 0 ==> s'.threads[t].mask == mask)
      && (mask == 0 ==> forall d: nat :: Test(s'.threads[t].mask, d) <==> d < |s.rqs|)
      && ((exists d: nat :: d < |s.rqs| && Test(s'.threads[t].mask, d)) ==> r < |s.rqs| && Test(s'.threads[t].mask, r))
  {
    var w :| InvAt(s, w);
    var all := Pow2(|s.rqs|) - 1;
    forall d: nat
      ensures Test(all, d) <==> d < |s.rqs|
    {
      LowBits(|s.rqs|, d);
    }
  }

  /** A woken thread was BLOCKED and is on its way to a CPU it is allowed on if there is one. */
  lemma WakeSends(s: State, s': State, c: nat, t: Tid, r: nat)
    requires WakeUp(s, s', c, t, r)
    ensures s.threads[t].state == Blocked && s'.pcs[c] == WantPush(t, r, Return)
    ensures (exists d: nat :: d < |s.rqs| && Test(s.threads[t].mask, d)) ==> r < |s.rqs| && Test(s.threads[t].mask, r)
  {}

  // ----- How calls end -----

  /** The CPU is inside yield or block. */
  predicate Leaving(pc: Pc) {
    match pc
    case WantPush(_, _, after) => after == ThenClear
    case Pushing(_, _, after) => after == ThenClear
    case Clearing => true
    case _ => false
  }

  /** The CPU is inside schedule. */
  predicate Dispatching(pc: Pc) {
    match pc
    case WantPush(_, _, after) => after == ThenDequeue
    case Pushing(_, _, after) => after == ThenDequeue
    case WantPop => true
    case Popping => true
    case Popped(_) => true
    case _ => false
  }

  /** The CPU is inside create, unblock or set_priority, or past the theft of a balance, with t for CPU r. */
  predicate Delivering(pc: Pc, t: Tid, r: nat) {
    pc == WantPush(t, r, Return) || pc == Pushing(t, r, Return)
  }

  /** Yield and block leave the CPU with no current thread, whatever the other CPUs do meanwhile. */
  lemma LeavingEnds(s: State, s': State, c: nat)
    requires Step(s, s') && c < |s.pcs| && Leaving(s.pcs[c])
    ensures c < |s'.pcs| && (Leaving(s'.pcs[c]) || (s'.pcs[c] == Idle && s'.rqs[c].current == None))
  {
    OwnStep(s, s', c);
  }

  /** Schedule leaves the CPU with the thread it dequeued, RUNNING there, or with none. */
  lemma DispatchingEnds(s: State, s': State, c: nat)
    requires Step(s, s') && c < |s.pcs| && Dispatching(s.pcs[c])
    ensures c < |s'.pcs| && (Dispatching(s'.pcs[c]) || (s.pcs[c].Popped? && s'.pcs[c] == Idle))
    ensures s.pcs[c].Popped? && s'.pcs[c] == Idle ==>
      && s'.rqs[c].current == s.pcs[c].next
      && (s.pcs[c].next.Some? ==>
           var t := s.pcs[c].next.value;
           t in s'.threads && s'.threads[t].state == Running && s'.threads[t].cpuId == c)
  {
    OwnStep(s, s', c);
  }

  /** Create, unblock, set_priority and a theft end with the thread at the head of its list on that CPU. */
  lemma DeliveringEnds(s: State, s': State, c: nat, t: Tid, r: nat)
    requires Step(s, s') && c < |s.pcs| && Delivering(s.pcs[c], t, r)
    ensures c < |s'.pcs|
    ensures Delivering(s'.pcs[c], t, r) ||
      (s'.pcs[c] == Idle && t in s'.threads && At(s', t, Queued(r, s'.threads[t].prio, 0)))
  {
    OwnStep(s, s', c);
  }

  /** Inside a call, a CPU's place in it changes only by its own next step. */
  lemma OwnStep(s: State, s': State, c: nat)
    requires Step(s, s') && c < |s.pcs| && s.pcs[c] != Idle
    ensures Advance(s, s', c) || (c < |s'.pcs| && s'.pcs[c] == s.pcs[c])
  {
    if Call(s, s') {
      CallElsewhere(s, s', c);
    } else {
      var d :| Advance(s, s', d);
      if d != c {
        AdvanceElsewhere(s, s', d, c);
      }
    }
  }

  lemma CallElsewhere(s: State, s': State, c: nat)
    requires Call(s, s') && c < |s.pcs| && s.pcs[c] != Idle
    ensures c < |s'.pcs| && s'.pcs[c] == s.pcs[c]
  {
    if d, prio, mask, r :| Create(s, s', d, prio, mask, r) {
    } else if d, t, r :| Unblock(s, s', d, t, r) {
    } else if d, t, prio :| SetPriority(s, s', d, t, prio) {
    } else {
      var d :| Schedule(s, s', d) || Yield(s, s', d) || Block(s, s', d) || Balance(s, s', d);
    }
  }

  lemma AdvanceElsewhere(s: State, s': State, d: nat, c: nat)
    requires Advance(s, s', d) && c < |s.pcs| && c != d
    ensures c < |s'.pcs| && s'.pcs[c] == s.pcs[c]
  {
    if s.pcs[d] == Popping {
      var p := PopIs(s, s', d);
    }
  }

  /** Yield puts a current thread, READY, on its way to its own CPU's queue; block leaves it BLOCKED. */
  lemma CallsBegin(s: State, s': State, c: nat)
    ensures Yield(s, s', c) && s.rqs[c].current.Some? ==>
      var t := s.rqs[c].current.value;
      Leaving(s'.pcs[c]) && s'.pcs[c].WantPush? && s'.pcs[c].t == t && s'.pcs[c].rq == c && s'.threads[t].state == Ready
    ensures Block(s, s', c) && s.rqs[c].current.Some? ==>
      Leaving(s'.pcs[c]) && s'.threads[s.rqs[c].current.value].state == Blocked
    ensures Schedule(s, s', c) ==> Dispatching(s'.pcs[c])
    ensures Schedule(s, s', c) && s.rqs[c].current.Some? && s.threads[s.rqs[c].current.value].state == Running ==>
      s'.pcs[c] == WantPush(s.rqs[c].current.value, c, ThenDequeue)
  {}
}
