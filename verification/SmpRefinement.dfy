/** The protocol's steps inside a lock are what the pointer code does: where the lists of a CPU in the protocol
    are the lists on the heap, thread by thread, they are so again after enqueue, dequeue and theft. */
module SmpRefinement {
  import opened Options
  import opened RunLists
  import opened SmpProtocol
  import RunQueues

  /** Lists of threads on the heap, as lists of their numbers. */
  function Tids(q: Lists<RunQueues.Thread>): Lists<Tid> {
    seq(PRIORITIES, p requires 0 <= p < PRIORITIES => TidsIn(q[p]))
  }

  function TidsIn(l: seq<RunQueues.Thread>): seq<Tid> {
    seq(|l|, i requires 0 <= i < |l| => l[i].tid)
  }

  lemma PushTids(q: Lists<RunQueues.Thread>, p: nat, t: RunQueues.Thread)
    requires p < PRIORITIES
    ensures Tids(Push(q, p, t)) == Push(Tids(q), p, t.tid)
  {
    assert TidsIn([t] + q[p]) == [t.tid] + TidsIn(q[p]);
  }

  lemma RemoveTids(q: Lists<RunQueues.Thread>, p: nat, i: nat)
    requires p < PRIORITIES && i < |q[p]|
    ensures Tids(RemoveAt(q, p, i)) == RemoveAt(Tids(q), p, i)
  {
    assert TidsIn(q[p][..i] + q[p][i + 1..]) == TidsIn(q[p])[..i] + TidsIn(q[p])[i + 1..];
  }

  /** RunQueue.Enqueue of thread t ends with lists q'. */
  lemma EnqueueIsFinishPush(s: State, s': State, c: nat, r: nat, after: After,
                            q: Lists<RunQueues.Thread>, q': Lists<RunQueues.Thread>, t: RunQueues.Thread)
    requires c < |s.pcs| && FinishPush(s, s', c, t.tid, r, after) && s.rqs[r].lists == Tids(q)
    requires q' == Push(q, s.threads[t.tid].prio, t)
    ensures s'.rqs[r].lists == Tids(q') && s'.threads[t.tid].state == Ready && s'.rqs[r].num == s.rqs[r].num + 1
  {
    PushTids(q, s.threads[t.tid].prio, t);
  }

  lemma HighestTids(q: Lists<RunQueues.Thread>, p: nat)
    ensures Highest(q, p) <==> Highest(Tids(q), p)
    ensures Empty(q) <==> Empty(Tids(q))
  {
    assert forall r: nat :: r < PRIORITIES ==> |Tids(q)[r]| == |q[r]|;
    if Highest(q, p) || Highest(Tids(q), p) {
      assert forall r: nat :: p < r < PRIORITIES ==> (q[r] == [] <==> Tids(q)[r] == []);
    }
    assert forall r: nat :: r < PRIORITIES ==> (q[r] == [] <==> Tids(q)[r] == []);
  }

  /** RunQueue.Dequeue on lists q returns `next` from list `prio`, or null, and ends with lists q'. */
  lemma DequeueIsFinishPop(s: State, s': State, c: nat, q: Lists<RunQueues.Thread>, q': Lists<RunQueues.Thread>,
                           next: RunQueues.Thread?, prio: nat)
    requires c < |s.pcs| == |s.rqs| && FinishPop(s, s', c) && s.rqs[c].lists == Tids(q)
    requires next == null ==> Empty(q) && q' == q
    requires next != null ==> Highest(q, prio) && next == q[prio][0] && q' == RemoveAt(q, prio, 0)
    ensures s'.rqs[c].lists == Tids(q')
    ensures s'.pcs[c] == Popped(if next == null then None else Some(next.tid))
  {
    HighestTids(q, prio);
    if next != null {
      var p: nat :| Highest(Tids(q), p) && s' == TakeOut(s, c, c, p, 0, Popped(Some(Tids(q)[p][0])));
      assert p == prio;
      RemoveTids(q, prio, 0);
    }
  }

  /** A thread on the heap may run on the thief exactly when its number may. */
  ghost predicate SameMasks(s: State, c: nat, q: Lists<RunQueues.Thread>, allowed: set<RunQueues.Thread>) {
    forall p: nat, i: nat :: p < PRIORITIES && i < |q[p]| ==> (q[p][i] in allowed <==> q[p][i].tid in MayRunOn(s, c))
  }

  lemma AllowedTids(s: State, c: nat, q: Lists<RunQueues.Thread>, allowed: set<RunQueues.Thread>)
    requires SameMasks(s, c, q, allowed)
    ensures forall p: nat, i: nat :: p < PRIORITIES && i < |q[p]| ==>
      (q[p][i] in allowed <==> Tids(q)[p][i] in MayRunOn(s, c))
    ensures NoneAllowed(q, allowed) <==> NoneAllowed(Tids(q), MayRunOn(s, c))
    ensures forall p: nat, i: nat :: FirstAllowed(q, allowed, p, i) <==> FirstAllowed(Tids(q), MayRunOn(s, c), p, i)
  {
    var a, ids := MayRunOn(s, c), Tids(q);
    forall p: nat, i: nat | p < PRIORITIES && i < |q[p]|
      ensures ids[p][i] == q[p][i].tid && (q[p][i] in allowed <==> ids[p][i] in a)
    {}
    assert forall p: nat :: p < PRIORITIES ==> |ids[p]| == |q[p]|;
  }

  lemma OneFirst(q: Lists<Tid>, allowed: set<Tid>, p: nat, i: nat, r: nat, j: nat)
    requires FirstAllowed(q, allowed, p, i) && FirstAllowed(q, allowed, r, j)
    ensures p == r && i == j
  {}

  /** RunQueue.StealFrom on lists q returns the thread at position i of list `prio`, or null, and ends with
      lists q'. */
  lemma StealIsFinishSteal(s: State, s': State, c: nat, v: nat, load: int, allowed: set<RunQueues.Thread>,
                           q: Lists<RunQueues.Thread>, q': Lists<RunQueues.Thread>, t: RunQueues.Thread?,
                           prio: nat, i: nat)
    requires c < |s.pcs| && FinishSteal(s, s', c, v, load) && s.rqs[v].lists == Tids(q) && SameMasks(s, c, q, allowed)
    requires t == null ==> NoneAllowed(q, allowed) && q' == q
    requires t != null ==> FirstAllowed(q, allowed, prio, i) && t == q[prio][i] && q' == RemoveAt(q, prio, i)
    ensures s'.rqs[v].lists == Tids(q')
    ensures s'.pcs[c] == if t == null then Scanning(v + 1, load) else Stolen(t.tid)
  {
    AllowedTids(s, c, q, allowed);
    if t != null {
      assert !NoneAllowed(q, allowed);
      var p: nat, k: nat :|
        FirstAllowed(Tids(q), MayRunOn(s, c), p, k) && s' == TakeOut(s, c, v, p, k, Stolen(Tids(q)[p][k]));
      OneFirst(Tids(q), MayRunOn(s, c), p, k, prio, i);
      RemoveTids(q, prio, i);
    }
  }
}
