/** Placement and load balancing as statements about the run queues of all CPUs at once. */
module Balancing {
  import opened Bits
  import opened RunLists

  // ----- Choosing a CPU -----

  /** The load find_best_cpu compares: a quarter less on the thread's own NUMA node, in 32 bits. */
  function Weighted(load: nat, sameNode: bool): nat {
    if sameNode then load * 3 % WORD_LIMIT / 4 else load
  }

  /** r is the first CPU of least weighted load among those the mask allows. */
  ghost predicate IsBest(loads: seq<nat>, nodes: seq<nat>, affinity: Word, node: nat, r: nat)
    requires |nodes| == |loads|
  {
    && r < |loads| && Test(affinity, r)
    && forall i: nat :: i < |loads| && Test(affinity, i) ==>
         && Weighted(loads[r], nodes[r] == node) <= Weighted(loads[i], nodes[i] == node)
         && (i < r ==> Weighted(loads[r], nodes[r] == node) < Weighted(loads[i], nodes[i] == node))
  }

  /** CPU r against allowed CPU i, by their plain loads.  On the thread's own node three quarters of a load
      count, so a CPU elsewhere must hold at most that of each near one, and a near one may hold a third more;
      on equal terms r holds the least, up to rounding on its own node, and the first of equals wins. */
  ghost predicate AtLeastAsGood(loads: seq<nat>, nodes: seq<nat>, node: nat, r: nat, i: nat)
    requires |nodes| == |loads| && r < |loads| && i < |loads|
  {
    && (nodes[r] != node && nodes[i] == node ==> 4 * loads[r] <= 3 * loads[i])
    && (nodes[r] == node && nodes[i] != node ==> 3 * loads[r] < 4 * (loads[i] + 1))
    && (nodes[r] != node && nodes[i] != node ==> loads[r] <= loads[i] && (i < r ==> loads[r] < loads[i]))
    && (nodes[r] == node && nodes[i] == node ==> loads[r] <= loads[i] + 1 && (i < r ==> loads[r] < loads[i]))
  }

  /** Below a third of 2^32 threads, where tripling a load does not wrap. */
  lemma BestByLoad(loads: seq<nat>, nodes: seq<nat>, affinity: Word, node: nat, r: nat, i: nat)
    requires |nodes| == |loads| && IsBest(loads, nodes, affinity, node, r) && i < |loads| && Test(affinity, i)
    requires 3 * loads[r] < 0x1_0000_0000 && 3 * loads[i] < 0x1_0000_0000
    ensures AtLeastAsGood(loads, nodes, node, r, i)
  {}

  /** The mask allows some CPU of the machine. */
  ghost predicate Meets(affinity: Word, numCpus: nat) {
    exists i: nat :: i < numCpus && Test(affinity, i)
  }

  /** What find_best_cpu promises whatever loads it reads: an allowed CPU if there is one, else CPU 0. */
  ghost predicate Placement(affinity: Word, numCpus: nat, r: nat) {
    if Meets(affinity, numCpus) then r < numCpus && Test(affinity, r) else r == 0
  }

  /** The chosen CPU is allowed if and only if the mask allows any CPU at all. */
  lemma PlacementAllowed(affinity: Word, numCpus: nat, r: nat)
    requires 0 < numCpus && Placement(affinity, numCpus, r)
    ensures Test(affinity, r) <==> Meets(affinity, numCpus)
  {
    if !Meets(affinity, numCpus) {
      assert !Test(affinity, 0);
    }
  }

  // ----- Balancing -----

  type Queues<!T> = seq<Lists<T>>

  ghost function Sizes<T>(qs: Queues<T>): (sizes: seq<nat>)
    ensures |sizes| == |qs| && forall c :: 0 <= c < |qs| ==> sizes[c] == Size(qs[c])
  {
    if qs == [] then [] else Sizes(qs[..|qs| - 1]) + [Size(qs[|qs| - 1])]
  }

  /** CPU c, with fewer than two threads, takes the first thread it may run from the first CPU that
      has at least two threads more and holds one. */
  ghost predicate Steals<T>(qs: Queues<T>, qs': Queues<T>, allowed: set<T>, c: nat, v: nat, p: nat, i: nat) {
    && c < |qs| && Size(qs[c]) < 2 && IsVictim(qs, allowed, c, v)
    && (forall u: nat :: u < v ==> !IsVictim(qs, allowed, c, u))
    && FirstAllowed(qs[v], allowed, p, i)
    && qs' == qs[v := RemoveAt(qs[v], p, i)][c := Push(qs[c], p, qs[v][p][i])]
  }

  ghost predicate IsVictim<T>(qs: Queues<T>, allowed: set<T>, c: nat, v: nat)
    requires c < |qs|
  {
    v < |qs| && v != c && Size(qs[v]) >= Size(qs[c]) + 2 && !NoneAllowed(qs[v], allowed)
  }

  /** CPU c has no reason, or no thread, to steal. */
  ghost predicate NothingToSteal<T>(qs: Queues<T>, allowed: set<T>, c: nat)
    requires c < |qs|
  {
    Size(qs[c]) >= 2 || forall v: nat :: !IsVictim(qs, allowed, c, v)
  }

  ghost function SumOfSquares<T>(qs: Queues<T>): nat {
    if qs == [] then 0
    else SumOfSquares(qs[..|qs| - 1]) + Size(qs[|qs| - 1]) * Size(qs[|qs| - 1])
  }

  ghost function CountAll<T>(qs: Queues<T>, t: T): nat {
    if qs == [] then 0 else CountAll(qs[..|qs| - 1], t) + Count(qs[|qs| - 1], t)
  }

  lemma {:induction false} SquaresReplaced<T>(qs: Queues<T>, v: nat, q: Lists<T>)
    requires v < |qs|
    ensures SumOfSquares(qs[v := q]) == SumOfSquares(qs) - Size(qs[v]) * Size(qs[v]) + Size(q) * Size(q)
  {
    var n := |qs| - 1;
    if v < n {
      SquaresReplaced(qs[..n], v, q);
      assert qs[v := q][..n] == qs[..n][v := q];
    } else {
      assert qs[v := q][..n] == qs[..n];
    }
  }

  lemma {:induction false} CountReplaced<T>(qs: Queues<T>, v: nat, q: Lists<T>, t: T)
    requires v < |qs|
    ensures CountAll(qs[v := q], t) == CountAll(qs, t) - Count(qs[v], t) + Count(q, t)
  {
    var n := |qs| - 1;
    if v < n {
      CountReplaced(qs[..n], v, q, t);
      assert qs[v := q][..n] == qs[..n][v := q];
    } else {
      assert qs[v := q][..n] == qs[..n];
    }
  }

  /** A steal keeps every thread exactly as often as before, leaves the thief's new thread allowed
      there, and lowers the sum of squared queue lengths by at least two. */
  lemma StealBalances<T>(qs: Queues<T>, qs': Queues<T>, allowed: set<T>, c: nat, v: nat, p: nat, i: nat)
    requires Steals(qs, qs', allowed, c, v, p, i)
    ensures forall t :: CountAll(qs', t) == CountAll(qs, t)
    ensures qs'[c][p] != [] && qs'[c][p][0] in allowed
    ensures SumOfSquares(qs') + 2 <= SumOfSquares(qs)
  {
    var stolen := qs[v][p][i];
    var qv, qc := RemoveAt(qs[v], p, i), Push(qs[c], p, stolen);
    RemoveCounts(qs[v], p, i);
    PushCounts(qs[c], p, stolen);
    SquaresReplaced(qs, v, qv);
    SquaresReplaced(qs[v := qv], c, qc);
    SquareDrop(Size(qs[v]), Size(qs[c]));
    forall t
      ensures CountAll(qs', t) == CountAll(qs, t)
    {
      CountReplaced(qs, v, qv, t);
      CountReplaced(qs[v := qv], c, qc, t);
    }
  }

  lemma SquareDrop(a: nat, b: nat)
    requires a >= b + 2
    ensures (a - 1) * (a - 1) + (b + 1) * (b + 1) + 2 <= a * a + b * b
  {}

  /** A run of balancing calls: each one steals or leaves everything alone. */
  ghost predicate BalancingRun<T(!new)>(run: seq<Queues<T>>, stole: seq<bool>) {
    && |run| == |stole| + 1
    && forall k: nat :: k < |stole| ==> BalancingStep(run[k], run[k + 1], stole[k])
  }

  ghost predicate BalancingStep<T(!new)>(qs: Queues<T>, qs': Queues<T>, stole: bool) {
    if stole then exists allowed, c, v, p, i :: Steals(qs, qs', allowed, c, v, p, i) else qs' == qs
  }

  ghost function StealsIn(stole: seq<bool>): nat {
    if stole == [] then 0 else StealsIn(stole[..|stole| - 1]) + if stole[|stole| - 1] then 1 else 0
  }

  /** Balancing alone comes to rest: a run of any length makes at most half the initial sum of
      squares many steals, and no thread is lost or doubled on the way. */
  lemma {:induction false} BalancingComesToRest<T(!new)>(run: seq<Queues<T>>, stole: seq<bool>)
    requires BalancingRun(run, stole)
    ensures SumOfSquares(run[|stole|]) + 2 * StealsIn(stole) <= SumOfSquares(run[0])
    ensures forall t :: CountAll(run[|stole|], t) == CountAll(run[0], t)
  {
    if stole != [] {
      var n := |stole| - 1;
      BalancingComesToRest(run[..n + 1], stole[..n]);
      assert BalancingStep(run[n], run[n + 1], stole[n]);
      if stole[n] {
        var allowed, c, v, p, i :| Steals(run[n], run[n + 1], allowed, c, v, p, i);
        StealBalances(run[n], run[n + 1], allowed, c, v, p, i);
      }
    }
  }
}
