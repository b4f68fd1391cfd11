/** The scheduler of all CPUs, calls taken one at a time: thread creation, wake-up, work stealing. */
module SmpScheduler {
  import opened Bits
  import opened RunLists
  import opened Balancing

  type Tid = nat

  /** The run queues of all CPUs, each as the lists its links represent. */
  class Scheduler {
    const nodes: seq<nat>                  // numa_node of each CPU
    const queues: array<Lists<Tid>>
    const numThreads: array<nat>
    const affinity: map<Tid, Word>

    ghost predicate Valid()
      reads queues, numThreads
    {
      && 1 <= queues.Length <= 31 && numThreads.Length == queues.Length && |nodes| == queues.Length
      && (forall c :: 0 <= c < queues.Length ==> numThreads[c] == Size(queues[c]))
      && forall c, t :: 0 <= c < queues.Length && Holds(queues[c], t) ==> t in affinity
    }

    constructor (nodes: seq<nat>, affinity: map<Tid, Word>)
      requires 1 <= |nodes| <= 31
      ensures Valid() && this.nodes == nodes && this.affinity == affinity
      ensures fresh(queues) && fresh(numThreads) && forall c :: 0 <= c < queues.Length ==> Empty(queues[c])
    {
      var none: Lists<Tid> := seq(PRIORITIES, _ => []);
      this.nodes, this.affinity := nodes, affinity;
      this.queues := new Lists<Tid>[|nodes|](_ => none);
      this.numThreads := new nat[|nodes|](_ => 0);
      EmptySize(none, PRIORITIES);
    }

    /** The threads whose mask allows a CPU. */
    ghost function MayRunOn(cpu: nat): set<Tid> {
      set t | t in affinity && Test(affinity[t], cpu)
    }

    /** No load wraps when tripled. */
    ghost predicate Unwrapped()
      reads numThreads
    {
      forall c :: 0 <= c < numThreads.Length ==> 3 * numThreads[c] < 0x1_0000_0000
    }

    /** The first allowed CPU of least weighted load; CPU 0 if the mask allows none. */
    method FindBestCpu(mask: Word, numaNode: nat) returns (best: nat)
      requires Valid() && forall c :: 0 <= c < queues.Length ==> numThreads[c] < WORD_LIMIT - 1
      ensures Placement(mask, queues.Length, best) && (Test(mask, best) <==> Meets(mask, queues.Length))
      ensures Meets(mask, queues.Length) ==> IsBest(Sizes(queues[..]), nodes, mask, numaNode, best)
      ensures Meets(mask, queues.Length) && Unwrapped() ==>
        forall i: nat :: i < queues.Length && Test(mask, i) ==> AtLeastAsGood(numThreads[..], nodes, numaNode, best, i)
    {
      best := 0;
      var minLoad := WORD_LIMIT - 1;
      var i := 0;
      while i < queues.Length
        invariant 0 <= i <= queues.Length
        invariant minLoad == WORD_LIMIT - 1 ==> best == 0 && forall k: nat :: k < i ==> !Test(mask, k)
        invariant minLoad != WORD_LIMIT - 1 ==>
          best < i && Test(mask, best) && minLoad == Weighted(numThreads[best], nodes[best] == numaNode)
        invariant forall k: nat :: k < i && Test(mask, k) ==>
          minLoad <= Weighted(numThreads[k], nodes[k] == numaNode)
          && (k < best ==> minLoad < Weighted(numThreads[k], nodes[k] == numaNode))
      {
        if Test(mask, i) {
          var load := Weighted(numThreads[i], nodes[i] == numaNode);
          if load < minLoad {
            minLoad := load;
            best := i;
          }
        }
        i := i + 1;
      }
      ghost var loads := numThreads[..];
      assert Sizes(queues[..]) == loads;
      forall k: nat | k < queues.Length && Test(mask, k) && Unwrapped()
        ensures AtLeastAsGood(loads, nodes, numaNode, best, k)
      {
        BestByLoad(loads, nodes, mask, numaNode, best, k);
      }
    }

    /** The scan under a victim's lock: priorities upwards, each list from its head. */
    method FindStealable(victim: nat, thief: nat) returns (found: bool, p: nat, i: nat)
      requires Valid() && victim < queues.Length
      ensures found ==> FirstAllowed(queues[victim], MayRunOn(thief), p, i)
      ensures !found ==> NoneAllowed(queues[victim], MayRunOn(thief))
    {
      var q := queues[victim];
      found, p, i := false, 0, 0;
      while p < PRIORITIES
        invariant p <= PRIORITIES
        invariant forall r: nat, j: nat :: r < p && j < |q[r]| ==> q[r][j] !in MayRunOn(thief)
      {
        i := 0;
        while i < |q[p]|
          invariant i <= |q[p]|
          invariant forall j: nat :: j < i ==> q[p][j] !in MayRunOn(thief)
        {
          assert Holds(q, q[p][i]);
          if Test(affinity[q[p][i]], thief) {
            return true, p, i;
          }
          i := i + 1;
        }
        p := p + 1;
      }
    }

    /** Finds a thread for an idle or lightly loaded CPU: the first one it may run on the first CPU
        that has at least two threads more and such a thread; nothing if there is no such CPU. */
    method StealThread(thief: nat) returns (found: bool, v: nat, p: nat, i: nat)
      requires Valid() && thief < queues.Length
      ensures found ==> IsVictim(queues[..], MayRunOn(thief), thief, v)
      ensures found ==> forall u: nat :: u < v ==> !IsVictim(queues[..], MayRunOn(thief), thief, u)
      ensures found ==> FirstAllowed(queues[v], MayRunOn(thief), p, i)
      ensures !found ==> forall u: nat :: !IsVictim(queues[..], MayRunOn(thief), thief, u)
      ensures found ==> CanGive(v, queues[v][p][i], thief)
      ensures found <==> exists u: nat, t :: CanGive(u, t, thief)
    {
      var thiefLoad := numThreads[thief];
      found, v, p, i := false, 0, 0, 0;
      while v < queues.Length
        invariant v <= queues.Length
        invariant forall u: nat :: u < v ==> !IsVictim(queues[..], MayRunOn(thief), thief, u)
      {
        if v != thief && numThreads[v] >= thiefLoad + 2 {
          found, p, i := FindStealable(v, thief);
          if found {
            assert Holds(queues[v], queues[v][p][i]) && CanGive(v, queues[v][p][i], thief);
            return;
          }
        }
        v := v + 1;
      }
      found := false;
      forall u: nat, t
        ensures !CanGive(u, t, thief)
      {
        if CanGive(u, t, thief) {
          GiverIsVictim(u, t, thief);
        }
      }
    }

    lemma GiverIsVictim(u: nat, t: Tid, thief: nat)
      requires Valid() && thief < queues.Length && CanGive(u, t, thief)
      ensures IsVictim(queues[..], MayRunOn(thief), thief, u)
    {
      var p: nat, i: nat :| p < PRIORITIES && i < |queues[u][p]| && queues[u][p][i] == t;
      assert queues[u][p][i] in MayRunOn(thief);
    }

    /** CPU u holds at least two threads more than the thief, and thread t, which may run there. */
    ghost predicate CanGive(u: nat, t: Tid, thief: nat)
      requires Valid() && thief < queues.Length
      reads queues, numThreads
    {
      && u < queues.Length && u != thief && numThreads[u] >= numThreads[thief] + 2
      && Holds(queues[u], t) && Test(affinity[t], thief)
    }

    /** Periodic balancing of one CPU: it steals exactly when it holds fewer than two threads and
        some CPU at least two longer has a thread it may run. */
    method BalanceLoad(cpu: nat) returns (stole: bool, ghost v: nat, ghost p: nat, ghost i: nat)
      requires Valid() && cpu < queues.Length
      modifies queues, numThreads
      ensures Valid()
      ensures stole <==> old(numThreads[cpu] < 2 && exists u: nat, t :: CanGive(u, t, cpu))
      ensures stole ==> Steals(old(queues[..]), queues[..], MayRunOn(cpu), cpu, v, p, i)
      ensures !stole ==> NothingToSteal(queues[..], MayRunOn(cpu), cpu) && queues[..] == old(queues[..])
    {
      stole, v, p, i := false, 0, 0, 0;
      if numThreads[cpu] < 2 {
        var found, from, prio, k := StealThread(cpu);
        forall u: nat, t
          ensures CanGive(u, t, cpu) == old(CanGive(u, t, cpu))
        {}
        if found {
          Move(from, prio, k, cpu);
          stole, v, p, i := true, from, prio, k;
        }
      }
    }

    /** Takes a thread out of one CPU's lists and enqueues it on another. */
    method Move(from: nat, p: nat, i: nat, cpu: nat)
      requires Valid() && from < queues.Length && cpu < queues.Length && from != cpu
      requires p < PRIORITIES && i < |queues[from][p]|
      modifies queues, numThreads
      ensures Valid()
      ensures queues[..] == old(queues[..])[from := RemoveAt(old(queues[from]), p, i)]
        [cpu := Push(old(queues[cpu]), p, old(queues[from])[p][i])]
    {
      var stolen := queues[from][p][i];
      RemoveCounts(queues[from], p, i);
      PushCounts(queues[cpu], p, stolen);
      RemoveHolds(queues[from], p, i);
      PushHolds(queues[cpu], p, stolen);
      assert Holds(queues[from], stolen);
      queues[from] := RemoveAt(queues[from], p, i);
      numThreads[from] := numThreads[from] - 1;
      queues[cpu] := Push(queues[cpu], p, stolen);
      numThreads[cpu] := numThreads[cpu] + 1;
    }
  }
}
