/** The per-CPU run queue of the SMP scheduler on the heap: 128 doubly linked lists of threads, a
    bitmap with one bit per list, and a count. */
module RunQueues {
  import opened Bits
  import opened RunLists

  const TIME_SLICE: int := 10_000_000      // TIME_SLICE_MS in nanoseconds

  const PRTYC_NOCHANGE: int := 0
  const PRTYC_IDLETIME: int := 1
  const PRTYC_REGULAR: int := 2
  const PRTYC_TIMECRITICAL: int := 3
  const PRTYC_FOREGROUNDSERVER: int := 4

  function BasePriority(priorityClass: nat): nat {
    if priorityClass == PRTYC_IDLETIME then 0
    else if priorityClass == PRTYC_FOREGROUNDSERVER then 64
    else if priorityClass == PRTYC_TIMECRITICAL then 96
    else 32
  }

  /** calculate_priority: the middle of the class's band plus delta, clamped to the band. */
  function CalculatePriority(priorityClass: nat, delta: int): (prio: nat)
    ensures BasePriority(priorityClass) <= prio <= BasePriority(priorityClass) + 31
    ensures prio - BasePriority(priorityClass) == 16 + delta <==> -16 <= delta <= 15
    ensures delta < -16 ==> prio == BasePriority(priorityClass)
    ensures delta > 15 ==> prio == BasePriority(priorityClass) + 31
  {
    var base := BasePriority(priorityClass);
    var prio := base + 16 + delta;
    if prio < base then base else if prio > base + 31 then base + 31 else prio
  }

  /** The bands of the classes: idle time 0..31, regular 32..63, foreground server 64..95, time critical
      96..127, each with 16 in the middle and cut at its ends; any other class is like regular. */
  lemma PriorityBands(delta: int)
    ensures CalculatePriority(1, delta) == if delta < -16 then 0 else if delta > 15 then 31 else 16 + delta
    ensures CalculatePriority(2, delta) == if delta < -16 then 32 else if delta > 15 then 63 else 48 + delta
    ensures CalculatePriority(4, delta) == if delta < -16 then 64 else if delta > 15 then 95 else 80 + delta
    ensures CalculatePriority(3, delta) == if delta < -16 then 96 else if delta > 15 then 127 else 112 + delta
    ensures forall c: nat :: c !in {1, 2, 3, 4} ==> CalculatePriority(c, delta) == CalculatePriority(2, delta)
  {}

  /** The order of the classes: idle time, regular and unknown ones, foreground server, time critical. */
  function Rank(priorityClass: nat): nat {
    match priorityClass
    case 1 => 0
    case 4 => 2
    case 3 => 3
    case _ => 1
  }

  /** Whatever the deltas, a higher class has a higher priority. */
  lemma ClassesApart(a: nat, d: int, b: nat, e: int)
    ensures Rank(a) < Rank(b) ==> CalculatePriority(a, d) < CalculatePriority(b, e) < 128
    ensures Rank(a) == Rank(b) && d <= e ==> CalculatePriority(a, d) <= CalculatePriority(b, e)
  {
    PriorityBands(d);
    PriorityBands(e);
  }

  class Thread {
    const tid: nat
    var priorityClass: nat
    var priorityDelta: int
    var effectivePriority: nat
    var state: ThreadState
    var cpuId: nat
    var affinity: Word
    var numaNode: nat
    var timeSlice: nat
    var next: Thread?
    var prev: Thread?

    constructor (tid: nat)
      ensures fresh(this) && this.tid == tid
    {
      this.tid := tid;
      this.priorityClass, this.priorityDelta, this.effectivePriority := 0, 0, 0;
      this.state, this.cpuId, this.affinity, this.numaNode := Ready, 0, 0, 0;
      this.timeSlice, this.next, this.prev := 0, null, null;
    }

    /** The part of sched_set_priority that concerns the thread alone. */
    method UpdatePriority(newClass: nat, delta: int)
      modifies this`priorityClass, this`priorityDelta, this`effectivePriority
      ensures priorityClass == if newClass != PRTYC_NOCHANGE then newClass else old(priorityClass)
      ensures priorityDelta == delta && effectivePriority == CalculatePriority(priorityClass, delta)
    {
      if newClass != PRTYC_NOCHANGE {
        priorityClass := newClass;
      }
      priorityDelta := delta;
      effectivePriority := CalculatePriority(priorityClass, priorityDelta);
    }
  }

  /** The list l hangs off `head`, linked both ways, and all its threads are ready at priority p. */
  ghost predicate Linked(head: Thread?, l: seq<Thread>, p: nat)
    reads l
  {
    && head == (if l == [] then null else l[0])
    && forall i :: 0 <= i < |l| ==> InPlace(l, i, p)
  }

  ghost predicate InPlace(l: seq<Thread>, i: nat, p: nat)
    requires i < |l|
    reads l[i]
  {
    && l[i].next == (if i + 1 < |l| then l[i + 1] else null)
    && l[i].prev == (if i > 0 then l[i - 1] else null)
    && l[i].effectivePriority == p && l[i].state == Ready
  }

  ghost function ThreadsIn(q: Lists<Thread>): set<Thread> {
    set p, i | 0 <= p < PRIORITIES && 0 <= i < |q[p]| :: q[p][i]
  }

  ghost predicate Distinct(l: seq<Thread>) {
    forall i, j :: 0 <= i < j < |l| ==> l[i] != l[j]
  }

  class RunQueue {
    const cpuId: nat
    const queues: array<Thread?>
    const bitmap: array<Word>
    var lock: bool
    var current: Thread?
    var numThreads: nat
    var totalSwitches: nat
    ghost var lists: Lists<Thread>         // what the links represent

    ghost function Queued(): set<Thread>
      reads this`lists
    {
      ThreadsIn(lists)
    }

    /** The thread with the highest priority queued has the highest class queued: a time-critical thread comes
        out before any other. */
    lemma BestHasBestClass(best: Thread)
      requires best in Queued() && forall o :: o in Queued() ==> o.effectivePriority <= best.effectivePriority
      requires forall o :: o in Queued() ==> o.effectivePriority == CalculatePriority(o.priorityClass, o.priorityDelta)
      ensures forall o :: o in Queued() ==> Rank(o.priorityClass) <= Rank(best.priorityClass)
      ensures (exists o :: o in Queued() && o.priorityClass == 3) ==> best.priorityClass == 3
    {
      forall o | o in Queued()
        ensures Rank(o.priorityClass) <= Rank(best.priorityClass)
      {
        ClassesApart(best.priorityClass, best.priorityDelta, o.priorityClass, o.priorityDelta);
      }
    }

    ghost predicate Valid()
      reads this`lists, this`numThreads, queues, bitmap, Queued()
    {
      Links() && Bits() && numThreads == Size(lists)
    }

    /** The part of sched_init for one CPU. */
    constructor (cpuId: nat)
      ensures Valid() && !lock && current == null && Empty(lists) && Queued() == {}
      ensures fresh(this) && fresh(queues) && fresh(bitmap) && this.cpuId == cpuId
    {
      this.cpuId := cpuId;
      this.queues := new Thread?[PRIORITIES](_ => null);
      this.bitmap := new Word[4](_ => 0);
      this.lock, this.current, this.numThreads, this.totalSwitches := false, null, 0, 0;
      this.lists := seq(PRIORITIES, _ => []);
      new;
      EmptySize(lists, PRIORITIES);
      forall p | 0 <= p < PRIORITIES {
        ZeroWord(p % 32);
      }
    }

    method Acquire()
      requires !lock
      modifies this`lock
      ensures lock
    {
      lock := true;
    }

    method Release()
      modifies this`lock
      ensures !lock
    {
      lock := false;
    }

    /** The links of every list are right. */
    ghost predicate Links()
      reads this`lists, queues, Queued()
    {
      Represents(lists)
    }

    /** The heads and links represent l. */
    ghost predicate Represents(l: Lists<Thread>)
      reads queues, ThreadsIn(l)
    {
      && queues.Length == PRIORITIES
      && (forall p :: 0 <= p < PRIORITIES ==> Linked(queues[p], l[p], p))
      && (forall p :: 0 <= p < PRIORITIES ==> Distinct(l[p]))
    }

    /** The bitmap says which lists hold threads. */
    ghost predicate Bits()
      reads this`lists, bitmap
    {
      bitmap.Length == 4 &&
      forall p :: 0 <= p < PRIORITIES ==> (Test(bitmap[p / 32], p % 32) <==> lists[p] != [])
    }

    /** Puts a thread that is not queued at the head of its priority's list. */
    method Enqueue(thread: Thread)
      requires Valid() && !lock && thread.effectivePriority < PRIORITIES && thread !in Queued()
      modifies this`lists, this`numThreads, this`lock, queues, bitmap
      modifies thread`next, thread`prev, thread`state, Queued()`prev
      ensures Valid() && !lock
      ensures lists == Push(old(lists), thread.effectivePriority, thread) && thread.state == Ready
    {
      Acquire();
      var prio := thread.effectivePriority;
      LinkFront(prio, thread);
      SetBit(prio);
      numThreads := numThreads + 1;
      PushCounts(old(lists), prio, thread);
      Release();
    }

    /** The pointer part of enqueue_thread. */
    method LinkFront(prio: nat, thread: Thread)
      requires Links() && prio < PRIORITIES && thread.effectivePriority == prio && thread !in Queued()
      modifies this`lists, queues, thread`next, thread`prev, thread`state, Queued()`prev
      ensures Links() && lists == Push(old(lists), prio, thread) && thread.state == Ready
    {
      ghost var q := lists;
      PushLinks(prio, thread);
      PushDistinct(q[prio], thread);
      lists := Push(lists, prio, thread);
      assert forall p :: 0 <= p < PRIORITIES ==> lists[p] == if p == prio then [thread] + q[prio] else q[p];
    }

    lemma PushDistinct(l: seq<Thread>, thread: Thread)
      requires Distinct(l) && thread !in l
      ensures Distinct([thread] + l)
    {}

    method PushLinks(prio: nat, thread: Thread)
      requires Links() && prio < PRIORITIES && thread.effectivePriority == prio && thread !in Queued()
      modifies queues, thread`next, thread`prev, thread`state, Queued()`prev
      ensures thread !in lists[prio] && thread.state == Ready
      ensures Linked(queues[prio], [thread] + lists[prio], prio)
      ensures forall p :: 0 <= p < PRIORITIES && p != prio ==> Linked(queues[p], lists[p], p)
    {
      ghost var q, l := lists, [thread] + lists[prio];
      forall p, i | 0 <= p < PRIORITIES && 0 <= i < |q[p]|
        ensures q[p][i] != thread && InPlace(q[p], i, p)
      {
        assert q[p][i] in Queued();
      }
      PushPointers(prio, thread);
      forall i | 0 <= i < |l|
        ensures InPlace(l, i, prio)
      {
        assert i > 0 ==> l[i] == q[prio][i - 1] && old(InPlace(q[prio], i - 1, prio));
      }
      forall p | 0 <= p < PRIORITIES && p != prio
        ensures Linked(queues[p], q[p], p)
      {
        forall i | 0 <= i < |q[p]|
          ensures InPlace(q[p], i, p)
        {
          assert old(InPlace(q[p], i, p));
        }
      }
    }

    /** The assignments of enqueue_thread, whether or not the thread is queued already. */
    method PushPointers(prio: nat, thread: Thread)
      requires queues.Length == PRIORITIES && prio < PRIORITIES
      requires queues[prio] != null ==> queues[prio] in Queued()
      modifies queues, thread`next, thread`prev, thread`state, Queued()`prev
      ensures thread.next == old(queues[prio]) && thread.state == Ready
      ensures old(queues[prio]) != thread ==> thread.prev == null
      ensures forall o :: o in Queued() && o != thread ==>
        o.prev == if o == old(queues[prio]) then thread else old(o.prev)
      ensures queues[..] == old(queues[..])[prio := thread]
    {
      thread.next := queues[prio];
      thread.prev := null;
      if queues[prio] != null {
        queues[prio].prev := thread;
      }
      queues[prio] := thread;
      thread.state := Ready;
    }

    /** Changes a thread's priority.  A READY thread is queued, and is queued again without being
        taken out first: afterwards the links represent some lists if and only if it was not READY. */
    method SetPriority(thread: Thread, priorityClass: nat, delta: int)
      requires Valid() && !lock && (thread.state == Ready <==> thread in Queued())
      modifies this`numThreads, this`lock, queues, bitmap, thread, Queued()`prev
      ensures thread.priorityClass ==
        if priorityClass != PRTYC_NOCHANGE then priorityClass else old(thread.priorityClass)
      ensures thread.priorityDelta == delta
      ensures thread.effectivePriority == CalculatePriority(thread.priorityClass, delta)
      ensures old(thread.state) != Ready ==> Valid() && lists == old(lists)
      ensures old(thread.state) == Ready <==> forall l: Lists<Thread> :: !Represents(l)
    {
      ghost var p, k := 0, 0;
      if thread.state == Ready {
        p, k := PositionOf(thread);
      }
      thread.UpdatePriority(priorityClass, delta);
      if thread.state == Ready {
        Requeue(thread, p, k);
      } else {
        assert Valid() && Represents(lists);
      }
    }

    /** Where a queued thread stands, and that the links before it lead to it. */
    lemma PositionOf(thread: Thread) returns (p: nat, k: nat)
      requires Valid() && thread in Queued()
      ensures p < PRIORITIES && k < |lists[p]| && lists[p][k] == thread && queues[p] == lists[p][0]
      ensures forall j :: 0 <= j < k ==> lists[p][j] != thread && lists[p][j].next == lists[p][j + 1]
      ensures forall r :: 0 <= r < PRIORITIES ==> (queues[r] != null ==> queues[r] in Queued())
    {
      p, k :| p < PRIORITIES && k < |lists[p]| && lists[p][k] == thread;
      forall j | 0 <= j < k
        ensures lists[p][j] != thread && lists[p][j].next == lists[p][j + 1]
      {
        assert InPlace(lists[p], j, p);
      }
      assert forall r :: 0 <= r < PRIORITIES ==> Linked(queues[r], lists[r], r);
    }

    /** enqueue_thread on a thread that stands at position k of list p. */
    method Requeue(thread: Thread, ghost p: nat, ghost k: nat)
      requires !lock && queues.Length == PRIORITIES && bitmap.Length == 4
      requires p < PRIORITIES && thread.effectivePriority < PRIORITIES
      requires k < |lists[p]| && lists[p][k] == thread && queues[p] == lists[p][0]
      requires forall j :: 0 <= j < k ==> lists[p][j] != thread && lists[p][j].next == lists[p][j + 1]
      requires queues[thread.effectivePriority] != null ==> queues[thread.effectivePriority] in Queued()
      modifies this`numThreads, this`lock, queues, bitmap, thread`next, thread`prev, thread`state, Queued()`prev
      ensures forall l: Lists<Thread> :: !Represents(l)
    {
      var prio := thread.effectivePriority;
      Acquire();
      PushPointers(prio, thread);
      SetBit(prio);
      numThreads := numThreads + 1;
      Release();
      forall l: Lists<Thread>
        ensures !Represents(l)
      {
        QueuedTwice(l, lists[p], p, k, prio);
      }
    }

    /** No lists fit once the thread at position k of l0 is also pushed at priority prio. */
    lemma QueuedTwice(l: Lists<Thread>, l0: seq<Thread>, p: nat, k: nat, prio: nat)
      requires queues.Length == PRIORITIES && p < PRIORITIES && prio < PRIORITIES && k < |l0|
      requires forall j :: 0 <= j < k ==> l0[j] != l0[k] && l0[j].next == l0[j + 1]
      requires l0[k].effectivePriority == prio && queues[prio] == l0[k]
      requires if p == prio then l0[k].next == l0[0] else queues[p] == l0[0]
      ensures !Represents(l)
    {
      if Represents(l) {
        if p == prio {
          assert InPlace(l[p], 0, p);
          FollowLinks(l[p], p, 1, l0, k);
        } else {
          FollowLinks(l[p], p, 0, l0, k);
        }
      }
    }

    /** Lists are determined by where they start and by the next links. */
    lemma {:induction false} FollowLinks(l: seq<Thread>, p: nat, from: nat, l0: seq<Thread>, j: nat)
      requires forall i :: 0 <= i < |l| ==> InPlace(l, i, p)
      requires from < |l| && j < |l0| && l[from] == l0[0]
      requires forall i :: 0 <= i < j ==> l0[i].next == l0[i + 1]
      ensures from + j < |l| && l[from + j] == l0[j] && InPlace(l, from + j, p)
    {
      if j > 0 {
        FollowLinks(l, p, from, l0, j - 1);
        var i := j - 1;
        assert InPlace(l, from + i, p) && l0[i].next == l0[i + 1];
      }
    }

    /** Takes the thread at position i of a list out: the pointer part of dequeue_highest_priority
        (where i is 0 and prev is null) and of steal_thread. */
    method Unlink(prio: nat, t: Thread, prev: Thread?, ghost i: nat)
      requires Links() && prio < PRIORITIES && i < |lists[prio]| && t == lists[prio][i]
      requires prev == if i > 0 then lists[prio][i - 1] else null
      modifies this`lists, queues, Queued()`next, Queued()`prev
      ensures Links() && lists == RemoveAt(old(lists), prio, i)
      ensures t.next == null && t.prev == null && t !in Queued()
    {
      ghost var q := lists;
      forall p, j | 0 <= p < PRIORITIES && p != prio && 0 <= j < |q[p]|
        ensures q[p][j] !in q[prio]
      {
        OtherPriority(p, j, prio);
      }
      Splice(prio, t, prev, q[prio], i);
      lists := RemoveAt(lists, prio, i);
      forall p, j | 0 <= p < PRIORITIES && p != prio && 0 <= j < |q[p]|
        ensures InPlace(q[p], j, p)
      {
        assert old(InPlace(q[p], j, p));
      }
      assert t in q[prio] && t !in lists[prio];
    }

    lemma OtherPriority(p: nat, j: nat, prio: nat)
      requires Links() && p < PRIORITIES && prio < PRIORITIES && p != prio && j < |lists[p]|
      ensures lists[p][j] !in lists[prio]
    {
      assert InPlace(lists[p], j, p);
      forall k | 0 <= k < |lists[prio]|
        ensures lists[prio][k] != lists[p][j]
      {
        assert InPlace(lists[prio], k, prio);
      }
    }

    /** The assignments of Unlink, on the one list they concern. */
    method Splice(prio: nat, t: Thread, prev: Thread?, ghost l: seq<Thread>, ghost i: nat)
      requires queues.Length == PRIORITIES && prio < PRIORITIES && Linked(queues[prio], l, prio) && Distinct(l)
      requires i < |l| && t == l[i] && prev == if i > 0 then l[i - 1] else null
      modifies queues, l`next, l`prev
      ensures Linked(queues[prio], l[..i] + l[i + 1..], prio)
      ensures forall p :: 0 <= p < PRIORITIES && p != prio ==> queues[p] == old(queues[p])
      ensures t.next == null && t.prev == null
    {
      assert InPlace(l, i, prio) && t in l;
      assert i > 0 ==> InPlace(l, i - 1, prio) && l[i - 1] in l;
      assert i + 1 < |l| ==> InPlace(l, i + 1, prio) && l[i + 1] in l;
      if prev != null {
        prev.next := t.next;
      } else {
        queues[prio] := t.next;
      }
      if t.next != null {
        t.next.prev := prev;
      }
      t.next, t.prev := null, null;
      ghost var rest := l[..i] + l[i + 1..];
      forall j | 0 <= j < |rest|
        ensures InPlace(rest, j, prio)
      {
        ghost var k := if j < i then j else j + 1;
        assert rest[j] == l[k] && old(InPlace(l, k, prio));
      }
    }

    /** Unlinks a thread and brings the bitmap and the count up to date. */
    method Remove(prio: nat, t: Thread, prev: Thread?, ghost i: nat)
      requires Valid() && prio < PRIORITIES && i < |lists[prio]| && t == lists[prio][i]
      requires prev == if i > 0 then lists[prio][i - 1] else null
      modifies this`lists, this`numThreads, queues, bitmap, Queued()`next, Queued()`prev
      ensures Valid() && lists == RemoveAt(old(lists), prio, i)
      ensures t.next == null && t.prev == null && t !in Queued()
    {
      RemoveCounts(lists, prio, i);
      Unlink(prio, t, prev, i);
      if queues[prio] == null {
        ClearBit(prio);
      }
      numThreads := numThreads - 1;
    }

    method SetBit(p: nat)
      requires p < PRIORITIES && bitmap.Length == 4
      modifies bitmap
      ensures forall r :: 0 <= r < PRIORITIES ==>
        (Test(bitmap[r / 32], r % 32) <==> r == p || old(Test(bitmap[r / 32], r % 32)))
    {
      var word, bit := p / 32, p % 32;
      WordStays(bitmap[word], bit);
      forall r | 0 <= r < PRIORITIES {
        SetClear(bitmap[word], bit, r % 32);
      }
      bitmap[word] := Set(bitmap[word], bit);
    }

    method ClearBit(p: nat)
      requires p < PRIORITIES && bitmap.Length == 4
      modifies bitmap
      ensures forall r :: 0 <= r < PRIORITIES ==>
        (Test(bitmap[r / 32], r % 32) <==> r != p && old(Test(bitmap[r / 32], r % 32)))
    {
      var word, bit := p / 32, p % 32;
      WordStays(bitmap[word], bit);
      forall r | 0 <= r < PRIORITIES {
        SetClear(bitmap[word], bit, r % 32);
      }
      bitmap[word] := Clear(bitmap[word], bit);
    }

    /** The lists are the priorities of their threads. */
    lemma Priorities()
      requires Valid()
      ensures forall p: nat, i: nat :: p < PRIORITIES && i < |lists[p]| ==> lists[p][i].effectivePriority == p
    {
      forall p: nat, i: nat | p < PRIORITIES && i < |lists[p]|
        ensures lists[p][i].effectivePriority == p
      {
        assert InPlace(lists[p], i, p);
      }
    }

    /** Takes the head of the highest non-empty list; null if and only if nothing is queued. */
    method Dequeue() returns (thread: Thread?, ghost prio: nat)
      requires Valid() && !lock
      modifies this`lists, this`numThreads, this`lock, queues, bitmap, Queued()`next, Queued()`prev
      ensures Valid() && !lock
      ensures thread == null ==> Empty(old(lists)) && lists == old(lists)
      ensures thread != null ==>
        && Highest(old(lists), prio) && thread == old(lists)[prio][0]
        && lists == RemoveAt(old(lists), prio, 0)
        && thread.next == null && thread.prev == null && thread !in Queued() && thread in old(Queued())
      ensures thread != null ==> forall o :: o in old(Queued()) ==> o.effectivePriority <= thread.effectivePriority
    {
      Priorities();
      Acquire();
      thread, prio := null, 0;
      var word := 3;
      while word >= 0
        invariant -1 <= word <= 3 && Valid() && thread == null && lists == old(lists)
        invariant forall p :: 32 * (word + 1) <= p < PRIORITIES ==> lists[p] == []
      {
        if bitmap[word] != 0 {
          thread, prio := DequeueFromWord(word);
          if thread != null {
            break;
          }
        } else {
          forall p | 32 * word <= p < 32 * (word + 1)
            ensures lists[p] == []
          {
            ZeroWord(p % 32);
          }
        }
        word := word - 1;
      }
      Release();
    }

    /** The inner loop of dequeue_highest_priority: looks from bit 31 down. */
    method DequeueFromWord(word: nat) returns (thread: Thread?, ghost prio: nat)
      requires Valid() && word < 4 && forall p :: 32 * (word + 1) <= p < PRIORITIES ==> lists[p] == []
      modifies this`lists, this`numThreads, queues, bitmap, Queued()`next, Queued()`prev
      ensures Valid()
      ensures thread == null ==> lists == old(lists) && forall p :: 32 * word <= p < PRIORITIES ==> lists[p] == []
      ensures thread != null ==>
        && Highest(old(lists), prio) && thread == old(lists)[prio][0]
        && lists == RemoveAt(old(lists), prio, 0)
        && thread.next == null && thread.prev == null && thread !in Queued() && thread in old(Queued())
    {
      thread, prio := null, 0;
      var bits := bitmap[word];
      var bit := 31;
      while bit >= 0
        invariant -1 <= bit <= 31 && thread == null && Valid() && lists == old(lists) && bits == bitmap[word]
        invariant forall p :: 32 * word + bit + 1 <= p < PRIORITIES ==> lists[p] == []
      {
        var p := word * 32 + bit;
        assert p / 32 == word && p % 32 == bit;
        if Test(bits, bit) {
          thread := queues[p];
          if thread != null {
            prio := p;
            Remove(p, thread, null, 0);
            return;
          }
        }
        bit := bit - 1;
      }
    }

    /** The queued threads that may run on a CPU. */
    ghost function MayRunOn(cpu: nat): set<Thread>
      reads this`lists, Queued()
    {
      set t | t in Queued() && Test(t.affinity, cpu)
    }

    /** The part of steal_thread that holds this queue's lock: takes the first thread, from the
        lowest priority up and from each list's head, that may run on the thief. */
    method StealFrom(thief: nat) returns (t: Thread?, ghost prio: nat, ghost i: nat)
      requires Valid() && !lock
      modifies this`lists, this`numThreads, this`lock, queues, bitmap, Queued()`next, Queued()`prev
      ensures Valid() && !lock
      ensures t == null ==> NoneAllowed(lists, MayRunOn(thief))
      ensures t == null ==> unchanged(this`lists, this`numThreads, queues, bitmap)
      ensures t == null ==> forall o :: o in Queued() ==> unchanged(o)
      ensures t != null ==>
        && FirstAllowed(old(lists), old(MayRunOn(thief)), prio, i)
        && t == old(lists)[prio][i] && lists == RemoveAt(old(lists), prio, i)
        && t.next == null && t.prev == null && t !in Queued()
      ensures t != null ==>
        && t in old(MayRunOn(thief))
        && forall o :: o in old(MayRunOn(thief)) ==> t.effectivePriority <= o.effectivePriority
    {
      Priorities();
      Acquire();
      var prev, p;
      t, prev, p, i := FindStealable(thief);
      prio := p;
      if t != null {
        Remove(p, t, prev, i);
      }
      Release();
    }

    /** The scan of steal_thread over one victim's lists. */
    method FindStealable(thief: nat) returns (t: Thread?, prev: Thread?, p: nat, ghost i: nat)
      requires Valid()
      ensures t == null ==> NoneAllowed(lists, MayRunOn(thief))
      ensures t != null ==>
        && FirstAllowed(lists, MayRunOn(thief), p, i) && t == lists[p][i]
        && prev == if i > 0 then lists[p][i - 1] else null
    {
      t, prev, p, i := null, null, 0, 0;
      while p < PRIORITIES
        invariant p <= PRIORITIES && t == null
        invariant forall r: nat, j: nat :: r < p && j < |lists[r]| ==> lists[r][j] !in MayRunOn(thief)
      {
        t, prev, i := FindAllowed(p, thief);
        if t != null {
          return;
        }
        p := p + 1;
      }
    }

    /** Walks one list until a thread that may run on the CPU. */
    method FindAllowed(p: nat, cpu: nat) returns (t: Thread?, prev: Thread?, ghost i: nat)
      requires Valid() && p < PRIORITIES
      ensures i <= |lists[p]| && forall j: nat :: j < i ==> lists[p][j] !in MayRunOn(cpu)
      ensures t == null ==> i == |lists[p]|
      ensures t != null ==>
        && i < |lists[p]| && t == lists[p][i] && t in MayRunOn(cpu)
        && prev == if i > 0 then lists[p][i - 1] else null
    {
      t, prev, i := queues[p], null, 0;
      while t != null
        invariant i <= |lists[p]| && t == if i < |lists[p]| then lists[p][i] else null
        invariant prev == if i > 0 then lists[p][i - 1] else null
        invariant forall j: nat :: j < i ==> lists[p][j] !in MayRunOn(cpu)
        decreases |lists[p]| - i
      {
        assert InPlace(lists[p], i, p) && t in Queued();
        if Test(t.affinity, cpu) {
          return;
        }
        prev := t;
        t := t.next;
        i := i + 1;
      }
    }

    // ----- Scheduling on this CPU -----

    /** The lists once the running thread, if any, has been put back. */
    ghost function WithCurrent(): Lists<Thread>
      requires current != null ==> current.effectivePriority < PRIORITIES
      reads this`lists, this`current, current
    {
      if current != null && current.state == Running then Push(lists, current.effectivePriority, current)
      else lists
    }

    /** Puts the running thread back, then runs the first thread of the highest non-empty list.
        The running thread is picked again unless a strictly higher priority is queued. */
    method Schedule() returns (next: Thread?, ghost prio: nat)
      requires Valid() && !lock && (current != null ==> current.effectivePriority < PRIORITIES)
      modifies this, queues, bitmap, current, Queued()
      ensures Valid() && !lock && current == next
      ensures next == null <==> Empty(old(WithCurrent()))
      ensures next == null ==> lists == old(lists)
      ensures next != null ==>
        && Highest(old(WithCurrent()), prio) && next == old(WithCurrent())[prio][0]
        && lists == RemoveAt(old(WithCurrent()), prio, 0) && next !in Queued()
        && next.state == Running && next.cpuId == cpuId && totalSwitches == old(totalSwitches) + 1
      ensures old(current != null && current.state == Running) ==>
        (next == old(current) <==>
          forall r: nat :: old(current.effectivePriority) < r < PRIORITIES ==> old(lists)[r] == [])
      ensures old(current != null && current.state == Running) ==> old(current).timeSlice == 10_000_000
    {
      ghost var q, t := lists, current;
      ghost var wasRunning := current != null && current.state == Running;
      PutBackCurrent();
      next, prio := RunNext();
      if wasRunning {
        assert old(WithCurrent())[t.effectivePriority] != [];
        PushedIsNext(q, t.effectivePriority, t, prio);
      }
    }

    /** `Pick highest priority ready thread` */
    method RunNext() returns (next: Thread?, ghost prio: nat)
      requires Valid() && !lock
      modifies this, queues, bitmap, Queued()`next, Queued()`prev, Queued()`state, Queued()`cpuId
      ensures Valid() && !lock && current == next
      ensures next == null ==> Empty(old(lists)) && lists == old(lists)
      ensures next != null ==>
        && Highest(old(lists), prio) && next == old(lists)[prio][0]
        && lists == RemoveAt(old(lists), prio, 0) && next !in Queued()
        && next.state == Running && next.cpuId == cpuId && totalSwitches == old(totalSwitches) + 1
    {
      next, prio := Dequeue();
      if next != null {
        Dispatch(next);
      } else {
        current := null;
      }
    }

    method Dispatch(next: Thread)
      requires Valid() && next !in Queued()
      modifies this`current, this`totalSwitches, next`state, next`cpuId
      ensures Valid() && current == next && next.state == Running && next.cpuId == cpuId
      ensures totalSwitches == old(totalSwitches) + 1
    {
      next.state := Running;
      next.cpuId := cpuId;
      current := next;
      totalSwitches := totalSwitches + 1;
    }

    /** `Save current thread if any` */
    method PutBackCurrent()
      requires Valid() && !lock && (current != null ==> current.effectivePriority < PRIORITIES)
      modifies this`lists, this`numThreads, this`lock, queues, bitmap, current, Queued()`prev
      ensures Valid() && !lock && lists == old(WithCurrent())
      ensures current != null ==> current.effectivePriority == old(current.effectivePriority)
      ensures Queued() <= old(Queued()) + if current == null then {} else {current}
      ensures old(current != null && current.state == Running) ==> !Holds<Thread>(old(lists), old(current))
      ensures old(current != null && current.state == Running) ==> current.timeSlice == TIME_SLICE
    {
      if current != null && current.state == Running {
        RunningNotQueued(current);
        current.state := Ready;
        current.timeSlice := TIME_SLICE;
        Enqueue(current);
      }
    }

    lemma RunningNotQueued(t: Thread)
      requires Valid() && t.state != Ready
      ensures t !in Queued()
    {
      forall p, i | 0 <= p < PRIORITIES && 0 <= i < |lists[p]|
        ensures lists[p][i] != t
      {
        assert InPlace(lists[p], i, p);
      }
    }

    method Yield()
      requires Valid() && !lock
      requires current != null ==> current.effectivePriority < PRIORITIES && current !in Queued()
      modifies this, queues, bitmap, current, Queued()`prev
      ensures Valid() && !lock && current == null
      ensures old(current) == null ==> lists == old(lists)
      ensures old(current) != null ==>
        lists == Push<Thread>(old(lists), old(current.effectivePriority), old(current)) && old(current).state == Ready
    {
      if current != null {
        current.state := Ready;
        Enqueue(current);
        current := null;
      }
    }

    method Block()
      requires Valid() && !lock && (current != null ==> current !in Queued())
      modifies this`current, current
      ensures Valid() && !lock && current == null && lists == old(lists)
      ensures old(current) != null ==> old(current).state == Blocked
    {
      if current != null {
        current.state := Blocked;
        current := null;
      }
    }
  }

  /** Two CPUs' queues that share no thread and no array. */
  ghost predicate Apart(a: RunQueue, b: RunQueue)
    reads a`lists, b`lists
  {
    a != b && a.queues != b.queues && a.bitmap != b.bitmap && a.Queued() !! b.Queued()
  }

  /** Takes a thread out of one CPU's queue and puts it into another's: what steal_thread does once it has
      chosen the victim, and the end of sched_balance_load. */
  method StealAcross(victim: RunQueue, thief: RunQueue) returns (t: Thread?, ghost prio: nat, ghost i: nat)
    requires victim.Valid() && thief.Valid() && !victim.lock && !thief.lock && Apart(victim, thief)
    modifies victim`lists, victim`numThreads, victim`lock, victim.queues, victim.bitmap, victim.Queued()
    modifies thief`lists, thief`numThreads, thief`lock, thief.queues, thief.bitmap, thief.Queued()`prev
    ensures victim.Valid() && thief.Valid() && !victim.lock && !thief.lock && Apart(victim, thief)
    ensures t == null ==> NoneAllowed(old(victim.lists), old(victim.MayRunOn(thief.cpuId)))
    ensures t == null ==> victim.lists == old(victim.lists) && thief.lists == old(thief.lists)
    ensures t != null ==>
      && FirstAllowed(old(victim.lists), old(victim.MayRunOn(thief.cpuId)), prio, i)
      && t == old(victim.lists)[prio][i] && t.cpuId == thief.cpuId
    ensures t != null ==>
      && victim.lists == RemoveAt(old(victim.lists), prio, i)
      && thief.lists == Push<Thread>(old(thief.lists), prio, t)
  {
    t, prio, i := TakeStolen(victim, thief);
    if t != null {
      t.cpuId := thief.cpuId;
      EnqueueStolen(victim, thief, t);
    }
  }

  /** The thief's queue does not notice what is taken from the victim's. */
  method TakeStolen(victim: RunQueue, thief: RunQueue) returns (t: Thread?, ghost prio: nat, ghost i: nat)
    requires victim.Valid() && thief.Valid() && !victim.lock && !thief.lock && Apart(victim, thief)
    modifies victim`lists, victim`numThreads, victim`lock, victim.queues, victim.bitmap
    modifies victim.Queued()`next, victim.Queued()`prev
    ensures victim.Valid() && thief.Valid() && !victim.lock && Apart(victim, thief)
    ensures t == null ==> NoneAllowed(old(victim.lists), old(victim.MayRunOn(thief.cpuId)))
    ensures t == null ==> victim.lists == old(victim.lists)
    ensures t != null ==>
      && FirstAllowed(old(victim.lists), old(victim.MayRunOn(thief.cpuId)), prio, i)
      && t == old(victim.lists)[prio][i] && victim.lists == RemoveAt(old(victim.lists), prio, i)
    ensures t != null ==>
      && t.effectivePriority == prio && t in old(victim.Queued())
      && t !in victim.Queued() && t !in thief.Queued()
  {
    ghost var q := victim.lists;
    forall p: nat, j: nat | p < PRIORITIES && j < |q[p]|
      ensures q[p][j] in victim.Queued() && q[p][j].effectivePriority == p
    {
      assert InPlace(q[p], j, p);
    }
    t, prio, i := victim.StealFrom(thief.cpuId);
    if t != null {
      ThreadsRemoved(q, prio, i);
    }
  }

  lemma ThreadsRemoved(q: Lists<Thread>, p: nat, i: nat)
    requires p < PRIORITIES && i < |q[p]|
    ensures ThreadsIn(RemoveAt(q, p, i)) <= ThreadsIn(q)
  {
    forall r, j | 0 <= r < PRIORITIES && 0 <= j < |RemoveAt(q, p, i)[r]|
      ensures RemoveAt(q, p, i)[r][j] in ThreadsIn(q)
    {
      assert RemoveAt(q, p, i)[r][j] == if r != p || j < i then q[r][j] else q[r][j + 1];
    }
  }

  method EnqueueStolen(victim: RunQueue, thief: RunQueue, t: Thread)
    requires victim.Valid() && thief.Valid() && !thief.lock && Apart(victim, thief)
    requires t.effectivePriority < PRIORITIES && t !in victim.Queued() && t !in thief.Queued()
    modifies thief`lists, thief`numThreads, thief`lock, thief.queues, thief.bitmap
    modifies t`next, t`prev, t`state, thief.Queued()`prev
    ensures victim.Valid() && thief.Valid() && !thief.lock && Apart(victim, thief)
    ensures thief.lists == Push(old(thief.lists), t.effectivePriority, t)
  {
    ghost var q := thief.lists;
    thief.Enqueue(t);
    ThreadsPushed(q, t.effectivePriority, t);
  }

  lemma ThreadsPushed(q: Lists<Thread>, p: nat, t: Thread)
    requires p < PRIORITIES
    ensures ThreadsIn(Push(q, p, t)) <= ThreadsIn(q) + {t}
  {}
}
