/** A run queue as a value: one list of threads per priority, newest first. */
module RunLists {
  const PRIORITIES: int := 128             // MAX_PRIORITY + 1

  datatype ThreadState = Ready | Running | Blocked | Suspended | Terminated

  type Lists<!T> = q: seq<seq<T>> | |q| == PRIORITIES witness seq(PRIORITIES, _ => [])

  function Push<T>(q: Lists<T>, p: nat, t: T): Lists<T>
    requires p < PRIORITIES
  {
    q[p := [t] + q[p]]
  }

  function RemoveAt<T>(q: Lists<T>, p: nat, i: nat): Lists<T>
    requires p < PRIORITIES && i < |q[p]|
  {
    q[p := q[p][..i] + q[p][i + 1..]]
  }

  ghost predicate Empty<T>(q: Lists<T>) {
    forall p: nat :: p < PRIORITIES ==> q[p] == []
  }

  /** p is the highest priority with a thread. */
  ghost predicate Highest<T>(q: Lists<T>, p: nat) {
    p < PRIORITIES && q[p] != [] && forall r: nat :: p < r < PRIORITIES ==> q[r] == []
  }

  /** Position (p, i) is the first allowed one, scanning priorities upwards and lists from the head. */
  ghost predicate FirstAllowed<T>(q: Lists<T>, allowed: set<T>, p: nat, i: nat) {
    && p < PRIORITIES && i < |q[p]| && q[p][i] in allowed
    && (forall r: nat, j: nat :: r < p && j < |q[r]| ==> q[r][j] !in allowed)
    && (forall j: nat :: j < i ==> q[p][j] !in allowed)
  }

  ghost predicate NoneAllowed<T>(q: Lists<T>, allowed: set<T>) {
    forall r: nat, j: nat :: r < PRIORITIES && j < |q[r]| ==> q[r][j] !in allowed
  }

  lemma HighestExists<T>(q: Lists<T>) returns (p: nat)
    requires !Empty(q)
    ensures Highest(q, p)
  {
    p := PRIORITIES - 1;
    while q[p] == []
      invariant p < PRIORITIES && forall r: nat :: p < r < PRIORITIES ==> q[r] == []
      invariant exists r: nat :: r <= p && q[r] != []
      decreases p
    {
      p := p - 1;
    }
  }

  lemma FirstAllowedExists<T>(q: Lists<T>, allowed: set<T>) returns (p: nat, i: nat)
    requires !NoneAllowed(q, allowed)
    ensures FirstAllowed(q, allowed, p, i)
  {
    p := 0;
    while forall j: nat :: j < |q[p]| ==> q[p][j] !in allowed
      invariant p < PRIORITIES && forall r: nat, j: nat :: r < p && j < |q[r]| ==> q[r][j] !in allowed
      decreases PRIORITIES - p
    {
      p := p + 1;
    }
    i := 0;
    while q[p][i] !in allowed
      invariant i < |q[p]| && forall j: nat :: j < i ==> q[p][j] !in allowed
      invariant exists j: nat :: i <= j < |q[p]| && q[p][j] in allowed
      decreases |q[p]| - i
    {
      i := i + 1;
    }
  }

  ghost predicate Holds<T>(q: Lists<T>, t: T) {
    exists p: nat, i: nat :: p < PRIORITIES && i < |q[p]| && q[p][i] == t
  }

  /** No thread stands in two places. */
  ghost predicate NoRepeats<T>(q: Lists<T>) {
    forall p: nat, r: nat, i: nat, j: nat ::
      p < PRIORITIES && r < PRIORITIES && i < |q[p]| && j < |q[r]| && q[p][i] == q[r][j] ==> p == r && i == j
  }

  /** A thread just pushed is the next one out unless a strictly higher priority is queued. */
  lemma PushedIsNext<T>(q: Lists<T>, p: nat, t: T, top: nat)
    requires p < PRIORITIES && !Holds(q, t) && Highest(Push(q, p, t), top)
    ensures Push(q, p, t)[top][0] == t <==> forall r: nat :: p < r < PRIORITIES ==> q[r] == []
  {
    assert Push(q, p, t)[p][0] == t;
    if top != p {
      assert q[top] == Push(q, p, t)[top] && q[top][0] != t;
    } else {
      forall r: nat | p < r < PRIORITIES
        ensures q[r] == []
      {
        assert Push(q, p, t)[r] == q[r];
      }
    }
  }

  /** The running thread, taken from the head of the highest list and put back, leaves every list as it was:
      the other threads of its priority come no nearer, and the next one out is the thread that follows in
      the list, as in a rotation, if and only if there is no other. */
  lemma RotatesOnlyAlone<T>(q: Lists<T>, p: nat)
    requires Highest(q, p) && NoRepeats(q)
    ensures var back := Push(RemoveAt(q, p, 0), p, q[p][0]);
      back == q && Highest(back, p) && (back[p][0] == q[p][1 % |q[p]|] <==> |q[p]| == 1)
  {
    var back := Push(RemoveAt(q, p, 0), p, q[p][0]);
    assert back[p] == q[p];
    assert back == q;
  }

  lemma PushHolds<T>(q: Lists<T>, p: nat, t: T)
    requires p < PRIORITIES
    ensures forall x :: Holds(Push(q, p, t), x) <==> x == t || Holds(q, x)
  {
    var q' := Push(q, p, t);
    forall x
      ensures Holds(q', x) <==> x == t || Holds(q, x)
    {
      assert q'[p][0] == t;
      if Holds(q, x) {
        var r: nat, i: nat :| r < PRIORITIES && i < |q[r]| && q[r][i] == x;
        assert q'[r][if r == p then i + 1 else i] == x;
      }
    }
  }

  lemma RemoveHolds<T>(q: Lists<T>, p: nat, i: nat)
    requires p < PRIORITIES && i < |q[p]|
    ensures Holds(q, q[p][i])
    ensures forall x :: Holds(RemoveAt(q, p, i), x) ==> Holds(q, x)
    ensures forall x :: Holds(q, x) && x != q[p][i] ==> Holds(RemoveAt(q, p, i), x)
  {
    var q' := RemoveAt(q, p, i);
    forall x | Holds(q', x)
      ensures Holds(q, x)
    {
      var r: nat, j: nat :| r < PRIORITIES && j < |q'[r]| && q'[r][j] == x;
      assert q[r][if r == p && j >= i then j + 1 else j] == x;
    }
    forall x | Holds(q, x) && x != q[p][i]
      ensures Holds(q', x)
    {
      var r: nat, j: nat :| r < PRIORITIES && j < |q[r]| && q[r][j] == x;
      assert q'[r][if r == p && j > i then j - 1 else j] == x;
    }
  }

  lemma PushNoRepeats<T>(q: Lists<T>, p: nat, t: T)
    requires p < PRIORITIES && NoRepeats(q) && !Holds(q, t)
    ensures NoRepeats(Push(q, p, t))
  {
    var q' := Push(q, p, t);
    forall r: nat, u: nat, i: nat, j: nat
      | r < PRIORITIES && u < PRIORITIES && i < |q'[r]| && j < |q'[u]| && q'[r][i] == q'[u][j]
      ensures r == u && i == j
    {
      assert r == p && i > 0 ==> q'[r][i] == q[r][i - 1];
      assert u == p && j > 0 ==> q'[u][j] == q[u][j - 1];
    }
  }

  lemma RemoveNoRepeats<T>(q: Lists<T>, p: nat, i: nat)
    requires p < PRIORITIES && i < |q[p]| && NoRepeats(q)
    ensures NoRepeats(RemoveAt(q, p, i)) && !Holds(RemoveAt(q, p, i), q[p][i])
  {
    var q' := RemoveAt(q, p, i);
    forall r: nat, u: nat, j: nat, k: nat
      | r < PRIORITIES && u < PRIORITIES && j < |q'[r]| && k < |q'[u]| && q'[r][j] == q'[u][k]
      ensures r == u && j == k
    {
      assert q[r][if r == p && j >= i then j + 1 else j] == q[u][if u == p && k >= i then k + 1 else k];
    }
    forall r: nat, j: nat | r < PRIORITIES && j < |q'[r]|
      ensures q'[r][j] != q[p][i]
    {
      assert q'[r][j] == q[r][if r == p && j >= i then j + 1 else j];
    }
  }

  // ----- Counting -----

  ghost function SizeUpto<T>(q: seq<seq<T>>, n: nat): nat
    requires n <= |q|
  {
    if n == 0 then 0 else SizeUpto(q, n - 1) + |q[n - 1]|
  }

  ghost function CountUpto<T>(q: seq<seq<T>>, n: nat, t: T): nat
    requires n <= |q|
  {
    if n == 0 then 0 else CountUpto(q, n - 1, t) + multiset(q[n - 1])[t]
  }

  /** The number of queued threads. */
  ghost function Size<T>(q: Lists<T>): nat {
    SizeUpto(q, PRIORITIES)
  }

  /** How often t is queued. */
  ghost function Count<T>(q: Lists<T>, t: T): nat {
    CountUpto(q, PRIORITIES, t)
  }

  /** q' has one thread more than q, in list p. */
  ghost predicate OneMore<T>(q: seq<seq<T>>, q': seq<seq<T>>, p: nat, t: T) {
    && |q'| == |q| && p < |q|
    && |q'[p]| == |q[p]| + 1 && multiset(q'[p]) == multiset(q[p]) + multiset{t}
    && forall r: nat :: r < |q| && r != p ==> q'[r] == q[r]
  }

  lemma {:induction false} UptoOneMore<T>(q: seq<seq<T>>, q': seq<seq<T>>, p: nat, t: T, x: T, n: nat)
    requires OneMore(q, q', p, t) && n <= |q|
    ensures SizeUpto(q', n) == SizeUpto(q, n) + if p < n then 1 else 0
    ensures CountUpto(q', n, x) == CountUpto(q, n, x) + if p < n && x == t then 1 else 0
  {
    if n > 0 {
      UptoOneMore(q, q', p, t, x, n - 1);
    }
  }

  /** Pushing adds the one thread and removing takes the one away. */
  lemma PushCounts<T>(q: Lists<T>, p: nat, t: T)
    requires p < PRIORITIES
    ensures Size(Push(q, p, t)) == Size(q) + 1
    ensures forall x :: Count(Push(q, p, t), x) == Count(q, x) + if x == t then 1 else 0
  {
    assert multiset([t] + q[p]) == multiset(q[p]) + multiset{t};
    forall x
      ensures Size(Push(q, p, t)) == Size(q) + 1
      ensures Count(Push(q, p, t), x) == Count(q, x) + if x == t then 1 else 0
    {
      UptoOneMore(q, Push(q, p, t), p, t, x, PRIORITIES);
    }
    assert Count(q, t) >= 0;
  }

  lemma RemoveCounts<T>(q: Lists<T>, p: nat, i: nat)
    requires p < PRIORITIES && i < |q[p]|
    ensures Size(q) == Size(RemoveAt(q, p, i)) + 1
    ensures forall x :: Count(q, x) == Count(RemoveAt(q, p, i), x) + if x == q[p][i] then 1 else 0
  {
    assert q[p] == q[p][..i] + [q[p][i]] + q[p][i + 1..];
    assert multiset(q[p]) == multiset(q[p][..i] + q[p][i + 1..]) + multiset{q[p][i]};
    forall x
      ensures Size(q) == Size(RemoveAt(q, p, i)) + 1
      ensures Count(q, x) == Count(RemoveAt(q, p, i), x) + if x == q[p][i] then 1 else 0
    {
      UptoOneMore(RemoveAt(q, p, i), q, p, q[p][i], x, PRIORITIES);
    }
    assert Count(q, q[p][i]) >= 0;
  }

  lemma {:induction false} EmptySize<T>(q: seq<seq<T>>, n: nat)
    requires n <= |q|
    ensures SizeUpto(q, n) == 0 <==> forall p: nat :: p < n ==> q[p] == []
  {
    if n > 0 {
      EmptySize(q, n - 1);
    }
  }

  lemma {:induction false} HeldIsCounted<T>(q: seq<seq<T>>, n: nat, t: T)
    requires n <= |q|
    ensures CountUpto(q, n, t) > 0 <==> exists p: nat, i: nat :: p < n && i < |q[p]| && q[p][i] == t
  {
    if n > 0 {
      HeldIsCounted(q, n - 1, t);
      if t in q[n - 1] {
        var i: nat :| i < |q[n - 1]| && q[n - 1][i] == t;
      }
    }
  }
}
