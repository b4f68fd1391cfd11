/** The input event ring: a bounded queue that forgets its oldest events. */
module Events {
  const RING_SIZE: int := 256

  datatype Event =
    | NoEvent
    | KeyDown(code: nat, modifiers: nat)
    | MouseMove(x: int, y: int, left: bool, right: bool)
    | MouseClick(x: int, y: int, button: nat)

  /** The last 255 events of a sequence: all that the ring can hold. */
  function Newest(es: seq<Event>): seq<Event> {
    if |es| < RING_SIZE then es else es[|es| - (RING_SIZE - 1)..]
  }

  lemma NewestAre(es: seq<Event>)
    ensures |Newest(es)| <= 255 && Newest(es) == if |es| <= 255 then es else es[|es| - 255..]
  {}

  function Pushed(q: seq<Event>, e: Event): seq<Event> {
    Newest(q + [e])
  }

  function PushedAll(q: seq<Event>, es: seq<Event>): seq<Event>
    decreases |es|
  {
    if es == [] then q else PushedAll(Pushed(q, es[0]), es[1..])
  }

  /** Pushing one event at a time keeps what forgetting once at the end would keep. */
  lemma {:induction false} NewestSurvive(q: seq<Event>, es: seq<Event>)
    requires |q| < RING_SIZE
    ensures PushedAll(q, es) == Newest(q + es)
    decreases |es|
  {
    if es == [] {
      assert q + es == q;
    } else {
      NewestSurvive(Pushed(q, es[0]), es[1..]);
      assert q + es == (q + [es[0]]) + es[1..];
    }
  }

  lemma {:induction false} PushedTwice(q: seq<Event>, a: seq<Event>, b: seq<Event>)
    ensures PushedAll(PushedAll(q, a), b) == PushedAll(q, a + b)
    decreases |a|
  {
    if a == [] {
      assert a + b == b;
    } else {
      PushedTwice(Pushed(q, a[0]), a[1..], b);
      assert (a + b)[1..] == a[1..] + b;
    }
  }

  /** Where the event at a position of the history is kept. */
  function Slot(k: nat): (i: nat)
    ensures i < RING_SIZE
  {
    k % RING_SIZE
  }

  /** Fewer than 256 events in a row stand in different slots; a full and an empty ring can be told apart. */
  lemma Room(lo: nat, hi: nat)
    requires lo <= hi < lo + RING_SIZE
    ensures forall k :: lo <= k < hi ==> Slot(k) != Slot(hi)
    ensures Slot(lo + 1) == (Slot(lo) + 1) % RING_SIZE && Slot(hi + 1) == (Slot(hi) + 1) % RING_SIZE
    ensures Slot(hi + 1) == Slot(lo) <==> hi - lo == RING_SIZE - 1
    ensures Slot(hi) == Slot(lo) <==> hi == lo
  {
    forall k | lo <= k <= hi
      ensures k < hi ==> Slot(k) != Slot(hi)
      ensures Slot(k + 1) == (Slot(k) + 1) % RING_SIZE
    {
      Apart(k, hi);
      Follows(k);
    }
    Apart(lo, hi + 1);
  }

  lemma Apart(j: nat, k: nat)
    requires j <= k <= j + RING_SIZE
    ensures Slot(j) == Slot(k) <==> k == j || k == j + RING_SIZE
  {}

  lemma Follows(k: nat)
    ensures Slot(k + 1) == (Slot(k) + 1) % RING_SIZE
  {}

  class EventQueue {
    const ring: array<Event>
    var head: nat
    var tail: nat
    ghost var history: seq<Event>   // every event pushed since the queue was last cleared
    ghost var next: nat             // position in the history of the oldest event still in the ring

    ghost predicate Valid()
      reads this, ring
    {
      && ring.Length == RING_SIZE && next <= |history| < next + RING_SIZE
      && head == Slot(|history|) && tail == Slot(next)
      && forall k :: next <= k < |history| ==> ring[Slot(k)] == history[k]
    }

    /** The events still to be delivered, oldest first. */
    ghost function Contents(): seq<Event>
      requires next <= |history|
      reads this
    {
      history[next..]
    }

    constructor ()
      ensures Valid() && fresh(ring) && history == []
    {
      ring := new Event[RING_SIZE](_ => NoEvent);
      head, tail, history, next := 0, 0, [], 0;
    }

    method Push(e: Event)
      requires Valid()
      modifies this, ring
      ensures Valid() && history == old(history) + [e] && Contents() == Pushed(old(Contents()), e)
    {
      Room(next, |history|);
      var nextHead := (head + 1) % RING_SIZE;
      if nextHead == tail {
        tail := (tail + 1) % RING_SIZE;
        next := next + 1;
      }
      ring[head] := e;
      history := history + [e];
      head := nextHead;
    }

    /** Delivers the oldest event left. */
    method Pop() returns (e: Event)
      requires Valid()
      modifies this`tail, this`next
      ensures Valid()
      ensures if old(Contents()) == [] then e == NoEvent && Contents() == [] else [e] + Contents() == old(Contents())
    {
      Room(next, |history|);
      if head == tail {
        return NoEvent;
      }
      e := ring[tail];
      tail := (tail + 1) % RING_SIZE;
      next := next + 1;
    }

    method Pending() returns (any: bool)
      requires Valid()
      ensures any <==> Contents() != []
    {
      Room(next, |history|);
      any := head != tail;
    }

    method Clear()
      requires Valid()
      modifies this
      ensures Valid() && history == [] && Contents() == []
    {
      head, tail := 0, 0;
      history, next := [], 0;
    }
  }
}
