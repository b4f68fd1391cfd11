/** Walks through numbered places, each of which leads to one other. */
module Routes {
  /** next[i] is where place i leads. */
  ghost predicate IsRoute(next: seq<nat>) {
    forall i :: 0 <= i < |next| ==> next[i] < |next|
  }

  /** The place n steps on from c. */
  ghost function Path(next: seq<nat>, c: nat, n: nat): (place: nat)
    requires IsRoute(next) && c < |next|
    ensures place < |next|
  {
    if n == 0 then c else next[Path(next, c, n - 1)]
  }

  /** Places among them c, not p, that no step leaves. */
  ghost predicate Trap(next: seq<nat>, c: nat, p: nat, places: set<nat>) {
    c in places && p !in places && forall i :: i in places ==> i < |next| && next[i] in places
  }

  ghost predicate Trapped(next: seq<nat>, c: nat, p: nat) {
    exists places: set<nat> :: Trap(next, c, p, places)
  }

  lemma {:induction false} StaysTrapped(next: seq<nat>, c: nat, p: nat, places: set<nat>, n: nat)
    requires IsRoute(next) && c < |next| && Trap(next, c, p, places)
    ensures Path(next, c, n) in places
  {
    if n > 0 {
      StaysTrapped(next, c, p, places, n - 1);
    }
  }

  /** A place that leads to itself is never left. */
  lemma {:induction false} Rests(next: seq<nat>, c: nat, i: nat, n: nat)
    requires IsRoute(next) && c < |next| && i <= n
    ensures next[Path(next, c, i)] == Path(next, c, i) ==> Path(next, c, n) == Path(next, c, i)
  {
    if i < n {
      Rests(next, c, i, n - 1);
    }
  }

  ghost function Visited(next: seq<nat>, c: nat, n: nat): set<nat>
    requires IsRoute(next) && c < |next|
  {
    if n == 0 then {c} else Visited(next, c, n - 1) + {Path(next, c, n)}
  }

  lemma {:induction false} WasVisited(next: seq<nat>, c: nat, n: nat, i: nat) returns (j: nat)
    requires IsRoute(next) && c < |next| && i in Visited(next, c, n)
    ensures j <= n && Path(next, c, j) == i
  {
    if n > 0 && i != Path(next, c, n) {
      j := WasVisited(next, c, n - 1, i);
    } else {
      j := n;
    }
  }

  lemma {:induction false} IsVisited(next: seq<nat>, c: nat, n: nat, j: nat)
    requires IsRoute(next) && c < |next| && j <= n
    ensures Path(next, c, j) in Visited(next, c, n)
  {
    if j < n {
      IsVisited(next, c, n - 1, j);
    }
  }

  /** A walk that comes back to where it was before is caught in the places it visited. */
  lemma Closed(next: seq<nat>, c: nat, p: nat, n: nat)
    requires IsRoute(next) && c < |next| && forall j: nat :: j <= n ==> Path(next, c, j) != p
    requires Path(next, c, n + 1) in Visited(next, c, n)
    ensures Trap(next, c, p, Visited(next, c, n))
  {
    var places := Visited(next, c, n);
    IsVisited(next, c, n, 0);
    if p in places {
      var j := WasVisited(next, c, n, p);
    }
    forall i | i in places
      ensures i < |next| && next[i] in places
    {
      var j := WasVisited(next, c, n, i);
      if j < n {
        IsVisited(next, c, n, j + 1);
      }
    }
  }

  lemma {:induction false} NewOrTrapped(next: seq<nat>, c: nat, p: nat, n: nat)
    requires IsRoute(next) && c < |next| && forall j: nat :: j <= n ==> Path(next, c, j) != p
    ensures |Visited(next, c, n)| == n + 1 || Trapped(next, c, p)
  {
    if n > 0 {
      NewOrTrapped(next, c, p, n - 1);
      if Path(next, c, n) in Visited(next, c, n - 1) {
        Closed(next, c, p, n - 1);
      }
    }
  }

  lemma {:induction false} Few(places: set<nat>, n: nat)
    requires forall i :: i in places ==> i < n
    ensures |places| <= n
  {
    if n > 0 {
      Few(places - {n - 1}, n - 1);
    } else {
      assert places == {};
    }
  }

  /** A walk reaches a place within as many steps as there are other places, or is trapped away from it. */
  lemma ReachedOrTrapped(next: seq<nat>, c: nat, p: nat) returns (n: nat)
    requires IsRoute(next) && c < |next| && p < |next| && !Trapped(next, c, p)
    ensures n < |next| && Path(next, c, n) == p
  {
    var last := |next| - 1;
    if forall j: nat :: j <= last ==> Path(next, c, j) != p {
      var visited := Visited(next, c, last);
      NewOrTrapped(next, c, p, last);
      forall i | i in visited + {p}
        ensures i < |next|
      {
        if i != p {
          var j := WasVisited(next, c, last, i);
        }
      }
      if p in visited {
        var j := WasVisited(next, c, last, p);
      }
      Few(visited + {p}, |next|);
    }
    n :| n <= last && Path(next, c, n) == p;
  }

  // ----- Repeating a step -----

  ghost function Times<S>(f: S -> S, s: S, n: nat): S {
    if n == 0 then s else f(Times(f, s, n - 1))
  }

  lemma {:induction false} TimesEarlier<S>(f: S -> S, s: S, n: nat)
    ensures Times(f, s, n + 1) == Times(f, f(s), n)
  {
    if n > 0 {
      TimesEarlier(f, s, n - 1);
    }
  }

  lemma {:induction false} TimesStill<S>(f: S -> S, s: S, n: nat)
    requires f(s) == s
    ensures Times(f, s, n) == s
  {
    if n > 0 {
      TimesStill(f, s, n - 1);
    }
  }

  /** Where each step goes as the route says, so do all of them. */
  lemma {:induction false} TimesWalk<S(!new)>(f: S -> S, good: S -> bool, place: S -> nat, next: seq<nat>, s: S, n: nat)
    requires IsRoute(next) && good(s) && place(s) < |next|
    requires forall x :: good(x) && place(x) < |next| ==> good(f(x)) && place(f(x)) == next[place(x)]
    ensures good(Times(f, s, n)) && place(Times(f, s, n)) == Path(next, place(s), n)
  {
    if n > 0 {
      TimesWalk(f, good, place, next, s, n - 1);
    }
  }
}
