/** Sequences kept in rank order by insertion behind equals. */
module StableOrder {

  /** Insertion behind every element whose rank is not larger. */
  function Insert<T>(rank: T -> int, q: seq<T>, x: T): seq<T> {
    if q == [] then [x]
    else if rank(q[0]) <= rank(x) then [q[0]] + Insert(rank, q[1..], x)
    else [x] + q
  }

  predicate NotLater<T>(rank: T -> int, q: seq<T>, x: T) {
    forall i :: 0 <= i < |q| ==> rank(q[i]) <= rank(x)
  }

  predicate Later<T>(rank: T -> int, q: seq<T>, x: T) {
    forall i :: 0 <= i < |q| ==> rank(q[i]) > rank(x)
  }

  predicate Sorted<T>(rank: T -> int, q: seq<T>) {
    forall i, j :: 0 <= i < j < |q| ==> rank(q[i]) <= rank(q[j])
  }

  lemma {:induction false} InsertSplit<T>(rank: T -> int, xs: seq<T>, ys: seq<T>, x: T)
    requires NotLater(rank, xs, x) && Later(rank, ys, x)
    ensures Insert(rank, xs + ys, x) == xs + [x] + ys
  {
    if xs == [] {
      assert xs + ys == ys;
    } else {
      assert (xs + ys)[1..] == xs[1..] + ys;
      InsertSplit(rank, xs[1..], ys, x);
    }
  }

  /** One step of a stable insertion sort: the newcomer stands behind all that are not later
      and before all that are, nothing else moves, and the result is sorted. */
  lemma InsertPlaces<T>(rank: T -> int, q: seq<T>, x: T) returns (k: nat)
    requires Sorted(rank, q)
    ensures k <= |q| && Insert(rank, q, x) == q[..k] + [x] + q[k..]
    ensures NotLater(rank, q[..k], x) && Later(rank, q[k..], x)
    ensures Sorted(rank, Insert(rank, q, x))
  {
    k := 0;
    while k < |q| && rank(q[k]) <= rank(x)
      invariant k <= |q| && NotLater(rank, q[..k], x)
    {
      k := k + 1;
    }
    assert forall i :: 0 <= i < |q[k..]| ==> q[k..][i] == q[k + i];
    assert q == q[..k] + q[k..];
    InsertSplit(rank, q[..k], q[k..], x);
    SortedAround(rank, q[..k], q[k..], x);
  }

  lemma SortedAround<T>(rank: T -> int, xs: seq<T>, ys: seq<T>, x: T)
    requires Sorted(rank, xs + ys) && NotLater(rank, xs, x) && Later(rank, ys, x)
    ensures Sorted(rank, xs + [x] + ys)
  {
    var all, was := xs + [x] + ys, xs + ys;
    assert forall i :: 0 <= i < |xs| ==> all[i] == was[i] == xs[i];
    assert all[|xs|] == x;
    assert forall i :: |xs| < i < |all| ==> all[i] == was[i - 1] == ys[i - 1 - |xs|];
  }

  /** Insertion looks at ranks only: it acts alike on two sequences of equal ranks. */
  lemma {:induction false} InsertAlike<S, T>(rankS: S -> int, p: seq<S>, x: S, rankT: T -> int, q: seq<T>, y: T, name: S -> T)
    requires rankS(x) == rankT(y) && name(x) == y
    requires |p| == |q| && forall i :: 0 <= i < |p| ==> name(p[i]) == q[i] && rankS(p[i]) == rankT(q[i])
    ensures |Insert(rankS, p, x)| == |p| + 1 == |Insert(rankT, q, y)|
    ensures forall i :: 0 <= i <= |p| ==> name(Insert(rankS, p, x)[i]) == Insert(rankT, q, y)[i]
  {
    if p != [] {
      InsertAlike(rankS, p[1..], x, rankT, q[1..], y, name);
    }
  }
}
