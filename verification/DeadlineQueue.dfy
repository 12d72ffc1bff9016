/** The tree of waiting requests: one node per deadline, each with a FIFO queue. */
module DeadlineQueue {
  import opened MachineInt
  import opened LinberTypes
  import opened KeyOrder
  import opened StableOrder

  datatype Bucket = Bucket(uniqueId: u64, queue: seq<RequestNode>)

  /** The waiting requests in the order in which they are removed. */
  function Flatten(buckets: seq<Bucket>): seq<RequestNode> {
    if buckets == [] then [] else buckets[0].queue + Flatten(buckets[1..])
  }

  ghost predicate BucketOk(base: u64, b: Bucket) {
    && b.queue != [] && InWindow(base, b.uniqueId)
    && forall r :: r in b.queue ==> r.absDeadline == b.uniqueId
  }

  ghost predicate WellFormed(base: u64, buckets: seq<Bucket>) {
    && (forall i :: 0 <= i < |buckets| ==> BucketOk(base, buckets[i]))
    && (forall i, j :: 0 <= i < j < |buckets| ==>
          Rank(base, buckets[i].uniqueId) < Rank(base, buckets[j].uniqueId))
  }

  function ByDeadline(base: u64): RequestNode -> int {
    (r: RequestNode) => Rank(base, r.absDeadline)
  }

  /** Insertion behind every request that is not later. */
  function StableInsert(base: u64, q: seq<RequestNode>, r: RequestNode): seq<RequestNode> {
    Insert(ByDeadline(base), q, r)
  }

  lemma {:induction false} FlattenConcat(a: seq<Bucket>, b: seq<Bucket>)
    ensures Flatten(a + b) == Flatten(a) + Flatten(b)
  {
    if a == [] {
      assert a + b == b;
    } else {
      assert (a + b)[1..] == a[1..] + b;
      FlattenConcat(a[1..], b);
    }
  }

  lemma {:induction false} FlattenMembers(buckets: seq<Bucket>, r: RequestNode)
    ensures r in Flatten(buckets) <==> exists i :: 0 <= i < |buckets| && r in buckets[i].queue
  {
    if buckets != [] {
      FlattenMembers(buckets[1..], r);
      if r in Flatten(buckets[1..]) {
        var i :| 0 <= i < |buckets[1..]| && r in buckets[1..][i].queue;
        assert r in buckets[i + 1].queue;
      }
      if i :| 1 <= i < |buckets| && r in buckets[i].queue {
        assert r in buckets[1..][i - 1].queue;
      }
    }
  }

  /** Buckets in key order flatten to requests in key order. */
  lemma {:induction false} FlattenSorted(base: u64, buckets: seq<Bucket>)
    requires WellFormed(base, buckets)
    ensures Sorted(ByDeadline(base), Flatten(buckets))
    ensures forall r :: r in Flatten(buckets) ==> InWindow(base, r.absDeadline)
    ensures forall r :: r in Flatten(buckets) ==>
      exists i :: 0 <= i < |buckets| && r.absDeadline == buckets[i].uniqueId
  {
    if buckets != [] {
      FlattenSorted(base, buckets[1..]);
      forall r | r in Flatten(buckets)
        ensures exists i :: 0 <= i < |buckets| && r.absDeadline == buckets[i].uniqueId
        ensures r !in buckets[0].queue ==> Rank(base, r.absDeadline) > Rank(base, buckets[0].uniqueId)
        ensures InWindow(base, r.absDeadline)
      {
        assert BucketOk(base, buckets[0]);
        FlattenMembers(buckets, r);
        var i :| 0 <= i < |buckets| && r in buckets[i].queue;
        assert BucketOk(base, buckets[i]);
      }
      var q, rest := buckets[0].queue, Flatten(buckets[1..]);
      var all := q + rest;
      forall i, j | 0 <= i < j < |all|
        ensures Rank(base, all[i].absDeadline) <= Rank(base, all[j].absDeadline)
      {
        assert BucketOk(base, buckets[0]);
        if i < |q| {
          assert q[i] in q;
          if j < |q| {
            assert q[j] in q;
          } else {
            assert rest[j - |q|] in rest && rest[j - |q|] in Flatten(buckets);
          }
        }
      }
    }
  }

  ghost predicate BucketsBelow(base: u64, buckets: seq<Bucket>, d: u64) {
    forall i :: 0 <= i < |buckets| ==> Rank(base, buckets[i].uniqueId) < Rank(base, d)
  }

  ghost predicate BucketsAbove(base: u64, buckets: seq<Bucket>, d: u64) {
    forall i :: 0 <= i < |buckets| ==> Rank(base, buckets[i].uniqueId) > Rank(base, d)
  }

  lemma BelowFlattens(base: u64, buckets: seq<Bucket>, d: u64, r: RequestNode)
    requires WellFormed(base, buckets) && r.absDeadline == d
    ensures BucketsBelow(base, buckets, d) ==> NotLater(ByDeadline(base), Flatten(buckets), r)
    ensures BucketsAbove(base, buckets, d) ==> Later(ByDeadline(base), Flatten(buckets), r)
  {
    FlattenSorted(base, buckets);
    var q := Flatten(buckets);
    assert forall i :: 0 <= i < |q| ==> q[i] in q;
  }

  /** A new bucket between the earlier and the later ones is a stable insertion. */
  lemma NewBucketRefines(base: u64, a: seq<Bucket>, b: seq<Bucket>, r: RequestNode)
    requires WellFormed(base, a + b) && InWindow(base, r.absDeadline)
    requires BucketsBelow(base, a, r.absDeadline) && BucketsAbove(base, b, r.absDeadline)
    ensures WellFormed(base, a + [Bucket(r.absDeadline, [r])] + b)
    ensures Flatten(a + [Bucket(r.absDeadline, [r])] + b) == StableInsert(base, Flatten(a + b), r)
  {
    var n := Bucket(r.absDeadline, [r]);
    BucketAdded(base, a, n, b);
    WellFormedParts(base, a, b);
    hide WellFormed;
    BelowFlattens(base, a, r.absDeadline, r);
    BelowFlattens(base, b, r.absDeadline, r);
    FlattenConcat(a, b);
    InsertSplit(ByDeadline(base), Flatten(a), Flatten(b), r);
    FlattenThree(a, n, b);
  }

  lemma BucketAdded(base: u64, a: seq<Bucket>, n: Bucket, b: seq<Bucket>)
    requires WellFormed(base, a + b) && BucketOk(base, n)
    requires BucketsBelow(base, a, n.uniqueId) && BucketsAbove(base, b, n.uniqueId)
    ensures WellFormed(base, a + [n] + b)
  {
    var was, now := a + b, a + [n] + b;
    assert forall i :: 0 <= i < |a| ==> now[i] == was[i] == a[i];
    assert now[|a|] == n;
    assert forall i :: |a| < i < |now| ==> now[i] == was[i - 1] == b[i - 1 - |a|];
  }

  lemma WellFormedParts(base: u64, a: seq<Bucket>, b: seq<Bucket>)
    requires WellFormed(base, a + b)
    ensures WellFormed(base, a) && WellFormed(base, b)
  {
    assert forall i :: 0 <= i < |a| ==> (a + b)[i] == a[i];
    assert forall i :: 0 <= i < |b| ==> (a + b)[|a| + i] == b[i];
  }

  /** So is joining the queue of the bucket that has the same key. */
  lemma SameBucketRefines(base: u64, a: seq<Bucket>, n: Bucket, b: seq<Bucket>, r: RequestNode)
    requires WellFormed(base, a + [n] + b) && n.uniqueId == r.absDeadline
    ensures WellFormed(base, a + [Bucket(n.uniqueId, n.queue + [r])] + b)
    ensures Flatten(a + [Bucket(n.uniqueId, n.queue + [r])] + b) == StableInsert(base, Flatten(a + [n] + b), r)
  {
    var m := Bucket(n.uniqueId, n.queue + [r]);
    BucketAround(base, a, n, b);
    BucketReplaced(base, a, n, b, m);
    WellFormedParts(base, a + [n], b);
    WellFormedParts(base, a, [n]);
    BelowFlattens(base, a, r.absDeadline, r);
    BelowFlattens(base, b, r.absDeadline, r);
    FlattenThree(a, n, b);
    FlattenThree(a, m, b);
    assert forall i :: 0 <= i < |n.queue| ==> n.queue[i] in n.queue;
    BehindEquals(base, Flatten(a), n.queue, Flatten(b), r);
  }

  lemma BehindEquals(base: u64, x: seq<RequestNode>, q: seq<RequestNode>, y: seq<RequestNode>, r: RequestNode)
    requires NotLater(ByDeadline(base), x, r) && Later(ByDeadline(base), y, r)
    requires forall i :: 0 <= i < |q| ==> q[i].absDeadline == r.absDeadline
    ensures StableInsert(base, x + q + y, r) == x + (q + [r]) + y
  {
    InsertSplit(ByDeadline(base), x + q, y, r);
    assert x + (q + [r]) + y == (x + q) + [r] + y;
  }

  lemma BucketInhabited(base: u64, a: seq<Bucket>, n: Bucket, b: seq<Bucket>)
    requires BucketOk(base, n)
    ensures exists r :: r in Flatten(a + [n] + b) && r.absDeadline == n.uniqueId
  {
    FlattenThree(a, n, b);
    assert n.queue[0] in n.queue;
    assert n.queue[0] in Flatten(a + [n] + b);
  }

  lemma BucketAround(base: u64, a: seq<Bucket>, n: Bucket, b: seq<Bucket>)
    requires WellFormed(base, a + [n] + b)
    ensures BucketOk(base, n)
    ensures BucketsBelow(base, a, n.uniqueId) && BucketsAbove(base, b, n.uniqueId)
  {
    var all := a + [n] + b;
    assert all[|a|] == n;
    assert forall i :: 0 <= i < |a| ==> a[i] == all[i];
    assert forall i :: 0 <= i < |b| ==> b[i] == all[|a| + 1 + i];
  }

  lemma BucketReplaced(base: u64, a: seq<Bucket>, n: Bucket, b: seq<Bucket>, m: Bucket)
    requires WellFormed(base, a + [n] + b) && m.uniqueId == n.uniqueId && BucketOk(base, m)
    ensures WellFormed(base, a + [m] + b)
  {
    var was, now := a + [n] + b, a + [m] + b;
    assert forall i :: 0 <= i < |now| ==> now[i] == if i == |a| then m else was[i];
    assert was[|a|] == n;
  }

  lemma FlattenThree(a: seq<Bucket>, n: Bucket, b: seq<Bucket>)
    ensures Flatten(a + [n] + b) == Flatten(a) + n.queue + Flatten(b)
  {
    FlattenConcat(a + [n], b);
    FlattenConcat(a, [n]);
    assert Flatten([n]) == n.queue;
  }

  /** Taking the head of the first queue, and its bucket when that was the last request. */
  lemma FirstTaken(base: u64, n: Bucket, b: seq<Bucket>)
    requires WellFormed(base, [n] + b) && n.queue != []
    ensures var rest := if |n.queue| == 1 then b else [Bucket(n.uniqueId, n.queue[1..])] + b;
      WellFormed(base, rest) && Flatten([n] + b) == [n.queue[0]] + Flatten(rest)
  {
    assert ([n] + b)[0] == n && ([n] + b)[1..] == b;
    WellFormedParts(base, [n], b);
    if |n.queue| > 1 {
      QueueShortened(base, n, b);
    }
  }

  lemma QueueShortened(base: u64, n: Bucket, b: seq<Bucket>)
    requires WellFormed(base, [n] + b) && |n.queue| > 1
    ensures var m := Bucket(n.uniqueId, n.queue[1..]);
      WellFormed(base, [m] + b) && Flatten([n] + b) == [n.queue[0]] + Flatten([m] + b)
  {
    var m := Bucket(n.uniqueId, n.queue[1..]);
    assert ([n] + b)[0] == n;
    assert BucketOk(base, m);
    assert forall i :: 1 <= i < |[m] + b| ==> ([m] + b)[i] == ([n] + b)[i];
    FlattenConcat([n], b);
    FlattenConcat([m], b);
    assert Flatten([n]) == n.queue && Flatten([m]) == m.queue;
    assert n.queue == [n.queue[0]] + m.queue;
  }
}
