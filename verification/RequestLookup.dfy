/** The search for a waiting request by deadline and token. It walks the tree the insertion
    built, but compares with the difference truncated to `int`, and it does not move on from
    a node whose truncated difference is zero. */
module RequestLookup {
  import opened MachineInt
  import opened LinberTypes
  import opened KeyOrder
  import opened RbTree
  import opened DeadlineQueue

  /** `int result = a - b` on two unsigned longs. */
  function CompareTruncated(a: u64, b: u64): int { AsInt(Wrap64(a - b)) }

  /** It is the difference up to a multiple of 2^32, in the range of an int. */
  lemma TruncatedExactly(a: u64, b: u64)
    ensures -2_147_483_648 <= CompareTruncated(a, b) < 2_147_483_648
    ensures (CompareTruncated(a, b) - (a - b)) % 4_294_967_296 == 0
    ensures CompareTruncated(a, b) == 0 <==> (a - b) % 4_294_967_296 == 0
    ensures CompareTruncated(a, b) < 0 <==> (a - b) % 4_294_967_296 >= 2_147_483_648
  {
    var d := a - b;
    var q := d / TWO_64;
    assert Wrap64(d) == d + (-q * TWO_32) * TWO_32;
    Wrap32Shift(d, -q * TWO_32);
    ConversionsExactly(Wrap64(d));
    var p := d / TWO_32;
    assert Wrap32(d) - d == (-p) * TWO_32;
    assert Wrap32(d) - TWO_32 - d == (-p - 1) * TWO_32;
  }

  /** What the search comes to: a request, nothing, or turning on one node for ever. */
  datatype Search = Found(req: RequestNode) | Missing | Spins

  function WithToken(queue: seq<RequestNode>, token: u64): Search {
    if queue == [] then Spins
    else if queue[0].token == token then Found(queue[0])
    else WithToken(queue[1..], token)
  }

  function Lookup(t: Tree<Bucket>, deadline: u64, token: u64): Search {
    match t
    case Empty => Missing
    case Node(l, b, r) =>
      var result := CompareTruncated(deadline, b.uniqueId);
      if result < 0 then Lookup(l, deadline, token)
      else if result > 0 then Lookup(r, deadline, token)
      else WithToken(b.queue, token)
  }

  /** The loop of the source, one turn at a time. */
  datatype LoopState = Looking(node: Tree<Bucket>) | Returned(req: Option<RequestNode>)

  function Turn(s: LoopState, deadline: u64, token: u64): LoopState {
    match s
    case Returned(_) => s
    case Looking(Empty) => Returned(None)
    case Looking(Node(l, b, r)) =>
      var result := CompareTruncated(deadline, b.uniqueId);
      if result < 0 then Looking(l)
      else if result > 0 then Looking(r)
      else match WithToken(b.queue, token)
        case Found(q) => Returned(Some(q))
        case _ => s
  }

  function Turns(s: LoopState, deadline: u64, token: u64, n: nat): LoopState
    decreases n
  {
    if n == 0 then s else Turns(Turn(s, deadline, token), deadline, token, n - 1)
  }

  function Height(t: Tree<Bucket>): nat {
    match t
    case Empty => 0
    case Node(l, _, r) => 1 + if Height(l) >= Height(r) then Height(l) else Height(r)
  }

  lemma {:induction false} FixedPoint(s: LoopState, deadline: u64, token: u64, n: nat)
    requires Turn(s, deadline, token) == s
    ensures Turns(s, deadline, token, n) == s
  {
    if n > 0 {
      FixedPoint(s, deadline, token, n - 1);
    }
  }

  /** The loop returns what Lookup says, within one turn more than the tree is high, except
      that it never returns where Lookup says it spins. */
  lemma {:induction false} LoopComesTo(t: Tree<Bucket>, deadline: u64, token: u64, n: nat)
    ensures var end := Turns(Looking(t), deadline, token, n);
      match Lookup(t, deadline, token)
      case Found(q) => if n > Height(t) then end == Returned(Some(q)) else end == Returned(Some(q)) || end.Looking?
      case Missing => if n > Height(t) then end == Returned(None) else end == Returned(None) || end.Looking?
      case Spins => end.Looking?
    decreases n
  {
    if n > 0 {
      var s := Turn(Looking(t), deadline, token);
      match t
      case Empty => FixedPoint(s, deadline, token, n - 1);
      case Node(l, b, r) =>
        if s == Looking(l) && CompareTruncated(deadline, b.uniqueId) < 0 {
          LoopComesTo(l, deadline, token, n - 1);
        } else if s == Looking(r) && CompareTruncated(deadline, b.uniqueId) > 0 {
          LoopComesTo(r, deadline, token, n - 1);
        } else {
          assert WithToken(b.queue, token) != Missing by { NeverMissing(b.queue, token); }
          FixedPoint(s, deadline, token, n - 1);
        }
    }
  }

  /** The nodes the search comes by, up to one whose truncated difference is zero. */
  function Met(t: Tree<Bucket>, deadline: u64): seq<Bucket> {
    match t
    case Empty => []
    case Node(l, b, r) =>
      var result := CompareTruncated(deadline, b.uniqueId);
      if result < 0 then [b] + Met(l, deadline)
      else if result > 0 then [b] + Met(r, deadline)
      else [b]
  }

  /** The search looks into the queue of this node and goes no further. */
  predicate StopsAt(b: Bucket, deadline: u64) { CompareTruncated(deadline, b.uniqueId) == 0 }

  ghost predicate HasToken(queue: seq<RequestNode>, token: u64) {
    exists i :: 0 <= i < |queue| && queue[i].token == token
  }

  /** The outcome of the search from the nodes it comes by, for every tree. */
  lemma {:induction false} LookupExactly(t: Tree<Bucket>, deadline: u64, token: u64)
    ensures var met, found := Met(t, deadline), Lookup(t, deadline, token);
      && (found == Missing <==> forall b :: b in met ==> !StopsAt(b, deadline))
      && (found == Spins <==> exists b :: b in met && StopsAt(b, deadline) && !HasToken(b.queue, token))
      && (found.Found? <==> exists b :: b in met && StopsAt(b, deadline) && HasToken(b.queue, token))
      && (found.Found? ==> found.req.token == token && exists b :: b in met && StopsAt(b, deadline) && found.req in b.queue)
  {
    match t
    case Empty =>
    case Node(l, b, r) =>
      assert b in Met(t, deadline);
      NeverMissing(b.queue, token);
      LookupExactly(l, deadline, token);
      LookupExactly(r, deadline, token);
  }

  /** The descent in numbers: it stops at a key exactly when 2^32 divides its distance, and
      goes left exactly when that distance leaves 2^31 or more. */
  lemma DescentExactly(l: Tree<Bucket>, b: Bucket, r: Tree<Bucket>, deadline: u64, token: u64)
    ensures var t, low := Node(l, b, r), (deadline - b.uniqueId) % 4_294_967_296;
      && (StopsAt(b, deadline) <==> low == 0)
      && Met(t, deadline) == [b] + (if low == 0 then [] else if low >= 2_147_483_648 then Met(l, deadline) else Met(r, deadline))
      && (low >= 2_147_483_648 ==> Lookup(t, deadline, token) == Lookup(l, deadline, token))
      && (0 < low < 2_147_483_648 ==> Lookup(t, deadline, token) == Lookup(r, deadline, token))
      && (low == 0 && HasToken(b.queue, token) ==>
            Lookup(t, deadline, token).Found? && Lookup(t, deadline, token).req in b.queue && Lookup(t, deadline, token).req.token == token)
      && (low == 0 && !HasToken(b.queue, token) ==> Lookup(t, deadline, token) == Spins)
  {
    TruncatedExactly(deadline, b.uniqueId);
    NeverMissing(b.queue, token);
  }

  lemma {:induction false} OneStop(t: Tree<Bucket>, deadline: u64)
    ensures forall a, b :: a in Met(t, deadline) && b in Met(t, deadline) && StopsAt(a, deadline) && StopsAt(b, deadline) ==> a == b
  {
    match t
    case Empty =>
    case Node(l, b, r) =>
      OneStop(l, deadline);
      OneStop(r, deadline);
  }

  lemma {:induction false} MetInTree(t: Tree<Bucket>, deadline: u64)
    ensures forall b :: b in Met(t, deadline) ==> b in InOrder(t)
  {
    match t
    case Empty =>
    case Node(l, b, r) =>
      MetInTree(l, deadline);
      MetInTree(r, deadline);
  }

  /** Termination of the source's loop, exactly: the node the descent stops at, if any, must
      have the token in its queue. */
  lemma LoopTerminatesExactly(t: Tree<Bucket>, deadline: u64, token: u64)
    ensures (exists n: nat :: Turns(Looking(t), deadline, token, n).Returned?)
       <==> forall b :: b in Met(t, deadline) && StopsAt(b, deadline) ==> HasToken(b.queue, token)
  {
    LookupExactly(t, deadline, token);
    LoopComesTo(t, deadline, token, Height(t) + 1);
    forall n: nat ensures Lookup(t, deadline, token).Spins? ==> !Turns(Looking(t), deadline, token, n).Returned? {
      LoopComesTo(t, deadline, token, n);
    }
  }

  lemma {:induction false} NeverMissing(queue: seq<RequestNode>, token: u64)
    ensures WithToken(queue, token) != Missing
    ensures WithToken(queue, token).Found? <==> HasToken(queue, token)
    ensures WithToken(queue, token).Found? ==>
      WithToken(queue, token).req in queue && WithToken(queue, token).req.token == token
  {
    if queue != [] {
      NeverMissing(queue[1..], token);
      if i :| 1 <= i < |queue| && queue[i].token == token {
        assert queue[1..][i - 1].token == token;
      }
    }
  }

  /** On the way the insertion takes to this deadline, truncation changes no comparison. */
  predicate TruncationHarmless(t: Tree<Bucket>, deadline: u64) {
    match t
    case Empty => true
    case Node(l, b, r) =>
      var result := Compare(deadline, b.uniqueId);
      && Sign(CompareTruncated(deadline, b.uniqueId)) == Sign(result)
      && (if result < 0 then TruncationHarmless(l, deadline)
          else if result > 0 then TruncationHarmless(r, deadline)
          else true)
  }

  ghost predicate Holds(q: seq<RequestNode>, deadline: u64, token: u64) {
    exists i :: 0 <= i < |q| && q[i].absDeadline == deadline && q[i].token == token
  }

  lemma HoldsConcat(x: seq<RequestNode>, y: seq<RequestNode>, deadline: u64, token: u64)
    ensures Holds(x + y, deadline, token) <==> Holds(x, deadline, token) || Holds(y, deadline, token)
  {
    if i :| 0 <= i < |x| && x[i].absDeadline == deadline && x[i].token == token {
      assert (x + y)[i] == x[i];
    }
    if i :| 0 <= i < |y| && y[i].absDeadline == deadline && y[i].token == token {
      assert (x + y)[|x| + i] == y[i];
    }
  }

  ghost predicate IsWaiting(t: Tree<Bucket>, deadline: u64, token: u64) {
    Holds(Flatten(InOrder(t)), deadline, token)
  }

  ghost predicate Finds(t: Tree<Bucket>, deadline: u64, token: u64) {
    var s := Lookup(t, deadline, token);
    s.Found? && s.req.absDeadline == deadline
  }

  ghost predicate DeadlineInUse(t: Tree<Bucket>, deadline: u64) {
    HasKey(InOrder(t), deadline)
  }

  lemma WaitingSplits(l: Tree<Bucket>, b: Bucket, r: Tree<Bucket>, deadline: u64, token: u64)
    ensures IsWaiting(Node(l, b, r), deadline, token) <==>
      IsWaiting(l, deadline, token) || Holds(b.queue, deadline, token) || IsWaiting(r, deadline, token)
  {
    FlattenThree(InOrder(l), b, InOrder(r));
    HoldsConcat(Flatten(InOrder(l)) + b.queue, Flatten(InOrder(r)), deadline, token);
    HoldsConcat(Flatten(InOrder(l)), b.queue, deadline, token);
  }

  ghost predicate HasKey(buckets: seq<Bucket>, deadline: u64) {
    exists i :: 0 <= i < |buckets| && buckets[i].uniqueId == deadline
  }

  lemma HasKeyConcat(x: seq<Bucket>, y: seq<Bucket>, deadline: u64)
    ensures HasKey(x + y, deadline) <==> HasKey(x, deadline) || HasKey(y, deadline)
  {
    if i :| 0 <= i < |x| && x[i].uniqueId == deadline {
      assert (x + y)[i] == x[i];
    }
    if i :| 0 <= i < |y| && y[i].uniqueId == deadline {
      assert (x + y)[|x| + i] == y[i];
    }
  }

  lemma InUseSplits(l: Tree<Bucket>, b: Bucket, r: Tree<Bucket>, deadline: u64)
    ensures DeadlineInUse(Node(l, b, r), deadline) <==>
      DeadlineInUse(l, deadline) || b.uniqueId == deadline || DeadlineInUse(r, deadline)
  {
    HasKeyConcat(InOrder(l) + [b], InOrder(r), deadline);
    HasKeyConcat(InOrder(l), [b], deadline);
    assert HasKey([b], deadline) <==> b.uniqueId == deadline by {
      assert [b][0] == b;
    }
  }

  lemma WaitingInUse(base: u64, t: Tree<Bucket>, deadline: u64, token: u64)
    requires WellFormed(base, InOrder(t)) && IsWaiting(t, deadline, token)
    ensures DeadlineInUse(t, deadline)
  {
    FlattenSorted(base, InOrder(t));
    var all := Flatten(InOrder(t));
    var k :| 0 <= k < |all| && all[k].absDeadline == deadline && all[k].token == token;
    assert all[k] in all;
  }

  /** A deadline has a node exactly when some request with it waits. */
  lemma InUseExactly(base: u64, t: Tree<Bucket>, deadline: u64)
    requires WellFormed(base, InOrder(t))
    ensures DeadlineInUse(t, deadline) <==> exists r :: r in Flatten(InOrder(t)) && r.absDeadline == deadline
  {
    FlattenSorted(base, InOrder(t));
    if DeadlineInUse(t, deadline) {
      var i :| 0 <= i < |InOrder(t)| && InOrder(t)[i].uniqueId == deadline;
      var b := InOrder(t)[i];
      assert BucketOk(base, b) && b.queue[0] in b.queue;
      FlattenMembers(InOrder(t), b.queue[0]);
    }
  }

  /** What the order of a search tree says about one node. */
  lemma AtNode(base: u64, l: Tree<Bucket>, b: Bucket, r: Tree<Bucket>, deadline: u64)
    requires WellFormed(base, InOrder(Node(l, b, r))) && InWindow(base, deadline)
    ensures WellFormed(base, InOrder(l)) && BucketOk(base, b) && WellFormed(base, InOrder(r))
    ensures DeadlineInUse(l, deadline) ==> Compare(deadline, b.uniqueId) < 0
    ensures DeadlineInUse(r, deadline) ==> Compare(deadline, b.uniqueId) > 0
    ensures Compare(deadline, b.uniqueId) == 0 <==> deadline == b.uniqueId
  {
    BucketAround(base, InOrder(l), b, InOrder(r));
    WellFormedParts(base, InOrder(l) + [b], InOrder(r));
    WellFormedParts(base, InOrder(l), [b]);
    CompareIsRankOrder(base, deadline, b.uniqueId);
  }

  /** The search finds a waiting request exactly when truncation is harmless on its way. */
  lemma {:induction false} LookupFindsExactly(base: u64, t: Tree<Bucket>, deadline: u64, token: u64)
    requires WellFormed(base, InOrder(t)) && InWindow(base, deadline)
    ensures Finds(t, deadline, token) <==> TruncationHarmless(t, deadline) && IsWaiting(t, deadline, token)
    ensures Finds(t, deadline, token) ==>
      var req := Lookup(t, deadline, token).req; req.token == token && req in Flatten(InOrder(t))
  {
    match t
    case Empty =>
    case Node(l, b, r) =>
      AtNode(base, l, b, r, deadline);
      WaitingSplits(l, b, r, deadline, token);
      LookupFindsExactly(base, l, deadline, token);
      LookupFindsExactly(base, r, deadline, token);
      NeverMissing(b.queue, token);
      if IsWaiting(l, deadline, token) { WaitingInUse(base, l, deadline, token); }
      if IsWaiting(r, deadline, token) { WaitingInUse(base, r, deadline, token); }
      FlattenThree(InOrder(l), b, InOrder(r));
      assert forall i :: 0 <= i < |b.queue| ==> b.queue[i] in b.queue;
  }

  /** Where truncation is harmless, what the search does instead of finding. */
  lemma {:induction false} LookupOtherwise(base: u64, t: Tree<Bucket>, deadline: u64, token: u64)
    requires WellFormed(base, InOrder(t)) && InWindow(base, deadline) && TruncationHarmless(t, deadline)
    ensures Lookup(t, deadline, token) == Missing <==> !DeadlineInUse(t, deadline)
    ensures Lookup(t, deadline, token) == Spins <==> DeadlineInUse(t, deadline) && !IsWaiting(t, deadline, token)
  {
    match t
    case Empty =>
    case Node(l, b, r) =>
      AtNode(base, l, b, r, deadline);
      WaitingSplits(l, b, r, deadline, token);
      InUseSplits(l, b, r, deadline);
      NeverMissing(b.queue, token);
      if IsWaiting(l, deadline, token) { WaitingInUse(base, l, deadline, token); }
      if IsWaiting(r, deadline, token) { WaitingInUse(base, r, deadline, token); }
      assert forall i :: 0 <= i < |b.queue| ==> b.queue[i] in b.queue;
      if Compare(deadline, b.uniqueId) < 0 {
        LookupOtherwise(base, l, deadline, token);
      } else if Compare(deadline, b.uniqueId) > 0 {
        LookupOtherwise(base, r, deadline, token);
      }
  }

  /** All keys within an int of the deadline. */
  predicate Near(t: Tree<Bucket>, deadline: u64) {
    match t
    case Empty => true
    case Node(l, b, r) => -TWO_31 <= deadline - b.uniqueId < TWO_31 && Near(l, deadline) && Near(r, deadline)
  }

  lemma {:induction false} NearIsHarmless(t: Tree<Bucket>, deadline: u64)
    requires Near(t, deadline)
    ensures TruncationHarmless(t, deadline)
  {
    match t
    case Empty =>
    case Node(l, b, r) =>
      NearIsHarmless(l, deadline);
      NearIsHarmless(r, deadline);
      var d := deadline - b.uniqueId;
      assert Wrap64(d) == if d < 0 then d + TWO_64 else d;
      assert Wrap32(Wrap64(d)) == if d < 0 then d + TWO_32 else d;
  }

  lemma {:induction false} OneKeyIsNear(t: Tree<Bucket>, deadline: u64)
    requires forall b :: b in InOrder(t) ==> b.uniqueId == deadline
    ensures Near(t, deadline)
  {
    match t
    case Empty =>
    case Node(l, b, r) =>
      assert b in InOrder(t);
      OneKeyIsNear(l, deadline);
      OneKeyIsNear(r, deadline);
  }

  /** The tree after two insertions with different deadlines, into an empty one. */
  function AfterTwo(base: u64, first: RequestNode, second: RequestNode): Tree<Bucket> {
    var below := Node(Empty, Bucket(second.absDeadline, [second]), Empty);
    if Rank(base, second.absDeadline) < Rank(base, first.absDeadline)
    then Node(below, Bucket(first.absDeadline, [first]), Empty)
    else Node(Empty, Bucket(first.absDeadline, [first]), below)
  }

  /** Of two waiting requests with different deadlines, in the order of their insertion, when
      is the second found? Exactly when what 2^32 leaves of its distance from the first is
      less than 2^31 for a later deadline and more for an earlier one. At a multiple of 2^32
      the search never returns, and else it returns nothing. */
  lemma SecondOfTwo(base: u64, first: RequestNode, second: RequestNode)
    requires InWindow(base, first.absDeadline) && InWindow(base, second.absDeadline)
    requires first.absDeadline != second.absDeadline && first.token != second.token
    ensures var t := AfterTwo(base, first, second);
      var low := (second.absDeadline - first.absDeadline) % 4_294_967_296;
      var later := Rank(base, second.absDeadline) > Rank(base, first.absDeadline);
      && WellFormed(base, InOrder(t)) && IsWaiting(t, second.absDeadline, second.token)
      && Lookup(t, second.absDeadline, second.token) ==
           if low == 0 then Spins else if later == (low < 2_147_483_648) then Found(second) else Missing
  {
    TwoInOrder(base, first, second);
    SecondSought(base, first, second);
  }

  lemma TwoInOrder(base: u64, first: RequestNode, second: RequestNode)
    requires InWindow(base, first.absDeadline) && InWindow(base, second.absDeadline)
    requires first.absDeadline != second.absDeadline
    ensures var t := AfterTwo(base, first, second);
      WellFormed(base, InOrder(t)) && IsWaiting(t, second.absDeadline, second.token)
    ensures Rank(base, first.absDeadline) != Rank(base, second.absDeadline)
  {
    var b, d := Bucket(first.absDeadline, [first]), Bucket(second.absDeadline, [second]);
    var below := Node(Empty, d, Empty);
    CompareIsRankOrder(base, first.absDeadline, second.absDeadline);
    WaitingBelow(b, below, second);
    hide IsWaiting, Rank, InWindow;
    assert InOrder(below) == [d];
    assert InOrder(AfterTwo(base, first, second)) == if Rank(base, d.uniqueId) < Rank(base, b.uniqueId) then [d, b] else [b, d];
  }

  lemma SecondSought(base: u64, first: RequestNode, second: RequestNode)
    requires Rank(base, first.absDeadline) != Rank(base, second.absDeadline) && first.token != second.token
    ensures var low := (second.absDeadline - first.absDeadline) % 4_294_967_296;
      var later := Rank(base, second.absDeadline) > Rank(base, first.absDeadline);
      Lookup(AfterTwo(base, first, second), second.absDeadline, second.token) ==
        if low == 0 then Spins else if later == (low < 2_147_483_648) then Found(second) else Missing
  {
    hide Rank, CompareTruncated;
    var b, d := Bucket(first.absDeadline, [first]), Bucket(second.absDeadline, [second]);
    var t := AfterTwo(base, first, second);
    DescentExactly(t.left, b, t.right, second.absDeadline, second.token);
    DescentExactly(Empty, d, Empty, second.absDeadline, second.token);
    assert d.queue[0].token == second.token;
    assert !HasToken(b.queue, second.token);
  }

  lemma WaitingBelow(b: Bucket, below: Tree<Bucket>, r: RequestNode)
    requires below == Node(Empty, Bucket(r.absDeadline, [r]), Empty)
    ensures IsWaiting(Node(below, b, Empty), r.absDeadline, r.token) && IsWaiting(Node(Empty, b, below), r.absDeadline, r.token)
  {
    WaitingSplits(Empty, below.item, Empty, r.absDeadline, r.token);
    WaitingSplits(below, b, Empty, r.absDeadline, r.token);
    WaitingSplits(Empty, b, below, r.absDeadline, r.token);
    assert below.item.queue[0] == r;
  }

  /** Three seconds are too far: of two waiting requests with deadlines 5 s and 8 s after
      boot, in the order of their insertion, the second is not found. */
  lemma ThreeSecondsTooFar(base: u64, first: RequestNode, second: RequestNode)
    requires first.absDeadline == 5_000_000_000 && second.absDeadline == 8_000_000_000 && base == BEST_EFFORT
    requires first.token != second.token
    ensures var t := Node(Empty, Bucket(first.absDeadline, [first]), Node(Empty, Bucket(second.absDeadline, [second]), Empty));
      && WellFormed(base, InOrder(t))
      && IsWaiting(t, second.absDeadline, second.token)
      && Lookup(t, second.absDeadline, second.token) == Missing
  {
    SecondOfTwo(base, first, second);
  }
}
