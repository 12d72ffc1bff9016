/** The request tree: pointer descent by the wrapped 64-bit comparison, insertion, removal of
    the first request, and the search by deadline and token, which compares differently. */
module RequestTree {
  import opened MachineInt
  import opened LinberTypes
  import opened KeyOrder
  import opened RbTree
  import opened DeadlineQueue
  import opened RequestLookup

  class RequestTree {
    const root: RbRoot<Bucket>
    /** Start of the half circle that holds all deadlines in use. */
    ghost const base: u64

    ghost predicate Valid()
      reads this, root, Nodes(root.shape)
    {
      root.Valid() && WellFormed(base, root.Contents())
    }

    ghost function Footprint(): set<object>
      reads this, root
    {
      root.Footprint()
    }

    ghost function Contents(): seq<RequestNode>
      reads this, root, Nodes(root.shape)
    {
      Flatten(root.Contents())
    }

    ghost function Buckets(): Tree<Bucket>
      reads this, root, Nodes(root.shape)
    {
      Value(root.shape)
    }

    constructor (ghost base: u64)
      ensures Valid() && Contents() == [] && this.base == base && fresh(Footprint())
    {
      this.base := base;
      root := new RbRoot();
      new;
      assert root.Order() == [];
    }

    /** In a search tree the keys left of a node are smaller, those right of it larger. */
    lemma NodesAround(c: Context<Bucket>, cur: RbNode<Bucket>, sub: Shape<Bucket>)
      requires Valid() && root.Focused(c, cur, sub) && sub.Fork?
      ensures BucketsBelow(base, Containers(Refs(sub.left)), cur.container.uniqueId)
      ensures BucketsAbove(base, Containers(Refs(sub.right)), cur.container.uniqueId)
      ensures InWindow(base, cur.container.uniqueId)
    {
      var a, b := root.Surroundings(c, cur, sub);
      BucketAround(base, a, cur.container, b);
      var l, r := Containers(Refs(sub.left)), Containers(Refs(sub.right));
      assert forall i :: 0 <= i < |l| ==> l[i] == a[|RefsBefore(c)| + i];
      assert forall i :: 0 <= i < |r| ==> r[i] == b[i];
    }

    /** A node stands in one place of the order. */
    lemma PositionOf(c: Context<Bucket>, cur: RbNode<Bucket>, sub: Shape<Bucket>)
      requires root.Valid() && root.Focused(c, cur, sub) && sub.Fork?
      ensures forall i :: 0 <= i < |root.Order()| ==>
        (root.Order()[i] == cur <==> i == |RefsBefore(c)| + |Refs(sub.left)|)
    {
      PlugRefs(c, sub);
      RefsAreNodes(sub.left);
      RefsAreNodes(sub.right);
      ContextRefsAreNodes(c);
      var x, l, r, y := RefsBefore(c), Refs(sub.left), Refs(sub.right), RefsAfter(c);
      assert cur !in x && cur !in l && cur !in r && cur !in y;
      OnlyOnce(x, l, cur, r, y);
    }

    lemma OnlyOnce(x: seq<RbNode<Bucket>>, l: seq<RbNode<Bucket>>, n: RbNode<Bucket>, r: seq<RbNode<Bucket>>, y: seq<RbNode<Bucket>>)
      requires n !in x && n !in l && n !in r && n !in y
      ensures var all := x + (l + [n] + r) + y;
        forall i :: 0 <= i < |all| ==> (all[i] == n <==> i == |x| + |l|)
    {
      assert x + (l + [n] + r) + y == (x + l) + [n] + (r + y);
    }

    /** At an empty place no waiting request has the deadline that led there. */
    lemma NoSuchDeadline(a: seq<Bucket>, b: seq<Bucket>, d: u64)
      requires WellFormed(base, a + b) && InWindow(base, d) && BucketsBelow(base, a, d) && BucketsAbove(base, b, d)
      ensures forall r :: r in Flatten(a + b) ==> r.absDeadline != d
    {
      FlattenSorted(base, a + b);
    }

    /** list_add_tail on the queue of a node that has the request's deadline. */
    method JoinQueue(req: RequestNode, cur: RbNode<Bucket>, ghost c: Context<Bucket>, ghost sub: Shape<Bucket>)
      requires Valid() && root.Focused(c, cur, sub) && cur.container.uniqueId == req.absDeadline
      modifies cur`container
      ensures Valid()
      ensures Contents() == StableInsert(base, old(Contents()), req)
      ensures exists r :: r in old(Contents()) && r.absDeadline == req.absDeadline
    {
      hide Wired, Spine, Containers, Refs, RefsBefore, RefsAfter, Flatten, StableInsert, Nodes, ContextNodes;
      var n, m := cur.container, Bucket(cur.container.uniqueId, cur.container.queue + [req]);
      root.StepDown(c, cur, sub);
      ghost var a, b := root.Surroundings(c, cur, sub);
      PositionOf(c, cur, sub);
      BucketAround(base, a, n, b);
      BucketInhabited(base, a, n, b);
      SameBucketRefines(base, a, n, b, req);
      assert (a + [n] + b)[|a| := m] == a + [m] + b;
      assert allocated(Nodes(root.shape));
      root.Store(cur, m, |a|);
    }

    /** The insertion's loop: down to the node of this deadline or to the empty place for it. */
    method Descend(deadline: u64)
      returns (cur: RbNode?<Bucket>, parent: RbNode?<Bucket>, onLeft: bool, ghost c: Context<Bucket>, ghost sub: Shape<Bucket>)
      requires Valid() && InWindow(base, deadline)
      ensures Valid() && Contents() == old(Contents()) && Footprint() == old(Footprint())
      ensures root.Focused(c, cur, sub) && (cur != null ==> cur.container.uniqueId == deadline && cur in Nodes(root.shape))
      ensures parent == HoleParent(c) || cur != null
      ensures parent != null && cur == null ==> onLeft == c.InLeft?
      ensures BucketsBelow(base, Containers(RefsBefore(c)), deadline)
      ensures BucketsAbove(base, Containers(RefsAfter(c)), deadline)
    {
      hide Wired, Spine, Containers, Refs, Flatten, StableInsert, Nodes, ContextNodes;
      root.FromTheTop();
      cur, parent, onLeft, c, sub := root.rbNode, null, false, Top, root.shape;
      while cur != null
        invariant Valid() && root.Focused(c, cur, sub)
        invariant Contents() == old(Contents()) && Footprint() == old(Footprint())
        invariant parent == HoleParent(c) && (parent != null ==> onLeft == c.InLeft?)
        invariant BucketsBelow(base, Containers(RefsBefore(c)), deadline)
        invariant BucketsAbove(base, Containers(RefsAfter(c)), deadline)
        modifies {}
        decreases sub
      {
        root.StepDown(c, cur, sub);
        NodesAround(c, cur, sub);
        root.SidesGrow(c, cur, sub);
        var key := cur.container.uniqueId;
        var result := Compare(deadline, key);
        CompareIsRankOrder(base, deadline, key);
        parent := cur;
        if result < 0 {
          c, sub, cur, onLeft := InLeft(c, cur, sub.right), sub.left, cur.rbLeft, true;
        } else if result > 0 {
          c, sub, cur, onLeft := InRight(c, sub.left, cur), sub.right, cur.rbRight, false;
        } else {
          return;
        }
      }
    }

    /** Insert_ReqNode_Sorted_by_Deadline; `memory` tells whether an allocation succeeds. */
    method Insert(req: RequestNode, memory: bool) returns (ok: bool)
      requires Valid() && InWindow(base, req.absDeadline)
      modifies Footprint()
      ensures Valid() && fresh(Footprint() - old(Footprint()))
      ensures ok <==> memory || exists r :: r in old(Contents()) && r.absDeadline == req.absDeadline
      ensures Contents() == if ok then StableInsert(base, old(Contents()), req) else old(Contents())
    {
      hide Wired, Spine, Containers, Refs, Flatten, StableInsert, Nodes, ContextNodes;
      var cur, parent, onLeft, c, sub := Descend(req.absDeadline);
      if cur != null {
        // not unique
        JoinQueue(req, cur, c, sub);
        return true;
      }
      assert sub == Leaf by {
        root.EmptyHere(c, sub);
      }
      assert forall r :: r in Contents() ==> r.absDeadline != req.absDeadline by {
        var a, b := root.EmptyPlace(c, Leaf);
        NoSuchDeadline(a, b, req.absDeadline);
      }
      if !memory {
        return false;
      }
      var node := AddBucket(req, parent, onLeft, c);
      assert fresh(node);
      return true;
    }

    /** A new node, with a queue of one, at the empty place the descent reached. */
    method AddBucket(req: RequestNode, parent: RbNode?<Bucket>, onLeft: bool, ghost c: Context<Bucket>)
      returns (node: RbNode<Bucket>)
      requires Valid() && InWindow(base, req.absDeadline) && root.Focused(c, null, Leaf)
      requires parent == HoleParent(c) && (parent != null ==> onLeft == c.InLeft?)
      requires BucketsBelow(base, Containers(RefsBefore(c)), req.absDeadline)
      requires BucketsAbove(base, Containers(RefsAfter(c)), req.absDeadline)
      modifies Footprint()
      ensures Valid() && fresh(node) && Nodes(root.shape) == old(Nodes(root.shape)) + {node}
      ensures Contents() == StableInsert(base, old(Contents()), req)
    {
      hide Wired, Spine, Containers, Flatten, Refs, StableInsert, RefsBefore, RefsAfter, Nodes, ContextNodes, WellFormed,
        BucketsBelow, BucketsAbove, Rank, Wrap64, InWindow, HoleParent, Plug, Value, InOrder, BucketOk;
      ghost var a, b := root.EmptyPlace(c, Leaf);
      NewBucketRefines(base, a, b, req);
      assert allocated(Nodes(root.shape)) && allocated(ContextNodes(c));
      ghost var before, after := RefsBefore(c), RefsAfter(c);
      assert allocated(before) && allocated(after);
      node := new RbNode(Bucket(req.absDeadline, [req]));
      assert Containers(before) == a && Containers(after) == b;
      root.Attach(node, parent, onLeft, c);
      assert root.Contents() == a + [Bucket(req.absDeadline, [req])] + b;
    }

    lemma NoBuckets()
      requires root.Valid() && root.Order() == []
      ensures Contents() == []
    {
      assert root.Contents() == [];
    }

    lemma FirstBucket(c: Context<Bucket>, node: RbNode<Bucket>, sub: Shape<Bucket>) returns (b: seq<Bucket>)
      requires Valid() && root.Focused(c, node, sub) && sub.Fork? && sub.left == Leaf && RefsBefore(c) == []
      ensures b == Containers(Refs(sub.right)) + Containers(RefsAfter(c))
      ensures root.Contents() == [node.container] + b
      ensures Refs(sub.left) == RefsBefore(c) == [] && root.Order() != []
      ensures node.container.queue != []
    {
      var a;
      a, b := root.Surroundings(c, node, sub);
      assert a == [];
      PositionOf(c, node, sub);
      assert [] + [node.container] + b == [node.container] + b;
      assert BucketOk(base, root.Contents()[0]);
    }

    method EraseFirst(node: RbNode<Bucket>, ghost c: Context<Bucket>, ghost sub: Shape<Bucket>, ghost b: seq<Bucket>)
      requires root.Valid() && root.Focused(c, node, sub) && sub.Fork? && Refs(sub.left) == RefsBefore(c) == []
      requires b == Containers(Refs(sub.right)) + Containers(RefsAfter(c))
      modifies root, Nodes(root.shape)
      ensures root.Valid() && root.Contents() == b && Nodes(root.shape) <= old(Nodes(root.shape))
    {
      hide *;
      ghost var x, y := Containers(Refs(sub.right)), Containers(RefsAfter(c));
      root.Remove(node, c, sub);
      assert [] + ([] + x) + y == b;
    }

    /** Dequeue_Request on a queue that keeps further requests. */
    method Dequeue(node: RbNode<Bucket>, ghost c: Context<Bucket>, ghost sub: Shape<Bucket>, ghost b: seq<Bucket>)
      returns (req: RequestNode)
      requires root.Valid() && root.Focused(c, node, sub) && sub.Fork? && Refs(sub.left) == RefsBefore(c) == []
      requires root.Contents() == [node.container] + b && |node.container.queue| > 1
      modifies node`container
      ensures root.Valid() && req == old(node.container.queue[0])
      ensures root.Contents() == [Bucket(old(node.container.uniqueId), old(node.container.queue[1..]))] + b
    {
      hide Wired, Spine, Containers, Refs, Flatten, Nodes, ContextNodes, BucketOk, RefsBefore, RefsAfter, WellFormed,
        BucketsBelow, BucketsAbove, Rank, Wrap64, InWindow, HoleParent, Plug, Value, InOrder;
      PositionOf(c, node, sub);
      var n := node.container;
      var m := Bucket(n.uniqueId, n.queue[1..]);
      req := n.queue[0];
      assert ([n] + b)[0 := m] == [m] + b;
      assert |root.Order()| == |root.Contents()|;
      root.Store(node, m, 0);
    }

    /** Remove_first_request: the head of the queue of the smallest deadline. */
    method RemoveFirst() returns (req: RequestNode?)
      requires Valid()
      modifies Footprint()
      ensures Valid() && Nodes(root.shape) <= old(Nodes(root.shape))
      ensures req == null <==> old(Contents()) == []
      ensures req == null ==> Contents() == []
      ensures req != null ==> old(Contents()) == [req] + Contents()
    {
      hide Wired, Spine, Containers, Refs, Flatten, Nodes, ContextNodes, BucketOk, RefsBefore, RefsAfter, WellFormed,
        BucketsBelow, BucketsAbove, Rank, Wrap64, InWindow, HoleParent, Plug, Value, InOrder;
      var node, c, sub := root.First();
      if node == null {
        NoBuckets();
        return null;
      }
      root.StepDown(c, node, sub);
      ghost var b := FirstBucket(c, node, sub);
      var n := node.container;
      FirstTaken(base, n, b);
      if |n.queue| == 1 {
        req := n.queue[0];
        EraseFirst(node, c, sub, b);
      } else {
        req := Dequeue(node, c, sub, b);
      }
    }

    /** The search looks at the same buckets the insertion keeps in order. */
    lemma BucketsInOrder()
      requires Valid()
      ensures WellFormed(base, InOrder(Buckets())) && Flatten(InOrder(Buckets())) == Contents()
    {
      hide WellFormed, Flatten, Wired;
      ContainersInOrder(root.shape);
    }

    /** RBtree_get_request. A turn of the source's loop that leaves the node as it was is
        repeated for ever; this method stops there and says so. */
    method GetRequest(deadline: u64, token: u64) returns (found: Search)
      requires Valid()
      ensures Valid() && Contents() == old(Contents()) && Buckets() == old(Buckets())
      ensures found == Lookup(Buckets(), deadline, token)
    {
      var node := root.rbNode;
      ghost var par: RbNode?<Bucket>, sub := null, root.shape;
      while node != null
        invariant Wired(par, node, sub)
        invariant Nodes(sub) <= Nodes(root.shape)
        invariant Lookup(Value(sub), deadline, token) == Lookup(Buckets(), deadline, token)
        modifies {}
        decreases sub
      {
        var container := node.container;
        var result := CompareTruncated(deadline, container.uniqueId);
        if result < 0 {
          par, node, sub := node, node.rbLeft, sub.left;
        } else if result > 0 {
          par, node, sub := node, node.rbRight, sub.right;
        } else {
          for i := 0 to |container.queue|
            invariant WithToken(container.queue[i..], token) == WithToken(container.queue, token)
            modifies {}
          {
            if container.queue[i].token == token {
              return Found(container.queue[i]);
            }
          }
          return Spins;
        }
      }
      return Missing;
    }
  }
}
