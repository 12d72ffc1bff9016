/** Intrusive binary tree in the style of the kernel's rbtree: nodes carry parent, left
    and right pointers, and the element they are embedded in (`container`).

    The heap structure is described by a ghost `Shape`; a place inside the tree is
    described by a zipper (`Context`) so that a pointer descent and a change at the place
    it reaches can be related to the in-order sequence of the whole tree.
    Colours and rotations are not represented: `InsertColor` and `Erase` promise what a
    caller may rely on, the in-order sequence, and nothing about the resulting shape. */
module RbTree {

  class RbNode<T> {
    var rbParent: RbNode?<T>
    var rbLeft: RbNode?<T>
    var rbRight: RbNode?<T>
    var container: T

    constructor (container: T)
      ensures rbParent == rbLeft == rbRight == null && this.container == container
    {
      rbParent, rbLeft, rbRight := null, null, null;
      this.container := container;
    }
  }

  /** The tree as a value. */
  datatype Tree<T> = Empty | Node(left: Tree<T>, item: T, right: Tree<T>)

  function InOrder<T>(t: Tree<T>): seq<T> {
    match t
    case Empty => []
    case Node(l, x, r) => InOrder(l) + [x] + InOrder(r)
  }

  /** Which heap node sits where. */
  datatype Shape<T> = Leaf | Fork(left: Shape<T>, node: RbNode<T>, right: Shape<T>)

  ghost function Nodes<T>(s: Shape<T>): set<RbNode<T>> {
    match s
    case Leaf => {}
    case Fork(l, n, r) => Nodes(l) + {n} + Nodes(r)
  }

  /** The heap below pointer p, whose parent is par, is laid out as s says. */
  ghost predicate Wired<T>(par: RbNode?<T>, p: RbNode?<T>, s: Shape<T>)
    reads Nodes(s)`rbParent, Nodes(s)`rbLeft, Nodes(s)`rbRight
  {
    match s
    case Leaf => p == null
    case Fork(l, n, r) =>
      && p == n && n.rbParent == par
      && n !in Nodes(l) && n !in Nodes(r) && Nodes(l) !! Nodes(r)
      && Wired(n, n.rbLeft, l) && Wired(n, n.rbRight, r)
  }

  ghost function Value<T>(s: Shape<T>): Tree<T>
    reads Nodes(s)`container
  {
    match s
    case Leaf => Empty
    case Fork(l, n, r) => Node(Value(l), n.container, Value(r))
  }

  /** The nodes from left to right. */
  ghost function Refs<T>(s: Shape<T>): seq<RbNode<T>> {
    match s
    case Leaf => []
    case Fork(l, n, r) => Refs(l) + [n] + Refs(r)
  }

  /** The elements a list of nodes is embedded in. */
  ghost function Containers<T>(refs: seq<RbNode<T>>): (items: seq<T>)
    reads (set n | n in refs)`container
    ensures |items| == |refs|
    ensures forall i :: 0 <= i < |refs| ==> items[i] == refs[i].container
  {
    if refs == [] then [] else [refs[0].container] + Containers(refs[1..])
  }

  lemma {:induction false} ContainersConcat<T>(a: seq<RbNode<T>>, b: seq<RbNode<T>>)
    ensures Containers(a + b) == Containers(a) + Containers(b)
  {
  }

  lemma ContainersThree<T>(a: seq<RbNode<T>>, n: RbNode<T>, b: seq<RbNode<T>>)
    ensures Containers(a + [n] + b) == Containers(a) + [n.container] + Containers(b)
  {
    ContainersConcat(a + [n], b);
    ContainersConcat(a, [n]);
  }

  lemma NothingBelow<T>()
    ensures Containers(Refs<T>(Leaf)) == []
  {
  }

  lemma {:induction false} RefsAreNodes<T>(s: Shape<T>)
    ensures (set n | n in Refs(s)) == Nodes(s)
  {
    match s
    case Leaf =>
    case Fork(l, n, r) =>
      RefsAreNodes(l);
      RefsAreNodes(r);
  }

  lemma {:induction false} ContainersInOrder<T>(s: Shape<T>)
    ensures Containers(Refs(s)) == InOrder(Value(s))
  {
    match s
    case Leaf =>
    case Fork(l, n, r) =>
      ContainersInOrder(l);
      ContainersInOrder(r);
  }

  /** A tree with one subtree taken out: the way down from the root to the hole. */
  datatype Context<T> =
    | Top
    | InLeft(up: Context<T>, node: RbNode<T>, right: Shape<T>)
    | InRight(up: Context<T>, left: Shape<T>, node: RbNode<T>)

  ghost function ContextNodes<T>(c: Context<T>): set<RbNode<T>> {
    match c
    case Top => {}
    case InLeft(up, n, r) => ContextNodes(up) + {n} + Nodes(r)
    case InRight(up, l, n) => ContextNodes(up) + {n} + Nodes(l)
  }

  ghost function HoleParent<T>(c: Context<T>): RbNode?<T> {
    match c
    case Top => null
    case InLeft(_, n, _) => n
    case InRight(_, _, n) => n
  }

  ghost function Plug<T>(c: Context<T>, s: Shape<T>): Shape<T> {
    match c
    case Top => s
    case InLeft(up, n, r) => Plug(up, Fork(s, n, r))
    case InRight(up, l, n) => Plug(up, Fork(l, n, s))
  }

  /** The heap around the hole is laid out as c says, and the pointer at the hole is hole. */
  ghost predicate Spine<T>(root: RbNode?<T>, c: Context<T>, hole: RbNode?<T>)
    reads ContextNodes(c)`rbParent, ContextNodes(c)`rbLeft, ContextNodes(c)`rbRight
  {
    match c
    case Top => root == hole
    case InLeft(up, n, r) =>
      && n !in ContextNodes(up) && n !in Nodes(r) && Nodes(r) !! ContextNodes(up)
      && n.rbParent == HoleParent(up) && n.rbLeft == hole
      && Wired(n, n.rbRight, r) && Spine(root, up, n)
    case InRight(up, l, n) =>
      && n !in ContextNodes(up) && n !in Nodes(l) && Nodes(l) !! ContextNodes(up)
      && n.rbParent == HoleParent(up) && n.rbRight == hole
      && Wired(n, n.rbLeft, l) && Spine(root, up, n)
  }

  ghost function RefsBefore<T>(c: Context<T>): seq<RbNode<T>> {
    match c
    case Top => []
    case InLeft(up, _, _) => RefsBefore(up)
    case InRight(up, l, n) => RefsBefore(up) + Refs(l) + [n]
  }

  ghost function RefsAfter<T>(c: Context<T>): seq<RbNode<T>> {
    match c
    case Top => []
    case InLeft(up, n, r) => [n] + Refs(r) + RefsAfter(up)
    case InRight(up, _, _) => RefsAfter(up)
  }

  lemma {:induction false} ContextRefsAreNodes<T>(c: Context<T>)
    ensures (set n | n in RefsBefore(c)) + (set n | n in RefsAfter(c)) == ContextNodes(c)
  {
    match c
    case Top =>
    case InLeft(up, n, r) =>
      ContextRefsAreNodes(up);
      RefsAreNodes(r);
    case InRight(up, l, n) =>
      ContextRefsAreNodes(up);
      RefsAreNodes(l);
  }

  lemma {:induction false} PlugNodes<T>(c: Context<T>, s: Shape<T>)
    ensures Nodes(Plug(c, s)) == ContextNodes(c) + Nodes(s)
    decreases c
  {
    match c
    case Top =>
    case InLeft(up, n, r) => PlugNodes(up, Fork(s, n, r));
    case InRight(up, l, n) => PlugNodes(up, Fork(l, n, s));
  }

  /** Filling the hole puts the subtree's nodes between those before and those after it. */
  lemma {:induction false} PlugRefs<T>(c: Context<T>, s: Shape<T>)
    ensures Refs(Plug(c, s)) == RefsBefore(c) + Refs(s) + RefsAfter(c)
    decreases c
  {
    match c
    case Top =>
    case InLeft(up, n, r) => PlugRefs(up, Fork(s, n, r));
    case InRight(up, l, n) => PlugRefs(up, Fork(l, n, s));
  }

  lemma {:induction false} PlugWired<T>(root: RbNode?<T>, c: Context<T>, hole: RbNode?<T>, s: Shape<T>)
    requires Spine(root, c, hole) && Wired(HoleParent(c), hole, s) && Nodes(s) !! ContextNodes(c)
    ensures Wired(null, root, Plug(c, s))
    decreases c
  {
    match c
    case Top =>
    case InLeft(up, n, r) => PlugWired(root, up, n, Fork(s, n, r));
    case InRight(up, l, n) => PlugWired(root, up, n, Fork(l, n, s));
  }

  class RbRoot<T> {
    var rbNode: RbNode?<T>
    ghost var shape: Shape<T>

    ghost predicate Valid()
      reads this, Nodes(shape)
    {
      Wired(null, rbNode, shape)
    }

    ghost function Footprint(): set<object>
      reads this
    {
      {this as object} + Nodes(shape)
    }

    ghost function Order(): seq<RbNode<T>>
      reads this
    {
      Refs(shape)
    }

    ghost function Contents(): seq<T>
      reads this, Nodes(shape)
    {
      RefsAreNodes(shape);
      Containers(Order())
    }

    constructor ()
      ensures Valid() && shape == Leaf && fresh(this)
    {
      rbNode := null;
      shape := Leaf;
    }

    /** Pointer cur is at the hole of c, and below it the heap is sub. */
    ghost predicate Focused(c: Context<T>, cur: RbNode?<T>, sub: Shape<T>)
      reads this, Nodes(shape)
    {
      && shape == Plug(c, sub)
      && Nodes(shape) == ContextNodes(c) + Nodes(sub)
      && ContextNodes(c) !! Nodes(sub)
      && Spine(rbNode, c, cur)
      && Wired(HoleParent(c), cur, sub)
    }

    /** What stands before, below and after a place makes up the whole. */
    lemma ContentsAround(c: Context<T>, cur: RbNode?<T>, sub: Shape<T>)
      requires Valid() && Focused(c, cur, sub)
      ensures Order() == RefsBefore(c) + Refs(sub) + RefsAfter(c)
      ensures Contents() == Containers(RefsBefore(c)) + Containers(Refs(sub)) + Containers(RefsAfter(c))
    {
      hide Wired, Spine, Refs, RefsBefore, RefsAfter, Containers, Nodes, ContextNodes;
      PlugRefs(c, sub);
      ContainersConcat(RefsBefore(c) + Refs(sub), RefsAfter(c));
      ContainersConcat(RefsBefore(c), Refs(sub));
    }

    /** The elements on either side of a node. */
    lemma Surroundings(c: Context<T>, cur: RbNode<T>, sub: Shape<T>) returns (a: seq<T>, b: seq<T>)
      requires Valid() && Focused(c, cur, sub) && sub.Fork?
      ensures a == Containers(RefsBefore(c)) + Containers(Refs(sub.left))
      ensures b == Containers(Refs(sub.right)) + Containers(RefsAfter(c))
      ensures Contents() == a + [cur.container] + b
    {
      assert Refs(sub) == Refs(sub.left) + [cur] + Refs(sub.right);
      hide Wired, Spine, Refs, RefsBefore, RefsAfter, Containers, Nodes, ContextNodes;
      ContentsAround(c, cur, sub);
      ContainersThree(Refs(sub.left), cur, Refs(sub.right));
      Middle(Containers(RefsBefore(c)), Containers(Refs(sub.left)), cur.container, Containers(Refs(sub.right)), Containers(RefsAfter(c)));
      a := Containers(RefsBefore(c)) + Containers(Refs(sub.left));
      b := Containers(Refs(sub.right)) + Containers(RefsAfter(c));
    }

    /** The elements on either side of an empty place. */
    lemma EmptyPlace(c: Context<T>, sub: Shape<T>) returns (a: seq<T>, b: seq<T>)
      requires Valid() && Focused(c, null, sub)
      ensures sub == Leaf && a == Containers(RefsBefore(c)) && b == Containers(RefsAfter(c))
      ensures Contents() == a + b
    {
      hide *;
      EmptyHere(c, sub);
      NothingBelow<T>();
      ContentsAround(c, null, sub);
      a, b := Containers(RefsBefore(c)), Containers(RefsAfter(c));
      assert a + [] + b == a + b;
    }

    lemma Middle(a: seq<T>, l: seq<T>, x: T, r: seq<T>, b: seq<T>)
      ensures a + (l + [x] + r) + b == (a + l) + [x] + (r + b)
    {
    }

    /** Going down, the node and the subtree left behind join one side. */
    lemma SidesGrow(c: Context<T>, cur: RbNode<T>, sub: Shape<T>)
      requires Valid() && Focused(c, cur, sub) && sub.Fork?
      ensures Containers(RefsAfter(InLeft(c, cur, sub.right)))
           == [cur.container] + Containers(Refs(sub.right)) + Containers(RefsAfter(c))
      ensures Containers(RefsBefore(InRight(c, sub.left, cur)))
           == Containers(RefsBefore(c)) + Containers(Refs(sub.left)) + [cur.container]
    {
      ContainersConcat([cur] + Refs(sub.right), RefsAfter(c));
      ContainersConcat([cur], Refs(sub.right));
      ContainersConcat(RefsBefore(c) + Refs(sub.left), [cur]);
      ContainersConcat(RefsBefore(c), Refs(sub.left));
    }

    lemma FromTheTop()
      requires Valid()
      ensures Focused(Top, rbNode, shape)
      ensures Containers(RefsBefore<T>(Top)) == Containers(RefsAfter<T>(Top)) == []
    {
    }

    lemma EmptyHere(c: Context<T>, sub: Shape<T>)
      requires Focused(c, null, sub)
      ensures sub == Leaf
    {
    }

    /** One step down from a node, to either side. */
    lemma StepDown(c: Context<T>, cur: RbNode<T>, sub: Shape<T>)
      requires Focused(c, cur, sub)
      ensures sub.Fork? && cur in Nodes(shape)
      ensures Focused(InLeft(c, cur, sub.right), cur.rbLeft, sub.left)
      ensures Focused(InRight(c, sub.left, cur), cur.rbRight, sub.right)
    {
    }

    /** Point the hole of c at child. */
    method SetHole(child: RbNode?<T>, parent: RbNode?<T>, onLeft: bool, ghost c: Context<T>, ghost hole: RbNode?<T>)
      requires Spine(rbNode, c, hole)
      requires parent == HoleParent(c) && (parent != null ==> onLeft == c.InLeft?)
      modifies `rbNode, ContextNodes(c)`rbLeft, ContextNodes(c)`rbRight
      ensures Spine(rbNode, c, child)
    {
      if parent == null {
        rbNode := child;
      } else if onLeft {
        assert parent !in ContextNodes(c.up) && parent !in Nodes(c.right);
        parent.rbLeft := child;
        assert Spine(rbNode, c.up, parent) && Wired(parent, parent.rbRight, c.right);
      } else {
        assert parent !in ContextNodes(c.up) && parent !in Nodes(c.left);
        parent.rbRight := child;
        assert Spine(rbNode, c.up, parent) && Wired(parent, parent.rbLeft, c.left);
      }
    }

    /** The hole of c, once filled with s, makes the tree. */
    ghost method Fill(c: Context<T>, hole: RbNode?<T>, s: Shape<T>)
      requires Spine(rbNode, c, hole) && Wired(HoleParent(c), hole, s) && Nodes(s) !! ContextNodes(c)
      modifies `shape
      ensures Valid() && Focused(c, hole, s)
      ensures Nodes(shape) == ContextNodes(c) + Nodes(s)
      ensures Order() == RefsBefore(c) + Refs(s) + RefsAfter(c)
    {
      shape := Plug(c, s);
      PlugNodes(c, s);
      PlugWired(rbNode, c, hole, s);
      PlugRefs(c, s);
    }

    /** rb_link_node: hang a new node at the empty place reached by a descent. */
    method LinkNode(node: RbNode<T>, parent: RbNode?<T>, onLeft: bool, ghost c: Context<T>)
      requires Focused(c, null, Leaf)
      requires parent == HoleParent(c) && (parent != null ==> onLeft == c.InLeft?)
      requires node !in Nodes(shape) && node.rbLeft == null && node.rbRight == null
      modifies `rbNode, `shape, node`rbParent, Nodes(shape)`rbLeft, Nodes(shape)`rbRight
      ensures Valid()
      ensures Nodes(shape) == old(Nodes(shape)) + {node}
      ensures Order() == RefsBefore(c) + [node] + RefsAfter(c)
    {
      assert allocated(ContextNodes(c)) && node !in ContextNodes(c);
      node.rbParent := parent;
      SetHole(node, parent, onLeft, c, null);
      ghost var leaf: Shape<T> := Leaf;
      ghost var sub := Fork(leaf, node, leaf);
      assert Wired(node, null, leaf);
      assert Nodes(sub) == {node};
      assert Refs(sub) == [node] by {
        assert Refs(leaf) == [];
      }
      Fill(c, node, sub);
    }

    /** rb_insert_color: free to rotate, bound to keep the nodes and their in-order sequence. */
    method InsertColor(node: RbNode<T>)
      requires Valid() && node in Nodes(shape)
      modifies `rbNode, `shape, Nodes(shape)`rbParent, Nodes(shape)`rbLeft, Nodes(shape)`rbRight
      ensures Valid() && Nodes(shape) == old(Nodes(shape))
      ensures Order() == old(Order())
    {
    }

    /** rb_link_node, then rb_insert_color. */
    method Attach(node: RbNode<T>, parent: RbNode?<T>, onLeft: bool, ghost c: Context<T>)
      requires Focused(c, null, Leaf)
      requires parent == HoleParent(c) && (parent != null ==> onLeft == c.InLeft?)
      requires node !in Nodes(shape) && node.rbLeft == null && node.rbRight == null
      modifies `rbNode, `shape, node`rbParent, Nodes(shape)`rbParent, Nodes(shape)`rbLeft, Nodes(shape)`rbRight,
               node`rbLeft, node`rbRight
      ensures Valid() && Nodes(shape) == old(Nodes(shape)) + {node}
      ensures Contents() == old(Containers(RefsBefore(c))) + [node.container] + old(Containers(RefsAfter(c)))
    {
      hide Wired, Spine, Refs, Containers;
      ghost var before, after := RefsBefore(c), RefsAfter(c);
      ghost var a, b := Containers(before), Containers(after);
      LinkNode(node, parent, onLeft, c);
      assert Containers(before) == a && Containers(after) == b;
      InsertColor(node);
      assert Containers(before) == a && Containers(after) == b;
      ContainersThree(before, node, after);
      assert Order() == before + [node] + after;
      assert Contents() == Containers(Order());
    }

    /** Overwrite the element of the i-th node. */
    method Store(node: RbNode<T>, item: T, ghost i: nat)
      requires Valid() && i < |Order()|
      requires forall k :: 0 <= k < |Order()| ==> (Order()[k] == node <==> k == i)
      modifies node`container
      ensures Valid() && Contents() == old(Contents())[i := item]
    {
      assert allocated(Nodes(shape));
      node.container := item;
    }

    /** rb_first: the leftmost node, or null when the tree is empty. */
    method First() returns (node: RbNode?<T>, ghost c: Context<T>, ghost sub: Shape<T>)
      requires Valid()
      ensures Valid() && shape == old(shape) && Contents() == old(Contents())
      ensures node == null <==> Order() == []
      ensures node != null ==> Focused(c, node, sub) && sub.Fork? && sub.left == Leaf && RefsBefore(c) == []
    {
      node, c, sub := rbNode, Top, shape;
      if node == null {
        return;
      }
      while node.rbLeft != null
        invariant node != null && Focused(c, node, sub) && sub.Fork? && RefsBefore(c) == []
        modifies {}
        decreases sub
      {
        assert Wired(node, node.rbLeft, sub.left);
        c, node, sub := InLeft(c, node, sub.right), node.rbLeft, sub.left;
      }
      assert Wired(node, node.rbLeft, sub.left);
      PlugRefs(c, sub);
    }

    /** rb_erase: the in-order sequence loses exactly the erased node. */
    method Erase(node: RbNode<T>, ghost c: Context<T>, ghost sub: Shape<T>)
      requires Focused(c, node, sub)
      modifies `rbNode, `shape, Nodes(shape)`rbParent, Nodes(shape)`rbLeft, Nodes(shape)`rbRight
      ensures Valid() && Nodes(shape) == old(Nodes(shape)) - {node}
      ensures Order() == RefsBefore(c) + (Refs(sub.left) + Refs(sub.right)) + RefsAfter(c)
    {
      hide Refs, RefsBefore, RefsAfter, Plug, Value, InOrder, Containers;
      var parent := node.rbParent;
      var onLeft := parent != null && parent.rbLeft == node;
      SideOfParent(c, node);
      ghost var kept := Nodes(sub.left) + Nodes(sub.right);
      assert kept == Nodes(sub) - {node} && kept !! ContextNodes(c);
      assert allocated(Nodes(sub)) && allocated(ContextNodes(c));
      var joined, t := Join(node.rbLeft, node.rbRight, parent, node, node, sub.left, sub.right);
      Graft(joined, parent, onLeft, c, node, t);
    }

    /** Put a subtree in the place of another. */
    method Graft(child: RbNode?<T>, parent: RbNode?<T>, onLeft: bool, ghost c: Context<T>, ghost hole: RbNode?<T>, ghost t: Shape<T>)
      requires Spine(rbNode, c, hole) && Wired(HoleParent(c), child, t) && Nodes(t) !! ContextNodes(c)
      requires parent == HoleParent(c) && (parent != null ==> onLeft == c.InLeft?)
      modifies `rbNode, `shape, ContextNodes(c)`rbLeft, ContextNodes(c)`rbRight
      ensures Valid() && Nodes(shape) == ContextNodes(c) + Nodes(t)
      ensures Order() == RefsBefore(c) + Refs(t) + RefsAfter(c)
    {
      assert allocated(ContextNodes(c)) && allocated(Nodes(t));
      SetHole(child, parent, onLeft, c, hole);
      Fill(c, child, t);
    }

    /** rb_erase, seen from the elements. */
    method Remove(node: RbNode<T>, ghost c: Context<T>, ghost sub: Shape<T>)
      requires Focused(c, node, sub) && sub.Fork?
      modifies `rbNode, `shape, Nodes(shape)`rbParent, Nodes(shape)`rbLeft, Nodes(shape)`rbRight
      ensures Valid() && Nodes(shape) == old(Nodes(shape)) - {node}
      ensures Contents() == old(Containers(RefsBefore(c))) + (old(Containers(Refs(sub.left))) + old(Containers(Refs(sub.right))))
                            + old(Containers(RefsAfter(c)))
    {
      hide Wired, Spine, Refs, Containers;
      ghost var before, l, r, after := RefsBefore(c), Refs(sub.left), Refs(sub.right), RefsAfter(c);
      ghost var a, x, y, b := Containers(before), Containers(l), Containers(r), Containers(after);
      Erase(node, c, sub);
      assert Containers(before) == a && Containers(l) == x && Containers(r) == y && Containers(after) == b;
      ContainersConcat(before + (l + r), after);
      ContainersConcat(before, l + r);
      ContainersConcat(l, r);
      assert Contents() == Containers(Order());
    }

    lemma SideOfParent(c: Context<T>, node: RbNode<T>)
      requires Spine(rbNode, c, node) && node !in ContextNodes(c)
      ensures c.InLeft? ==> c.node.rbLeft == node
      ensures c.InRight? ==> c.node.rbLeft != node
    {
    }
  }

  /** Two neighbouring subtrees made one, in the same order, under parent par. */
  method Join<T>(p: RbNode?<T>, q: RbNode?<T>, par: RbNode?<T>,
                 ghost parP: RbNode<T>, ghost parQ: RbNode<T>, ghost s: Shape<T>, ghost t: Shape<T>)
    returns (j: RbNode?<T>, ghost u: Shape<T>)
    requires Wired(parP, p, s) && Wired(parQ, q, t) && Nodes(s) !! Nodes(t)
    modifies Nodes(s)`rbParent, Nodes(s)`rbRight, Nodes(t)`rbParent
    ensures Wired(par, j, u) && Nodes(u) == Nodes(s) + Nodes(t)
    ensures Refs(u) == Refs(s) + Refs(t)
    decreases s
  {
    if p == null {
      Adopt(q, par, parQ, t);
      j, u := q, t;
    } else {
      ghost var l := s.left;
      assert allocated(Nodes(l)) && allocated(Nodes(s.right)) && allocated(Nodes(t));
      assert Nodes(l) !! Nodes(t) && Nodes(l) !! Nodes(s.right) && p !in Nodes(l);
      var rest, r := Join(p.rbRight, q, p, p, parQ, s.right, t);
      assert Wired(p, p.rbLeft, l);
      Rehang(p, par, rest, l, r);
      j, u := p, Fork(l, p, r);
      Regroup(Refs(l), p, Refs(s.right), Refs(t));
    }
  }

  method Rehang<T>(p: RbNode<T>, par: RbNode?<T>, right: RbNode?<T>, ghost l: Shape<T>, ghost r: Shape<T>)
    requires Wired(p, p.rbLeft, l) && Wired(p, right, r)
    requires p !in Nodes(l) && p !in Nodes(r) && Nodes(l) !! Nodes(r)
    modifies p`rbParent, p`rbRight
    ensures Wired(par, p, Fork(l, p, r))
  {
    assert allocated(Nodes(l)) && allocated(Nodes(r));
    p.rbParent := par;
    p.rbRight := right;
    assert Wired(p, p.rbLeft, l);
    assert Wired(p, p.rbRight, r);
  }

  method Adopt<T>(q: RbNode?<T>, par: RbNode?<T>, ghost parQ: RbNode<T>, ghost t: Shape<T>)
    requires Wired(parQ, q, t)
    modifies Nodes(t)`rbParent
    ensures Wired(par, q, t)
  {
    assert allocated(Nodes(t));
    if q != null {
      q.rbParent := par;
      assert Wired(q, q.rbLeft, t.left) && Wired(q, q.rbRight, t.right);
    }
  }

  lemma Regroup<T>(a: seq<T>, x: T, b: seq<T>, c: seq<T>)
    ensures a + [x] + (b + c) == (a + [x] + b) + c
  {
  }
}
