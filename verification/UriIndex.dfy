/** The index of services by name: a search tree in the order of `strcmp`. */
module UriIndex {
  import opened LinberTypes
  import opened RbTree
  import opened UriOrder

  /** RBtree_ServiceNode */
  datatype Entry<S> = Entry(uri: Uri, service: S)

  ghost predicate Sorted<S>(es: seq<Entry<S>>) {
    forall i, j :: 0 <= i < j < |es| ==> Less(es[i].uri, es[j].uri)
  }

  ghost predicate Below<S>(es: seq<Entry<S>>, uri: Uri) {
    forall i :: 0 <= i < |es| ==> Less(es[i].uri, uri)
  }

  ghost predicate Above<S>(es: seq<Entry<S>>, uri: Uri) {
    forall i :: 0 <= i < |es| ==> Less(uri, es[i].uri)
  }

  /** The entries as a map. */
  function ToMap<S>(es: seq<Entry<S>>): map<Uri, S> {
    if es == [] then map[] else ToMap(es[1..])[es[0].uri := es[0].service]
  }

  lemma {:induction false} ToMapConcat<S>(a: seq<Entry<S>>, b: seq<Entry<S>>)
    ensures ToMap(a + b) == ToMap(b) + ToMap(a)
  {
    if a == [] {
      assert a + b == b;
    } else {
      assert (a + b)[1..] == a[1..] + b;
      ToMapConcat(a[1..], b);
    }
  }

  lemma {:induction false} ToMapKeys<S>(es: seq<Entry<S>>, uri: Uri)
    ensures uri in ToMap(es) <==> exists i :: 0 <= i < |es| && es[i].uri == uri
  {
    if es != [] {
      ToMapKeys(es[1..], uri);
      if i :| 1 <= i < |es| && es[i].uri == uri {
        assert es[1..][i - 1].uri == uri;
      }
    }
  }

  /** A name that is not between others is not in the map. */
  lemma Apart<S>(a: seq<Entry<S>>, b: seq<Entry<S>>, uri: Uri)
    requires Below(a, uri) && Above(b, uri)
    ensures uri !in ToMap(a) && uri !in ToMap(b)
  {
    ToMapKeys(a, uri);
    ToMapKeys(b, uri);
    NamesAreTotallyOrdered(uri, uri, uri);
  }

  /** An entry between smaller and larger ones: the map with it and the map without. */
  lemma OneEntry<S>(a: seq<Entry<S>>, e: Entry<S>, b: seq<Entry<S>>)
    requires Below(a, e.uri) && Above(b, e.uri)
    ensures e.uri !in ToMap(a + b)
    ensures ToMap(a + [e] + b) == ToMap(a + b)[e.uri := e.service]
    ensures ToMap(a + b) == ToMap(a + [e] + b) - {e.uri}
  {
    Apart(a, b, e.uri);
    ToMapConcat(a, b);
    ToMapConcat(a + [e], b);
    ToMapConcat(a, [e]);
    JustOne(e);
    hide ToMap, Below, Above;
    Overlay(ToMap(a), e.uri, e.service, ToMap(b));
  }

  lemma JustOne<S>(e: Entry<S>)
    ensures ToMap([e]) == map[e.uri := e.service]
  {
  }

  lemma Overlay<K, V>(x: map<K, V>, k: K, v: V, y: map<K, V>)
    requires k !in x && k !in y
    ensures y + (map[k := v] + x) == (y + x)[k := v]
    ensures y + x == (y + (map[k := v] + x)) - {k}
  {
  }

  lemma SortedAround<S>(a: seq<Entry<S>>, e: Entry<S>, b: seq<Entry<S>>)
    requires Sorted(a + [e] + b)
    ensures Sorted(a) && Sorted(b) && Sorted(a + b) && Below(a, e.uri) && Above(b, e.uri)
  {
    var all, was := a + [e] + b, a + b;
    assert all[|a|] == e;
    assert forall i :: 0 <= i < |a| ==> a[i] == all[i] == was[i];
    assert forall i :: 0 <= i < |b| ==> b[i] == all[|a| + 1 + i] == was[|a| + i];
    assert forall i :: |a| <= i < |was| ==> was[i] == all[i + 1];
  }

  lemma SortedWith<S>(a: seq<Entry<S>>, e: Entry<S>, b: seq<Entry<S>>)
    requires Sorted(a + b) && Below(a, e.uri) && Above(b, e.uri)
    ensures Sorted(a + [e] + b)
  {
    var all, was := a + [e] + b, a + b;
    assert all[|a|] == e;
    assert forall i :: 0 <= i < |a| ==> a[i] == all[i] == was[i];
    assert forall i :: |a| < i < |all| ==> all[i] == was[i - 1] == b[i - 1 - |a|];
  }

  /** Comparing with one entry settles one side of it. */
  lemma SideSettled<S>(es: seq<Entry<S>>, mid: Uri, uri: Uri)
    ensures Below(es, mid) && Less(mid, uri) ==> Below(es, uri)
    ensures Above(es, mid) && Less(uri, mid) ==> Above(es, uri)
  {
    if Below(es, mid) && Less(mid, uri) {
      forall i | 0 <= i < |es| ensures Less(es[i].uri, uri) {
        NamesAreTotallyOrdered(es[i].uri, mid, uri);
      }
    }
    if Above(es, mid) && Less(uri, mid) {
      forall i | 0 <= i < |es| ensures Less(uri, es[i].uri) {
        NamesAreTotallyOrdered(uri, mid, es[i].uri);
      }
    }
  }

  lemma BelowConcat<S>(a: seq<Entry<S>>, b: seq<Entry<S>>, uri: Uri)
    ensures Below(a + b, uri) <==> Below(a, uri) && Below(b, uri)
    ensures Above(a + b, uri) <==> Above(a, uri) && Above(b, uri)
  {
    assert forall i :: 0 <= i < |a| ==> (a + b)[i] == a[i];
    assert forall i :: 0 <= i < |b| ==> (a + b)[|a| + i] == b[i];
  }

  class UriIndex<S> {
    const root: RbRoot<Entry<S>>

    ghost predicate Valid()
      reads this, root, Nodes(root.shape)
    {
      root.Valid() && Sorted(root.Contents())
    }

    ghost function Footprint(): set<object>
      reads this, root
    {
      root.Footprint()
    }

    /** The services in the order of their names. */
    ghost function Entries(): seq<Entry<S>>
      reads this, root, Nodes(root.shape)
    {
      root.Contents()
    }

    ghost function Index(): map<Uri, S>
      reads this, root, Nodes(root.shape)
    {
      ToMap(root.Contents())
    }

    constructor ()
      ensures Valid() && Index() == map[] && fresh(Footprint())
    {
      root := new RbRoot();
      new;
      assert root.Order() == [];
    }

    /** What surrounds a node in the order of names. */
    lemma InOrderAround(c: Context<Entry<S>>, cur: RbNode<Entry<S>>, sub: Shape<Entry<S>>) returns (a: seq<Entry<S>>, b: seq<Entry<S>>)
      requires Valid() && root.Focused(c, cur, sub) && sub.Fork?
      ensures a == Containers(RefsBefore(c)) + Containers(Refs(sub.left))
      ensures b == Containers(Refs(sub.right)) + Containers(RefsAfter(c))
      ensures root.Contents() == a + [cur.container] + b
      ensures Below(a, cur.container.uri) && Above(b, cur.container.uri) && Sorted(a + b)
    {
      hide Wired, Spine, Containers, Refs, RefsBefore, RefsAfter, Nodes, ContextNodes, Sorted, Below, Above, Less;
      a, b := root.Surroundings(c, cur, sub);
      SortedAround(a, cur.container, b);
    }

    /** Below a node of a smaller name everything left of it is done with, and symmetrically. */
    lemma OneSideLess(c: Context<Entry<S>>, cur: RbNode<Entry<S>>, sub: Shape<Entry<S>>, uri: Uri)
      requires Valid() && root.Focused(c, cur, sub) && sub.Fork?
      requires Below(Containers(RefsBefore(c)), uri) && Above(Containers(RefsAfter(c)), uri)
      ensures Less(uri, cur.container.uri) ==> Above(Containers(RefsAfter(InLeft(c, cur, sub.right))), uri)
      ensures Less(cur.container.uri, uri) ==> Below(Containers(RefsBefore(InRight(c, sub.left, cur))), uri)
    {
      hide Wired, Spine, Containers, Refs, Nodes, ContextNodes, Sorted, Below, Above, Less, RefsBefore, RefsAfter;
      var a, b := InOrderAround(c, cur, sub);
      root.SidesGrow(c, cur, sub);
      var key, e := cur.container.uri, [cur.container];
      BelowConcat(Containers(RefsBefore(c)), Containers(Refs(sub.left)), key);
      BelowConcat(Containers(Refs(sub.right)), Containers(RefsAfter(c)), key);
      SideSettled(Containers(Refs(sub.left)), key, uri);
      SideSettled(Containers(Refs(sub.right)), key, uri);
      BelowConcat(Containers(RefsBefore(c)) + Containers(Refs(sub.left)), e, uri);
      BelowConcat(Containers(RefsBefore(c)), Containers(Refs(sub.left)), uri);
      BelowConcat(e + Containers(Refs(sub.right)), Containers(RefsAfter(c)), uri);
      BelowConcat(e, Containers(Refs(sub.right)), uri);
      Single(cur.container, uri);
    }

    lemma Single(e: Entry<S>, uri: Uri)
      ensures Less(e.uri, uri) ==> Below([e], uri)
      ensures Less(uri, e.uri) ==> Above([e], uri)
    {
    }

    /** The loop of the three functions that look for a name: down to the node that has it, or
        to the empty place for it. */
    method Descend(uri: Uri)
      returns (cur: RbNode?<Entry<S>>, parent: RbNode?<Entry<S>>, onLeft: bool,
               ghost c: Context<Entry<S>>, ghost sub: Shape<Entry<S>>)
      requires Valid()
      ensures Valid() && Entries() == old(Entries()) && Footprint() == old(Footprint())
      ensures root.Focused(c, cur, sub) && (cur != null ==> cur.container.uri == uri)
      ensures cur == null ==> parent == HoleParent(c) && (parent != null ==> onLeft == c.InLeft?)
      ensures Below(Containers(RefsBefore(c)), uri) && Above(Containers(RefsAfter(c)), uri)
    {
      hide Wired, Spine, Containers, Refs, Nodes, ContextNodes, Sorted, Less;
      root.FromTheTop();
      cur, parent, onLeft, c, sub := root.rbNode, null, false, Top, root.shape;
      while cur != null
        invariant Valid() && root.Focused(c, cur, sub)
        invariant Entries() == old(Entries()) && Footprint() == old(Footprint())
        invariant parent == HoleParent(c) && (parent != null ==> onLeft == c.InLeft?)
        invariant Below(Containers(RefsBefore(c)), uri) && Above(Containers(RefsAfter(c)), uri)
        modifies {}
        decreases sub
      {
        root.StepDown(c, cur, sub);
        OneSideLess(c, cur, sub, uri);
        var key := cur.container.uri;
        var result := StrCmp(uri, key);
        StrCmpEqual(uri, key);
        LessIsNegative(uri, key);
        if result < 0 {
          parent := cur;
          c, sub, cur, onLeft := InLeft(c, cur, sub.right), sub.left, cur.rbLeft, true;
        } else if result > 0 {
          parent := cur;
          c, sub, cur, onLeft := InRight(c, sub.left, cur), sub.right, cur.rbRight, false;
        } else {
          return;
        }
      }
    }

    lemma LessIsNegative(a: Uri, b: Uri)
      ensures StrCmp(a, b) < 0 ==> Less(a, b)
      ensures StrCmp(a, b) > 0 ==> Less(b, a)
    {
      StrCmpReversed(a, b);
    }

    lemma NameIsFree(c: Context<Entry<S>>, sub: Shape<Entry<S>>, uri: Uri) returns (a: seq<Entry<S>>, b: seq<Entry<S>>)
      requires Valid() && root.Focused(c, null, sub)
      requires Below(Containers(RefsBefore(c)), uri) && Above(Containers(RefsAfter(c)), uri)
      ensures sub == Leaf && a == Containers(RefsBefore(c)) && b == Containers(RefsAfter(c))
      ensures root.Contents() == a + b && uri !in Index()
    {
      hide Wired, Spine, Containers, Refs, RefsBefore, RefsAfter, Nodes, ContextNodes, Sorted, Below, Above, Less, ToMap,
        HoleParent, Plug, Value, InOrder;
      a, b := root.EmptyPlace(c, sub);
      Apart(a, b, uri);
      ToMapConcat(a, b);
    }

    lemma Present(c: Context<Entry<S>>, cur: RbNode<Entry<S>>, sub: Shape<Entry<S>>) returns (a: seq<Entry<S>>, b: seq<Entry<S>>)
      requires Valid() && root.Focused(c, cur, sub) && sub.Fork?
      ensures a == Containers(RefsBefore(c)) + Containers(Refs(sub.left))
      ensures b == Containers(Refs(sub.right)) + Containers(RefsAfter(c))
      ensures root.Contents() == a + [cur.container] + b && Sorted(a + b)
      ensures cur.container.uri in Index() && Index()[cur.container.uri] == cur.container.service
      ensures ToMap(a + b) == Index() - {cur.container.uri}
    {
      hide Wired, Spine, Containers, Refs, RefsBefore, RefsAfter, Nodes, ContextNodes, Sorted, Below, Above, Less, ToMap;
      a, b := InOrderAround(c, cur, sub);
      OneEntry(a, cur.container, b);
    }

    /** Insert_ServiceNode; `memory` tells whether the allocation succeeds. */
    method Insert(uri: Uri, service: S, memory: bool) returns (ok: bool)
      requires Valid()
      modifies Footprint()
      ensures Valid() && fresh(Footprint() - old(Footprint()))
      ensures ok <==> uri !in old(Index()) && memory
      ensures Index() == if ok then old(Index())[uri := service] else old(Index())
    {
      hide Wired, Spine, Containers, Refs, RefsBefore, RefsAfter, Nodes, ContextNodes, Sorted, Below, Above, Less, ToMap;
      var cur, parent, onLeft, c, sub := Descend(uri);
      if cur != null {
        root.StepDown(c, cur, sub);
        ghost var a, b := Present(c, cur, sub);
        return false;
      }
      ghost var a, b := NameIsFree(c, sub, uri);
      if !memory {
        return false;
      }
      var node := AddEntry(Entry(uri, service), parent, onLeft, c, a, b);
      assert fresh(node);
      OneEntry(a, Entry(uri, service), b);
      return true;
    }

    method AddEntry(e: Entry<S>, parent: RbNode?<Entry<S>>, onLeft: bool, ghost c: Context<Entry<S>>,
                    ghost a: seq<Entry<S>>, ghost b: seq<Entry<S>>)
      returns (node: RbNode<Entry<S>>)
      requires Valid() && root.Focused(c, null, Leaf)
      requires parent == HoleParent(c) && (parent != null ==> onLeft == c.InLeft?)
      requires a == Containers(RefsBefore(c)) && b == Containers(RefsAfter(c)) && root.Contents() == a + b
      requires Below(a, e.uri) && Above(b, e.uri)
      modifies Footprint()
      ensures Valid() && fresh(node) && Nodes(root.shape) == old(Nodes(root.shape)) + {node}
      ensures Entries() == a + [e] + b
    {
      hide Wired, Spine, Containers, Refs, RefsBefore, RefsAfter, Nodes, ContextNodes, Sorted, Below, Above, Less, ToMap;
      assert allocated(Nodes(root.shape)) && allocated(ContextNodes(c));
      ghost var before, after := RefsBefore(c), RefsAfter(c);
      assert allocated(before) && allocated(after);
      node := new RbNode(e);
      assert Containers(before) == a && Containers(after) == b;
      root.Attach(node, parent, onLeft, c);
      SortedWith(a, e, b);
    }

    /** get_ServiceNode */
    method Get(uri: Uri) returns (found: Option<S>)
      requires Valid()
      ensures Valid() && Entries() == old(Entries())
      ensures found == if uri in Index() then Some(Index()[uri]) else None
    {
      hide Wired, Spine, Containers, Refs, RefsBefore, RefsAfter, Nodes, ContextNodes, Sorted, Below, Above, Less, ToMap;
      var cur, _, _, c, sub := Descend(uri);
      if cur == null {
        ghost var a, b := NameIsFree(c, sub, uri);
        return None;
      }
      root.StepDown(c, cur, sub);
      ghost var a, b := Present(c, cur, sub);
      return Some(cur.container.service);
    }

    /** rb_erase of the node at a place. */
    method Take(cur: RbNode<Entry<S>>, ghost c: Context<Entry<S>>, ghost sub: Shape<Entry<S>>) returns (service: S)
      requires Valid() && root.Focused(c, cur, sub) && sub.Fork?
      modifies root, Nodes(root.shape)
      ensures Valid() && Nodes(root.shape) <= old(Nodes(root.shape))
      ensures service == old(cur.container.service) && old(cur.container.uri) in old(Index())
      ensures old(Index())[old(cur.container.uri)] == service
      ensures Index() == old(Index()) - {old(cur.container.uri)}
    {
      hide Wired, Spine, Containers, Refs, RefsBefore, RefsAfter, Nodes, ContextNodes, Sorted, Below, Above, Less, ToMap;
      ghost var a, b := Present(c, cur, sub);
      ghost var w, x, y, z := Containers(RefsBefore(c)), Containers(Refs(sub.left)), Containers(Refs(sub.right)), Containers(RefsAfter(c));
      service := cur.container.service;
      root.Remove(cur, c, sub);
      assert w + (x + y) + z == a + b;
    }

    /** Remove_Service */
    method Remove(uri: Uri) returns (found: Option<S>)
      requires Valid()
      modifies Footprint()
      ensures Valid() && Nodes(root.shape) <= old(Nodes(root.shape))
      ensures found == if uri in old(Index()) then Some(old(Index())[uri]) else None
      ensures Index() == old(Index()) - {uri}
    {
      hide Wired, Spine, Containers, Refs, RefsBefore, RefsAfter, Nodes, ContextNodes, Sorted, Below, Above, Less, ToMap;
      var cur, _, _, c, sub := Descend(uri);
      if cur == null {
        ghost var a, b := NameIsFree(c, sub, uri);
        return None;
      }
      root.StepDown(c, cur, sub);
      var service := Take(cur, c, sub);
      return Some(service);
    }

    /** Remove_first_Service: the service with the smallest name. */
    method RemoveFirst() returns (found: Option<S>, ghost uri: Uri)
      requires Valid()
      modifies Footprint()
      ensures Valid() && Nodes(root.shape) <= old(Nodes(root.shape))
      ensures found == None <==> old(Index()) == map[]
      ensures found == None ==> Index() == map[]
      ensures found.Some? ==>
        && uri in old(Index()) && found.value == old(Index())[uri] && Index() == old(Index()) - {uri}
        && forall u :: u in Index() ==> Less(uri, u)
    {
      hide Wired, Spine, Containers, Refs, RefsBefore, RefsAfter, Nodes, ContextNodes, Sorted, Below, Above, Less, ToMap;
      var node, c, sub := root.First();
      uri := [];
      if node == null {
        NoEntries();
        return None, [];
      }
      root.StepDown(c, node, sub);
      uri := node.container.uri;
      ghost var a, b := Present(c, node, sub);
      FirstIsLeast(c, node, sub);
      var service := Take(node, c, sub);
      found := Some(service);
    }

    lemma NoEntries()
      requires root.Valid() && root.Order() == []
      ensures Index() == map[]
    {
      assert root.Contents() == [];
    }

    lemma FirstIsLeast(c: Context<Entry<S>>, node: RbNode<Entry<S>>, sub: Shape<Entry<S>>)
      requires Valid() && root.Focused(c, node, sub) && sub.Fork? && sub.left == Leaf && RefsBefore(c) == []
      ensures forall u :: u in Index() && u != node.container.uri ==> Less(node.container.uri, u)
    {
      var a, b := InOrderAround(c, node, sub);
      NothingBelow<Entry<S>>();
      assert a == [];
      forall u | u in Index() && u != node.container.uri ensures Less(node.container.uri, u) {
        ToMapKeys(root.Contents(), u);
      }
    }
  }
}
