/** Category tree assembly: the flat category list becomes one node per
    category id, each node hung under its parent's node when the parent id is
    present, and the nodes without a present parent become the roots. Node
    identity is the category id, and the children lists are kept in a map
    from parent id to child ids; this is the reference structure the Java
    nodes share. */
module Categories {
  import opened Types

  /** The four category fields the tree reads. */
  datatype Category = Category(id: Id, name: string, slug: string, parentId: Option<Id>)

  /** `CategoryNode` without its children list. */
  datatype Node = Node(id: Id, name: string, slug: string, parentId: Option<Id>)

  /** The assembled forest: every node by id, the root ids, and the child ids
      of every node. */
  datatype Forest = Forest(nodes: map<Id, Node>, roots: seq<Id>, children: map<Id, seq<Id>>)

  function NodeOf(c: Category): Node {
    Node(c.id, c.name, c.slug, c.parentId)
  }

  predicate NoDup(s: seq<Id>) {
    forall k, l :: 0 <= k < l < |s| ==> s[k] != s[l]
  }

  /** The ids of the listed categories. */
  function Ids(all: seq<Category>): set<Id> {
    if |all| == 0 then {} else Ids(all[..|all| - 1]) + {all[|all| - 1].id}
  }

  lemma {:induction false} InIds(all: seq<Category>, k: int)
    requires 0 <= k < |all|
    ensures all[k].id in Ids(all)
    decreases |all|
  {
    var n := |all| - 1;
    if k < n {
      InIds(all[..n], k);
    }
  }

  /** Position of the last category with id `x`. */
  function LastIndex(all: seq<Category>, x: Id): (k: int)
    requires x in Ids(all)
    ensures 0 <= k < |all| && all[k].id == x
    ensures forall l :: k < l < |all| ==> all[l].id != x
  {
    var n := |all| - 1;
    if all[n].id == x then n else LastIndex(all[..n], x)
  }

  /** The category that wins for id `x`: the last one listed. */
  function Last(all: seq<Category>, x: Id): Category
    requires x in Ids(all)
  {
    all[LastIndex(all, x)]
  }

  /** The first loop, `map.put(id, new CategoryNode(c))`: one node per id,
      and a later category with the same id overwrites an earlier one. */
  function NodeMap(all: seq<Category>): (m: map<Id, Node>)
    ensures m.Keys == Ids(all)
    ensures forall x :: x in m ==> m[x] == NodeOf(Last(all, x))
  {
    if |all| == 0 then map[]
    else
      var n := |all| - 1;
      NodeMap(all[..n])[all[n].id := NodeOf(all[n])]
  }

  /** The order in which the second loop visits the nodes. The map's own
      iteration order is unspecified; the model visits ids in order of first
      appearance. */
  function VisitOrder(all: seq<Category>): (order: seq<Id>)
    ensures NoDup(order)
    ensures forall k :: 0 <= k < |order| ==> order[k] in Ids(all)
  {
    if |all| == 0 then []
    else
      var n := |all| - 1;
      var before := VisitOrder(all[..n]);
      if all[n].id in before then before else before + [all[n].id]
  }

  /** Every listed id is visited. */
  lemma {:induction false} VisitOrderComplete(all: seq<Category>, x: Id)
    requires x in Ids(all)
    ensures x in VisitOrder(all)
    decreases |all|
  {
    var n := |all| - 1;
    if x != all[n].id {
      VisitOrderComplete(all[..n], x);
    }
  }

  /** A node is a root when it has no parent id or its parent id names no
      node. */
  predicate IsRoot(nodes: map<Id, Node>, x: Id)
    requires x in nodes
  {
    nodes[x].parentId.None? || nodes[x].parentId.value !in nodes
  }

  /** What the second loop has built after visiting the nodes of `order`:
      the roots are the visited nodes without a present parent, each node's
      children are the visited nodes naming it as parent, and no list repeats
      a node. */
  ghost predicate Attached(nodes: map<Id, Node>, order: seq<Id>, roots: seq<Id>, children: map<Id, seq<Id>>)
    requires forall k :: 0 <= k < |order| ==> order[k] in nodes
  {
    && children.Keys == nodes.Keys
    && NoDup(roots) && (forall p :: p in children ==> NoDup(children[p]))
    && (forall x {:trigger x in roots} :: x in roots <==> x in order && IsRoot(nodes, x))
    && (forall p, x {:trigger x in children[p]} :: p in children ==>
          (x in children[p] <==> x in order && nodes[x].parentId == Some(p)))
  }

  /** One iteration of the second loop: node `x` goes to the end of its
      parent's children when the parent is present, and to the end of the
      roots otherwise. */
  function AttachOne(nodes: map<Id, Node>, roots: seq<Id>, children: map<Id, seq<Id>>, x: Id): (seq<Id>, map<Id, seq<Id>>)
    requires x in nodes && children.Keys == nodes.Keys
  {
    var parent := nodes[x].parentId;
    if parent.Some? && parent.value in nodes then
      (roots, children[parent.value := children[parent.value] + [x]])
    else
      (roots + [x], children)
  }

  lemma AttachOneExtends(nodes: map<Id, Node>, order: seq<Id>, roots: seq<Id>, children: map<Id, seq<Id>>, x: Id)
    requires forall k :: 0 <= k < |order| ==> order[k] in nodes
    requires x in nodes && x !in order
    requires Attached(nodes, order, roots, children)
    ensures var f := AttachOne(nodes, roots, children, x);
      Attached(nodes, order + [x], f.0, f.1)
  {
    var f := AttachOne(nodes, roots, children, x);
    var order' := order + [x];
    forall y
      ensures y in order' <==> y in order || y == x
    {
    }
    var parent := nodes[x].parentId;
    if parent.Some? && parent.value in nodes {
      var q := parent.value;
      forall p, y | p in f.1
        ensures y in f.1[p] <==> y in order' && nodes[y].parentId == Some(p)
      {
        if p == q {
          assert f.1[p] == children[p] + [x];
          assert y in f.1[p] <==> y in children[p] || y == x;
        }
      }
      forall y
        ensures y in f.0 <==> y in order' && IsRoot(nodes, y)
      {
        assert y == x ==> !IsRoot(nodes, y);
      }
      assert x !in children[q];
      forall p | p in f.1
        ensures NoDup(f.1[p])
      {
      }
    } else {
      forall p, y | p in f.1
        ensures y in f.1[p] <==> y in order' && nodes[y].parentId == Some(p)
      {
        assert y == x ==> nodes[y].parentId != Some(p);
      }
      forall y
        ensures y in f.0 <==> y in order' && IsRoot(nodes, y)
      {
        assert y in f.0 <==> y in roots || y == x;
      }
      assert x !in roots;
    }
  }

  /** The second loop over the nodes visited in `order`. Returns the roots
      and the children. */
  function Attach(nodes: map<Id, Node>, order: seq<Id>): (f: (seq<Id>, map<Id, seq<Id>>))
    requires NoDup(order)
    requires forall k :: 0 <= k < |order| ==> order[k] in nodes
    ensures Attached(nodes, order, f.0, f.1)
  {
    if |order| == 0 then ([], map p | p in nodes :: [])
    else
      var n := |order| - 1;
      var x := order[n];
      var prev := Attach(nodes, order[..n]);
      assert order == order[..n] + [x];
      AttachOneExtends(nodes, order[..n], prev.0, prev.1, x);
      AttachOne(nodes, prev.0, prev.1, x)
  }

  /** `listCategories`: one node per category id, carrying the fields of the
      last category with that id; the roots are the nodes without a present
      parent, and each node's children are the nodes naming it as parent. */
  function ListCategories(all: seq<Category>): (f: Forest)
    ensures f.nodes.Keys == Ids(all) && f.children.Keys == Ids(all)
    ensures forall x :: x in f.nodes ==> f.nodes[x] == NodeOf(Last(all, x))
    ensures NoDup(f.roots) && forall p :: p in f.children ==> NoDup(f.children[p])
    ensures forall x {:trigger x in f.roots} :: x in f.roots <==> x in f.nodes && IsRoot(f.nodes, x)
    ensures forall p, x {:trigger x in f.children[p]} :: p in f.children ==>
      (x in f.children[p] <==> x in f.nodes && f.nodes[x].parentId == Some(p))
  {
    var nodes := NodeMap(all);
    var order := VisitOrder(all);
    var att := Attach(nodes, order);
    assert forall x {:trigger x in att.0} :: x in att.0 <==> x in nodes && IsRoot(nodes, x) by {
      forall x | x in nodes
        ensures x in att.0 <==> IsRoot(nodes, x)
      {
        VisitOrderComplete(all, x);
      }
    }
    assert forall p, x {:trigger x in att.1[p]} :: p in att.1 ==>
      (x in att.1[p] <==> x in nodes && nodes[x].parentId == Some(p)) by {
      forall p, x | p in att.1 && x in nodes
        ensures x in att.1[p] <==> nodes[x].parentId == Some(p)
      {
        VisitOrderComplete(all, x);
      }
    }
    Forest(nodes, att.0, att.1)
  }

  /** A node copies the id, name, slug and parent id of its category. */
  lemma NodeCopiesFields(all: seq<Category>, k: int)
    requires 0 <= k < |all|
    requires forall j :: k < j < |all| ==> all[j].id != all[k].id
    ensures var f := ListCategories(all);
      var x := all[k].id;
      && x in f.nodes
      && f.nodes[x].id == all[k].id && f.nodes[x].name == all[k].name
      && f.nodes[x].slug == all[k].slug && f.nodes[x].parentId == all[k].parentId
  {
    InIds(all, k);
    assert LastIndex(all, all[k].id) == k;
  }

  /** A category's node is a root exactly when the last category with its id
      has no parent id or a parent id that no listed category has. */
  lemma RootIff(all: seq<Category>, x: Id)
    ensures var f := ListCategories(all);
      x in f.roots <==>
        x in Ids(all) && (Last(all, x).parentId.None? || Last(all, x).parentId.value !in Ids(all))
  {
    var f := ListCategories(all);
    if x in Ids(all) {
      assert f.nodes[x].parentId == Last(all, x).parentId;
    }
  }

  /** A node sits in the children of `p` exactly when its category names `p`
      as parent and `p` is a listed id. */
  lemma ChildIff(all: seq<Category>, p: Id, x: Id)
    ensures var f := ListCategories(all);
      (p in f.children && x in f.children[p]) <==>
        p in Ids(all) && x in Ids(all) && Last(all, x).parentId == Some(p)
  {
    var f := ListCategories(all);
    if x in Ids(all) {
      assert f.nodes[x].parentId == Last(all, x).parentId;
    }
  }

  // ---------------------------------------------------------------------
  // Properties of the tree

  /** Every category id has exactly one node, and it appears exactly once
      across the roots and all children lists: either among the roots and in
      no children list, or in exactly its parent's children. */
  lemma ExactlyOnce(all: seq<Category>, x: Id)
    requires x in Ids(all)
    ensures var f := ListCategories(all);
      && x in f.nodes
      && (x in f.roots <==> forall p :: p in f.children ==> x !in f.children[p])
      && (forall p, q :: p in f.children && q in f.children && x in f.children[p] && x in f.children[q] ==> p == q)
  {
    var f := ListCategories(all);
    if x !in f.roots {
      assert !IsRoot(f.nodes, x);
      var p := f.nodes[x].parentId.value;
      assert p in f.children && x in f.children[p];
    }
  }

  /** A later category with an id seen before replaces the earlier one's
      node. */
  lemma LastDuplicateWins(all: seq<Category>, k: int, l: int)
    requires 0 <= k < l < |all| && all[k].id == all[l].id
    requires forall j :: l < j < |all| ==> all[j].id != all[l].id
    ensures var f := ListCategories(all);
      all[l].id in f.nodes && f.nodes[all[l].id] == NodeOf(all[l])
  {
    var x := all[l].id;
    InIds(all, l);
    assert LastIndex(all, x) == l;
  }

  /** A category listed as its own parent lands in its own children and is
      never a root (the node then contains itself). */
  lemma SelfParentIsOwnChild(all: seq<Category>, k: int)
    requires 0 <= k < |all| && all[k].parentId == Some(all[k].id)
    requires forall j :: k < j < |all| ==> all[j].id != all[k].id
    ensures var f := ListCategories(all);
      && all[k].id in f.children
      && all[k].id in f.children[all[k].id]
      && all[k].id !in f.roots
  {
    var x := all[k].id;
    InIds(all, k);
    assert LastIndex(all, x) == k;
  }

  /** An empty list gives an empty forest. */
  lemma EmptyCatalogue()
    ensures ListCategories([]).roots == [] && ListCategories([]).nodes == map[]
  {
    assert Ids([]) == {};
  }

  /** A root, its child, and a category whose parent id names nothing. */
  function Sample(): seq<Category> {
    [ Category(1, "Clothing", "clothing", None),
      Category(2, "Shirts", "shirts", Some(1)),
      Category(3, "Orphans", "orphans", Some(9)) ]
  }

  lemma SampleNodes()
    ensures VisitOrder(Sample()) == [1, 2, 3]
    ensures var nodes := NodeMap(Sample());
      && nodes.Keys == {1, 2, 3}
      && nodes[1].parentId == None && nodes[2].parentId == Some(1) && nodes[3].parentId == Some(9)
  {
    var all := Sample();
    assert all[..2][..1] == all[..1] && all[..1][..0] == [];
    assert Ids(all[..1]) == {1};
    assert Ids(all[..2]) == {1, 2};
    assert Ids(all) == {1, 2, 3};
    assert VisitOrder(all[..1]) == [1];
    assert VisitOrder(all[..2]) == [1, 2];
    assert LastIndex(all, 1) == 0 && LastIndex(all, 2) == 1 && LastIndex(all, 3) == 2;
  }

  /** The example's tree: the orphan becomes a second root beside the real
      one, and the child hangs under its parent. */
  lemma SmallTree()
    ensures var f := ListCategories(Sample());
      && f.roots == [1, 3]
      && f.children[1] == [2]
      && f.children[2] == [] && f.children[3] == []
  {
    SampleNodes();
    var nodes := NodeMap(Sample());
    SampleAttach(nodes);
  }

  /** The attach pass over the example's nodes, one category at a time. */
  lemma SampleAttach(nodes: map<Id, Node>)
    requires nodes.Keys == {1, 2, 3}
    requires nodes[1].parentId == None && nodes[2].parentId == Some(1) && nodes[3].parentId == Some(9)
    ensures var empty := map p | p in nodes :: [];
      Attach(nodes, [1, 2, 3]) == ([1, 3], empty[1 := [2]])
  {
    var empty := map p | p in nodes :: [];
    SampleAttachFirstTwo(nodes);
    assert [1, 2, 3][..2] == [1, 2];
    assert 9 !in nodes && [1] + [3] == [1, 3];
    assert AttachOne(nodes, [1], empty[1 := [2]], 3) == ([1, 3], empty[1 := [2]]);
  }

  lemma SampleAttachFirstTwo(nodes: map<Id, Node>)
    requires nodes.Keys == {1, 2, 3}
    requires nodes[1].parentId == None && nodes[2].parentId == Some(1)
    ensures var empty := map p | p in nodes :: [];
      Attach(nodes, [1, 2]) == ([1], empty[1 := [2]])
  {
    var empty := map p | p in nodes :: [];
    SampleAttachFirst(nodes);
    assert [1, 2][..1] == [1];
    assert empty[1] + [2] == [2];
  }

  lemma SampleAttachFirst(nodes: map<Id, Node>)
    requires nodes.Keys == {1, 2, 3}
    requires nodes[1].parentId == None
    ensures var empty := map p | p in nodes :: [];
      Attach(nodes, [1]) == ([1], empty)
  {
    var empty := map p | p in nodes :: [];
    assert [1][..0] == [];
    assert Attach(nodes, []) == ([], empty);
    assert [] + [1] == [1];
  }
}
