/** `get_tree` and `_build_node` of services/ontology/services.py. */
module OntologyTree {
  import opened Common
  import opened Ontology

  datatype Tree = Tree(id: ConceptId, code: string, name: string, category: string, children: seq<Tree>)

  /** The collation of the database: which of two names sorts first. */
  type Collation = (string, string) -> bool

  // ---------------------------------------------------------------- ORDER BY name

  function NameOf(s: Store, id: ConceptId): string {
    if id in s.rows then s.rows[id].name else ""
  }

  function InsertByName(s: Store, leq: Collation, x: ConceptId, ids: seq<ConceptId>): (r: seq<ConceptId>)
    ensures forall y :: y in r <==> y == x || y in ids
    ensures Distinct(ids) && x !in ids ==> Distinct(r)
  {
    if ids == [] || leq(NameOf(s, x), NameOf(s, ids[0])) then [x] + ids
    else
      assert ids == [ids[0]] + ids[1..];
      assert Distinct(ids) ==> ids[0] !in ids[1..] && Distinct(ids[1..]);
      [ids[0]] + InsertByName(s, leq, x, ids[1..])
  }

  function SortByName(s: Store, leq: Collation, ids: seq<ConceptId>): (r: seq<ConceptId>)
    ensures forall y :: y in r <==> y in ids
    ensures Distinct(ids) ==> Distinct(r)
  {
    if ids == [] then []
    else
      assert ids == [ids[0]] + ids[1..];
      InsertByName(s, leq, ids[0], SortByName(s, leq, ids[1..]))
  }

  ghost predicate NameSorted(s: Store, leq: Collation, ids: seq<ConceptId>) {
    forall i, j :: 0 <= i < j < |ids| ==> leq(NameOf(s, ids[i]), NameOf(s, ids[j]))
  }

  ghost predicate TotalPreorder(leq: Collation) {
    && (forall a, b :: leq(a, b) || leq(b, a))
    && (forall a, b, c :: leq(a, b) && leq(b, c) ==> leq(a, c))
  }

  lemma {:induction false} InsertKeepsSorted(s: Store, leq: Collation, x: ConceptId, ids: seq<ConceptId>)
    requires TotalPreorder(leq) && NameSorted(s, leq, ids)
    ensures NameSorted(s, leq, InsertByName(s, leq, x, ids))
  {
    if ids != [] && !leq(NameOf(s, x), NameOf(s, ids[0])) {
      var rest := InsertByName(s, leq, x, ids[1..]);
      InsertKeepsSorted(s, leq, x, ids[1..]);
      forall j | 0 <= j < |rest|
        ensures leq(NameOf(s, ids[0]), NameOf(s, rest[j]))
      {
        assert rest[j] in rest;
      }
    }
  }

  /** Siblings come in name order whenever the collation is a total preorder. */
  lemma {:induction false} SortSorts(s: Store, leq: Collation, ids: seq<ConceptId>)
    requires TotalPreorder(leq)
    ensures NameSorted(s, leq, SortByName(s, leq, ids))
  {
    if ids != [] {
      SortSorts(s, leq, ids[1..]);
      InsertKeepsSorted(s, leq, ids[0], SortByName(s, leq, ids[1..]));
    }
  }

  // ---------------------------------------------------------------- building the tree

  /** The rows of a tenant with the given parent, ordered by name. */
  function Select(s: Store, leq: Collation, tenant: TenantId, parent: Option<ConceptId>): (r: seq<ConceptId>)
    ensures forall x :: x in r <==> x in s.order && s.Get(x, tenant).Some? && s.rows[x].parent == parent
    ensures Distinct(s.order) ==> Distinct(r)
  {
    var matching := (x: ConceptId) => s.Get(x, tenant).Some? && s.rows[x].parent == parent;
    FilterKeepsDistinctIf(matching, s.order);
    SortByName(s, leq, Filter(matching, s.order))
  }

  lemma SelectIsSorted(s: Store, leq: Collation, tenant: TenantId, parent: Option<ConceptId>)
    requires TotalPreorder(leq)
    ensures NameSorted(s, leq, Select(s, leq, tenant, parent))
  {
    SortSorts(s, leq, Filter((x: ConceptId) => s.Get(x, tenant).Some? && s.rows[x].parent == parent, s.order));
  }

  lemma FilterKeepsDistinctIf(p: ConceptId -> bool, ids: seq<ConceptId>)
    ensures Distinct(ids) ==> Distinct(Filter(p, ids))
  {
    if Distinct(ids) {
      FilterKeepsDistinct(p, ids);
    }
  }

  /** The concept and all its descendants. */
  ghost function Below(s: Store, tenant: TenantId, id: ConceptId): set<ConceptId> {
    set x | x in s.rows && s.rows[x].tenant == tenant && s.OnChain(tenant, x, id)
  }

  lemma ChildIsBelow(s: Store, tenant: TenantId, id: ConceptId, child: ConceptId)
    requires s.Forest() && s.Get(id, tenant).Some?
    requires s.Get(child, tenant).Some? && s.rows[child].parent == Some(id)
    ensures Below(s, tenant, child) < Below(s, tenant, id)
    ensures id !in Below(s, tenant, child)
  {
    forall x | x in Below(s, tenant, child)
      ensures x in Below(s, tenant, id)
    {
      var n: nat :| s.Nth(tenant, x, n) == Some(child);
      ChainContinues(s, tenant, x, n, child);
      assert s.Nth(tenant, x, n + 1) == Some(id);
    }
    assert s.Nth(tenant, id, 0) == Some(id);
    assert id in Below(s, tenant, id);
    if n: nat :| s.Nth(tenant, id, n) == Some(child) {
      ChainContinues(s, tenant, id, n, child);
      ForestHasNoCycle(s, tenant, id, n + 1);
    }
  }

  lemma {:induction false} ChainContinues(s: Store, tenant: TenantId, x: ConceptId, n: nat, y: ConceptId)
    requires s.Nth(tenant, x, n) == Some(y) && s.Get(y, tenant).Some?
    ensures s.Nth(tenant, x, n + 1) == s.rows[y].parent
    decreases n
  {
    if n > 0 {
      ChainContinues(s, tenant, s.Get(x, tenant).value.parent.value, n - 1, y);
    }
  }

  /** `_build_node`; it terminates because the children of a forest have fewer descendants. */
  function BuildNode(s: Store, leq: Collation, tenant: TenantId, id: ConceptId): Tree
    requires s.Forest() && s.Get(id, tenant).Some?
    decreases Below(s, tenant, id)
  {
    var kids := Select(s, leq, tenant, Some(id));
    var c := s.rows[id];
    Tree(id, c.code, c.name, c.category,
         seq(|kids|, i requires 0 <= i < |kids| =>
           ChildIsBelow(s, tenant, id, kids[i]);
           BuildNode(s, leq, tenant, kids[i])))
  }

  /** `get_tree`. */
  function GetTree(s: Store, leq: Collation, root: Option<ConceptId>, tenant: TenantId)
    : Result<seq<Tree>, OntologyError>
    requires s.Forest()
  {
    if root.Some? then
      if s.Get(root.value, tenant).None? then Err(ConceptNotFound(root.value))
      else Ok([BuildNode(s, leq, tenant, root.value)])
    else
      var roots := Select(s, leq, tenant, None);
      Ok(seq(|roots|, i requires 0 <= i < |roots| => BuildNode(s, leq, tenant, roots[i])))
  }

  // ---------------------------------------------------------------- what the tree lists

  ghost function Listed(t: Tree): multiset<ConceptId> {
    multiset{t.id} + ListedAll(t.children)
  }

  ghost function ListedAll(ts: seq<Tree>): multiset<ConceptId> {
    if ts == [] then multiset{} else Listed(ts[0]) + ListedAll(ts[1..])
  }

  /** Every node carries its concept's data, and its children are nodes of the concepts below it. */
  ghost predicate Faithful(s: Store, t: Tree) {
    && t.id in s.rows
    && t.code == s.rows[t.id].code && t.name == s.rows[t.id].name && t.category == s.rows[t.id].category
    && forall i :: 0 <= i < |t.children| ==>
         Faithful(s, t.children[i]) && s.rows[t.children[i].id].parent == Some(t.id)
  }

  lemma {:induction false} ChainSplits(s: Store, tenant: TenantId, x: ConceptId, i: nat, y: ConceptId, m: nat)
    requires s.Nth(tenant, x, i) == Some(y)
    ensures s.Nth(tenant, x, i + m) == s.Nth(tenant, y, m)
    decreases i
  {
    if i > 0 {
      ChainSplits(s, tenant, s.Get(x, tenant).value.parent.value, i - 1, y, m);
    }
  }

  /** Neither of two siblings, or of two roots, is an ancestor of the other. */
  lemma SiblingIsNotAncestor(s: Store, tenant: TenantId, a: ConceptId, b: ConceptId, m: nat)
    requires s.Forest() && s.Get(a, tenant).Some? && s.Get(b, tenant).Some?
    requires a != b && s.rows[a].parent == s.rows[b].parent
    ensures s.Nth(tenant, a, m) != Some(b)
  {
    if s.Nth(tenant, a, m) == Some(b) {
      assert m > 0;
      var p := s.rows[a].parent.value;
      var rank :| s.Ranked(rank);
      assert s.ParentBelow(rank, a);
      assert s.Nth(tenant, p, m - 1) == Some(b);
      ChainContinues(s, tenant, p, m - 1, b);
      ForestHasNoCycle(s, tenant, p, m);
    }
  }

  lemma SiblingsAreApart(s: Store, tenant: TenantId, a: ConceptId, b: ConceptId)
    requires s.Forest() && s.Get(a, tenant).Some? && s.Get(b, tenant).Some?
    requires a != b && s.rows[a].parent == s.rows[b].parent
    ensures Below(s, tenant, a) !! Below(s, tenant, b)
  {
    forall x | x in Below(s, tenant, a) && x in Below(s, tenant, b)
      ensures false
    {
      var i: nat :| s.Nth(tenant, x, i) == Some(a);
      var j: nat :| s.Nth(tenant, x, j) == Some(b);
      if i <= j {
        ChainSplits(s, tenant, x, i, a, j - i);
        SiblingIsNotAncestor(s, tenant, a, b, j - i);
      } else {
        ChainSplits(s, tenant, x, j, b, i - j);
        SiblingIsNotAncestor(s, tenant, b, a, i - j);
      }
    }
  }

  ghost function BelowAny(s: Store, tenant: TenantId, ids: seq<ConceptId>): set<ConceptId> {
    if ids == [] then {} else Below(s, tenant, ids[0]) + BelowAny(s, tenant, ids[1..])
  }

  lemma {:induction false} IntoBelowAny(s: Store, tenant: TenantId, ids: seq<ConceptId>, id: ConceptId, x: ConceptId)
    requires id in ids && x in Below(s, tenant, id)
    ensures x in BelowAny(s, tenant, ids)
  {
    if id != ids[0] {
      IntoBelowAny(s, tenant, ids[1..], id, x);
    }
  }

  lemma {:induction false} OutOfBelowAny(s: Store, tenant: TenantId, ids: seq<ConceptId>, x: ConceptId)
    returns (id: ConceptId)
    requires x in BelowAny(s, tenant, ids)
    ensures id in ids && x in Below(s, tenant, id)
  {
    if x in Below(s, tenant, ids[0]) {
      id := ids[0];
    } else {
      id := OutOfBelowAny(s, tenant, ids[1..], x);
    }
  }

  ghost predicate Lists(s: Store, tenant: TenantId, t: Tree, id: ConceptId) {
    t.id == id && Listed(t) == multiset(Below(s, tenant, id)) && Faithful(s, t)
  }

  /** Siblings list disjoint sets of concepts, so together each concept once. */
  lemma {:induction false} SiblingsListOnce(s: Store, tenant: TenantId, ids: seq<ConceptId>, ts: seq<Tree>,
                                            parent: Option<ConceptId>)
    requires s.Forest() && Distinct(ids) && |ts| == |ids|
    requires forall x :: x in ids ==> s.Get(x, tenant).Some? && s.rows[x].parent == parent
    requires forall i {:trigger ts[i]} :: 0 <= i < |ids| ==> Lists(s, tenant, ts[i], ids[i])
    ensures ListedAll(ts) == multiset(BelowAny(s, tenant, ids))
  {
    if ids != [] {
      SiblingsListOnce(s, tenant, ids[1..], ts[1..], parent);
      var first, others := Below(s, tenant, ids[0]), BelowAny(s, tenant, ids[1..]);
      forall x | x in first && x in others
        ensures false
      {
        var other := OutOfBelowAny(s, tenant, ids[1..], x);
        SiblingsAreApart(s, tenant, ids[0], other);
      }
      assert Lists(s, tenant, ts[0], ids[0]);
      ConceptsOfUnion(first, others);
    }
  }

  lemma DescendantIsBelowChild(s: Store, leq: Collation, tenant: TenantId, id: ConceptId, x: ConceptId)
    requires s.Forest() && x in Below(s, tenant, id) && x != id
    ensures x in BelowAny(s, tenant, Select(s, leq, tenant, Some(id)))
  {
    var kids := Select(s, leq, tenant, Some(id));
    var n: nat :| s.Nth(tenant, x, n) == Some(id);
    var k := BeforeLast(s, tenant, x, n, id);
    assert k in s.order;
    IntoBelowAny(s, tenant, kids, k, x);
  }

  lemma BelowIsSelfAndChildren(s: Store, leq: Collation, tenant: TenantId, id: ConceptId)
    requires s.Forest() && s.Get(id, tenant).Some?
    ensures var kids := Select(s, leq, tenant, Some(id));
            && id !in BelowAny(s, tenant, kids)
            && Below(s, tenant, id) == {id} + BelowAny(s, tenant, kids)
  {
    var below, lower := Below(s, tenant, id), BelowAny(s, tenant, Select(s, leq, tenant, Some(id)));
    BelowOrItself(s, leq, tenant, id, id);
    forall x
      ensures x in below <==> x == id || x in lower
    {
      BelowOrItself(s, leq, tenant, id, x);
    }
    assert below == {id} + lower;
  }

  lemma BelowOrItself(s: Store, leq: Collation, tenant: TenantId, id: ConceptId, x: ConceptId)
    requires s.Forest() && s.Get(id, tenant).Some?
    ensures var lower := BelowAny(s, tenant, Select(s, leq, tenant, Some(id)));
            && (x in Below(s, tenant, id) <==> x == id || x in lower)
            && (x == id ==> x !in lower)
  {
    var lower := BelowAny(s, tenant, Select(s, leq, tenant, Some(id)));
    IsBelowItself(s, tenant, id);
    if x in lower {
      ChildrensIsBelow(s, leq, tenant, id, x);
    } else if x in Below(s, tenant, id) && x != id {
      DescendantIsBelowChild(s, leq, tenant, id, x);
    }
  }

  lemma ChildrensIsBelow(s: Store, leq: Collation, tenant: TenantId, id: ConceptId, x: ConceptId)
    requires s.Forest() && s.Get(id, tenant).Some? && x in BelowAny(s, tenant, Select(s, leq, tenant, Some(id)))
    ensures x in Below(s, tenant, id) && x != id
  {
    var kid := OutOfBelowAny(s, tenant, Select(s, leq, tenant, Some(id)), x);
    ChildIsBelow(s, tenant, id, kid);
  }

  lemma IsBelowItself(s: Store, tenant: TenantId, id: ConceptId)
    requires s.Get(id, tenant).Some?
    ensures id in Below(s, tenant, id)
  {
    assert s.Nth(tenant, id, 0) == Some(id);
  }

  lemma {:induction false} BeforeLast(s: Store, tenant: TenantId, x: ConceptId, n: nat, id: ConceptId)
    returns (k: ConceptId)
    requires s.Nth(tenant, x, n) == Some(id) && n > 0
    ensures s.Nth(tenant, x, n - 1) == Some(k) && s.Get(k, tenant).Some? && s.rows[k].parent == Some(id)
    decreases n
  {
    if n == 1 {
      k := x;
    } else {
      k := BeforeLast(s, tenant, s.Get(x, tenant).value.parent.value, n - 1, id);
    }
  }

  /** A node lists its concept and every descendant exactly once, each below its own parent. */
  lemma {:induction false} NodeListsBelow(s: Store, leq: Collation, tenant: TenantId, id: ConceptId)
    requires s.Forest() && s.Get(id, tenant).Some?
    ensures Lists(s, tenant, BuildNode(s, leq, tenant, id), id)
    decreases Below(s, tenant, id)
  {
    var t := BuildNode(s, leq, tenant, id);
    var kids := Select(s, leq, tenant, Some(id));
    forall i | 0 <= i < |kids|
      ensures Lists(s, tenant, t.children[i], kids[i])
    {
      ChildIsBelow(s, tenant, id, kids[i]);
      NodeListsBelow(s, leq, tenant, kids[i]);
    }
    ListsFromChildren(s, leq, tenant, id, t);
  }

  lemma ListsFromChildren(s: Store, leq: Collation, tenant: TenantId, id: ConceptId, t: Tree)
    requires s.Forest() && s.Get(id, tenant).Some? && t.id == id
    requires t.code == s.rows[id].code && t.name == s.rows[id].name && t.category == s.rows[id].category
    requires |t.children| == |Select(s, leq, tenant, Some(id))|
    requires forall i {:trigger t.children[i]} :: 0 <= i < |t.children| ==>
               Lists(s, tenant, t.children[i], Select(s, leq, tenant, Some(id))[i])
    ensures Lists(s, tenant, t, id)
  {
    SiblingsListOnce(s, tenant, Select(s, leq, tenant, Some(id)), t.children, Some(id));
    SelfAndChildren(s, leq, tenant, id);
    ChildrenAreFaithful(s, leq, tenant, id, t);
  }

  lemma SelfAndChildren(s: Store, leq: Collation, tenant: TenantId, id: ConceptId)
    requires s.Forest() && s.Get(id, tenant).Some?
    ensures multiset(Below(s, tenant, id)) ==
              multiset{id} + multiset(BelowAny(s, tenant, Select(s, leq, tenant, Some(id))))
  {
    BelowIsSelfAndChildren(s, leq, tenant, id);
    ConceptsOfUnion({id}, BelowAny(s, tenant, Select(s, leq, tenant, Some(id))));
  }

  lemma ConceptsOfUnion(a: set<ConceptId>, b: set<ConceptId>)
    requires a !! b
    ensures multiset(a + b) == multiset(a) + multiset(b)
  {
  }

  lemma ChildrenAreFaithful(s: Store, leq: Collation, tenant: TenantId, id: ConceptId, t: Tree)
    requires |t.children| == |Select(s, leq, tenant, Some(id))|
    requires forall i {:trigger t.children[i]} :: 0 <= i < |t.children| ==>
               Lists(s, tenant, t.children[i], Select(s, leq, tenant, Some(id))[i])
    ensures forall i :: 0 <= i < |t.children| ==>
              Faithful(s, t.children[i]) && s.rows[t.children[i].id].parent == Some(id)
  {
    forall i | 0 <= i < |t.children|
      ensures Faithful(s, t.children[i]) && s.rows[t.children[i].id].parent == Some(id)
    {
      assert Select(s, leq, tenant, Some(id))[i] in Select(s, leq, tenant, Some(id));
    }
  }

  ghost function ConceptsOf(s: Store, tenant: TenantId): set<ConceptId> {
    set x | x in s.rows && s.rows[x].tenant == tenant
  }

  lemma {:induction false} RootOf(s: Store, rank: map<ConceptId, nat>, tenant: TenantId, x: ConceptId)
    returns (r: ConceptId, n: nat)
    requires s.Ranked(rank) && s.Get(x, tenant).Some?
    ensures s.Get(r, tenant).Some? && s.rows[r].parent == None && s.Nth(tenant, x, n) == Some(r)
    decreases rank[x]
  {
    if s.rows[x].parent.None? {
      r, n := x, 0;
    } else {
      assert s.ParentBelow(rank, x);
      r, n := RootOf(s, rank, tenant, s.rows[x].parent.value);
      n := n + 1;
    }
  }

  lemma RootsCoverAll(s: Store, leq: Collation, tenant: TenantId)
    requires s.Forest()
    ensures BelowAny(s, tenant, Select(s, leq, tenant, None)) == ConceptsOf(s, tenant)
  {
    var roots := Select(s, leq, tenant, None);
    forall x | x in ConceptsOf(s, tenant)
      ensures x in BelowAny(s, tenant, roots)
    {
      var rank :| s.Ranked(rank);
      var r, n := RootOf(s, rank, tenant, x);
      assert r in s.order;
      IntoBelowAny(s, tenant, roots, r, x);
    }
    forall x | x in BelowAny(s, tenant, roots)
      ensures x in ConceptsOf(s, tenant)
    {
      var r := OutOfBelowAny(s, tenant, roots, x);
    }
  }

  /** In every reachable hierarchy the full tree lists each concept of the tenant exactly once and nothing else,
      every node below the node of its own parent, and only parentless concepts at the top. */
  lemma FullTreeListsEachOnce(run: seq<Op>, leq: Collation, tenant: TenantId)
    ensures StoreAfter(run).Forest()
    ensures var s := StoreAfter(run);
            var tree := GetTree(s, leq, None, tenant);
            && tree.Ok?
            && ListedAll(tree.value) == multiset(ConceptsOf(s, tenant))
            && forall i :: 0 <= i < |tree.value| ==>
              Faithful(s, tree.value[i]) && s.rows[tree.value[i].id].parent == None
  {
    RunsKeepForest(run);
    var s := StoreAfter(run);
    var roots := Select(s, leq, tenant, None);
    var ts := GetTree(s, leq, None, tenant).value;
    forall i | 0 <= i < |roots|
      ensures Lists(s, tenant, ts[i], roots[i])
    {
      NodeListsBelow(s, leq, tenant, roots[i]);
    }
    SiblingsListOnce(s, tenant, roots, ts, None);
    RootsCoverAll(s, leq, tenant);
  }

  /** A rooted tree lists the root with its descendants; an unknown root is the documented error. */
  lemma RootedTreeListsBelow(s: Store, leq: Collation, root: ConceptId, tenant: TenantId)
    requires s.Forest()
    ensures var tree := GetTree(s, leq, Some(root), tenant);
            if s.Get(root, tenant).None? then tree == Err(ConceptNotFound(root))
            else tree.Ok? && |tree.value| == 1 && Lists(s, tenant, tree.value[0], root)
  {
    if s.Get(root, tenant).Some? {
      NodeListsBelow(s, leq, tenant, root);
    }
  }

  // ---------------------------------------------------------------- the order of siblings

  ghost predicate InNameOrder(leq: Collation, ts: seq<Tree>) {
    forall i, j :: 0 <= i < j < |ts| ==> leq(ts[i].name, ts[j].name)
  }

  /** The children of every node come in name order. */
  ghost predicate InOrderThroughout(leq: Collation, t: Tree) {
    InNameOrder(leq, t.children) && forall i :: 0 <= i < |t.children| ==> InOrderThroughout(leq, t.children[i])
  }

  lemma {:induction false} NodeIsInOrder(s: Store, leq: Collation, tenant: TenantId, id: ConceptId)
    requires s.Forest() && s.Get(id, tenant).Some? && TotalPreorder(leq)
    ensures InOrderThroughout(leq, BuildNode(s, leq, tenant, id))
    decreases Below(s, tenant, id)
  {
    var t, kids := BuildNode(s, leq, tenant, id), Select(s, leq, tenant, Some(id));
    SelectIsSorted(s, leq, tenant, Some(id));
    forall i | 0 <= i < |kids|
      ensures t.children[i].name == NameOf(s, kids[i]) && InOrderThroughout(leq, t.children[i])
    {
      ChildIsBelow(s, tenant, id, kids[i]);
      NodeIsInOrder(s, leq, tenant, kids[i]);
    }
  }

  /** In every reachable hierarchy the roots of the full tree, and the children of each of its nodes, come in name
      order. */
  lemma FullTreeIsInOrder(run: seq<Op>, leq: Collation, tenant: TenantId)
    requires TotalPreorder(leq)
    ensures StoreAfter(run).Forest()
    ensures var tree := GetTree(StoreAfter(run), leq, None, tenant);
            && tree.Ok? && InNameOrder(leq, tree.value)
            && forall i :: 0 <= i < |tree.value| ==> InOrderThroughout(leq, tree.value[i])
  {
    RunsKeepForest(run);
    var s := StoreAfter(run);
    var roots, ts := Select(s, leq, tenant, None), GetTree(s, leq, None, tenant).value;
    SelectIsSorted(s, leq, tenant, None);
    forall i | 0 <= i < |roots|
      ensures ts[i].name == NameOf(s, roots[i]) && InOrderThroughout(leq, ts[i])
    {
      NodeIsInOrder(s, leq, tenant, roots[i]);
    }
  }
}
