/** Provisioning plans and their items: services/provisioning/planner.py. */
module Provisioning {
  import opened Common

  type Id = int
  type TenantId = int

  datatype Action = CreateEntity | CreateRelationship | Other(name: string)

  datatype ItemStatus = Pending | Completed | Failed | Skipped

  datatype Item = Item(
    action: Action, externalId: string, templateId: Option<Id>, sourceTwin: Option<Id>, targetTwin: Option<Id>,
    relType: Option<string>, status: ItemStatus, createdTwin: Option<Id>)

  datatype PlanStatus = Draft | Ready | PlanCompleted | PlanFailed

  class Plan {
    var status: PlanStatus
    var totalItems: int
    var completedItems: int
    var items: seq<Item>

    constructor ()
      ensures status == Draft && totalItems == 0 && completedItems == 0 && items == []
    {
      status, totalItems, completedItems, items := Draft, 0, 0, [];
    }
  }

  // ---------------------------------------------------------------- external ids

  /** The text of a UUID. */
  type Uuid = s: string | |s| == 36 witness "00000000-0000-0000-0000-000000000000"

  datatype Node = Node(id: Uuid, name: string, nodeType: string)

  function Underscored(s: string): string {
    seq(|s|, i requires 0 <= i < |s| => if s[i] == ' ' || s[i] == '/' then '_' else s[i])
  }

  /** Type, name without blanks and slashes, and the first eight characters of the node's UUID. */
  function ExternalId(node: Node): string {
    node.nodeType + "_" + Underscored(node.name) + "_" + node.id[..8]
  }

  function EntityItem(node: Node, template: Id): Item {
    Item(CreateEntity, ExternalId(node), Some(template), None, None, None, Pending, None)
  }

  function RelationshipItem(source: Node, target: Node, template: Id): Item {
    Item(CreateRelationship, "rel-" + ExternalId(source) + "-" + ExternalId(target), Some(template),
         None, None, None, Pending, None)
  }

  // ---------------------------------------------------------------- all pairs of nodes

  /** The pairs (a, b) with a < b < n that precede (i, j), row by row. */
  function PairsBefore(n: nat, i: nat, j: nat): seq<(nat, nat)>
    requires i < j <= n
    decreases i, j
  {
    if j > i + 1 then PairsBefore(n, i, j - 1) + [(i, j - 1)]
    else if i == 0 then []
    else PairsBefore(n, i - 1, n)
  }

  /** The pairs of the first i rows. */
  function RowsBefore(n: nat, i: nat): seq<(nat, nat)>
    requires i <= n
  {
    if i == 0 then [] else PairsBefore(n, i - 1, n)
  }

  function AllPairs(n: nat): seq<(nat, nat)> {
    RowsBefore(n, n)
  }

  ghost predicate IsBefore(p: (nat, nat), n: nat, i: nat, j: nat) {
    p.0 < p.1 < n && (p.0 < i || (p.0 == i && p.1 < j))
  }

  lemma {:induction false} PairsBeforeListed(n: nat, i: nat, j: nat)
    requires i < j <= n
    ensures forall p :: p in PairsBefore(n, i, j) <==> IsBefore(p, n, i, j)
    ensures Distinct(PairsBefore(n, i, j))
    ensures 2 * |PairsBefore(n, i, j)| == i * (2 * n - 1 - i) + 2 * (j - i - 1)
    decreases i, j
  {
    if j > i + 1 {
      PairsBeforeListed(n, i, j - 1);
      assert !IsBefore((i, j - 1), n, i, j - 1);
      assert (i, j - 1) !in PairsBefore(n, i, j - 1);
    } else if i > 0 {
      PairsBeforeListed(n, i - 1, n);
      assert i * (2 * n - 1 - i) == (i - 1) * (2 * n - 1 - (i - 1)) + 2 * (n - i);
    }
  }

  /** Every unordered pair of n nodes is listed exactly once, n (n - 1) / 2 in all. */
  lemma AllPairsListed(n: nat)
    ensures forall p :: p in AllPairs(n) <==> p.0 < p.1 < n
    ensures Distinct(AllPairs(n))
    ensures 2 * |AllPairs(n)| == n * (n - 1)
  {
    if n > 0 {
      PairsBeforeListed(n, n - 1, n);
      assert (n - 1) * (2 * n - 1 - (n - 1)) == n * (n - 1);
    }
  }

  function EntityItems(nodes: seq<Node>, template: Id): seq<Item> {
    seq(|nodes|, i requires 0 <= i < |nodes| => EntityItem(nodes[i], template))
  }

  function PairItem(nodes: seq<Node>, template: Id, p: (nat, nat)): Item
    requires p.0 < |nodes| && p.1 < |nodes|
  {
    RelationshipItem(nodes[p.0], nodes[p.1], template)
  }

  ghost predicate WithinNodes(nodes: seq<Node>, pairs: seq<(nat, nat)>) {
    forall k :: 0 <= k < |pairs| ==> pairs[k].0 < |nodes| && pairs[k].1 < |nodes|
  }

  /** The relationship items of the pairs, in order. */
  ghost predicate ArePairItems(items: seq<Item>, nodes: seq<Node>, template: Id, pairs: seq<(nat, nat)>) {
    && |items| == |pairs| && WithinNodes(nodes, pairs)
    && forall k :: 0 <= k < |pairs| ==> items[k] == PairItem(nodes, template, pairs[k])
  }

  /** `before`, followed by the relationship items of the pairs. */
  ghost predicate PairsAppended(before: seq<Item>, items: seq<Item>, nodes: seq<Node>, template: Id,
                                pairs: seq<(nat, nat)>) {
    && |items| >= |before| && items[..|before|] == before
    && ArePairItems(items[|before|..], nodes, template, pairs)
  }

  lemma OnePairMore(before: seq<Item>, items: seq<Item>, item: Item, nodes: seq<Node>, template: Id,
                    pairs: seq<(nat, nat)>, p: (nat, nat))
    requires PairsAppended(before, items, nodes, template, pairs)
    requires p.0 < |nodes| && p.1 < |nodes| && item == PairItem(nodes, template, p)
    ensures PairsAppended(before, items + [item], nodes, template, pairs + [p])
  {
    assert (items + [item])[|before|..] == items[|before|..] + [item];
  }

  /** One entity item per node in node order, then one relationship item per pair, n (n + 1) / 2 in all. */
  ghost predicate AreGenerated(items: seq<Item>, nodes: seq<Node>, template: Id) {
    var n := |nodes|;
    && 2 * |items| == n * (n + 1) && |items| >= n
    && items[..n] == EntityItems(nodes, template)
    && ArePairItems(items[n..], nodes, template, AllPairs(n))
  }

  /** The name part of an external id: the name with an underscore for every blank and slash. */
  ghost predicate IsSafeName(part: string, name: string) {
    && |part| == |name| && ' ' !in part && '/' !in part
    && forall i :: 0 <= i < |name| ==> part[i] == if name[i] == ' ' || name[i] == '/' then '_' else name[i]
  }

  /** Node type, name part and the first eight characters of the UUID, joined by underscores. */
  ghost predicate Names(externalId: string, node: Node) {
    exists part :: IsSafeName(part, node.name) && externalId == node.nodeType + "_" + part + "_" + node.id[..8]
  }

  /** A new item, not yet handled and without twins. */
  ghost predicate IsNew(item: Item, action: Action, template: Id) {
    && item.action == action && item.templateId == Some(template) && item.status == Pending
    && item.sourceTwin == None && item.targetTwin == None && item.relType == None && item.createdTwin == None
  }

  /** What the items of a generated plan are: the i-th names the i-th node, and behind them there is one for each pair
      a < b of nodes, which joins the external ids of the items a and b. */
  ghost predicate Describe(items: seq<Item>, nodes: seq<Node>, template: Id) {
    var n := |nodes|;
    && |items| == n + |AllPairs(n)|
    && (forall i :: 0 <= i < n ==> IsNew(items[i], CreateEntity, template) && Names(items[i].externalId, nodes[i]))
    && forall k {:trigger AllPairs(n)[k]} :: 0 <= k < |AllPairs(n)| ==> IsPairOf(items, AllPairs(n)[k], n + k, template)
  }

  ghost predicate IsPairOf(items: seq<Item>, p: (nat, nat), k: int, template: Id) {
    && 0 <= k < |items| && p.0 < |items| && p.1 < |items|
    && IsNew(items[k], CreateRelationship, template)
    && items[k].externalId == "rel-" + items[p.0].externalId + "-" + items[p.1].externalId
  }

  lemma ExternalIdNames(node: Node)
    ensures Names(ExternalId(node), node)
  {
    assert IsSafeName(Underscored(node.name), node.name);
  }

  lemma GeneratedDescribe(items: seq<Item>, nodes: seq<Node>, template: Id)
    requires AreGenerated(items, nodes, template)
    ensures Describe(items, nodes, template)
  {
    var n := |nodes|;
    forall i | 0 <= i < n
      ensures items[i] == EntityItem(nodes[i], template) && Names(items[i].externalId, nodes[i])
    {
      assert items[i] == items[..n][i];
      ExternalIdNames(nodes[i]);
    }
    forall k | 0 <= k < |AllPairs(n)|
      ensures IsPairOf(items, AllPairs(n)[k], n + k, template)
    {
      assert items[n + k] == items[n..][k] == PairItem(nodes, template, AllPairs(n)[k]);
    }
  }

  /** External ids of nodes whose UUIDs start differently are different. */
  lemma DifferentPrefixesDiffer(x: string, a: Node, y: string, b: Node)
    requires Names(x, a) && Names(y, b) && a.id[..8] != b.id[..8]
    ensures x != y
  {
    assert x[|x| - 8..] == a.id[..8];
    assert y[|y| - 8..] == b.id[..8];
  }

  datatype PlanningError = ExistingPlan(status: PlanStatus) | InstanceNotFound | MissingTemplate

  /** `generate_plan`, given what the repositories find: an earlier plan, the instance's nodes, its template. */
  method GeneratePlan(existing: Plan?, nodes: Option<seq<Node>>, template: Option<Id>)
    returns (r: Result<Plan, PlanningError>)
    ensures existing != null ==>
              r == if existing.status == PlanCompleted then Ok(existing) else Err(ExistingPlan(existing.status))
    ensures existing == null && nodes.None? ==> r == Err(InstanceNotFound)
    ensures existing == null && nodes.Some? && template.None? ==> r == Err(MissingTemplate)
    ensures existing == null && nodes.Some? && template.Some? ==>
              && r.Ok? && fresh(r.value) && r.value.status == Ready
              && r.value.totalItems == |r.value.items|
              && AreGenerated(r.value.items, nodes.value, template.value)
              && Describe(r.value.items, nodes.value, template.value)
  {
    if existing != null {
      if existing.status == PlanCompleted {
        return Ok(existing);
      }
      return Err(ExistingPlan(existing.status));
    }
    if nodes.None? {
      return Err(InstanceNotFound);
    }
    if template.None? {
      return Err(MissingTemplate);
    }
    var plan := new Plan();
    var items := BuildItems(nodes.value, template.value);
    GeneratedDescribe(items, nodes.value, template.value);
    plan.items := items;
    plan.totalItems := |items|;
    plan.status := Ready;
    return Ok(plan);
  }

  /** The two phases of `generate_plan`. */
  method BuildItems(nodes: seq<Node>, template: Id) returns (items: seq<Item>)
    ensures AreGenerated(items, nodes, template)
  {
    var n := |nodes|;
    items := [];
    for i := 0 to n
      invariant items == EntityItems(nodes[..i], template)
    {
      assert nodes[..i + 1][..i] == nodes[..i];
      items := items + [EntityItem(nodes[i], template)];
    }
    assert nodes[..n] == nodes;
    ghost var entities := items;
    items := AppendRelationships(items, nodes, template);
    assert items[..n] == entities;
    AllPairsListed(n);
    assert 2 * |items| == 2 * n + n * (n - 1) == n * (n + 1);
  }

  /** The nested loops over the node pairs. */
  method AppendRelationships(before: seq<Item>, nodes: seq<Node>, template: Id) returns (items: seq<Item>)
    ensures PairsAppended(before, items, nodes, template, AllPairs(|nodes|))
  {
    var n := |nodes|;
    items := before;
    for i := 0 to n
      invariant PairsAppended(before, items, nodes, template, RowsBefore(n, i))
    {
      items := AppendRow(before, items, nodes, template, i);
    }
  }

  /** The inner loop, over the nodes after the i-th. */
  method AppendRow(ghost before: seq<Item>, items: seq<Item>, nodes: seq<Node>, template: Id, i: nat)
    returns (longer: seq<Item>)
    requires i < |nodes|
    requires PairsAppended(before, items, nodes, template, RowsBefore(|nodes|, i))
    ensures PairsAppended(before, longer, nodes, template, RowsBefore(|nodes|, i + 1))
  {
    longer := items;
    for j := i + 1 to |nodes|
      invariant PairsAppended(before, longer, nodes, template, PairsBefore(|nodes|, i, j))
    {
      var item := RelationshipItem(nodes[i], nodes[j], template);
      OnePairMore(before, longer, item, nodes, template, PairsBefore(|nodes|, i, j), (i, j));
      longer := longer + [item];
    }
  }

  ghost predicate IsPair(n: nat, k: int, a: nat, b: nat) {
    0 <= k < |AllPairs(n)| && AllPairs(n)[k] == (a, b)
  }

  /** Every unordered pair of nodes has exactly one relationship item in the plan. */
  lemma OneItemPerPair(items: seq<Item>, nodes: seq<Node>, template: Id, a: nat, b: nat)
    requires ArePairItems(items, nodes, template, AllPairs(|nodes|))
    requires a < b < |nodes|
    ensures exists k :: IsPair(|nodes|, k, a, b) && items[k] == RelationshipItem(nodes[a], nodes[b], template)
    ensures forall k, l :: IsPair(|nodes|, k, a, b) && IsPair(|nodes|, l, a, b) ==> k == l
  {
    AllPairsListed(|nodes|);
    var pairs := AllPairs(|nodes|);
    assert (a, b) in pairs;
    var k :| 0 <= k < |pairs| && pairs[k] == (a, b);
    assert IsPair(|nodes|, k, a, b) && items[k] == PairItem(nodes, template, pairs[k]);
  }
}
