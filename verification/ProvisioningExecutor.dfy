/** Execution of provisioning plans: services/provisioning/executor.py. */
module ProvisioningExecutor {
  import opened Common
  import opened Provisioning

  datatype Entity = Entity(tenant: TenantId, externalId: string, definition: Option<Id>, name: string)

  datatype Relationship = Relationship(tenant: TenantId, source: Id, target: Id, kind: string)

  type Entities = map<Id, Entity>

  // ---------------------------------------------------------------- the entity store

  predicate SameKey(a: Entity, b: Entity) {
    a.tenant == b.tenant && a.externalId == b.externalId
  }

  /** At most one entity per tenant and external id. */
  ghost predicate AtMostOne(entities: Entities) {
    forall a, b {:trigger entities[a], entities[b]} ::
      (a in entities && b in entities && SameKey(entities[a], entities[b])) ==> a == b
  }

  predicate Stores(entities: Entities, tenant: TenantId, externalId: string) {
    exists id :: id in entities && entities[id].tenant == tenant && entities[id].externalId == externalId
  }

  predicate Matches(entities: Entities, id: Id, tenant: TenantId, externalId: string) {
    id in entities && entities[id].tenant == tenant && entities[id].externalId == externalId
  }

  /** Several entities answer to the external id, so looking it up raises. */
  predicate Ambiguous(entities: Entities, tenant: TenantId, externalId: string) {
    exists a, b :: a in entities && b in entities && a != b
                   && Matches(entities, a, tenant, externalId) && Matches(entities, b, tenant, externalId)
  }

  /** Nothing stored is lost or changed, and no external id gets a second entity. */
  ghost predicate Extends(before: Entities, after: Entities) {
    && (forall id {:trigger after[id]} {:trigger id in before} ::
          id in before ==> id in after && after[id] == before[id])
    && forall a, b {:trigger after[a], after[b]} ::
         a in after && b in after && a != b && SameKey(after[a], after[b]) ==> a in before && b in before
  }

  /** A store without duplicates stays without, and what was ambiguous stays so and nothing else becomes it. */
  lemma ExtensionKeepsUnique(before: Entities, after: Entities)
    requires Extends(before, after)
    ensures AtMostOne(before) ==> AtMostOne(after)
    ensures forall tenant, x :: Ambiguous(after, tenant, x) <==> Ambiguous(before, tenant, x)
  {
    forall tenant, x
      ensures Ambiguous(after, tenant, x) <==> Ambiguous(before, tenant, x)
    {
      if Ambiguous(before, tenant, x) {
        var a, b :| a in before && b in before && a != b && Matches(before, a, tenant, x)
          && Matches(before, b, tenant, x);
        assert Matches(after, a, tenant, x) && Matches(after, b, tenant, x);
      }
      if Ambiguous(after, tenant, x) {
        var a, b :| a in after && b in after && a != b && Matches(after, a, tenant, x) && Matches(after, b, tenant, x);
        assert SameKey(after[a], after[b]);
        assert Matches(before, a, tenant, x) && Matches(before, b, tenant, x);
      }
    }
  }

  function UpperChar(c: char): char {
    if 'a' <= c <= 'z' then c - 'a' + 'A' else c
  }

  predicate IsLetter(c: char) {
    'a' <= c <= 'z' || 'A' <= c <= 'Z'
  }

  /** `external_id.replace("_", " ").title()` on ASCII text. */
  function DisplayName(externalId: string): string {
    seq(|externalId|, i requires 0 <= i < |externalId| =>
      if externalId[i] == '_' then ' '
      else if i > 0 && IsLetter(externalId[i - 1]) then LowerChar(externalId[i]) else UpperChar(externalId[i]))
  }

  function EntityFor(item: Item, tenant: TenantId): Entity {
    Entity(tenant, item.externalId, item.templateId, DisplayName(item.externalId))
  }

  ghost predicate IsUpper(c: char) {
    'A' <= c <= 'Z'
  }

  /** The external id with blanks for underscores, every first letter of a word upper case and the others lower. */
  ghost predicate IsTitle(name: string, externalId: string) {
    && |name| == |externalId|
    && forall i :: 0 <= i < |name| ==> IsTitleChar(name[i], externalId[i], i > 0 && IsLetter(externalId[i - 1]))
  }

  /** What becomes of one character, inside a word or not. */
  ghost predicate IsTitleChar(shown: char, c: char, inside: bool) {
    && (if c == '_' then shown == ' ' else LowerChar(shown) == LowerChar(c))
    && (IsLetter(c) ==> (IsUpper(shown) <==> !inside))
  }

  lemma CaseIsTitle(c: char)
    requires c != '_'
    ensures IsTitleChar(LowerChar(c), c, true) && IsTitleChar(UpperChar(c), c, false)
  {
  }

  /** The entity has the item's external id and template and is named after the id. */
  ghost predicate IsEntityOf(e: Entity, item: Item, tenant: TenantId) {
    && e.tenant == tenant && e.externalId == item.externalId && e.definition == item.templateId
    && IsTitle(e.name, item.externalId)
  }

  lemma EntityIsOfItem(item: Item, tenant: TenantId)
    ensures IsEntityOf(EntityFor(item, tenant), item, tenant)
  {
    var x := item.externalId;
    forall i | 0 <= i < |x|
      ensures IsTitleChar(DisplayName(x)[i], x[i], i > 0 && IsLetter(x[i - 1]))
    {
      if x[i] != '_' {
        CaseIsTitle(x[i]);
      }
    }
  }

  // ---------------------------------------------------------------- single items

  /** Whether the item ends as failed: its action is unknown, or the repositories raise while it is handled (a
      relationship without both twins does not reach them). */
  predicate Fails(item: Item, fault: bool) {
    || item.action.Other?
    || (fault && (item.action.CreateEntity? || (item.sourceTwin.Some? && item.targetTwin.Some?)))
  }

  /** Several relationships lead from one twin to the other, so looking the pair up raises. */
  predicate MultiplyRelated(rels: seq<Relationship>, tenant: TenantId, source: Id, target: Id) {
    exists i, j :: 0 <= i < j < |rels| && Joins(rels[i], tenant, source, target)
      && Joins(rels[j], tenant, source, target)
  }

  predicate Joins(rel: Relationship, tenant: TenantId, source: Id, target: Id) {
    rel.tenant == tenant && rel.source == source && rel.target == target
  }

  /** Whether the repositories raise for the item: on their own account, or because a lookup finds several rows. */
  predicate Raises(entities: Entities, rels: seq<Relationship>, item: Item, tenant: TenantId, fault: bool) {
    || fault
    || (item.action.CreateEntity? && Ambiguous(entities, tenant, item.externalId))
    || (item.action.CreateRelationship? && item.sourceTwin.Some? && item.targetTwin.Some?
        && MultiplyRelated(rels, tenant, item.sourceTwin.value, item.targetTwin.value))
  }

  /** For which items the repositories raise, given the stores before the first of them. */
  function Faults(entities: Entities, rels: seq<Relationship>, items: seq<Item>, tenant: TenantId, faults: seq<bool>)
    : (r: seq<bool>)
    requires |faults| == |items|
    ensures |r| == |items|
  {
    seq(|items|, i requires 0 <= i < |items| => Raises(entities, rels, items[i], tenant, faults[i]))
  }

  predicate MakesEntity(item: Item, fault: bool) {
    item.action.CreateEntity? && !fault
  }

  class Executor {
    var entities: Entities
    var relationships: seq<Relationship>

    constructor (entities: Entities, relationships: seq<Relationship>)
      ensures this.entities == entities && this.relationships == relationships
    {
      this.entities := entities;
      this.relationships := relationships;
    }

    /** `_execute_create_entity`; the new row gets any unused id. */
    method CreateEntity(item: Item, tenant: TenantId) returns (r: Option<Id>)
      modifies this`entities
      ensures r.None? <==> Ambiguous(old(entities), tenant, item.externalId)
      ensures r.None? ==> entities == old(entities)
      ensures r.Some? ==> Made(old(entities), entities, item, tenant, r.value)
    {
      if Ambiguous(entities, tenant, item.externalId) {
        return None;
      }
      if Stores(entities, tenant, item.externalId) {
        var found: Id :| found in entities && entities[found].tenant == tenant
          && entities[found].externalId == item.externalId;
        return Some(found);
      }
      var id := Unused(entities);
      entities := entities[id := EntityFor(item, tenant)];
      return Some(id);
    }

    /** `_execute_create_relationship`. */
    method CreateRelationship(item: Item, tenant: TenantId) returns (done: bool)
      modifies this`relationships
      ensures done <==> !(item.sourceTwin.Some? && item.targetTwin.Some?
                          && MultiplyRelated(old(relationships), tenant, item.sourceTwin.value, item.targetTwin.value))
      ensures relationships == if done then RelationshipsAfter(old(relationships), item, tenant) else old(relationships)
    {
      if item.sourceTwin.Some? && item.targetTwin.Some? {
        var source, target := item.sourceTwin.value, item.targetTwin.value;
        if MultiplyRelated(relationships, tenant, source, target) {
          return false;
        }
        if Related(relationships, tenant, source, target) {
          return true;
        }
        relationships := relationships + [Relationship(tenant, source, target, RelKind(item))];
      }
      return true;
    }

    /** One round of the loop in `execute`: the item handled, and how the two counters move. */
    method ProcessItem(item: Item, tenant: TenantId, fault: bool) returns (done: Item, completed: nat, failed: nat)
      modifies this
      ensures HandlesItem(old(entities), old(relationships), item, tenant,
                          Raises(old(entities), old(relationships), item, tenant, fault),
                          done, completed, failed, entities, relationships)
    {
      done, completed, failed := item, 0, 0;
      match item.action
      case CreateEntity =>
        var id: Option<Id> := None;
        if !fault {
          id := CreateEntity(item, tenant);
        }
        if id.None? {
          done, failed := done.(status := Failed), 1;
          return;
        }
        done := done.(createdTwin := id, status := Completed);
        completed := 1;
      case CreateRelationship =>
        if Fails(item, fault) {
          done, failed := done.(status := Failed), 1;
          return;
        }
        var related := CreateRelationship(item, tenant);
        if !related {
          done, failed := done.(status := Failed), 1;
          return;
        }
        done := done.(status := Completed);
        completed := 1;
      case Other(_) =>
        done, failed, completed := done.(status := Failed), 1, 1;
    }

    /** The item loop of `execute`. */
    method ProcessItems(plan: Plan, tenant: TenantId, faults: seq<bool>) returns (completed: nat, failed: nat)
      requires |faults| == |plan.items|
      modifies this, plan`items
      ensures var raises := Faults(old(entities), old(relationships), old(plan.items), tenant, faults);
              && Handled(old(entities), old(relationships), old(plan.items), raises, tenant, |faults|,
                         plan.items, entities, relationships)
              && Tallied(old(plan.items), raises, |faults|, completed, failed)
    {
      completed, failed := 0, 0;
      ghost var start, store, rels := plan.items, entities, relationships;
      ghost var raises := Faults(store, rels, start, tenant, faults);
      for i := 0 to |plan.items|
        invariant Handled(store, rels, start, raises, tenant, i, plan.items, entities, relationships)
        invariant Tallied(start, raises, i, completed, failed)
      {
        ghost var before, relsBefore, itemsBefore := entities, relationships, plan.items;
        var done, c, f := ProcessItem(plan.items[i], tenant, faults[i]);
        plan.items := plan.items[i := done];
        completed, failed := completed + c, failed + f;
        RoundHandled(store, rels, start, faults, tenant, i, itemsBefore, before, relsBefore, completed - c, failed - f,
                     done, c, f, entities, relationships);
      }
    }

    /** `execute`. `faults` says for which items the repositories raise on their own account. */
    method Execute(plan: Plan?, tenant: TenantId, faults: seq<bool>) returns (r: Result<Execution, ExecutionError>)
      requires plan != null ==> |faults| == |plan.items|
      modifies this, plan
      ensures plan == null ==> r == Err(PlanNotFound)
      ensures plan != null && old(plan.status) != Ready ==>
                r == Err(WrongStatus(old(plan.status))) && plan.status == old(plan.status)
                  && plan.items == old(plan.items)
      ensures r.Err? ==> entities == old(entities) && relationships == old(relationships)
      ensures plan != null && old(plan.status) == Ready ==>
                var n, items := |faults|, old(plan.items);
                var raises := Faults(old(entities), old(relationships), items, tenant, faults);
                && AllDone(items, plan.items, raises, entities, tenant, n)
                && Processed(old(entities), entities, items, raises, tenant, n)
                && relationships == RelationshipsUpTo(old(relationships), items, raises, tenant, n)
                && plan.totalItems == n
                && (plan.status == PlanCompleted <==> forall k :: 0 <= k < n ==> plan.items[k].status == Completed)
                && (plan.status == PlanCompleted || plan.status == PlanFailed)
                && r.Ok? && r.value.status == plan.status && r.value.itemsCompleted == plan.completedItems
                && r.value.itemsFailed == CountFailing(items, raises, n)
                && r.value.itemsCompleted + r.value.itemsFailed == n + CountUnknown(items, n)
      ensures AtMostOne(old(entities)) ==> AtMostOne(entities)
    {
      if plan == null {
        return Err(PlanNotFound);
      }
      if plan.status != Ready {
        return Err(WrongStatus(plan.status));
      }
      ghost var raises := Faults(entities, relationships, plan.items, tenant, faults);
      var completed, failed := ProcessItems(plan, tenant, faults);
      ExtensionKeepsUnique(old(entities), entities);
      plan.completedItems := completed;
      plan.totalItems := |plan.items|;
      NoneFailing(old(plan.items), plan.items, raises, entities, tenant);
      if failed == 0 {
        plan.status := PlanCompleted;
      } else {
        plan.status := PlanFailed;
      }
      return Ok(Execution(plan.status, completed, failed));
    }
  }

  datatype Execution = Execution(status: PlanStatus, itemsCompleted: nat, itemsFailed: nat)

  datatype ExecutionError = PlanNotFound | WrongStatus(status: PlanStatus)

  /** What creating the item's entity does to the store. */
  ghost predicate Made(before: Entities, after: Entities, item: Item, tenant: TenantId, id: Id) {
    && id in after && after[id].tenant == tenant && after[id].externalId == item.externalId
    && (id in before <==> Stores(before, tenant, item.externalId))
    && after == if Stores(before, tenant, item.externalId) then before else before[id := EntityFor(item, tenant)]
  }

  /** What one round does: the item's final status, the counters, and the stores. */
  ghost predicate HandlesItem(entities: Entities, rels: seq<Relationship>, item: Item, tenant: TenantId, raises: bool,
                              done: Item, completed: int, failed: int, entities': Entities, rels': seq<Relationship>) {
    && done == item.(status := if Fails(item, raises) then Failed else Completed, createdTwin := done.createdTwin)
    && failed == (if Fails(item, raises) then 1 else 0)
    && completed == (if Fails(item, raises) && !item.action.Other? then 0 else 1)
    && (MakesEntity(item, raises) ==>
          done.createdTwin.Some? && Made(entities, entities', item, tenant, done.createdTwin.value))
    && (!MakesEntity(item, raises) ==> entities' == entities && done.createdTwin == item.createdTwin)
    && rels' == RelationshipsStep(rels, item, raises, tenant)
  }

  /** Stands for the new UUID. */
  method Unused(entities: Entities) returns (id: Id)
    ensures id !in entities
  {
    id := 0;
    var seen: set<Id> := entities.Keys;
    while id in seen
      invariant forall k :: k in entities && k !in seen ==> k < id
      decreases seen
    {
      seen := set k | k in seen && k > id;
      id := id + 1;
    }
  }

  predicate Related(relationships: seq<Relationship>, tenant: TenantId, source: Id, target: Id) {
    exists r :: r in relationships && r.tenant == tenant && r.source == source && r.target == target
  }

  function RelKind(item: Item): string {
    if item.relType.None? || item.relType.value == "" then "contains" else item.relType.value
  }

  function RelationshipsAfter(before: seq<Relationship>, item: Item, tenant: TenantId): seq<Relationship> {
    if item.sourceTwin.None? || item.targetTwin.None? then before
    else if Related(before, tenant, item.sourceTwin.value, item.targetTwin.value) then before
    else before + [Relationship(tenant, item.sourceTwin.value, item.targetTwin.value, RelKind(item))]
  }

  function RelationshipsStep(before: seq<Relationship>, item: Item, fault: bool, tenant: TenantId): seq<Relationship> {
    if item.action.CreateRelationship? && !Fails(item, fault) then RelationshipsAfter(before, item, tenant) else before
  }

  function RelationshipsUpTo(before: seq<Relationship>, items: seq<Item>, faults: seq<bool>, tenant: TenantId, n: nat)
    : seq<Relationship>
    requires n <= |items| == |faults|
  {
    if n == 0 then before
    else RelationshipsStep(RelationshipsUpTo(before, items, faults, tenant, n - 1), items[n - 1], faults[n - 1], tenant)
  }

  // ---------------------------------------------------------------- whole plans

  function CountFailing(items: seq<Item>, faults: seq<bool>, n: nat): nat
    requires n <= |items| == |faults|
  {
    if n == 0 then 0 else CountFailing(items, faults, n - 1) + if Fails(items[n - 1], faults[n - 1]) then 1 else 0
  }

  /** Items of unknown action are counted as completed and as failed. */
  function CountUnknown(items: seq<Item>, n: nat): nat
    requires n <= |items|
  {
    if n == 0 then 0 else CountUnknown(items, n - 1) + if items[n - 1].action.Other? then 1 else 0
  }

  /** The handled form of an item: its final status, and for a made entity the id under which it is stored. */
  ghost predicate Done(item: Item, done: Item, fault: bool, entities: Entities, tenant: TenantId) {
    && done == item.(status := if Fails(item, fault) then Failed else Completed, createdTwin := done.createdTwin)
    && (MakesEntity(item, fault) ==>
          && done.createdTwin.Some? && done.createdTwin.value in entities
          && entities[done.createdTwin.value].tenant == tenant
          && entities[done.createdTwin.value].externalId == item.externalId)
  }

  ghost predicate AllDone(items: seq<Item>, done: seq<Item>, faults: seq<bool>, entities: Entities, tenant: TenantId,
                          n: nat) {
    && n <= |items| == |done| == |faults|
    && forall k {:trigger Done(items[k], done[k], faults[k], entities, tenant)} :: 0 <= k < n ==>
         Done(items[k], done[k], faults[k], entities, tenant)
  }

  /** One of the first n items makes an entity with this external id. */
  ghost predicate MadeBy(items: seq<Item>, faults: seq<bool>, n: nat, externalId: string)
    requires n <= |items| == |faults|
  {
    exists k :: 0 <= k < n && MakesEntity(items[k], faults[k]) && items[k].externalId == externalId
  }

  /** The entity is that of one of the first n items which makes one. */
  ghost predicate MadeAs(items: seq<Item>, faults: seq<bool>, n: nat, e: Entity, tenant: TenantId)
    requires n <= |items| == |faults|
  {
    exists k :: 0 <= k < n && MakesEntity(items[k], faults[k]) && IsEntityOf(e, items[k], tenant)
  }

  /** What handling the first n items does to the store, whatever their order and whichever fail: nothing stored is
      lost or changed, no external id gets a second entity, and exactly the ids of the made items are added. */
  ghost predicate Processed(before: Entities, after: Entities, items: seq<Item>, faults: seq<bool>, tenant: TenantId,
                            n: nat)
    requires n <= |items| == |faults|
  {
    && Extends(before, after)
    && (forall id {:trigger id in after} :: id in after && id !in before ==>
          after[id].tenant == tenant && MadeBy(items, faults, n, after[id].externalId)
            && !Stores(before, tenant, after[id].externalId))
    && (forall id {:trigger after[id]} :: id in after && id !in before ==> MadeAs(items, faults, n, after[id], tenant))
    && (forall x {:trigger MadeBy(items, faults, n, x)} :: MadeBy(items, faults, n, x) ==> Stores(after, tenant, x))
  }

  /** Handling items does not change for which items the lookups raise. */
  lemma RaisesAsAtStart(store: Entities, rels: seq<Relationship>, start: seq<Item>, faults: seq<bool>, tenant: TenantId,
                        n: nat, items: seq<Item>, entities: Entities, relationships: seq<Relationship>)
    requires n < |start| == |faults|
    requires Handled(store, rels, start, Faults(store, rels, start, tenant, faults), tenant, n, items, entities,
                     relationships)
    ensures items[n] == start[n]
    ensures Raises(entities, relationships, start[n], tenant, faults[n]) ==
            Faults(store, rels, start, tenant, faults)[n]
  {
    var raises, item := Faults(store, rels, start, tenant, faults), start[n];
    ExtensionKeepsUnique(store, entities);
    if item.sourceTwin.Some? && item.targetTwin.Some? {
      RelatedAsAtStart(rels, start, raises, tenant, n, item.sourceTwin.value, item.targetTwin.value);
    }
  }

  lemma {:induction false} RelatedAsAtStart(rels: seq<Relationship>, items: seq<Item>, raises: seq<bool>,
                                            tenant: TenantId, n: nat, source: Id, target: Id)
    requires n <= |items| == |raises|
    ensures MultiplyRelated(RelationshipsUpTo(rels, items, raises, tenant, n), tenant, source, target) <==>
            MultiplyRelated(rels, tenant, source, target)
  {
    if n > 0 {
      RelatedAsAtStart(rels, items, raises, tenant, n - 1, source, target);
      StepKeepsMultiplicity(RelationshipsUpTo(rels, items, raises, tenant, n - 1), items[n - 1], raises[n - 1], tenant,
                            source, target);
    }
  }

  lemma StepKeepsMultiplicity(rels: seq<Relationship>, item: Item, raises: bool, tenant: TenantId, source: Id,
                              target: Id)
    ensures MultiplyRelated(RelationshipsStep(rels, item, raises, tenant), tenant, source, target) <==>
            MultiplyRelated(rels, tenant, source, target)
  {
    var after := RelationshipsStep(rels, item, raises, tenant);
    if MultiplyRelated(rels, tenant, source, target) {
      var i, j :| 0 <= i < j < |rels| && Joins(rels[i], tenant, source, target)
        && Joins(rels[j], tenant, source, target);
      assert after[i] == rels[i] && after[j] == rels[j];
    }
    if MultiplyRelated(after, tenant, source, target) {
      var i, j :| 0 <= i < j < |after| && Joins(after[i], tenant, source, target)
        && Joins(after[j], tenant, source, target);
      assert rels[i] in rels;
      assert j < |rels|;
    }
  }

  lemma MadeByOneMore(items: seq<Item>, faults: seq<bool>, n: nat, x: string)
    requires n < |items| == |faults|
    ensures MadeBy(items, faults, n + 1, x) <==>
            (MadeBy(items, faults, n, x) || (MakesEntity(items[n], faults[n]) && items[n].externalId == x))
  {
  }

  lemma StoresKept(before: Entities, after: Entities, tenant: TenantId, x: string)
    requires Extends(before, after) && Stores(before, tenant, x)
    ensures Stores(after, tenant, x)
  {
    var id :| id in before && before[id].tenant == tenant && before[id].externalId == x;
    assert id in after && after[id] == before[id];
  }

  lemma OneMoreExtends(start: Entities, before: Entities, after: Entities, item: Item, fault: bool, tenant: TenantId,
                       id: Option<Id>)
    requires Extends(start, before)
    requires MakesEntity(item, fault) ==> id.Some? && Made(before, after, item, tenant, id.value)
    requires !MakesEntity(item, fault) ==> after == before
    ensures Extends(before, after) && Extends(start, after)
  {
    if MakesEntity(item, fault) && !Stores(before, tenant, item.externalId) {
      assert forall a :: a in before ==> !SameKey(before[a], EntityFor(item, tenant));
    }
  }

  lemma ProcessedOneMore(start: Entities, before: Entities, after: Entities, items: seq<Item>, faults: seq<bool>,
                         tenant: TenantId, n: nat, id: Option<Id>)
    requires n < |items| == |faults|
    requires Processed(start, before, items, faults, tenant, n)
    requires MakesEntity(items[n], faults[n]) ==> id.Some? && Made(before, after, items[n], tenant, id.value)
    requires !MakesEntity(items[n], faults[n]) ==> after == before
    ensures Processed(start, after, items, faults, tenant, n + 1)
  {
    OneMoreExtends(start, before, after, items[n], faults[n], tenant, id);
    forall x | MadeBy(items, faults, n + 1, x)
      ensures Stores(after, tenant, x)
    {
      MadeByOneMore(items, faults, n, x);
      if MadeBy(items, faults, n, x) {
        StoresKept(before, after, tenant, x);
      } else {
        assert id.value in after && after[id.value].externalId == x;
      }
    }
    forall e | e in after && e !in start
      ensures after[e].tenant == tenant && MadeBy(items, faults, n + 1, after[e].externalId)
      ensures !Stores(start, tenant, after[e].externalId)
    {
      MadeByOneMore(items, faults, n, after[e].externalId);
      if e !in before && Stores(start, tenant, after[e].externalId) {
        StoresKept(start, before, tenant, after[e].externalId);
      }
    }
    forall e | e in after && e !in start
      ensures MadeAs(items, faults, n + 1, after[e], tenant)
    {
      if e in before {
        assert after[e] == before[e] && MadeAs(items, faults, n, before[e], tenant);
      } else {
        EntityIsOfItem(items[n], tenant);
      }
    }
  }

  lemma DoneOneMore(items: seq<Item>, before: seq<Item>, after: seq<Item>, faults: seq<bool>,
                    store: Entities, store': Entities, tenant: TenantId, n: nat)
    requires n < |items| == |faults| && |after| == |before|
    requires AllDone(items, before, faults, store, tenant, n) && Extends(store, store')
    requires after == before[n := after[n]] && Done(items[n], after[n], faults[n], store', tenant)
    ensures AllDone(items, after, faults, store', tenant, n + 1)
  {
    forall k | 0 <= k < n + 1
      ensures Done(items[k], after[k], faults[k], store', tenant)
    {
      if k < n {
        assert Done(items[k], before[k], faults[k], store, tenant) && after[k] == before[k];
        if MakesEntity(items[k], faults[k]) {
          var id := after[k].createdTwin.value;
          assert id in store && id in store' && store'[id] == store[id];
        }
      }
    }
  }

  /** The first n items are handled and the others are as they were. */
  ghost predicate Handled(store: Entities, rels: seq<Relationship>, start: seq<Item>, raises: seq<bool>,
                          tenant: TenantId, n: int, items: seq<Item>, entities: Entities,
                          relationships: seq<Relationship>) {
    && 0 <= n <= |items| == |start| == |raises|
    && (forall k :: n <= k < |start| ==> items[k] == start[k])
    && AllDone(start, items, raises, entities, tenant, n)
    && Processed(store, entities, start, raises, tenant, n)
    && relationships == RelationshipsUpTo(rels, start, raises, tenant, n)
  }

  ghost predicate Tallied(start: seq<Item>, raises: seq<bool>, n: int, completed: int, failed: int) {
    && 0 <= n <= |start| == |raises|
    && failed == CountFailing(start, raises, n)
    && completed + failed == n + CountUnknown(start, n)
  }

  lemma TalliedOneMore(start: seq<Item>, raises: seq<bool>, n: nat, completed: int, failed: int, done: Item, c: int,
                       f: int, entities: Entities, rels: seq<Relationship>, entities': Entities,
                       rels': seq<Relationship>, tenant: TenantId)
    requires n < |start| && Tallied(start, raises, n, completed, failed)
    requires HandlesItem(entities, rels, start[n], tenant, raises[n], done, c, f, entities', rels')
    ensures Tallied(start, raises, n + 1, completed + c, failed + f)
  {
  }

  lemma HandledOneMore(store: Entities, rels: seq<Relationship>, start: seq<Item>, raises: seq<bool>, tenant: TenantId,
                       n: nat, items: seq<Item>, entities: Entities, relationships: seq<Relationship>,
                       done: Item, c: int, f: int, entities': Entities, relationships': seq<Relationship>)
    requires n < |start| && Handled(store, rels, start, raises, tenant, n, items, entities, relationships)
    requires HandlesItem(entities, relationships, start[n], tenant, raises[n], done, c, f, entities', relationships')
    ensures Handled(store, rels, start, raises, tenant, n + 1, items[n := done], entities', relationships')
  {
    ProcessedOneMore(store, entities, entities', start, raises, tenant, n, done.createdTwin);
    OneMoreExtends(store, entities, entities', start[n], raises[n], tenant, done.createdTwin);
    DoneOneMore(start, items, items[n := done], raises, entities, entities', tenant, n);
  }

  /** One round of the loop, for the item as it was at the start. */
  lemma RoundHandled(store: Entities, rels: seq<Relationship>, start: seq<Item>, faults: seq<bool>, tenant: TenantId,
                     n: nat, items: seq<Item>, entities: Entities, relationships: seq<Relationship>, completed: int,
                     failed: int, done: Item, c: int, f: int, entities': Entities, relationships': seq<Relationship>)
    requires n < |start| == |faults|
    requires Handled(store, rels, start, Faults(store, rels, start, tenant, faults), tenant, n, items, entities,
                     relationships)
    requires Tallied(start, Faults(store, rels, start, tenant, faults), n, completed, failed)
    requires HandlesItem(entities, relationships, items[n], tenant,
                         Raises(entities, relationships, items[n], tenant, faults[n]),
                         done, c, f, entities', relationships')
    ensures Handled(store, rels, start, Faults(store, rels, start, tenant, faults), tenant, n + 1, items[n := done],
                    entities', relationships')
    ensures Tallied(start, Faults(store, rels, start, tenant, faults), n + 1, completed + c, failed + f)
  {
    var raises := Faults(store, rels, start, tenant, faults);
    RaisesAsAtStart(store, rels, start, faults, tenant, n, items, entities, relationships);
    HandledOneMore(store, rels, start, raises, tenant, n, items, entities, relationships, done, c, f, entities',
                   relationships');
    TalliedOneMore(start, raises, n, completed, failed, done, c, f, entities, relationships, entities', relationships',
                   tenant);
  }

  lemma {:induction false} CountZero(items: seq<Item>, faults: seq<bool>, n: nat)
    requires n <= |items| == |faults|
    ensures CountFailing(items, faults, n) == 0 <==> forall k :: 0 <= k < n ==> !Fails(items[k], faults[k])
  {
    if n > 0 {
      CountZero(items, faults, n - 1);
    }
  }

  lemma NoneFailing(items: seq<Item>, done: seq<Item>, faults: seq<bool>, entities: Entities, tenant: TenantId)
    requires AllDone(items, done, faults, entities, tenant, |faults|)
    ensures CountFailing(items, faults, |faults|) == 0 <==> forall k :: 0 <= k < |done| ==> done[k].status == Completed
  {
    CountZero(items, faults, |faults|);
    forall k | 0 <= k < |done|
      ensures done[k].status == Completed <==> !Fails(items[k], faults[k])
    {
      assert Done(items[k], done[k], faults[k], entities, tenant);
    }
  }

  /** An item ends as failed exactly if its action is unknown, or the repositories raise while an entity or a
      relationship of two twins is made; otherwise as completed. */
  lemma StatusesAre(items: seq<Item>, done: seq<Item>, raises: seq<bool>, entities: Entities, tenant: TenantId)
    requires AllDone(items, done, raises, entities, tenant, |items|)
    ensures forall k :: 0 <= k < |items| ==>
              && (done[k].status == Failed <==> MustFail(items[k], raises[k]))
              && (done[k].status == Completed <==> !MustFail(items[k], raises[k]))
  {
    forall k | 0 <= k < |items|
      ensures done[k].status == if MustFail(items[k], raises[k]) then Failed else Completed
    {
      assert Done(items[k], done[k], raises[k], entities, tenant);
    }
  }

  ghost predicate MustFail(item: Item, raises: bool) {
    match item.action
    case CreateEntity => raises
    case CreateRelationship => raises && item.sourceTwin.Some? && item.targetTwin.Some?
    case Other(_) => true
  }

  /** The failure counter is the number of items that end as failed, and the surplus of the two counters over the
      number of items is the number of unknown actions. */
  lemma CountersCount(items: seq<Item>, done: seq<Item>, raises: seq<bool>, entities: Entities, tenant: TenantId)
    requires AllDone(items, done, raises, entities, tenant, |items|)
    ensures CountFailing(items, raises, |items|) == |FailedAmong(done, |done|)|
    ensures CountUnknown(items, |items|) == |UnknownAmong(items, |items|)|
  {
    StatusesAre(items, done, raises, entities, tenant);
    FailingAreCounted(items, done, raises, |items|);
    UnknownAreCounted(items, |items|);
  }

  ghost function FailedAmong(done: seq<Item>, n: nat): set<int>
    requires n <= |done|
  {
    set k | 0 <= k < n && done[k].status == Failed
  }

  ghost function UnknownAmong(items: seq<Item>, n: nat): set<int>
    requires n <= |items|
  {
    set k | 0 <= k < n && items[k].action.Other?
  }

  lemma {:induction false} FailingAreCounted(items: seq<Item>, done: seq<Item>, raises: seq<bool>, n: nat)
    requires n <= |items| == |raises| == |done|
    requires forall k :: 0 <= k < |items| ==> (done[k].status == Failed <==> MustFail(items[k], raises[k]))
    ensures CountFailing(items, raises, n) == |FailedAmong(done, n)|
  {
    if n > 0 {
      FailingAreCounted(items, done, raises, n - 1);
      FailedOneMore(done, n - 1);
    } else {
      assert FailedAmong(done, 0) == {};
    }
  }

  lemma FailedOneMore(done: seq<Item>, n: nat)
    requires n < |done|
    ensures |FailedAmong(done, n + 1)| == |FailedAmong(done, n)| + if done[n].status == Failed then 1 else 0
  {
    assert FailedAmong(done, n + 1) == FailedAmong(done, n) + if done[n].status == Failed then {n} else {};
    assert n !in FailedAmong(done, n);
  }

  lemma {:induction false} UnknownAreCounted(items: seq<Item>, n: nat)
    requires n <= |items|
    ensures CountUnknown(items, n) == |UnknownAmong(items, n)|
  {
    if n > 0 {
      UnknownAreCounted(items, n - 1);
      var last := n - 1;
      assert UnknownAmong(items, n) == UnknownAmong(items, last) + if items[last].action.Other? then {last} else {};
      assert last !in UnknownAmong(items, last);
    } else {
      assert UnknownAmong(items, 0) == {};
    }
  }

  /** Afterwards the store knows exactly the external ids it knew before and those of the made items. */
  lemma StoredExactly(before: Entities, after: Entities, items: seq<Item>, faults: seq<bool>, tenant: TenantId,
                      x: string)
    requires |items| == |faults| && Processed(before, after, items, faults, tenant, |items|)
    ensures Stores(after, tenant, x) <==> Stores(before, tenant, x) || MadeBy(items, faults, |items|, x)
  {
    if Stores(before, tenant, x) {
      StoresKept(before, after, tenant, x);
    }
    if id :| id in after && after[id].tenant == tenant && after[id].externalId == x {
      if id in before {
        assert before[id] == after[id];
      }
    }
  }

  /** The k-th item is to make an entity with this external id, and fails. */
  ghost predicate FailsToMake(items: seq<Item>, faults: seq<bool>, k: int, externalId: string) {
    && 0 <= k < |items| == |faults|
    && items[k].action.CreateEntity? && faults[k] && items[k].externalId == externalId
  }

  /** Handling the same items again creates entities only for items that failed the first time; if every entity item
      succeeded, the store does not change at all, whatever happens the second time. */
  lemma RepeatingCreatesNothing(before: Entities, once: Entities, twice: Entities, items: seq<Item>,
                                faults: seq<bool>, faultsAgain: seq<bool>, tenant: TenantId)
    requires |items| == |faults| == |faultsAgain|
    requires Processed(before, once, items, faults, tenant, |items|)
    requires Processed(once, twice, items, faultsAgain, tenant, |items|)
    ensures forall id :: id in twice && id !in once ==>
              exists k :: FailsToMake(items, faults, k, twice[id].externalId)
    ensures (forall k :: 0 <= k < |items| && items[k].action.CreateEntity? ==> !faults[k]) ==> twice == once
  {
    forall id | id in twice && id !in once
      ensures exists k :: FailsToMake(items, faults, k, twice[id].externalId)
    {
      var x := twice[id].externalId;
      var k :| 0 <= k < |items| && MakesEntity(items[k], faultsAgain[k]) && items[k].externalId == x;
      StoredExactly(before, once, items, faults, tenant, x);
      assert !MadeBy(items, faults, |items|, x);
      assert FailsToMake(items, faults, k, x);
    }
    if forall k :: 0 <= k < |items| && items[k].action.CreateEntity? ==> !faults[k] {
      forall id | id in twice
        ensures id in once
      {
      }
      forall id | id in once
        ensures id in twice && twice[id] == once[id]
      {
      }
      assert twice.Keys == once.Keys;
    }
  }

  lemma {:induction false} NoUnknown(items: seq<Item>, n: nat)
    requires n <= |items| && forall k :: 0 <= k < n ==> !items[k].action.Other?
    ensures CountUnknown(items, n) == 0
  {
    if n > 0 {
      NoUnknown(items, n - 1);
    }
  }

  /** An item of a generated plan either makes the entity of a node, or relates nodes but names no twins. */
  lemma GeneratedItemIs(plan: seq<Item>, nodes: seq<Node>, template: Id, item: Item)
    requires AreGenerated(plan, nodes, template) && item in plan
    ensures || item.action.CreateEntity?
            || (item.action.CreateRelationship? && item.sourceTwin.None? && item.targetTwin.None?)
    ensures item.action.CreateEntity? ==> exists i :: 0 <= i < |nodes| && item == EntityItem(nodes[i], template)
  {
    var n := |nodes|;
    var k :| 0 <= k < |plan| && plan[k] == item;
    if k < n {
      assert item == plan[..n][k] == EntityItem(nodes[k], template);
    } else {
      assert item == plan[n..][k - n] == PairItem(nodes, template, AllPairs(n)[k - n]);
    }
  }

  lemma ListedFromPlan(plan: seq<Item>, items: seq<Item>)
    requires multiset(items) == multiset(plan)
    ensures |items| == |plan|
    ensures forall k {:trigger items[k]} :: 0 <= k < |items| ==> items[k] in plan
    ensures forall item :: item in plan ==> item in items
  {
    assert |multiset(items)| == |multiset(plan)|;
    forall k | 0 <= k < |items|
      ensures items[k] in plan
    {
      assert items[k] in multiset(items);
    }
    forall item | item in plan
      ensures item in items
    {
      assert item in multiset(plan);
    }
  }

  /** The items of a generated plan are all of known action, in whatever order they are listed. */
  lemma GeneratedItemsAreKnown(plan: seq<Item>, items: seq<Item>, nodes: seq<Node>, template: Id)
    requires AreGenerated(plan, nodes, template) && multiset(items) == multiset(plan)
    ensures CountUnknown(items, |items|) == 0
  {
    ListedFromPlan(plan, items);
    forall k | 0 <= k < |items|
      ensures !items[k].action.Other?
    {
      GeneratedItemIs(plan, nodes, template, items[k]);
    }
    NoUnknown(items, |items|);
  }

  // ---------------------------------------------------------------- relationships

  ghost predicate AtMostOneEach(rels: seq<Relationship>) {
    forall i, j :: 0 <= i < j < |rels| ==>
      !(rels[i].tenant == rels[j].tenant && rels[i].source == rels[j].source && rels[i].target == rels[j].target)
  }

  ghost predicate RelatesTwins(item: Item) {
    item.action.CreateRelationship? && item.sourceTwin.Some? && item.targetTwin.Some?
  }

  ghost predicate IsRelated(item: Item, tenant: TenantId, rels: seq<Relationship>) {
    item.sourceTwin.Some? && item.targetTwin.Some?
      && Related(rels, tenant, item.sourceTwin.value, item.targetTwin.value)
  }

  /** Executing items keeps at most one relationship per tenant and pair of twins, keeps the earlier ones, and leaves
      one for every relationship item that names both twins and does not fail. */
  lemma {:induction false} RelationshipsStayUnique(before: seq<Relationship>, items: seq<Item>, faults: seq<bool>,
                                                   tenant: TenantId, n: nat)
    requires n <= |items| == |faults| && AtMostOneEach(before)
    ensures var after := RelationshipsUpTo(before, items, faults, tenant, n);
            && AtMostOneEach(after) && before <= after
            && forall k :: 0 <= k < n && RelatesTwins(items[k]) && !faults[k] ==> IsRelated(items[k], tenant, after)
  {
    if n > 0 {
      RelationshipsStayUnique(before, items, faults, tenant, n - 1);
      var mid := RelationshipsUpTo(before, items, faults, tenant, n - 1);
      RelatedOneMore(mid, items[n - 1], faults[n - 1], tenant);
      var after := RelationshipsUpTo(before, items, faults, tenant, n);
      forall k | 0 <= k < n - 1 && IsRelated(items[k], tenant, mid)
        ensures IsRelated(items[k], tenant, after)
      {
        StaysRelated(mid, after, items[k], tenant);
      }
    }
  }

  lemma StaysRelated(before: seq<Relationship>, after: seq<Relationship>, item: Item, tenant: TenantId)
    requires before <= after && IsRelated(item, tenant, before)
    ensures IsRelated(item, tenant, after)
  {
    assert forall r :: r in before ==> r in after;
  }

  lemma RelatedOneMore(before: seq<Relationship>, item: Item, raises: bool, tenant: TenantId)
    requires AtMostOneEach(before)
    ensures var after := RelationshipsStep(before, item, raises, tenant);
            && AtMostOneEach(after) && before <= after
            && (RelatesTwins(item) && !raises ==> IsRelated(item, tenant, after))
  {
    var after := RelationshipsStep(before, item, raises, tenant);
    if after != before {
      assert after[|before|] in after;
      assert forall i :: 0 <= i < |before| ==> before[i] in before;
    }
  }

  /** The type the item asks for, and "contains" where it asks for none. */
  ghost predicate KindAsked(item: Item, kind: string) {
    if item.relType.Some? && item.relType.value != "" then kind == item.relType.value else kind == "contains"
  }

  /** The relationship is what one of the first n items asks for, one that does not raise. */
  ghost predicate Asked(items: seq<Item>, faults: seq<bool>, n: nat, rel: Relationship, tenant: TenantId)
    requires n <= |items| == |faults|
  {
    exists k :: 0 <= k < n && RelatesTwins(items[k]) && !faults[k]
                && Joins(rel, tenant, items[k].sourceTwin.value, items[k].targetTwin.value)
                && KindAsked(items[k], rel.kind)
  }

  /** Every relationship that executing items creates joins the twins of some item, under the type asked for. */
  lemma {:induction false} NewRelationshipsAreAsked(before: seq<Relationship>, items: seq<Item>, faults: seq<bool>,
                                                    tenant: TenantId, n: nat)
    requires n <= |items| == |faults|
    ensures var after := RelationshipsUpTo(before, items, faults, tenant, n);
            && before <= after
            && forall i {:trigger after[i]} :: |before| <= i < |after| ==> Asked(items, faults, n, after[i], tenant)
  {
    if n > 0 {
      NewRelationshipsAreAsked(before, items, faults, tenant, n - 1);
      var mid := RelationshipsUpTo(before, items, faults, tenant, n - 1);
      var after := RelationshipsUpTo(before, items, faults, tenant, n);
      forall i | |before| <= i < |after|
        ensures Asked(items, faults, n, after[i], tenant)
      {
        if i < |mid| {
          assert after[i] == mid[i] && Asked(items, faults, n - 1, mid[i], tenant);
        }
      }
    }
  }

  /** The planner leaves both twins of its relationship items open and the executor never fills them in, so executing
      a generated plan creates no relationship, although those items end as completed. */
  lemma {:induction false} GeneratedItemsRelateNothing(before: seq<Relationship>, items: seq<Item>, faults: seq<bool>,
                                                       tenant: TenantId, n: nat)
    requires n <= |items| == |faults|
    requires forall k :: 0 <= k < n && items[k].action.CreateRelationship? ==>
              items[k].sourceTwin.None? && items[k].targetTwin.None?
    ensures RelationshipsUpTo(before, items, faults, tenant, n) == before
    ensures forall k :: 0 <= k < n && items[k].action.CreateRelationship? ==> !Fails(items[k], faults[k])
  {
    if n > 0 {
      GeneratedItemsRelateNothing(before, items, faults, tenant, n - 1);
    }
  }

  // ---------------------------------------------------------------- planner and executor together

  /** The k-th item is that of the i-th node and does not raise. */
  ghost predicate MakesNode(items: seq<Item>, raises: seq<bool>, nodes: seq<Node>, template: Id, k: int, i: int) {
    && 0 <= k < |items| == |raises| && 0 <= i < |nodes|
    && items[k] == EntityItem(nodes[i], template) && !raises[k]
  }

  /** Executing the items of a generated plan in any order, with any of them raising: completed and failed add up to
      n (n + 1) / 2, no relationship is created, no relationship item fails, and entities are made for exactly the
      external ids of the nodes whose item does not raise. */
  lemma GeneratedPlanRuns(plan: seq<Item>, items: seq<Item>, nodes: seq<Node>, template: Id, raises: seq<bool>,
                          rels: seq<Relationship>, tenant: TenantId)
    requires AreGenerated(plan, nodes, template)
    requires multiset(items) == multiset(plan) && |raises| == |items|
    ensures 2 * (|items| + CountUnknown(items, |items|)) == |nodes| * (|nodes| + 1)
    ensures RelationshipsUpTo(rels, items, raises, tenant, |items|) == rels
    ensures forall k :: 0 <= k < |items| && items[k].action.CreateRelationship? ==> !Fails(items[k], raises[k])
    ensures forall x :: MadeBy(items, raises, |items|, x) <==>
              exists k, i :: MakesNode(items, raises, nodes, template, k, i) && ExternalId(nodes[i]) == x
    ensures forall i :: 0 <= i < |nodes| ==> exists k :: 0 <= k < |items| && items[k] == EntityItem(nodes[i], template)
  {
    ListedFromPlan(plan, items);
    GeneratedItemsAreKnown(plan, items, nodes, template);
    forall k | 0 <= k < |items| && items[k].action.CreateRelationship?
      ensures items[k].sourceTwin.None? && items[k].targetTwin.None?
    {
      GeneratedItemIs(plan, nodes, template, items[k]);
    }
    GeneratedItemsRelateNothing(rels, items, raises, tenant, |items|);
    forall x
      ensures MadeBy(items, raises, |items|, x) <==>
              exists k, i :: MakesNode(items, raises, nodes, template, k, i) && ExternalId(nodes[i]) == x
    {
      NodesAreMade(plan, items, nodes, template, raises, x);
    }
    forall i | 0 <= i < |nodes|
      ensures exists k :: 0 <= k < |items| && items[k] == EntityItem(nodes[i], template)
    {
      assert plan[..|nodes|][i] == plan[i] && plan[i] in plan && plan[i] in items;
    }
  }

  lemma NodesAreMade(plan: seq<Item>, items: seq<Item>, nodes: seq<Node>, template: Id, raises: seq<bool>, x: string)
    requires AreGenerated(plan, nodes, template)
    requires multiset(items) == multiset(plan) && |raises| == |items|
    ensures MadeBy(items, raises, |items|, x) <==>
            exists k, i :: MakesNode(items, raises, nodes, template, k, i) && ExternalId(nodes[i]) == x
  {
    ListedFromPlan(plan, items);
    if MadeBy(items, raises, |items|, x) {
      var k :| 0 <= k < |items| && MakesEntity(items[k], raises[k]) && items[k].externalId == x;
      GeneratedItemIs(plan, nodes, template, items[k]);
      var i :| 0 <= i < |nodes| && items[k] == EntityItem(nodes[i], template);
      assert MakesNode(items, raises, nodes, template, k, i);
    }
    if k, i :| MakesNode(items, raises, nodes, template, k, i) && ExternalId(nodes[i]) == x {
      assert MakesEntity(items[k], raises[k]);
    }
  }

  /** External ids are unique exactly if no look-up of an entity finds several, and pairs are related once exactly if no
      look-up of a relationship does. */
  lemma UniqueExactly(entities: Entities, rels: seq<Relationship>)
    ensures AtMostOne(entities) <==> forall tenant, x :: !Ambiguous(entities, tenant, x)
    ensures AtMostOneEach(rels) <==> forall tenant, a, b :: !MultiplyRelated(rels, tenant, a, b)
  {
    if forall tenant, x :: !Ambiguous(entities, tenant, x) {
      forall a, b | a in entities && b in entities && SameKey(entities[a], entities[b])
        ensures a == b
      {
        assert !Ambiguous(entities, entities[a].tenant, entities[a].externalId);
        assert Matches(entities, a, entities[a].tenant, entities[a].externalId);
        assert Matches(entities, b, entities[a].tenant, entities[a].externalId);
      }
    }
    if forall tenant, a, b :: !MultiplyRelated(rels, tenant, a, b) {
      forall i, j | 0 <= i < j < |rels|
        ensures !(rels[i].tenant == rels[j].tenant && rels[i].source == rels[j].source
          && rels[i].target == rels[j].target)
      {
        assert !MultiplyRelated(rels, rels[i].tenant, rels[i].source, rels[i].target);
        assert Joins(rels[i], rels[i].tenant, rels[i].source, rels[i].target);
      }
    }
  }

  /** Where external ids and related pairs are unique, the lookups themselves never raise. */
  lemma UniqueStoresRaiseNothing(entities: Entities, rels: seq<Relationship>, items: seq<Item>, tenant: TenantId,
                                 faults: seq<bool>)
    requires AtMostOne(entities) && AtMostOneEach(rels) && |faults| == |items|
    ensures Faults(entities, rels, items, tenant, faults) == faults
  {
    assert forall x :: !Ambiguous(entities, tenant, x);
  }

  // ---------------------------------------------------------------- one entity per node

  ghost predicate DifferentPrefixes(nodes: seq<Node>) {
    forall i, j :: 0 <= i < j < |nodes| ==> nodes[i].id[..8] != nodes[j].id[..8]
  }

  /** The twin that the item of the i-th node has been given. */
  ghost predicate IsTwinOf(plan: seq<Item>, items: seq<Item>, done: seq<Item>, i: int, id: Id) {
    0 <= i < |plan| && exists k :: 0 <= k < |items| == |done| && items[k] == plan[i] && done[k].createdTwin == Some(id)
  }

  /** The run of a generated plan, with its items in any order and without a raise, on a store that knows none of the
      plan's external ids. */
  ghost predicate RunsSmoothly(plan: seq<Item>, items: seq<Item>, done: seq<Item>, raises: seq<bool>,
                               nodes: seq<Node>, before: Entities, after: Entities, tenant: TenantId) {
    && |nodes| <= |plan| && multiset(items) == multiset(plan)
    && |raises| == |items| && (forall k :: 0 <= k < |items| ==> !raises[k])
    && (forall i :: 0 <= i < |nodes| ==> !Stores(before, tenant, plan[i].externalId))
    && AllDone(items, done, raises, after, tenant, |items|)
    && Processed(before, after, items, raises, tenant, |items|)
  }

  /** The node's item has a twin: a new entity under the node's external id. */
  lemma NodeHasTwin(plan: seq<Item>, items: seq<Item>, done: seq<Item>, raises: seq<bool>, nodes: seq<Node>,
                    template: Id, before: Entities, after: Entities, tenant: TenantId, i: nat) returns (id: Id)
    requires Describe(plan, nodes, template) && i < |nodes|
    requires RunsSmoothly(plan, items, done, raises, nodes, before, after, tenant)
    ensures IsTwinOf(plan, items, done, i, id)
    ensures id in after && id !in before
    ensures after[id].tenant == tenant && after[id].externalId == plan[i].externalId
      && after[id].definition == Some(template)
    ensures IsTitle(after[id].name, plan[i].externalId)
  {
    ListedFromPlan(plan, items);
    assert plan[i] in plan && IsNew(plan[i], CreateEntity, template);
    var k :| 0 <= k < |items| && items[k] == plan[i];
    assert Done(items[k], done[k], raises[k], after, tenant);
    id := done[k].createdTwin.value;
    NewEntityIs(plan, items, done, raises, nodes, template, before, after, tenant, id);
  }

  lemma NewEntityIs(plan: seq<Item>, items: seq<Item>, done: seq<Item>, raises: seq<bool>, nodes: seq<Node>,
                    template: Id, before: Entities, after: Entities, tenant: TenantId, id: Id)
    requires Describe(plan, nodes, template)
    requires RunsSmoothly(plan, items, done, raises, nodes, before, after, tenant)
    requires id in after && id !in before
    ensures after[id].definition == Some(template) && IsTitle(after[id].name, after[id].externalId)
  {
    ListedFromPlan(plan, items);
    assert MadeAs(items, raises, |items|, after[id], tenant);
    var k :| 0 <= k < |items| && MakesEntity(items[k], raises[k]) && IsEntityOf(after[id], items[k], tenant);
    assert items[k] in plan;
    var i :| 0 <= i < |plan| && plan[i] == items[k];
    PairsFollowNodes(plan, nodes, template, i);
    assert IsNew(plan[i], CreateEntity, template);
  }

  /** A new entity is the twin of some node. */
  lemma TwinHasNode(plan: seq<Item>, items: seq<Item>, done: seq<Item>, raises: seq<bool>, nodes: seq<Node>,
                    template: Id, before: Entities, after: Entities, tenant: TenantId, id: Id) returns (i: nat)
    requires Describe(plan, nodes, template)
    requires RunsSmoothly(plan, items, done, raises, nodes, before, after, tenant)
    requires id in after && id !in before
    ensures i < |nodes| && after[id].tenant == tenant && after[id].externalId == plan[i].externalId
  {
    ListedFromPlan(plan, items);
    var x := after[id].externalId;
    assert MadeBy(items, raises, |items|, x);
    var k :| 0 <= k < |items| && MakesEntity(items[k], raises[k]) && items[k].externalId == x;
    assert items[k] in plan;
    i :| 0 <= i < |plan| && plan[i] == items[k];
    PairsFollowNodes(plan, nodes, template, i);
  }

  lemma PairsFollowNodes(plan: seq<Item>, nodes: seq<Node>, template: Id, i: nat)
    requires Describe(plan, nodes, template) && i < |plan|
    ensures plan[i].action == if i < |nodes| then CreateEntity else CreateRelationship
  {
    if i >= |nodes| {
      assert IsPairOf(plan, AllPairs(|nodes|)[i - |nodes|], i, template);
    }
  }

  /** The twins of the nodes, one each: all new, no two equal, and no other entity is new. */
  ghost predicate AreTwins(plan: seq<Item>, items: seq<Item>, done: seq<Item>, nodes: seq<Node>, before: Entities,
                           after: Entities, tenant: TenantId, twins: seq<Id>) {
    && |twins| == |nodes| && Distinct(twins)
    && Elements(twins) == after.Keys - before.Keys
    && forall i {:trigger twins[i]} :: 0 <= i < |nodes| ==>
         && IsTwinOf(plan, items, done, i, twins[i]) && twins[i] in after
         && IsEntityOf(after[twins[i]], plan[i], tenant) && Names(after[twins[i]].externalId, nodes[i])
  }

  lemma {:induction false} TwinsOfFirst(plan: seq<Item>, items: seq<Item>, done: seq<Item>, raises: seq<bool>,
                                        nodes: seq<Node>, template: Id, before: Entities, after: Entities,
                                        tenant: TenantId, n: nat) returns (twins: seq<Id>)
    requires Describe(plan, nodes, template) && n <= |nodes|
    requires RunsSmoothly(plan, items, done, raises, nodes, before, after, tenant)
    ensures |twins| == n
    ensures forall i {:trigger twins[i]} :: 0 <= i < n ==>
              && IsTwinOf(plan, items, done, i, twins[i]) && twins[i] in after && twins[i] !in before
              && IsEntityOf(after[twins[i]], plan[i], tenant)
  {
    if n == 0 {
      twins := [];
    } else {
      twins := TwinsOfFirst(plan, items, done, raises, nodes, template, before, after, tenant, n - 1);
      var id := NodeHasTwin(plan, items, done, raises, nodes, template, before, after, tenant, n - 1);
      twins := twins + [id];
    }
  }

  /** Executing a generated plan for nodes with different UUID prefixes on a store that knows none of its external
      ids, with nothing raising: the store gains exactly one entity per node, under an external id that names the node,
      and the nodes' items are given these as their different twins. */
  lemma OneEntityPerNode(plan: seq<Item>, items: seq<Item>, done: seq<Item>, raises: seq<bool>, nodes: seq<Node>,
                         template: Id, before: Entities, after: Entities, tenant: TenantId) returns (twins: seq<Id>)
    requires Describe(plan, nodes, template) && DifferentPrefixes(nodes)
    requires RunsSmoothly(plan, items, done, raises, nodes, before, after, tenant)
    ensures AreTwins(plan, items, done, nodes, before, after, tenant, twins)
    ensures before.Keys <= after.Keys && |after| == |before| + |nodes|
  {
    twins := TwinsOfFirst(plan, items, done, raises, nodes, template, before, after, tenant, |nodes|);
    TwinsDiffer(plan, nodes, template, after, tenant, twins);
    forall id | id in after && id !in before
      ensures id in twins
    {
      var i := TwinHasNode(plan, items, done, raises, nodes, template, before, after, tenant, id);
      assert SameKey(after[id], after[twins[i]]);
    }
    NewAreCounted(before, after, twins);
  }

  lemma TwinsDiffer(plan: seq<Item>, nodes: seq<Node>, template: Id, after: Entities, tenant: TenantId, twins: seq<Id>)
    requires Describe(plan, nodes, template) && DifferentPrefixes(nodes) && |twins| == |nodes|
    requires forall i {:trigger twins[i]} :: 0 <= i < |twins| ==>
               twins[i] in after && after[twins[i]].externalId == plan[i].externalId
    ensures Distinct(twins)
  {
    forall i, j | 0 <= i < j < |twins|
      ensures twins[i] != twins[j]
    {
      DifferentPrefixesDiffer(plan[i].externalId, nodes[i], plan[j].externalId, nodes[j]);
    }
  }

  lemma NewAreCounted(before: Entities, after: Entities, twins: seq<Id>)
    requires Distinct(twins) && forall id :: id in before ==> id in after
    requires forall id :: id in twins <==> id in after && id !in before
    ensures Elements(twins) == after.Keys - before.Keys
    ensures |after| == |before| + |twins|
  {
    DistinctCardinality(twins);
    forall id
      ensures id in after.Keys <==> id in before.Keys + Elements(twins)
    {
      assert id in before ==> id in after;
    }
    assert after.Keys == before.Keys + Elements(twins);
  }
}
