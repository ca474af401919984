/** The concept hierarchy: OntologyService in services/ontology/services.py. */
module Ontology {
  import opened Common

  type ConceptId = int
  type TenantId = int

  datatype Concept = Concept(
    tenant: TenantId, code: string, name: string, category: string, description: Option<string>,
    parent: Option<ConceptId>)

  /** The concept table; `order` is the order in which the database visits the rows. */
  datatype Store = Store(rows: map<ConceptId, Concept>, order: seq<ConceptId>) {
    /** `get_by_id_for_tenant`. */
    function Get(id: ConceptId, tenant: TenantId): Option<Concept> {
      if id in rows && rows[id].tenant == tenant then Some(rows[id]) else None
    }

    predicate CodeTaken(code: string, tenant: TenantId) {
      exists id :: id in rows && rows[id].tenant == tenant && rows[id].code == code
    }

    function Insert(id: ConceptId, c: Concept): Store {
      Store(rows[id := c], order + [id])
    }

    function Replace(id: ConceptId, c: Concept): Store {
      this.(rows := rows[id := c])
    }

    /** Walks up the ancestors of the proposed parent, at most 101 of them. */
    predicate WouldCreateCycle(newParent: ConceptId, self: ConceptId, tenant: TenantId, depth: nat)
      decreases 101 - depth
    {
      if depth > 100 then true
      else if newParent == self then true
      else
        var parent := Get(newParent, tenant);
        if parent.None? || parent.value.parent.None? then false
        else WouldCreateCycle(parent.value.parent.value, self, tenant, depth + 1)
    }

    /** The n-th concept of the ancestor chain that starts with `id` itself. */
    ghost function Nth(tenant: TenantId, id: ConceptId, n: nat): Option<ConceptId>
      decreases n
    {
      if n == 0 then Some(id)
      else if Get(id, tenant).None? || Get(id, tenant).value.parent.None? then None
      else Nth(tenant, Get(id, tenant).value.parent.value, n - 1)
    }

    ghost predicate OnChain(tenant: TenantId, id: ConceptId, ancestor: ConceptId) {
      exists n: nat :: Nth(tenant, id, n) == Some(ancestor)
    }

    // -------------------------------------------------------------- the invariant

    ghost predicate ParentBelow(rank: map<ConceptId, nat>, id: ConceptId)
      requires id in rows && id in rank
    {
      rows[id].parent.Some? ==>
        var p := rows[id].parent.value;
        p in rows && rows[p].tenant == rows[id].tenant && p in rank && rank[p] < rank[id]
    }

    /** Parents exist, belong to the same tenant and have a smaller rank. */
    ghost predicate Ranked(rank: map<ConceptId, nat>) {
      rank.Keys == rows.Keys && forall id {:trigger ParentBelow(rank, id)} :: id in rows ==> ParentBelow(rank, id)
    }

    ghost predicate UniqueCodes() {
      forall a, b ::
        a in rows && b in rows && rows[a].tenant == rows[b].tenant && rows[a].code == rows[b].code ==> a == b
    }

    /** The visiting order lists every row once, and codes are unique within a tenant. */
    ghost predicate Table() {
      Distinct(order) && Elements(order) == rows.Keys && UniqueCodes()
    }

    ghost predicate Forest() {
      Table() && exists rank :: Ranked(rank)
    }
  }

  // ---------------------------------------------------------------- the cycle check

  lemma {:induction false} ChainIsUnbroken(s: Store, tenant: TenantId, id: ConceptId, m: nat, n: nat)
    requires m <= n && s.Nth(tenant, id, n).Some?
    ensures s.Nth(tenant, id, m).Some?
    decreases n
  {
    if m > 0 {
      ChainIsUnbroken(s, tenant, s.Get(id, tenant).value.parent.value, m - 1, n - 1);
    }
  }

  lemma {:induction false} CycleCheckFrom(s: Store, tenant: TenantId, p: ConceptId, self: ConceptId, depth: nat)
    requires depth <= 101
    ensures s.WouldCreateCycle(p, self, tenant, depth) <==>
              (s.OnChain(tenant, p, self) || s.Nth(tenant, p, 101 - depth).Some?)
    decreases 101 - depth
  {
    if depth <= 100 && p != self {
      var parent := s.Get(p, tenant);
      if parent.None? || parent.value.parent.None? {
        forall n: nat
          ensures s.Nth(tenant, p, n) != Some(self)
        {
        }
      } else {
        var q := parent.value.parent.value;
        CycleCheckFrom(s, tenant, q, self, depth + 1);
        if n: nat :| s.Nth(tenant, p, n) == Some(self) {
          assert s.Nth(tenant, q, n - 1) == Some(self);
        }
        if n: nat :| s.Nth(tenant, q, n) == Some(self) {
          assert s.Nth(tenant, p, n + 1) == Some(self);
        }
      }
    } else if p == self {
      assert s.Nth(tenant, p, 0) == Some(self);
    }
  }

  /** The check answers true exactly when the concept is on the proposed parent's ancestor chain or that chain has
      more than 101 concepts, in any store, with or without cycles. */
  lemma CycleCheckIsExact(s: Store, tenant: TenantId, newParent: ConceptId, self: ConceptId)
    ensures s.WouldCreateCycle(newParent, self, tenant, 0) <==>
              (s.OnChain(tenant, newParent, self) || s.Nth(tenant, newParent, 101).Some?)
  {
    CycleCheckFrom(s, tenant, newParent, self, 0);
  }

  /** Ranks fall along the chain, so a ranked hierarchy has no cycle. */
  lemma {:induction false} RankFalls(s: Store, rank: map<ConceptId, nat>, tenant: TenantId, id: ConceptId, n: nat,
                                     x: ConceptId)
    requires s.Ranked(rank) && s.Get(id, tenant).Some? && s.Nth(tenant, id, n) == Some(x)
    ensures s.Get(x, tenant).Some? && rank[x] + n <= rank[id]
    decreases n
  {
    if n > 0 {
      assert s.ParentBelow(rank, id);
      RankFalls(s, rank, tenant, s.rows[id].parent.value, n - 1, x);
    }
  }

  lemma ForestHasNoCycle(s: Store, tenant: TenantId, id: ConceptId, n: nat)
    requires s.Forest() && s.Get(id, tenant).Some? && n > 0
    ensures s.Nth(tenant, id, n) != Some(id)
  {
    if s.Nth(tenant, id, n) == Some(id) {
      var rank :| s.Ranked(rank);
      RankFalls(s, rank, tenant, id, n, id);
    }
  }

  // ---------------------------------------------------------------- requests

  datatype CreateRequest = CreateRequest(
    code: string, name: string, category: string, parent: Option<ConceptId>, description: Option<string>)

  datatype UpdateRequest = UpdateRequest(name: Option<string>, description: Option<string>, parent: Option<ConceptId>)

  datatype OntologyError =
    | DuplicateCode(code: string)
    | InvalidCategory(category: string)
    | ParentNotFound(parent: ConceptId)
    | CircularReference
    | ConceptNotFound(id: ConceptId)

  function Lower(s: string): string {
    seq(|s|, i requires 0 <= i < |s| => LowerChar(s[i]))
  }

  const CATEGORIES := {"general", "physical", "logical", "spatial", "temporal", "behavioral"}

  function CreateOutcome(s: Store, req: CreateRequest, tenant: TenantId): Option<OntologyError> {
    if s.CodeTaken(Lower(req.code), tenant) then Some(DuplicateCode(req.code))
    else if Lower(req.category) !in CATEGORIES then Some(InvalidCategory(req.category))
    else if req.parent.Some? then
      if s.Get(req.parent.value, tenant).None? then Some(ParentNotFound(req.parent.value)) else Some(CircularReference)
    else None
  }

  function NewConcept(req: CreateRequest, tenant: TenantId): Concept {
    Concept(tenant, Lower(req.code), req.name, Lower(req.category), req.description, req.parent)
  }

  /** Why the parent of a request is refused, if it is. */
  function ParentOutcome(s: Store, id: ConceptId, parent: Option<ConceptId>, tenant: TenantId): Option<OntologyError> {
    if parent.None? then None
    else if s.Get(parent.value, tenant).None? then Some(ParentNotFound(parent.value))
    else if s.WouldCreateCycle(parent.value, id, tenant, 0) then Some(CircularReference)
    else None
  }

  /** Name and description are assigned before the parent is examined, so in the session they change even when it
      is refused. */
  function EditedConcept(s: Store, id: ConceptId, c: Concept, req: UpdateRequest, tenant: TenantId): Concept {
    c.(name := if req.name.Some? then req.name.value else c.name,
       description := if req.description.Some? then req.description else c.description,
       parent := if req.parent.Some? && ParentOutcome(s, id, req.parent, tenant).None? then req.parent else c.parent)
  }

  ghost predicate SameLinks(s: Store, t: Store) {
    && s.rows.Keys == t.rows.Keys
    && forall id :: id in s.rows ==> s.rows[id].tenant == t.rows[id].tenant && s.rows[id].parent == t.rows[id].parent
  }

  lemma {:induction false} SameLinksSameCheck(s: Store, t: Store, p: ConceptId, self: ConceptId, tenant: TenantId,
                                              depth: nat)
    requires SameLinks(s, t)
    ensures s.WouldCreateCycle(p, self, tenant, depth) == t.WouldCreateCycle(p, self, tenant, depth)
    decreases 101 - depth
  {
    if depth <= 100 && p != self && s.Get(p, tenant).Some? && s.Get(p, tenant).value.parent.Some? {
      SameLinksSameCheck(s, t, s.Get(p, tenant).value.parent.value, self, tenant, depth + 1);
    }
  }

  class OntologyService {
    var store: Store

    constructor ()
      ensures store == Store(map[], [])
    {
      store := Store(map[], []);
    }

    /** `create_concept`; `newId` is the new UUID. */
    method CreateConcept(req: CreateRequest, tenant: TenantId, newId: ConceptId)
      returns (r: Result<Concept, OntologyError>)
      requires newId !in store.rows
      modifies this
      ensures r.Err? <==> CreateOutcome(old(store), req, tenant).Some?
      ensures r.Err? ==> r.error == CreateOutcome(old(store), req, tenant).value && store == old(store)
      ensures r.Ok? ==> r.value == NewConcept(req, tenant) && store == old(store).Insert(newId, r.value)
      ensures store == NextStore(old(store), Create(req, tenant, newId))
    {
      if store.CodeTaken(Lower(req.code), tenant) {
        return Err(DuplicateCode(req.code));
      }
      if Lower(req.category) !in CATEGORIES {
        return Err(InvalidCategory(req.category));
      }
      if req.parent.Some? {
        var parent := store.Get(req.parent.value, tenant);
        if parent.None? {
          return Err(ParentNotFound(req.parent.value));
        }
        if store.WouldCreateCycle(req.parent.value, req.parent.value, tenant, 0) {
          return Err(CircularReference);
        }
      }
      var concept := Concept(tenant, Lower(req.code), req.name, Lower(req.category), req.description, req.parent);
      store := store.Insert(newId, concept);
      return Ok(concept);
    }

    method UpdateConcept(id: ConceptId, req: UpdateRequest, tenant: TenantId)
      returns (r: Result<Concept, OntologyError>)
      modifies this
      ensures old(store).Get(id, tenant).None? ==> r == Err(ConceptNotFound(id)) && store == old(store)
      ensures old(store).Get(id, tenant).Some? ==>
                && store == old(store).Replace(id, EditedConcept(old(store), id, old(store).rows[id], req, tenant))
                && var refused := ParentOutcome(old(store), id, req.parent, tenant);
                   r == if refused.Some? then Err(refused.value) else Ok(store.rows[id])
      ensures store == NextStore(old(store), Update(id, req, tenant))
    {
      var found := store.Get(id, tenant);
      if found.None? {
        return Err(ConceptNotFound(id));
      }
      ghost var before := store;
      var concept := found.value;
      if req.name.Some? {
        concept := concept.(name := req.name.value);
        store := store.Replace(id, concept);
      }
      if req.description.Some? {
        concept := concept.(description := req.description);
        store := store.Replace(id, concept);
      }
      assert store == before.Replace(id, concept);
      if req.parent.Some? {
        SameLinksSameCheck(before, store, req.parent.value, id, tenant, 0);
        var parent := store.Get(req.parent.value, tenant);
        if parent.None? {
          return Err(ParentNotFound(req.parent.value));
        }
        if store.WouldCreateCycle(req.parent.value, id, tenant, 0) {
          return Err(CircularReference);
        }
        concept := concept.(parent := req.parent);
        store := store.Replace(id, concept);
      }
      return Ok(concept);
    }
  }

  // ---------------------------------------------------------------- runs

  datatype Op =
    | Create(creation: CreateRequest, tenant: TenantId, newId: ConceptId)
    | Update(id: ConceptId, edit: UpdateRequest, tenant: TenantId)

  /** The store after one call of the methods above; an id already in use creates nothing. */
  ghost function NextStore(s: Store, op: Op): Store {
    match op
    case Create(req, tenant, newId) =>
      if newId in s.rows || CreateOutcome(s, req, tenant).Some? then s else s.Insert(newId, NewConcept(req, tenant))
    case Update(id, req, tenant) =>
      if s.Get(id, tenant).None? then s else s.Replace(id, EditedConcept(s, id, s.rows[id], req, tenant))
  }

  ghost function StoreAfter(run: seq<Op>): Store {
    if run == [] then Store(map[], []) else NextStore(StoreAfter(run[..|run| - 1]), run[|run| - 1])
  }

  lemma CreateKeepsForest(s: Store, req: CreateRequest, tenant: TenantId, newId: ConceptId)
    requires s.Forest() && newId !in s.rows && CreateOutcome(s, req, tenant).None?
    ensures s.Insert(newId, NewConcept(req, tenant)).Forest()
  {
    var s' := s.Insert(newId, NewConcept(req, tenant));
    var rank :| s.Ranked(rank);
    var rank' := rank[newId := 0];
    forall id | id in s'.rows
      ensures s'.ParentBelow(rank', id)
    {
      assert id != newId ==> s.ParentBelow(rank, id);
    }
    assert s'.Ranked(rank');
  }

  lemma ReplaceKeepsTable(s: Store, id: ConceptId, c: Concept)
    requires s.Table() && id in s.rows && c.tenant == s.rows[id].tenant && c.code == s.rows[id].code
    ensures s.Replace(id, c).Table()
  {
    var s' := s.Replace(id, c);
    assert s'.rows.Keys == s.rows.Keys;
    assert forall x :: x in s.rows ==> s'.rows[x].tenant == s.rows[x].tenant && s'.rows[x].code == s.rows[x].code;
  }

  lemma EditKeepsForest(s: Store, id: ConceptId, c: Concept)
    requires s.Forest() && id in s.rows
    requires c.parent == s.rows[id].parent && c.tenant == s.rows[id].tenant && c.code == s.rows[id].code
    ensures s.Replace(id, c).Forest()
  {
    ReplaceKeepsTable(s, id, c);
    var rank :| s.Ranked(rank);
    forall x | x in s.rows
      ensures s.Replace(id, c).ParentBelow(rank, x)
    {
      assert s.ParentBelow(rank, x);
    }
    assert s.Replace(id, c).Ranked(rank);
  }

  /** Lifting a whole subtree above the rank of its new parent. */
  ghost function Lifted(s: Store, rank: map<ConceptId, nat>, moved: ConceptId, amount: nat): map<ConceptId, nat>
    requires rank.Keys == s.rows.Keys
  {
    map x | x in s.rows :: rank[x] + if s.OnChain(s.rows[x].tenant, x, moved) then amount else 0
  }

  lemma ParentIsOnChain(s: Store, tenant: TenantId, x: ConceptId, ancestor: ConceptId)
    requires s.Get(x, tenant).Some? && s.rows[x].parent.Some? && x != ancestor
    ensures s.OnChain(tenant, x, ancestor) <==> s.OnChain(tenant, s.rows[x].parent.value, ancestor)
  {
    var q := s.rows[x].parent.value;
    if n: nat :| s.Nth(tenant, x, n) == Some(ancestor) {
      assert s.Nth(tenant, q, n - 1) == Some(ancestor);
    }
    if n: nat :| s.Nth(tenant, q, n) == Some(ancestor) {
      assert s.Nth(tenant, x, n + 1) == Some(ancestor);
    }
  }

  lemma MovedStaysRanked(s: Store, rank: map<ConceptId, nat>, id: ConceptId, p: ConceptId, c: Concept, x: ConceptId)
    requires s.Ranked(rank) && id in s.rows && x in s.rows && c.tenant == s.rows[id].tenant
    requires s.Get(p, c.tenant).Some? && !s.OnChain(c.tenant, p, id) && c.parent == Some(p)
    ensures s.Replace(id, c).ParentBelow(Lifted(s, rank, id, rank[p] + 1), x)
  {
    var tenant := s.rows[x].tenant;
    assert s.ParentBelow(rank, x);
    if x == id {
      assert s.Nth(tenant, id, 0) == Some(id);
      assert s.OnChain(tenant, id, id);
    } else if s.rows[x].parent.Some? {
      ParentIsOnChain(s, tenant, x, id);
    }
  }

  lemma MoveKeepsForest(s: Store, id: ConceptId, p: ConceptId, c: Concept)
    requires s.Forest() && id in s.rows && c.tenant == s.rows[id].tenant && c.code == s.rows[id].code
    requires s.Get(p, c.tenant).Some? && !s.WouldCreateCycle(p, id, c.tenant, 0) && c.parent == Some(p)
    ensures s.Replace(id, c).Forest()
  {
    ReplaceKeepsTable(s, id, c);
    CycleCheckIsExact(s, c.tenant, p, id);
    var rank :| s.Ranked(rank);
    var rank' := Lifted(s, rank, id, rank[p] + 1);
    var s' := s.Replace(id, c);
    assert s'.Ranked(rank') by {
      forall x | x in s'.rows
        ensures s'.ParentBelow(rank', x)
      {
        MovedStaysRanked(s, rank, id, p, c, x);
      }
    }
  }

  lemma StepKeepsForest(s: Store, op: Op)
    requires s.Forest()
    ensures NextStore(s, op).Forest()
  {
    match op
    case Create(req, tenant, newId) =>
      if newId !in s.rows && CreateOutcome(s, req, tenant).None? {
        CreateKeepsForest(s, req, tenant, newId);
      }
    case Update(id, req, tenant) =>
      if s.Get(id, tenant).Some? {
        var c := EditedConcept(s, id, s.rows[id], req, tenant);
        if c.parent == s.rows[id].parent {
          EditKeepsForest(s, id, c);
        } else {
          MoveKeepsForest(s, id, req.parent.value, c);
        }
      }
  }

  /** Over every run of creations and updates the hierarchy stays a forest with unique codes per tenant, and no
      concept is its own proper ancestor. */
  lemma {:induction false} RunsKeepForest(run: seq<Op>)
    ensures StoreAfter(run).Forest()
    ensures forall tenant, id, n: nat {:trigger StoreAfter(run).Nth(tenant, id, n)} ::
              StoreAfter(run).Get(id, tenant).Some? && n > 0 ==> StoreAfter(run).Nth(tenant, id, n) != Some(id)
  {
    if run == [] {
      assert Store(map[], []).Ranked(map[]);
    } else {
      RunsKeepForest(run[..|run| - 1]);
      StepKeepsForest(StoreAfter(run[..|run| - 1]), run[|run| - 1]);
    }
    var s := StoreAfter(run);
    forall tenant, id, n: nat | s.Get(id, tenant).Some? && n > 0
      ensures s.Nth(tenant, id, n) != Some(id)
    {
      ForestHasNoCycle(s, tenant, id, n);
    }
  }

  /** The parent of a concept changes exactly if the requested parent exists, is not below the concept and has an
      ancestor chain of at most 101 concepts. */
  ghost predicate MoveIsAllowed(s: Store, id: ConceptId, parent: ConceptId, tenant: TenantId) {
    && s.Get(parent, tenant).Some?
    && !s.OnChain(tenant, parent, id)
    && s.Nth(tenant, parent, 101).None?
  }

  lemma MoveIsRefusedExactly(s: Store, id: ConceptId, req: UpdateRequest, tenant: TenantId)
    requires s.Get(id, tenant).Some? && req.parent.Some?
    ensures NextStore(s, Update(id, req, tenant)).rows[id].parent ==
              if MoveIsAllowed(s, id, req.parent.value, tenant) then req.parent else s.rows[id].parent
    ensures ParentOutcome(s, id, req.parent, tenant) ==
              if s.Get(req.parent.value, tenant).None? then Some(ParentNotFound(req.parent.value))
              else if MoveIsAllowed(s, id, req.parent.value, tenant) then None
              else Some(CircularReference)
  {
    CycleCheckIsExact(s, tenant, req.parent.value, id);
  }

  // ---------------------------------------------------------------- what one call does

  ghost predicate SameLetter(c: char, d: char) {
    || c == d
    || ('A' <= c <= 'Z' && d as int == c as int + 32)
    || ('A' <= d <= 'Z' && c as int == d as int + 32)
  }

  ghost predicate SameIgnoringCase(s: string, t: string) {
    |s| == |t| && forall i :: 0 <= i < |s| ==> SameLetter(s[i], t[i])
  }

  ghost predicate IsLowerCase(s: string) {
    forall i :: 0 <= i < |s| ==> !('A' <= s[i] <= 'Z')
  }

  lemma LowerIsLower(s: string)
    ensures IsLowerCase(Lower(s)) && SameIgnoringCase(Lower(s), s)
  {
    forall i | 0 <= i < |s|
      ensures !('A' <= Lower(s)[i] <= 'Z') && SameLetter(Lower(s)[i], s[i])
    {
      LowerLetter(s[i]);
    }
  }

  lemma LowerLetter(c: char)
    ensures !('A' <= LowerChar(c) <= 'Z') && SameLetter(LowerChar(c), c)
  {
  }

  lemma LetterDecides(c: char, d: char)
    requires !('A' <= d <= 'Z')
    ensures d == LowerChar(c) <==> SameLetter(d, c)
  {
  }

  lemma LowerDecides(s: string, t: string)
    requires IsLowerCase(t)
    ensures t == Lower(s) <==> SameIgnoringCase(t, s)
  {
    if SameIgnoringCase(t, s) {
      forall i | 0 <= i < |s|
        ensures t[i] == Lower(s)[i]
      {
        LetterDecides(s[i], t[i]);
      }
      assert t == Lower(s);
    } else if t == Lower(s) {
      LowerIsLower(s);
      assert false;
    }
  }

  ghost predicate IsCategory(category: string) {
    || category == "general" || category == "physical" || category == "logical"
    || category == "spatial" || category == "temporal" || category == "behavioral"
  }

  /** Codes are stored in lower case, and categories are the six known ones. */
  ghost predicate Vocabulary(s: Store) {
    forall id {:trigger s.rows[id]} :: id in s.rows ==> IsLowerCase(s.rows[id].code) && IsCategory(s.rows[id].category)
  }

  ghost predicate NamesCategory(text: string) {
    exists c :: IsCategory(c) && SameIgnoringCase(c, text)
  }

  lemma CategoriesAre(text: string)
    ensures Lower(text) in CATEGORIES <==> NamesCategory(text)
    ensures Lower(text) in CATEGORIES ==> IsCategory(Lower(text))
  {
    LowerIsLower(text);
    CategoryIsKnown(Lower(text));
    if NamesCategory(text) {
      var c :| IsCategory(c) && SameIgnoringCase(c, text);
      CategoryIsKnown(c);
      LowerDecides(text, c);
    }
  }

  lemma CategoryIsKnown(c: string)
    ensures c in CATEGORIES <==> IsCategory(c)
    ensures IsCategory(c) ==> IsLowerCase(c)
  {
  }

  /** Some concept of the tenant has this code, in whatever case it is written. */
  ghost predicate CodeKnown(s: Store, code: string, tenant: TenantId) {
    exists id :: id in s.rows && s.rows[id].tenant == tenant && SameIgnoringCase(s.rows[id].code, code)
  }

  lemma CodeKnownExactly(s: Store, code: string, tenant: TenantId)
    requires Vocabulary(s)
    ensures s.CodeTaken(Lower(code), tenant) <==> CodeKnown(s, code, tenant)
  {
    if id :| id in s.rows && s.rows[id].tenant == tenant && s.rows[id].code == Lower(code) {
      LowerDecides(code, s.rows[id].code);
    }
    if CodeKnown(s, code, tenant) {
      var id :| id in s.rows && s.rows[id].tenant == tenant && SameIgnoringCase(s.rows[id].code, code);
      LowerDecides(code, s.rows[id].code);
    }
  }

  /** The row that a creation adds. */
  ghost predicate IsCreated(c: Concept, req: CreateRequest, tenant: TenantId) {
    && c.tenant == tenant && c.name == req.name && c.description == req.description && c.parent == None
    && IsLowerCase(c.code) && SameIgnoringCase(c.code, req.code)
    && IsCategory(c.category) && SameIgnoringCase(c.category, req.category)
  }

  /** A creation succeeds exactly for a code that no concept of the tenant has in any case, a known category in any
      case, and no parent; the errors come in this order. It adds one row and changes no other. */
  lemma CreationDoes(s: Store, req: CreateRequest, tenant: TenantId, newId: ConceptId)
    requires Vocabulary(s) && newId !in s.rows
    ensures CreateOutcome(s, req, tenant) ==
              if CodeKnown(s, req.code, tenant) then Some(DuplicateCode(req.code))
              else if !NamesCategory(req.category) then Some(InvalidCategory(req.category))
              else if req.parent.None? then None
              else if s.Get(req.parent.value, tenant).None? then Some(ParentNotFound(req.parent.value))
              else Some(CircularReference)
    ensures var s' := NextStore(s, Create(req, tenant, newId));
            if CreateOutcome(s, req, tenant).Some? then s' == s
            else
              && newId in s'.rows && IsCreated(s'.rows[newId], req, tenant) && s'.order == s.order + [newId]
              && s'.rows.Keys == s.rows.Keys + {newId} && forall id :: id in s.rows ==> s'.rows[id] == s.rows[id]
  {
    CodeKnownExactly(s, req.code, tenant);
    CategoriesAre(req.category);
    LowerIsLower(req.code);
    LowerIsLower(req.category);
  }

  /** An update of a known concept sets the name and the description that it gives, and the parent if the move is
      allowed; code, category, tenant and every other row stay. */
  lemma UpdateDoes(s: Store, id: ConceptId, req: UpdateRequest, tenant: TenantId)
    ensures var s' := NextStore(s, Update(id, req, tenant));
            if s.Get(id, tenant).None? then s' == s
            else
              && s'.rows.Keys == s.rows.Keys && s'.order == s.order
              && (forall other :: other in s.rows && other != id ==> s'.rows[other] == s.rows[other])
              && IsUpdated(s, id, s.rows[id], s'.rows[id], req, tenant)
  {
    if s.Get(id, tenant).Some? && req.parent.Some? {
      MoveIsRefusedExactly(s, id, req, tenant);
    }
  }

  ghost predicate IsUpdated(s: Store, id: ConceptId, c: Concept, c': Concept, req: UpdateRequest, tenant: TenantId) {
    && c'.code == c.code && c'.category == c.category && c'.tenant == c.tenant
    && (match req.name case Some(name) => c'.name == name case None => c'.name == c.name)
    && (match req.description
        case Some(text) => c'.description == Some(text)
        case None => c'.description == c.description)
    && (match req.parent
        case Some(parent) => c'.parent == if MoveIsAllowed(s, id, parent, tenant) then Some(parent) else c.parent
        case None => c'.parent == c.parent)
  }

  /** In every reachable hierarchy codes are in lower case and categories are known ones, and no concept ever loses its
      code: a code once given is refused to the tenant ever after, in whatever case it is written. */
  lemma {:induction false} RunsKeepVocabulary(run: seq<Op>)
    ensures Vocabulary(StoreAfter(run))
  {
    if run != [] {
      var s, op := StoreAfter(run[..|run| - 1]), run[|run| - 1];
      RunsKeepVocabulary(run[..|run| - 1]);
      match op
      case Create(req, tenant, newId) =>
        if newId !in s.rows {
          CreationDoes(s, req, tenant, newId);
        }
      case Update(id, req, tenant) =>
        UpdateDoes(s, id, req, tenant);
    }
  }

  lemma {:induction false} CodesStay(run: seq<Op>, n: nat, id: ConceptId)
    requires n <= |run| && id in StoreAfter(run[..n]).rows
    ensures id in StoreAfter(run).rows
    ensures StoreAfter(run).rows[id].code == StoreAfter(run[..n]).rows[id].code
    ensures StoreAfter(run).rows[id].tenant == StoreAfter(run[..n]).rows[id].tenant
    decreases |run|
  {
    if n == |run| {
      assert run[..n] == run;
    } else {
      var front := run[..|run| - 1];
      assert front[..n] == run[..n];
      CodesStay(front, n, id);
    }
  }

  lemma CodeStaysTaken(run: seq<Op>, n: nat, code: string, req: CreateRequest, tenant: TenantId)
    requires n <= |run| && CodeKnown(StoreAfter(run[..n]), code, tenant)
    requires SameIgnoringCase(req.code, code)
    ensures CreateOutcome(StoreAfter(run), req, tenant) == Some(DuplicateCode(req.code))
  {
    var s := StoreAfter(run[..n]);
    var id :| id in s.rows && s.rows[id].tenant == tenant && SameIgnoringCase(s.rows[id].code, code);
    CodesStay(run, n, id);
    RunsKeepVocabulary(run[..n]);
    LowerDecides(code, s.rows[id].code);
    SameLower(req.code, code);
  }

  lemma SameLower(s: string, t: string)
    requires SameIgnoringCase(s, t)
    ensures Lower(s) == Lower(t)
  {
    assert forall i :: 0 <= i < |s| ==> Lower(s)[i] == Lower(t)[i];
  }
}
