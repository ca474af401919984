/** Path search over twin relationships: services/twin_graph/query.py. */
module TwinGraph {
  import opened Common

  type EntityId = nat
  type TenantId = nat

  datatype Relationship = Relationship(
    tenant: TenantId, source: EntityId, target: EntityId, kind: string, deleted: bool)

  /** Both list queries return at most this many rows. */
  const ROW_LIMIT := 100

  function LiveFrom(id: EntityId, tenant: TenantId): Relationship -> bool {
    (rel: Relationship) => rel.source == id && rel.tenant == tenant && !rel.deleted
  }

  function LiveInto(id: EntityId, tenant: TenantId): Relationship -> bool {
    (rel: Relationship) => rel.target == id && rel.tenant == tenant && !rel.deleted
  }

  /** Row i satisfies p and fewer than ROW_LIMIT rows before it do. */
  ghost predicate WithinLimit(p: Relationship -> bool, rows: seq<Relationship>, i: int) {
    0 <= i < |rows| && p(rows[i]) && |Filter(p, rows[..i])| < ROW_LIMIT
  }

  /** The relationship is one of the first ROW_LIMIT rows that satisfy p. */
  ghost predicate AmongFirst(p: Relationship -> bool, rows: seq<Relationship>, rel: Relationship) {
    exists i :: WithinLimit(p, rows, i) && rows[i] == rel
  }

  /** The relationship table; the order of `rows` is the order in which the database returns them. */
  datatype Repository = Repository(rows: seq<Relationship>) {
    function ListSource(id: EntityId, tenant: TenantId): (r: seq<Relationship>)
      ensures |r| <= 100
      ensures forall rel :: rel in r ==> rel in rows && rel.source == id && rel.tenant == tenant && !rel.deleted
      ensures |Filter(LiveFrom(id, tenant), rows)| <= 100 ==>
                forall rel :: rel in rows && rel.source == id && rel.tenant == tenant && !rel.deleted ==> rel in r
    {
      Limit(Filter(LiveFrom(id, tenant), rows))
    }

    function ListTarget(id: EntityId, tenant: TenantId): (r: seq<Relationship>)
      ensures |r| <= 100
      ensures forall rel :: rel in r ==> rel in rows && rel.target == id && rel.tenant == tenant && !rel.deleted
      ensures |Filter(LiveInto(id, tenant), rows)| <= 100 ==>
                forall rel :: rel in rows && rel.target == id && rel.tenant == tenant && !rel.deleted ==> rel in r
    {
      Limit(Filter(LiveInto(id, tenant), rows))
    }
  }

  function Limit(rows: seq<Relationship>): (r: seq<Relationship>)
    ensures |r| <= ROW_LIMIT
    ensures forall rel :: rel in r ==> rel in rows
    ensures |rows| <= ROW_LIMIT ==> r == rows
  {
    if |rows| <= ROW_LIMIT then rows else rows[..ROW_LIMIT]
  }

  /** A limited answer consists of the rows that have fewer than ROW_LIMIT matching rows before them. */
  lemma {:induction false} FirstAreWithinLimit(p: Relationship -> bool, rows: seq<Relationship>, rel: Relationship)
    ensures rel in Limit(Filter(p, rows)) <==> AmongFirst(p, rows, rel)
  {
    if rows != [] {
      var front, last := rows[..|rows| - 1], rows[|rows| - 1];
      FirstAreWithinLimit(p, front, rel);
      WithinOneMore(p, rows, rel);
      if p(last) {
        LimitContains(Filter(p, front), last, rel);
      }
    }
  }

  lemma LimitContains(xs: seq<Relationship>, x: Relationship, rel: Relationship)
    ensures rel in Limit(xs + [x]) <==> rel in Limit(xs) || (|xs| < ROW_LIMIT && rel == x)
  {
    LimitAppend(xs, x);
  }

  /** The lists are exactly those relationships that are among the first ROW_LIMIT live rows of the entity. */
  lemma ListedExactly(repo: Repository, id: EntityId, tenant: TenantId, rel: Relationship)
    ensures rel in repo.ListSource(id, tenant) <==> AmongFirst(LiveFrom(id, tenant), repo.rows, rel)
    ensures rel in repo.ListTarget(id, tenant) <==> AmongFirst(LiveInto(id, tenant), repo.rows, rel)
  {
    FirstAreWithinLimit(LiveFrom(id, tenant), repo.rows, rel);
    FirstAreWithinLimit(LiveInto(id, tenant), repo.rows, rel);
  }

  lemma LimitAppend(xs: seq<Relationship>, x: Relationship)
    ensures Limit(xs + [x]) == if |xs| < ROW_LIMIT then Limit(xs) + [x] else Limit(xs)
  {
  }

  lemma WithinOneMore(p: Relationship -> bool, rows: seq<Relationship>, rel: Relationship)
    requires rows != []
    ensures var last := |rows| - 1;
            AmongFirst(p, rows, rel) <==>
            AmongFirst(p, rows[..last], rel) || (WithinLimit(p, rows, last) && rows[last] == rel)
  {
    var last := |rows| - 1;
    var front := rows[..last];
    if AmongFirst(p, rows, rel) {
      var i :| WithinLimit(p, rows, i) && rows[i] == rel;
      if i < last {
        WithinFront(p, rows, i);
        assert front[i] == rel;
      }
    }
    if AmongFirst(p, front, rel) {
      var i :| WithinLimit(p, front, i) && front[i] == rel;
      WithinFront(p, rows, i);
      assert rows[i] == rel;
    }
  }

  lemma WithinFront(p: Relationship -> bool, rows: seq<Relationship>, i: int)
    requires 0 <= i < |rows| - 1
    ensures WithinLimit(p, rows, i) <==> WithinLimit(p, rows[..|rows| - 1], i)
  {
    assert rows[..|rows| - 1][..i] == rows[..i];
  }

  datatype Direction = Start | Forward | Reverse

  datatype Step = Step(entity: EntityId, kind: Option<string>, direction: Direction)

  function Origin(source: EntityId): Step {
    Step(source, None, Start)
  }

  /** One call of `find_path`. */
  datatype Query = Query(repo: Repository, tenant: TenantId, source: EntityId, target: EntityId, maxDepth: int)

  // ---------------------------------------------------------------- the two-way graph

  /** `step` leaves `a` along a relationship the repository reports, in the direction and with the type recorded. */
  ghost predicate Hop(q: Query, a: EntityId, step: Step) {
    || (exists rel :: rel in q.repo.ListSource(a, q.tenant) && step == Step(rel.target, Some(rel.kind), Forward))
    || (exists rel :: rel in q.repo.ListTarget(a, q.tenant) && step == Step(rel.source, Some(rel.kind), Reverse))
  }

  ghost predicate HopTo(q: Query, p: seq<Step>, i: int)
    requires 1 <= i < |p|
  {
    Hop(q, p[i - 1].entity, p[i])
  }

  ghost predicate IsWalk(q: Query, p: seq<Step>) {
    && p != []
    && p[0] == Origin(q.source)
    && forall i {:trigger HopTo(q, p, i)} :: 1 <= i < |p| ==> HopTo(q, p, i)
  }

  ghost predicate Reaches(q: Query, p: seq<Step>, entity: EntityId) {
    IsWalk(q, p) && p[|p| - 1].entity == entity
  }

  ghost predicate NoRepeat(p: seq<Step>) {
    forall i, j :: 0 <= i < j < |p| ==> p[i].entity != p[j].entity
  }

  ghost predicate Shortest(q: Query, p: seq<Step>) {
    && Reaches(q, p, q.target)
    && NoRepeat(p)
    && forall other :: Reaches(q, other, q.target) ==> |p| <= |other|
  }

  /** The steps along the listed outgoing rows, and along the listed incoming rows. */
  function ForwardSteps(rels: seq<Relationship>): (steps: seq<Step>) {
    seq(|rels|, i requires 0 <= i < |rels| => Step(rels[i].target, Some(rels[i].kind), Forward))
  }

  function ReverseSteps(rels: seq<Relationship>): (steps: seq<Step>) {
    seq(|rels|, i requires 0 <= i < |rels| => Step(rels[i].source, Some(rels[i].kind), Reverse))
  }

  lemma StepsAreHops(q: Query, current: EntityId)
    ensures forall step {:trigger Hop(q, current, step)} :: Hop(q, current, step) <==>
              || step in ForwardSteps(q.repo.ListSource(current, q.tenant))
              || step in ReverseSteps(q.repo.ListTarget(current, q.tenant))
  {
    var outgoing := q.repo.ListSource(current, q.tenant);
    var incoming := q.repo.ListTarget(current, q.tenant);
    forall step | Hop(q, current, step)
      ensures step in ForwardSteps(outgoing) || step in ReverseSteps(incoming)
    {
      if rel :| rel in outgoing && step == Step(rel.target, Some(rel.kind), Forward) {
        var i :| 0 <= i < |outgoing| && outgoing[i] == rel;
        assert ForwardSteps(outgoing)[i] == step;
      } else {
        var rel :| rel in incoming && step == Step(rel.source, Some(rel.kind), Reverse);
        var i :| 0 <= i < |incoming| && incoming[i] == rel;
        assert ReverseSteps(incoming)[i] == step;
      }
    }
  }

  /** Every listed step is a hop, and hops stay inside any set that is closed under them. */
  lemma StepsLeadInside(q: Query, universe: set<EntityId>, current: EntityId, steps: seq<Step>)
    requires || steps == ForwardSteps(q.repo.ListSource(current, q.tenant))
             || steps == ReverseSteps(q.repo.ListTarget(current, q.tenant))
    requires forall step {:trigger Hop(q, current, step)} :: Hop(q, current, step) ==> step.entity in universe
    ensures forall step :: step in steps ==> Hop(q, current, step) && step.entity in universe
  {
    StepsAreHops(q, current);
    forall step | step in steps
      ensures Hop(q, current, step) && step.entity in universe
    {
      assert Hop(q, current, step);
    }
  }

  // ---------------------------------------------------------------- search state

  type Entry = (EntityId, seq<Step>)
  type Levels = map<EntityId, nat>

  /** `p` walks from the source to `id`, one level per step. */
  ghost predicate Carries(q: Query, level: Levels, id: EntityId, p: seq<Step>) {
    && Reaches(q, p, id)
    && forall i :: 0 <= i < |p| ==> p[i].entity in level && level[p[i].entity] == i
  }

  ghost predicate Explored(q: Query, level: Levels, v: EntityId)
    requires v in level
  {
    forall step {:trigger Hop(q, v, step)} :: Hop(q, v, step) ==>
      step.entity in level && level[step.entity] <= level[v] + 1
  }

  /** The visited entities are labelled with their levels. The first `near` queue entries have level d and the others
      d + 1; every labelled entity is settled, or waits in the queue, or is the one now being expanded. */
  datatype Search = Search(d: nat, near: nat, open: set<EntityId>, settled: set<EntityId>, level: Levels)

  ghost predicate Queued(q: Query, s: Search, queue: seq<Entry>, k: int)
    requires 0 <= k < |queue|
  {
    && Carries(q, s.level, queue[k].0, queue[k].1)
    && |queue[k].1| - 1 == if k < s.near then s.d else s.d + 1
  }

  ghost function Waiting(queue: seq<Entry>): set<EntityId> {
    if queue == [] then {} else Waiting(queue[..|queue| - 1]) + {queue[|queue| - 1].0}
  }

  lemma {:induction false} WaitingIsQueued(queue: seq<Entry>, v: EntityId)
    requires v in Waiting(queue)
    ensures exists k :: 0 <= k < |queue| && queue[k].0 == v
  {
    if v != queue[|queue| - 1].0 {
      WaitingIsQueued(queue[..|queue| - 1], v);
    }
  }

  lemma {:induction false} WaitingSplit(queue: seq<Entry>)
    requires queue != []
    ensures Waiting(queue) == {queue[0].0} + Waiting(queue[1..])
  {
    if |queue| > 1 {
      WaitingSplit(queue[..|queue| - 1]);
      assert queue[..|queue| - 1][1..] == queue[1..][..|queue| - 2];
    }
  }

  ghost predicate Valid(q: Query, s: Search, queue: seq<Entry>) {
    && q.source in s.level && s.level[q.source] == 0
    && q.target !in s.level
    && s.level.Keys == s.settled + s.open + Waiting(queue)
    && s.near <= |queue|
    && (forall v :: v in s.level ==> s.level[v] <= s.d + 1)
    && (forall k :: 0 <= k < |queue| ==> Queued(q, s, queue, k))
    && (forall v {:trigger Explored(q, s.level, v)} ::
          v in s.settled && s.level[v] < q.maxDepth ==> Explored(q, s.level, v))
  }

  ghost function Initial(q: Query): Search {
    Search(0, 1, {}, {}, map[q.source := 0])
  }

  lemma InitialIsValid(q: Query)
    requires q.source != q.target
    ensures Valid(q, Initial(q), [(q.source, [Origin(q.source)])])
  {
    assert Queued(q, Initial(q), [(q.source, [Origin(q.source)])], 0);
  }

  /** Any walk of at most `bound` edges stays inside the labels once everything closer than `bound` is explored. */
  lemma {:induction false} WalkStaysLabelled(q: Query, level: Levels, bound: int, p: seq<Step>)
    requires q.source in level && level[q.source] == 0
    requires forall v {:trigger Explored(q, level, v)} :: v in level && level[v] < bound ==> Explored(q, level, v)
    requires IsWalk(q, p) && |p| - 1 <= bound
    ensures p[|p| - 1].entity in level && level[p[|p| - 1].entity] <= |p| - 1
  {
    if |p| > 1 {
      var front := p[..|p| - 1];
      forall i | 1 <= i < |front|
        ensures HopTo(q, front, i)
      {
        assert HopTo(q, p, i);
      }
      WalkStaysLabelled(q, level, bound, front);
      assert HopTo(q, p, |p| - 1);
      assert Explored(q, level, p[|p| - 2].entity);
    }
  }

  lemma WaitingIsNotNearer(q: Query, s: Search, queue: seq<Entry>)
    requires Valid(q, s, queue)
    ensures forall v :: v in Waiting(queue) ==> s.level[v] >= s.d
  {
    forall v | v in Waiting(queue)
      ensures s.level[v] >= s.d
    {
      WaitingIsQueued(queue, v);
      var k :| 0 <= k < |queue| && queue[k].0 == v;
      assert Queued(q, s, queue, k);
    }
  }

  /** While an entity at level d is being expanded, no walk of at most d edges ends in the target. */
  lemma TargetIsFarther(q: Query, s: Search, current: EntityId, queue: seq<Entry>)
    requires Valid(q, s, queue)
    requires s.open == {current} && s.level[current] == s.d <= q.maxDepth
    ensures forall p :: Reaches(q, p, q.target) ==> |p| - 1 > s.d
  {
    WaitingIsNotNearer(q, s, queue);
    forall p | Reaches(q, p, q.target)
      ensures |p| - 1 > s.d
    {
      if |p| - 1 <= s.d {
        WalkStaysLabelled(q, s.level, s.d, p);
      }
    }
  }

  /** When the queue has run empty, no walk within the depth bound ends in the target. */
  lemma TargetIsOutOfReach(q: Query, s: Search)
    requires Valid(q, s, []) && s.open == {}
    ensures forall p :: Reaches(q, p, q.target) ==> |p| - 1 > q.maxDepth
  {
    forall p | Reaches(q, p, q.target)
      ensures |p| - 1 > q.maxDepth
    {
      if |p| - 1 <= q.maxDepth {
        WalkStaysLabelled(q, s.level, q.maxDepth, p);
      }
    }
  }

  lemma ExtendedWalk(q: Query, level: Levels, current: EntityId, path: seq<Step>, step: Step)
    requires Carries(q, level, current, path)
    requires Hop(q, current, step) && step.entity !in level
    ensures Reaches(q, path + [step], step.entity)
    ensures NoRepeat(path + [step])
  {
    var p := path + [step];
    forall i | 1 <= i < |p|
      ensures HopTo(q, p, i)
    {
      if i < |path| {
        assert HopTo(q, path, i);
      }
    }
    forall i, j | 0 <= i < j < |p|
      ensures p[i].entity != p[j].entity
    {
      assert path[i].entity in level && level[path[i].entity] == i;
    }
  }

  lemma FoundIsShortest(q: Query, s: Search, current: EntityId, path: seq<Step>, step: Step, queue: seq<Entry>)
    requires Valid(q, s, queue)
    requires s.open == {current} && Carries(q, s.level, current, path) && |path| - 1 == s.d < q.maxDepth
    requires Hop(q, current, step) && step.entity == q.target
    ensures Shortest(q, path + [step])
  {
    ExtendedWalk(q, s.level, current, path, step);
    TargetIsFarther(q, s, current, queue);
  }

  /** Taking the first queue entry opens its entity; the level moves on when no nearer entry is left. */
  ghost function Popped(s: Search, queue: seq<Entry>): Search
    requires queue != []
  {
    if s.near > 0 then s.(near := s.near - 1, open := {queue[0].0})
    else s.(d := s.d + 1, near := |queue| - 1, open := {queue[0].0})
  }

  lemma PopKeepsValid(q: Query, s: Search, queue: seq<Entry>)
    requires queue != [] && Valid(q, s, queue) && s.open == {}
    ensures Valid(q, Popped(s, queue), queue[1..])
    ensures Carries(q, s.level, queue[0].0, queue[0].1) && |queue[0].1| - 1 == Popped(s, queue).d
  {
    assert Queued(q, s, queue, 0);
    var rest, s' := queue[1..], Popped(s, queue);
    WaitingSplit(queue);
    forall k | 0 <= k < |rest|
      ensures Queued(q, s', rest, k)
    {
      assert Queued(q, s, queue, k + 1);
    }
  }

  /** A new entity gets the next level and waits at the end of the queue. */
  ghost function Labelled(s: Search, id: EntityId): Search {
    s.(level := s.level[id := s.d + 1])
  }

  lemma LabelKeepsCarries(q: Query, s: Search, current: EntityId, path: seq<Step>, id: EntityId)
    requires Carries(q, s.level, current, path) && id !in s.level
    ensures Carries(q, Labelled(s, id).level, current, path)
  {
  }

  lemma LabelKeepsValid(q: Query, s: Search, current: EntityId, path: seq<Step>, step: Step, queue: seq<Entry>)
    requires Valid(q, s, queue)
    requires s.open == {current} && Carries(q, s.level, current, path) && |path| - 1 == s.d
    requires Hop(q, current, step) && step.entity !in s.level && step.entity != q.target
    ensures Valid(q, Labelled(s, step.entity), queue + [(step.entity, path + [step])])
  {
    var s' := Labelled(s, step.entity);
    var queue' := queue + [(step.entity, path + [step])];
    ExtendedWalk(q, s.level, current, path, step);
    assert queue'[..|queue|] == queue;
    forall k | 0 <= k < |queue'|
      ensures Queued(q, s', queue', k)
    {
      if k < |queue| {
        assert Queued(q, s, queue, k);
        LabelKeepsCarries(q, s, queue[k].0, queue[k].1, step.entity);
      }
    }
    forall v | v in s'.settled && s'.level[v] < q.maxDepth
      ensures Explored(q, s'.level, v)
    {
      assert v in s.level && Explored(q, s.level, v);
    }
  }

  ghost function Settled(s: Search): Search {
    s.(open := {}, settled := s.settled + s.open)
  }

  /** The expanded entity is settled once all its neighbours are labelled, or when it lies at the depth bound. */
  lemma SettleKeepsValid(q: Query, s: Search, current: EntityId, queue: seq<Entry>)
    requires Valid(q, s, queue) && s.open == {current} && s.level[current] == s.d
    requires s.d < q.maxDepth ==> Explored(q, s.level, current)
    ensures Valid(q, Settled(s), queue)
  {
    forall k | 0 <= k < |queue|
      ensures Queued(q, Settled(s), queue, k)
    {
      assert Queued(q, s, queue, k);
    }
  }

  lemma AllSeenIsExplored(q: Query, level: Levels, current: EntityId, outgoing: seq<Step>, incoming: seq<Step>)
    requires current in level && forall v :: v in level ==> level[v] <= level[current] + 1
    requires outgoing == ForwardSteps(q.repo.ListSource(current, q.tenant))
    requires incoming == ReverseSteps(q.repo.ListTarget(current, q.tenant))
    requires forall i :: 0 <= i < |outgoing| ==> outgoing[i].entity in level
    requires forall i :: 0 <= i < |incoming| ==> incoming[i].entity in level
    ensures Explored(q, level, current)
  {
    StepsAreHops(q, current);
  }

  /** The table names finitely many entities, so only finitely many can be visited. */
  lemma HopsStayInside(q: Query) returns (universe: set<EntityId>)
    ensures q.source in universe
    ensures forall a, step {:trigger Hop(q, a, step)} :: Hop(q, a, step) ==> step.entity in universe
  {
    var sources, targets := set rel | rel in q.repo.rows :: rel.source, set rel | rel in q.repo.rows :: rel.target;
    universe := {q.source} + sources + targets;
  }

  // ---------------------------------------------------------------- the search

  /** One of the two inner loops: skip visited entities, return at once on the target, else enqueue. */
  method Expand(q: Query, ghost universe: set<EntityId>, ghost s: Search, current: EntityId, path: seq<Step>,
                steps: seq<Step>, visited: set<EntityId>, queue: seq<Entry>)
    returns (found: Option<seq<Step>>, visited': set<EntityId>, queue': seq<Entry>, ghost s': Search)
    requires s.level.Keys == visited <= universe
    requires Valid(q, s, queue) && s.open == {current}
    requires Carries(q, s.level, current, path) && |path| - 1 == s.d < q.maxDepth
    requires forall step :: step in steps ==> Hop(q, current, step) && step.entity in universe
    ensures found.Some? ==> Shortest(q, found.value) && |found.value| - 1 <= q.maxDepth
    ensures found.None? ==>
              && visited <= visited' && s'.level.Keys == visited' <= universe
              && (visited' == visited ==> queue' == queue)
              && Valid(q, s', queue') && s'.open == {current} && s'.d == s.d
              && Carries(q, s'.level, current, path)
              && forall i :: 0 <= i < |steps| ==> steps[i].entity in visited'
  {
    visited', queue', s' := visited, queue, s;
    for i := 0 to |steps|
      invariant visited <= visited' && s'.level.Keys == visited' <= universe
      invariant visited' == visited ==> queue' == queue
      invariant Valid(q, s', queue') && s'.open == {current} && s'.d == s.d
      invariant Carries(q, s'.level, current, path)
      invariant forall j :: 0 <= j < i ==> steps[j].entity in visited'
    {
      var next := steps[i].entity;
      if next in visited' {
        continue;
      }
      assert Hop(q, current, steps[i]);
      if next == q.target {
        FoundIsShortest(q, s', current, path, steps[i], queue');
        return Some(path + [steps[i]]), visited', queue', s';
      }
      LabelKeepsValid(q, s', current, path, steps[i], queue');
      LabelKeepsCarries(q, s', current, path, next);
      visited' := visited' + {next};
      s' := Labelled(s', next);
      queue' := queue' + [(next, path + [steps[i]])];
    }
    return None, visited', queue', s';
  }

  /** The body of the main loop below the depth test: outgoing rows first, then incoming rows. */
  method ExpandBothWays(q: Query, ghost universe: set<EntityId>, ghost s: Search, current: EntityId,
                        path: seq<Step>, visited: set<EntityId>, queue: seq<Entry>)
    returns (found: Option<seq<Step>>, visited': set<EntityId>, queue': seq<Entry>, ghost s': Search)
    requires s.level.Keys == visited <= universe
    requires Valid(q, s, queue) && s.open == {current}
    requires Carries(q, s.level, current, path) && |path| - 1 == s.d < q.maxDepth
    requires forall step {:trigger Hop(q, current, step)} :: Hop(q, current, step) ==> step.entity in universe
    ensures found.Some? ==> Shortest(q, found.value) && |found.value| - 1 <= q.maxDepth
    ensures found.None? ==>
              && visited <= visited' && s'.level.Keys == visited' <= universe
              && (visited' == visited ==> queue' == queue)
              && Valid(q, s', queue') && s'.open == {}
  {
    var outgoing := ForwardSteps(q.repo.ListSource(current, q.tenant));
    StepsLeadInside(q, universe, current, outgoing);
    found, visited', queue', s' := Expand(q, universe, s, current, path, outgoing, visited, queue);
    if found.Some? {
      return;
    }
    var incoming := ReverseSteps(q.repo.ListTarget(current, q.tenant));
    StepsLeadInside(q, universe, current, incoming);
    found, visited', queue', s' := Expand(q, universe, s', current, path, incoming, visited', queue');
    if found.Some? {
      return;
    }
    AllSeenIsExplored(q, s'.level, current, outgoing, incoming);
    SettleKeepsValid(q, s', current, queue');
    s' := Settled(s');
  }

  /** `find_path`: breadth-first search with a visited set, a depth cut-off and an early return. */
  method FindPath(q: Query) returns (r: Option<seq<Step>>)
    ensures r.Some? ==> Shortest(q, r.value) && r.value[0] == Step(q.source, None, Start)
    ensures r.None? <==> q.source != q.target && forall p :: Reaches(q, p, q.target) ==> |p| - 1 > q.maxDepth
  {
    if q.source == q.target {
      assert Shortest(q, [Origin(q.source)]);
      return Some([Origin(q.source)]);
    }
    var queue: seq<Entry> := [(q.source, [Origin(q.source)])];
    var visited := {q.source};
    ghost var s := Initial(q);
    InitialIsValid(q);
    ghost var universe := HopsStayInside(q);
    while queue != []
      invariant s.level.Keys == visited <= universe
      invariant Valid(q, s, queue) && s.open == {}
      decreases universe - visited, |queue|
    {
      var (current, path) := queue[0];
      PopKeepsValid(q, s, queue);
      s := Popped(s, queue);
      queue := queue[1..];
      if |path| - 1 >= q.maxDepth {
        SettleKeepsValid(q, s, current, queue);
        s := Settled(s);
        continue;
      }
      var found;
      found, visited, queue, s := ExpandBothWays(q, universe, s, current, path, visited, queue);
      if found.Some? {
        return found;
      }
    }
    TargetIsOutOfReach(q, s);
    return None;
  }

  // ---------------------------------------------------------------- neighbours

  /** The filter of `get_neighbors`: an empty or absent type filters nothing, and self-loops are dropped. */
  predicate Wanted(step: Step, twin: EntityId, kind: Option<string>) {
    step.entity != twin && (kind == None || kind == Some("") || step.kind == kind)
  }

  function WantedBy(twin: EntityId, kind: Option<string>): Step -> bool {
    (step: Step) => Wanted(step, twin, kind)
  }

  ghost function Neighbors(q: Query, twin: EntityId, kind: Option<string>, direction: string): seq<Step> {
    var outgoing, incoming := q.repo.ListSource(twin, q.tenant), q.repo.ListTarget(twin, q.tenant);
    (if direction in ["outgoing", "both"] then Filter(WantedBy(twin, kind), ForwardSteps(outgoing)) else [])
    + (if direction in ["incoming", "both"] then Filter(WantedBy(twin, kind), ReverseSteps(incoming)) else [])
  }

  method KeepWanted(steps: seq<Step>, twin: EntityId, kind: Option<string>) returns (kept: seq<Step>)
    ensures kept == Filter(WantedBy(twin, kind), steps)
  {
    kept := [];
    for i := 0 to |steps|
      invariant kept == Filter(WantedBy(twin, kind), steps[..i])
    {
      assert steps[..i + 1][..i] == steps[..i];
      if Wanted(steps[i], twin, kind) {
        kept := kept + [steps[i]];
      }
    }
    assert steps[..|steps|] == steps;
  }

  /** The row is of the type asked for, if one is asked for. */
  ghost predicate TypeAsked(rel: Relationship, kind: Option<string>) {
    kind.Some? && kind.value != "" ==> rel.kind == kind.value
  }

  /** A row that leaves the twin for another entity gives this step. */
  ghost predicate ReportsOutgoing(q: Query, twin: EntityId, kind: Option<string>, step: Step) {
    exists rel :: rel in q.repo.ListSource(twin, q.tenant) && rel.target != twin && TypeAsked(rel, kind)
                  && step == Step(rel.target, Some(rel.kind), Forward)
  }

  /** A row that enters the twin from another entity gives this step. */
  ghost predicate ReportsIncoming(q: Query, twin: EntityId, kind: Option<string>, step: Step) {
    exists rel :: rel in q.repo.ListTarget(twin, q.tenant) && rel.source != twin && TypeAsked(rel, kind)
                  && step == Step(rel.source, Some(rel.kind), Reverse)
  }

  ghost predicate Reports(q: Query, twin: EntityId, kind: Option<string>, direction: string, step: Step) {
    || ((direction == "outgoing" || direction == "both") && ReportsOutgoing(q, twin, kind, step))
    || ((direction == "incoming" || direction == "both") && ReportsIncoming(q, twin, kind, step))
  }

  /** The steps of the directions asked for, one for each row that is reported, outgoing ones first. */
  ghost predicate NeighborsAre(q: Query, twin: EntityId, kind: Option<string>, direction: string, steps: seq<Step>) {
    && (forall step :: step in steps <==> Reports(q, twin, kind, direction, step))
    && |steps| == (if direction == "outgoing" || direction == "both" then OutgoingCount(q, twin, kind) else 0)
                  + (if direction == "incoming" || direction == "both" then IncomingCount(q, twin, kind) else 0)
    && forall i, j :: 0 <= i < j < |steps| && steps[j].direction == Forward ==> steps[i].direction == Forward
  }

  /** How many listed rows of each direction lead to other entities and have the type asked for. */
  ghost function OutgoingCount(q: Query, twin: EntityId, kind: Option<string>): nat {
    var rels := q.repo.ListSource(twin, q.tenant);
    |set i | 0 <= i < |rels| && rels[i].target != twin && TypeAsked(rels[i], kind)|
  }

  ghost function IncomingCount(q: Query, twin: EntityId, kind: Option<string>): nat {
    var rels := q.repo.ListTarget(twin, q.tenant);
    |set i | 0 <= i < |rels| && rels[i].source != twin && TypeAsked(rels[i], kind)|
  }

  lemma KeptOutgoing(q: Query, twin: EntityId, kind: Option<string>, step: Step)
    ensures step in Filter(WantedBy(twin, kind), ForwardSteps(q.repo.ListSource(twin, q.tenant))) <==>
              ReportsOutgoing(q, twin, kind, step)
  {
    var rels := q.repo.ListSource(twin, q.tenant);
    if ReportsOutgoing(q, twin, kind, step) {
      var rel :| rel in rels && rel.target != twin && TypeAsked(rel, kind)
                 && step == Step(rel.target, Some(rel.kind), Forward);
      var i :| 0 <= i < |rels| && rels[i] == rel;
      assert ForwardSteps(rels)[i] == step;
    }
    if step in Filter(WantedBy(twin, kind), ForwardSteps(rels)) {
      var i :| 0 <= i < |rels| && ForwardSteps(rels)[i] == step;
      assert rels[i] in rels && TypeAsked(rels[i], kind);
    }
  }

  lemma KeptOutgoingCount(q: Query, twin: EntityId, kind: Option<string>)
    ensures |Filter(WantedBy(twin, kind), ForwardSteps(q.repo.ListSource(twin, q.tenant)))| ==
            OutgoingCount(q, twin, kind)
  {
    var rels := q.repo.ListSource(twin, q.tenant);
    FilterKeepsEach(WantedBy(twin, kind), ForwardSteps(rels));
    var kept := set i | 0 <= i < |rels| && rels[i].target != twin && TypeAsked(rels[i], kind);
    forall i
      ensures i in Positions(WantedBy(twin, kind), ForwardSteps(rels)) <==> i in kept
    {
    }
    assert Positions(WantedBy(twin, kind), ForwardSteps(rels)) == kept;
  }

  lemma KeptIncoming(q: Query, twin: EntityId, kind: Option<string>, step: Step)
    ensures step in Filter(WantedBy(twin, kind), ReverseSteps(q.repo.ListTarget(twin, q.tenant))) <==>
              ReportsIncoming(q, twin, kind, step)
  {
    var rels := q.repo.ListTarget(twin, q.tenant);
    if ReportsIncoming(q, twin, kind, step) {
      var rel :| rel in rels && rel.source != twin && TypeAsked(rel, kind)
                 && step == Step(rel.source, Some(rel.kind), Reverse);
      var i :| 0 <= i < |rels| && rels[i] == rel;
      assert ReverseSteps(rels)[i] == step;
    }
    if step in Filter(WantedBy(twin, kind), ReverseSteps(rels)) {
      var i :| 0 <= i < |rels| && ReverseSteps(rels)[i] == step;
      assert rels[i] in rels && TypeAsked(rels[i], kind);
    }
  }

  lemma KeptIncomingCount(q: Query, twin: EntityId, kind: Option<string>)
    ensures |Filter(WantedBy(twin, kind), ReverseSteps(q.repo.ListTarget(twin, q.tenant)))| ==
            IncomingCount(q, twin, kind)
  {
    var rels := q.repo.ListTarget(twin, q.tenant);
    FilterKeepsEach(WantedBy(twin, kind), ReverseSteps(rels));
    var kept := set i | 0 <= i < |rels| && rels[i].source != twin && TypeAsked(rels[i], kind);
    forall i
      ensures i in Positions(WantedBy(twin, kind), ReverseSteps(rels)) <==> i in kept
    {
    }
    assert Positions(WantedBy(twin, kind), ReverseSteps(rels)) == kept;
  }

  lemma NeighborsExactly(q: Query, twin: EntityId, kind: Option<string>, direction: string)
    ensures NeighborsAre(q, twin, kind, direction, Neighbors(q, twin, kind, direction))
  {
    var neighbors := Neighbors(q, twin, kind, direction);
    forall step
      ensures step in neighbors <==> Reports(q, twin, kind, direction, step)
    {
      NeighborIsReported(q, twin, kind, direction, step);
    }
    KeptOutgoingCount(q, twin, kind);
    KeptIncomingCount(q, twin, kind);
    OutgoingFirst(q, twin, kind, direction);
  }

  lemma NeighborIsReported(q: Query, twin: EntityId, kind: Option<string>, direction: string, step: Step)
    ensures step in Neighbors(q, twin, kind, direction) <==> Reports(q, twin, kind, direction, step)
  {
    KeptOutgoing(q, twin, kind, step);
    KeptIncoming(q, twin, kind, step);
  }

  lemma OutgoingFirst(q: Query, twin: EntityId, kind: Option<string>, direction: string)
    ensures var neighbors := Neighbors(q, twin, kind, direction);
            forall i, j :: 0 <= i < j < |neighbors| && neighbors[j].direction == Forward ==>
              neighbors[i].direction == Forward
  {
    var forth, back := ForwardSteps(q.repo.ListSource(twin, q.tenant)), ReverseSteps(q.repo.ListTarget(twin, q.tenant));
    var outgoing := KeptIf(direction in ["outgoing", "both"], forth, twin, kind);
    var incoming := KeptIf(direction in ["incoming", "both"], back, twin, kind);
    ForwardThenReverse(outgoing, incoming);
  }

  lemma KeptIf(asked: bool, steps: seq<Step>, twin: EntityId, kind: Option<string>) returns (kept: seq<Step>)
    ensures kept == if asked then Filter(WantedBy(twin, kind), steps) else []
    ensures forall i :: 0 <= i < |kept| ==> kept[i] in steps
  {
    kept := if asked then Filter(WantedBy(twin, kind), steps) else [];
    assert forall i :: 0 <= i < |kept| ==> kept[i] in kept;
  }

  lemma ForwardThenReverse(first: seq<Step>, second: seq<Step>)
    requires forall i :: 0 <= i < |first| ==> first[i].direction == Forward
    requires forall i :: 0 <= i < |second| ==> second[i].direction == Reverse
    ensures var all := first + second;
            forall i, j :: 0 <= i < j < |all| && all[j].direction == Forward ==> all[i].direction == Forward
  {
  }

  /** `get_neighbors`; "outgoing" and "incoming" are the directions Forward and Reverse of a path step. Each listed
      row of the directions asked for that passes the filters is reported once, outgoing ones first; any other
      direction reports nothing. */
  method GetNeighbors(q: Query, twin: EntityId, kind: Option<string>, direction: string) returns (neighbors: seq<Step>)
    ensures neighbors == Neighbors(q, twin, kind, direction)
    ensures NeighborsAre(q, twin, kind, direction, neighbors)
  {
    NeighborsExactly(q, twin, kind, direction);
    neighbors := [];
    if direction in ["outgoing", "both"] {
      neighbors := KeepWanted(ForwardSteps(q.repo.ListSource(twin, q.tenant)), twin, kind);
    }
    if direction in ["incoming", "both"] {
      var incoming := KeepWanted(ReverseSteps(q.repo.ListTarget(twin, q.tenant)), twin, kind);
      neighbors := neighbors + incoming;
    }
  }

  /** Both queries see the same graph: "both" reports exactly the hops to other entities, and every step of a
      path that repeats no entity is reported as a neighbour of the step before it. */
  lemma NeighborsAreHops(q: Query, twin: EntityId, p: seq<Step>)
    requires IsWalk(q, p) && NoRepeat(p)
    ensures forall step :: step in Neighbors(q, twin, None, "both") <==> Hop(q, twin, step) && step.entity != twin
    ensures forall i :: 1 <= i < |p| ==> p[i] in Neighbors(q, p[i - 1].entity, None, "both")
  {
    StepsAreHops(q, twin);
    forall i | 1 <= i < |p|
      ensures p[i] in Neighbors(q, p[i - 1].entity, None, "both")
    {
      assert HopTo(q, p, i);
      StepsAreHops(q, p[i - 1].entity);
    }
  }

  // ---------------------------------------------------------------- both directions

  /** The tenant's row i is among the first ROW_LIMIT live rows of the entity it leaves, or of the one it enters. */
  ghost predicate SeenFromSource(q: Query, i: int) {
    0 <= i < |q.repo.rows| && WithinLimit(LiveFrom(q.repo.rows[i].source, q.tenant), q.repo.rows, i)
  }

  ghost predicate SeenFromTarget(q: Query, i: int) {
    0 <= i < |q.repo.rows| && WithinLimit(LiveInto(q.repo.rows[i].target, q.tenant), q.repo.rows, i)
  }

  ghost predicate SourceSees(q: Query, rel: Relationship) {
    exists i :: SeenFromSource(q, i) && q.repo.rows[i] == rel
  }

  ghost predicate TargetSees(q: Query, rel: Relationship) {
    exists i :: SeenFromTarget(q, i) && q.repo.rows[i] == rel
  }

  /** What is seen from one of its ends is seen from the other end as well. */
  ghost predicate SeenFromBothEnds(q: Query) {
    forall rel {:trigger SourceSees(q, rel)} {:trigger TargetSees(q, rel)} :: SourceSees(q, rel) <==> TargetSees(q, rel)
  }

  /** `back` leads back along the same kind of relationship in the other direction. */
  ghost predicate TakesBack(q: Query, a: EntityId, step: Step, back: Step) {
    Hop(q, step.entity, back) && back.entity == a && back.kind == step.kind && back.direction != step.direction
  }

  ghost predicate EveryHopGoesBack(q: Query) {
    forall a, step {:trigger Hop(q, a, step)} :: Hop(q, a, step) ==> exists back :: TakesBack(q, a, step, back)
  }

  lemma ListedIsSeen(q: Query, rel: Relationship)
    ensures rel in q.repo.ListSource(rel.source, q.tenant) <==> SourceSees(q, rel)
    ensures rel in q.repo.ListTarget(rel.target, q.tenant) <==> TargetSees(q, rel)
  {
    var rows := q.repo.rows;
    ListedExactly(q.repo, rel.source, q.tenant, rel);
    ListedExactly(q.repo, rel.target, q.tenant, rel);
    if AmongFirst(LiveFrom(rel.source, q.tenant), rows, rel) {
      var i :| WithinLimit(LiveFrom(rel.source, q.tenant), rows, i) && rows[i] == rel;
      assert SeenFromSource(q, i);
    }
    if AmongFirst(LiveInto(rel.target, q.tenant), rows, rel) {
      var i :| WithinLimit(LiveInto(rel.target, q.tenant), rows, i) && rows[i] == rel;
      assert SeenFromTarget(q, i);
    }
  }

  /** The row behind a hop. */
  lemma HopRow(q: Query, a: EntityId, step: Step) returns (rel: Relationship)
    requires Hop(q, a, step)
    ensures step.direction == Forward || step.direction == Reverse
    ensures step.direction == Forward ==>
              rel in q.repo.ListSource(a, q.tenant) && rel.source == a
                && step == Step(rel.target, Some(rel.kind), Forward)
    ensures step.direction == Reverse ==>
              rel in q.repo.ListTarget(a, q.tenant) && rel.target == a
                && step == Step(rel.source, Some(rel.kind), Reverse)
  {
    if r :| r in q.repo.ListSource(a, q.tenant) && step == Step(r.target, Some(r.kind), Forward) {
      rel := r;
    } else {
      rel :| rel in q.repo.ListTarget(a, q.tenant) && step == Step(rel.source, Some(rel.kind), Reverse);
    }
  }

  lemma HopBack(q: Query, a: EntityId, step: Step) returns (back: Step)
    requires SeenFromBothEnds(q) && Hop(q, a, step)
    ensures TakesBack(q, a, step, back)
  {
    var rel := HopRow(q, a, step);
    ListedIsSeen(q, rel);
    back := Step(a, Some(rel.kind), if step.direction == Forward then Reverse else Forward);
  }

  lemma ForwardGoesBack(q: Query, rel: Relationship)
    requires EveryHopGoesBack(q) && rel in q.repo.ListSource(rel.source, q.tenant)
    ensures rel in q.repo.ListTarget(rel.target, q.tenant)
  {
    var step := Step(rel.target, Some(rel.kind), Forward);
    assert Hop(q, rel.source, step);
    var back :| TakesBack(q, rel.source, step, back);
    var same := HopRow(q, rel.target, back);
    assert same == rel;
  }

  lemma ReverseGoesBack(q: Query, rel: Relationship)
    requires EveryHopGoesBack(q) && rel in q.repo.ListTarget(rel.target, q.tenant)
    ensures rel in q.repo.ListSource(rel.source, q.tenant)
  {
    var step := Step(rel.source, Some(rel.kind), Reverse);
    assert Hop(q, rel.target, step);
    var back :| TakesBack(q, rel.target, step, back);
    var same := HopRow(q, rel.source, back);
    assert same == rel;
  }

  /** Every hop can be taken back, with its type and in the other direction, if and only if every relationship that
      is within the row limit at one of its ends is within it at the other end. */
  lemma HopsGoBackExactly(q: Query)
    ensures EveryHopGoesBack(q) <==> SeenFromBothEnds(q)
  {
    if SeenFromBothEnds(q) {
      forall a, step | Hop(q, a, step)
        ensures exists back :: TakesBack(q, a, step, back)
      {
        var back := HopBack(q, a, step);
      }
    }
    if EveryHopGoesBack(q) {
      forall rel
        ensures SourceSees(q, rel) <==> TargetSees(q, rel)
      {
        ListedIsSeen(q, rel);
        if rel in q.repo.ListSource(rel.source, q.tenant) {
          ForwardGoesBack(q, rel);
        }
        if rel in q.repo.ListTarget(rel.target, q.tenant) {
          ReverseGoesBack(q, rel);
        }
      }
    }
  }

  /** In particular where no entity has more live rows than the limit, either way. */
  lemma FewRowsAreSeen(q: Query)
    requires forall id {:trigger LiveFrom(id, q.tenant)} {:trigger LiveInto(id, q.tenant)} ::
               && |Filter(LiveFrom(id, q.tenant), q.repo.rows)| <= ROW_LIMIT
               && |Filter(LiveInto(id, q.tenant), q.repo.rows)| <= ROW_LIMIT
    ensures SeenFromBothEnds(q)
  {
    forall rel
      ensures SourceSees(q, rel) <==> TargetSees(q, rel)
    {
      ListedIsSeen(q, rel);
    }
  }

  /** Row i leads from a to b, in its own direction or against it, and is within the limit at a. */
  ghost predicate LeadsTo(q: Query, i: int, a: EntityId, b: EntityId) {
    && 0 <= i < |q.repo.rows|
    && var rel := q.repo.rows[i];
       || (rel.source == a && rel.target == b && SeenFromSource(q, i))
       || (rel.target == a && rel.source == b && SeenFromTarget(q, i))
  }

  ghost predicate Leads(q: Query, a: EntityId, b: EntityId) {
    exists i :: LeadsTo(q, i, a, b)
  }

  /** Wherever a row leads from one entity to another, some row leads back. */
  ghost predicate Mutual(q: Query) {
    forall a, b {:trigger Leads(q, a, b)} :: Leads(q, a, b) ==> Leads(q, b, a)
  }

  lemma HopsLead(q: Query, a: EntityId, step: Step)
    requires Hop(q, a, step)
    ensures Leads(q, a, step.entity)
  {
    var rel := HopRow(q, a, step);
    ListedIsSeen(q, rel);
    if step.direction == Forward {
      var i :| SeenFromSource(q, i) && q.repo.rows[i] == rel;
      assert LeadsTo(q, i, a, step.entity);
    } else {
      var i :| SeenFromTarget(q, i) && q.repo.rows[i] == rel;
      assert LeadsTo(q, i, a, step.entity);
    }
  }

  lemma LeadsByHop(q: Query, a: EntityId, b: EntityId) returns (step: Step)
    requires Leads(q, a, b)
    ensures Hop(q, a, step) && step.entity == b
  {
    var i :| LeadsTo(q, i, a, b);
    var rel := q.repo.rows[i];
    ListedIsSeen(q, rel);
    if rel.source == a && rel.target == b && SeenFromSource(q, i) {
      assert rel in q.repo.ListSource(a, q.tenant);
      step := Step(b, Some(rel.kind), Forward);
    } else {
      assert rel in q.repo.ListTarget(a, q.tenant);
      step := Step(b, Some(rel.kind), Reverse);
    }
  }

  lemma BothEndsAreMutual(q: Query)
    requires SeenFromBothEnds(q)
    ensures Mutual(q)
  {
    forall a, b | Leads(q, a, b)
      ensures Leads(q, b, a)
    {
      var step := LeadsByHop(q, a, b);
      var back := HopBack(q, a, step);
      HopsLead(q, b, back);
    }
  }

  function Between(q: Query, source: EntityId, target: EntityId): Query {
    q.(source := source, target := target)
  }

  ghost predicate Reversed(p: seq<Step>, k: nat, back: seq<Step>) {
    && k < |p| && |back| == |p| - k
    && forall i {:trigger back[i]} :: 0 <= i < |back| ==> back[i].entity == p[|p| - 1 - i].entity
  }

  /** The walk read backwards from the last entity of `p` to its `k`-th. */
  lemma {:induction false} WalkBack(q: Query, p: seq<Step>, k: nat) returns (back: seq<Step>)
    requires Mutual(q) && Reaches(q, p, q.target) && k < |p|
    ensures Reaches(Between(q, q.target, q.source), back, p[k].entity) && Reversed(p, k, back)
    decreases |p| - k
  {
    if k == |p| - 1 {
      back := [Origin(q.target)];
    } else {
      var front := WalkBack(q, p, k + 1);
      var step := LeadsBack(q, p, k);
      back := front + [step];
      StepAppended(Between(q, q.target, q.source), front, step);
    }
  }

  lemma LeadsBack(q: Query, p: seq<Step>, k: nat) returns (step: Step)
    requires Mutual(q) && IsWalk(q, p) && k + 1 < |p|
    ensures Hop(Between(q, q.target, q.source), p[k + 1].entity, step) && step.entity == p[k].entity
  {
    assert HopTo(q, p, k + 1);
    HopsLead(q, p[k].entity, p[k + 1]);
    step := LeadsByHop(q, p[k + 1].entity, p[k].entity);
  }

  lemma StepAppended(q: Query, front: seq<Step>, step: Step)
    requires IsWalk(q, front) && Hop(q, front[|front| - 1].entity, step)
    ensures Reaches(q, front + [step], step.entity)
  {
    var back := front + [step];
    forall i | 1 <= i < |back|
      ensures HopTo(q, back, i)
    {
      assert i < |front| ==> HopTo(q, front, i);
    }
  }

  /** A shortest path has a shortest path of the same length in the other direction. */
  ghost predicate HasReturn(q: Query, p: seq<Step>) {
    exists r :: Shortest(Between(q, q.target, q.source), r) && |r| == |p|
  }

  /** Between any two entities, each way is as long as the other, or both are missing. */
  ghost predicate DistancesAgree(q: Query) {
    forall a, b, p {:trigger Shortest(Between(q, a, b), p)} ::
      Shortest(Between(q, a, b), p) ==> HasReturn(Between(q, a, b), p)
  }

  lemma SameGraph(q: Query, a: EntityId, b: EntityId)
    ensures Mutual(q) <==> Mutual(Between(q, a, b))
  {
    var r := Between(q, a, b);
    assert forall i, x, y :: LeadsTo(q, i, x, y) <==> LeadsTo(r, i, x, y);
    assert forall x, y {:trigger Leads(q, x, y)} {:trigger Leads(r, x, y)} :: Leads(q, x, y) <==> Leads(r, x, y);
  }

  lemma MutualReturns(q: Query, p: seq<Step>)
    requires Mutual(q) && Shortest(q, p)
    ensures HasReturn(q, p)
  {
    var r := Between(q, q.target, q.source);
    var back := WalkBack(q, p, 0);
    forall other | Reaches(r, other, r.target)
      ensures |back| <= |other|
    {
      SameGraph(q, q.target, q.source);
      var forth := WalkBack(r, other, 0);
      assert Between(r, r.target, r.source) == q;
      assert Reaches(q, forth, q.target);
    }
    forall i, j | 0 <= i < j < |back|
      ensures back[i].entity != back[j].entity
    {
      assert p[|p| - 1 - j].entity != p[|p| - 1 - i].entity;
    }
    assert Shortest(r, back);
  }

  lemma OneHopIsShortest(q: Query, step: Step)
    requires Hop(q, q.source, step) && step.entity == q.target != q.source
    ensures Shortest(q, [Origin(q.source), step])
  {
    var p := [Origin(q.source), step];
    assert HopTo(q, p, 1);
    forall other | Reaches(q, other, q.target)
      ensures |p| <= |other|
    {
      assert other[0] == Origin(q.source);
    }
  }

  lemma ReturnLeadsBack(q: Query, p: seq<Step>)
    requires HasReturn(q, p) && |p| == 2
    ensures Leads(q, q.target, q.source)
  {
    var r := Between(q, q.target, q.source);
    var back :| Shortest(r, back) && |back| == 2;
    assert HopTo(r, back, 1);
    HopsLead(r, q.target, back[1]);
    var i :| LeadsTo(r, i, q.target, q.source);
    assert LeadsTo(q, i, q.target, q.source);
  }

  /** Distances agree in both directions, for all pairs of entities, if and only if wherever a row within the limit
      leads from one entity to another, some row within the limit leads back. */
  lemma DistanceIsSymmetric(q: Query)
    ensures DistancesAgree(q) <==> Mutual(q)
  {
    if Mutual(q) {
      forall a, b, p | Shortest(Between(q, a, b), p)
        ensures HasReturn(Between(q, a, b), p)
      {
        SameGraph(q, a, b);
        MutualReturns(Between(q, a, b), p);
      }
    }
    if DistancesAgree(q) {
      forall a, b | Leads(q, a, b)
        ensures Leads(q, b, a)
      {
        if a != b {
          AgreeingLeadsBack(q, a, b);
        }
      }
    }
  }

  lemma AgreeingLeadsBack(q: Query, a: EntityId, b: EntityId)
    requires DistancesAgree(q) && Leads(q, a, b) && a != b
    ensures Leads(q, b, a)
  {
    var r := Between(q, a, b);
    var step := LeadsByHop(q, a, b);
    assert Hop(r, a, step);
    OneHopIsShortest(r, step);
    ReturnLeadsBack(r, [Origin(a), step]);
    var i :| LeadsTo(r, i, b, a);
    assert LeadsTo(q, i, b, a);
  }

  /** A table with 101 relationships into one entity, whose row i leads from entity i + 1 to entity 0. */
  function Star(): (q: Query)
    ensures |q.repo.rows| == ROW_LIMIT + 1 && q.tenant == 0
    ensures forall i :: 0 <= i <= ROW_LIMIT ==> q.repo.rows[i] == Relationship(0, i + 1, 0, "feeds", false)
  {
    Query(Repository(seq(ROW_LIMIT + 1, i requires 0 <= i <= ROW_LIMIT => Relationship(0, i + 1, 0, "feeds", false))),
          0, 0, 0, 0)
  }

  lemma StarLeadsIn(q: Query)
    requires q == Star()
    ensures Leads(q, ROW_LIMIT + 1, 0)
  {
    var last := ROW_LIMIT;
    FilterNone(LiveFrom(last + 1, 0), q.repo.rows[..last]);
    assert SeenFromSource(q, last);
    assert LeadsTo(q, last, last + 1, 0);
  }

  lemma StarDoesNotLeadOut(q: Query)
    requires q == Star()
    ensures !Leads(q, 0, ROW_LIMIT + 1)
  {
    FilterAll(LiveInto(0, 0), q.repo.rows[..ROW_LIMIT]);
    assert !SeenFromTarget(q, ROW_LIMIT);
  }

  /** There the limit makes the last row one-way: it leads from its source, but not back from its target. */
  lemma RowLimitBreaksSymmetry()
    ensures Leads(Star(), ROW_LIMIT + 1, 0) && !Leads(Star(), 0, ROW_LIMIT + 1)
    ensures !EveryHopGoesBack(Star()) && !DistancesAgree(Star())
  {
    var q := Star();
    StarLeadsIn(q);
    StarDoesNotLeadOut(q);
    assert !Mutual(q);
    if SeenFromBothEnds(q) {
      BothEndsAreMutual(q);
    }
    HopsGoBackExactly(q);
    DistanceIsSymmetric(q);
  }
}
