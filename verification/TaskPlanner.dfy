/** Dependency ordering of sub-tasks: services/ai/agent/planner.py. */
module TaskPlanner {
  import opened Common

  type TaskId = string

  /** The declared part of a sub-task that planning depends on. */
  datatype SubTask = SubTask(id: TaskId, dependencies: seq<TaskId>)

  datatype Node = Node(deps: set<TaskId>, dependents: set<TaskId>)

  type Dag = map<TaskId, Node>

  datatype Plan = Plan(executionOrder: seq<TaskId>, parallelGroups: seq<seq<TaskId>>, estimatedSteps: nat)

  datatype PlanError = CycleDetected

  // ---------------------------------------------------------------- what a plan has to respect

  ghost predicate DependsOn(dag: Dag, t: TaskId, dep: TaskId) {
    t in dag && dep in dag[t].deps
  }

  ghost predicate LinkAt(dag: Dag, c: seq<TaskId>, i: int)
    requires 1 <= i < |c|
  {
    DependsOn(dag, c[i], c[i - 1])
  }

  /** c[0], c[1], ... where every task is a declared dependency of the next one. */
  ghost predicate IsChain(dag: Dag, c: seq<TaskId>) {
    && c != []
    && (forall i :: 0 <= i < |c| ==> c[i] in dag)
    && forall i {:trigger LinkAt(dag, c, i)} :: 1 <= i < |c| ==> LinkAt(dag, c, i)
  }

  ghost predicate IsCycle(dag: Dag, c: seq<TaskId>) {
    IsChain(dag, c) && |c| >= 2 && c[0] == c[|c| - 1]
  }

  ghost predicate AllKnown(dag: Dag) {
    forall t {:trigger dag[t]} :: t in dag ==> dag[t].deps <= dag.Keys
  }

  ghost predicate Schedulable(dag: Dag) {
    AllKnown(dag) && !exists c :: IsCycle(dag, c)
  }

  /** `dependents` is the inverse of `deps` on the known tasks. */
  ghost predicate Linked(dag: Dag) {
    forall a, b {:trigger b in dag[a].dependents} ::
      a in dag ==> (b in dag[a].dependents <==> DependsOn(dag, b, a))
  }

  ghost predicate FollowsDeps(dag: Dag, order: seq<TaskId>, i: int)
    requires 0 <= i < |order| && order[i] in dag
  {
    forall d :: d in dag[order[i]].deps ==> d in order[..i]
  }

  /** Every task of `order` follows all its dependencies. */
  ghost predicate Ordered(dag: Dag, order: seq<TaskId>)
    requires Elements(order) <= dag.Keys
  {
    forall i {:trigger FollowsDeps(dag, order, i)} :: 0 <= i < |order| ==> FollowsDeps(dag, order, i)
  }

  ghost predicate IsExecutionOrder(dag: Dag, order: seq<TaskId>) {
    Distinct(order) && Elements(order) == dag.Keys && Ordered(dag, order)
  }

  // ---------------------------------------------------------------- an order exists exactly when schedulable

  lemma FrontIsChain(dag: Dag, c: seq<TaskId>)
    requires IsChain(dag, c) && |c| > 1
    ensures IsChain(dag, c[..|c| - 1])
  {
    var front := c[..|c| - 1];
    forall i | 1 <= i < |front|
      ensures LinkAt(dag, front, i)
    {
      assert LinkAt(dag, c, i);
    }
  }

  lemma ExtendChain(dag: Dag, c: seq<TaskId>, t: TaskId)
    requires IsChain(dag, c) && DependsOn(dag, t, c[|c| - 1])
    ensures IsChain(dag, c + [t])
  {
    var longer := c + [t];
    forall i | 1 <= i < |longer|
      ensures LinkAt(dag, longer, i)
    {
      assert i < |c| ==> LinkAt(dag, c, i);
    }
  }

  /** Along a chain the tasks appear in the order in increasing position. */
  lemma {:induction false} ChainFollowsOrder(dag: Dag, order: seq<TaskId>, c: seq<TaskId>, last: nat)
    requires IsExecutionOrder(dag, order) && IsChain(dag, c)
    requires last < |order| && order[last] == c[|c| - 1]
    ensures |c| - 1 <= last
    ensures |c| > 1 ==> c[0] in order[..last]
  {
    if |c| > 1 {
      assert LinkAt(dag, c, |c| - 1);
      assert FollowsDeps(dag, order, last);
      var prev :| 0 <= prev < last && order[prev] == c[|c| - 2];
      var front := c[..|c| - 1];
      FrontIsChain(dag, c);
      ChainFollowsOrder(dag, order, front, prev);
      assert |c| == 2 ==> c[0] == order[..last][prev];
      assert |c| > 2 ==> order[..prev] == order[..last][..prev];
    }
  }

  lemma OrderedIsSchedulable(dag: Dag, order: seq<TaskId>)
    requires IsExecutionOrder(dag, order)
    ensures Schedulable(dag)
  {
    forall t | t in dag
      ensures dag[t].deps <= dag.Keys
    {
      var i :| 0 <= i < |order| && order[i] == t;
      assert FollowsDeps(dag, order, i);
    }
    forall c | IsCycle(dag, c)
      ensures false
    {
      var last :| 0 <= last < |order| && order[last] == c[|c| - 1];
      ChainFollowsOrder(dag, order, c, last);
    }
  }

  ghost predicate Waits(dag: Dag, stuck: set<TaskId>, s: TaskId) {
    s in dag && dag[s].deps * stuck != {}
  }

  /** Going backwards along dependencies that stay inside `stuck`, for n steps. */
  lemma {:induction false} DescendingChain(dag: Dag, stuck: set<TaskId>, t: TaskId, n: nat) returns (c: seq<TaskId>)
    requires t in stuck && stuck <= dag.Keys
    requires forall s {:trigger Waits(dag, stuck, s)} :: s in stuck ==> Waits(dag, stuck, s)
    ensures IsChain(dag, c) && |c| == n + 1 && c[n] == t
    ensures forall i :: 0 <= i < |c| ==> c[i] in stuck
    decreases n
  {
    if n == 0 {
      c := [t];
    } else {
      assert Waits(dag, stuck, t);
      var d :| d in dag[t].deps * stuck;
      var c0 := DescendingChain(dag, stuck, d, n - 1);
      ExtendChain(dag, c0, t);
      c := c0 + [t];
    }
  }

  /** A set in which every task waits for another of the set contains a cycle, by the pigeonhole principle. */
  lemma StuckHasCycle(dag: Dag, stuck: set<TaskId>)
    requires stuck != {} && stuck <= dag.Keys
    requires forall s {:trigger Waits(dag, stuck, s)} :: s in stuck ==> Waits(dag, stuck, s)
    ensures exists c :: IsCycle(dag, c)
  {
    var t :| t in stuck;
    var c := DescendingChain(dag, stuck, t, |stuck|);
    if Distinct(c) {
      DistinctCardinality(c);
      SubsetCardinality(Elements(c), stuck);
      assert false;
    } else {
      var i, j :| 0 <= i < j < |c| && c[i] == c[j];
      var cycle := c[i..j + 1];
      forall k | 1 <= k < |cycle|
        ensures LinkAt(dag, cycle, k)
      {
        assert LinkAt(dag, c, i + k);
      }
      assert IsCycle(dag, cycle);
    }
  }

  // ---------------------------------------------------------------- building the graph

  ghost predicate DistinctIds(tasks: seq<SubTask>) {
    forall i, j :: 0 <= i < j < |tasks| ==> tasks[i].id != tasks[j].id
  }

  ghost predicate IsTask(tasks: seq<SubTask>, t: TaskId) {
    exists i :: 0 <= i < |tasks| && tasks[i].id == t
  }

  /** Some declaration of `t` lists `dep`. */
  ghost predicate Declares(tasks: seq<SubTask>, t: TaskId, dep: TaskId) {
    exists i :: 0 <= i < |tasks| && tasks[i].id == t && dep in tasks[i].dependencies
  }

  /** Among the first n declarations the i-th is the last one of its task. */
  ghost predicate IsLast(tasks: seq<SubTask>, n: int, i: int) {
    0 <= i < n <= |tasks| && forall j :: i < j < n ==> tasks[j].id != tasks[i].id
  }

  /** The last declaration of `t`, which overwrites earlier ones, lists `dep`. */
  ghost predicate Needs(tasks: seq<SubTask>, t: TaskId, dep: TaskId) {
    exists i :: IsLast(tasks, |tasks|, i) && tasks[i].id == t && dep in tasks[i].dependencies
  }

  /** The graph carries exactly the declared tasks, the dependencies of their last declarations, and as dependents
      of a task those that list it in any declaration. */
  ghost predicate Represents(dag: Dag, tasks: seq<SubTask>) {
    && (forall t :: t in dag <==> IsTask(tasks, t))
    && (forall t, dep {:trigger dep in dag[t].deps} :: t in dag ==> (dep in dag[t].deps <==> Needs(tasks, t, dep)))
    && (forall a, b {:trigger b in dag[a].dependents} ::
          a in dag ==> (b in dag[a].dependents <==> Declares(tasks, b, a)))
  }

  /** No known dependency of a task is missing from a later declaration of the same task. */
  ghost predicate NothingWithdrawn(tasks: seq<SubTask>) {
    forall t, dep {:trigger Declares(tasks, t, dep)} ::
      Declares(tasks, t, dep) && IsTask(tasks, dep) ==> Needs(tasks, t, dep)
  }

  lemma {:induction false} LastDeclaration(tasks: seq<SubTask>, n: nat, i: nat) returns (last: nat)
    requires i < n <= |tasks|
    ensures IsLast(tasks, n, last) && tasks[last].id == tasks[i].id
    decreases n
  {
    if i == n - 1 || tasks[n - 1].id == tasks[i].id {
      last := n - 1;
    } else {
      last := LastDeclaration(tasks, n - 1, i);
    }
  }

  /** `dependents` is the inverse of `deps` if and only if no declaration withdraws a known dependency. */
  lemma LinkedExactly(dag: Dag, tasks: seq<SubTask>)
    requires Represents(dag, tasks)
    ensures Linked(dag) <==> NothingWithdrawn(tasks)
  {
    forall a, b | a in dag
      ensures DependsOn(dag, b, a) <==> Needs(tasks, b, a)
      ensures DependsOn(dag, b, a) ==> b in dag[a].dependents
    {
      if Needs(tasks, b, a) {
        var i :| IsLast(tasks, |tasks|, i) && tasks[i].id == b && a in tasks[i].dependencies;
        assert IsTask(tasks, b) && Declares(tasks, b, a);
        assert a in dag[b].deps;
      }
    }
    if Linked(dag) {
      forall t, dep | Declares(tasks, t, dep) && IsTask(tasks, dep)
        ensures Needs(tasks, t, dep)
      {
        assert t in dag[dep].dependents;
      }
    }
  }

  /** With distinct ids nothing can be withdrawn. */
  lemma DistinctWithdrawsNothing(tasks: seq<SubTask>)
    requires DistinctIds(tasks)
    ensures NothingWithdrawn(tasks)
  {
    forall t, dep | Declares(tasks, t, dep)
      ensures Needs(tasks, t, dep)
    {
      var i :| 0 <= i < |tasks| && tasks[i].id == t && dep in tasks[i].dependencies;
      assert IsLast(tasks, |tasks|, i);
    }
  }

  /** The distinct ids in the order of their first declarations. */
  function FirstIds(tasks: seq<SubTask>): (ids: seq<TaskId>)
    ensures forall t :: t in ids <==> IsTask(tasks, t)
    ensures Distinct(ids)
  {
    if tasks == [] then []
    else
      var last := |tasks| - 1;
      var front := FirstIds(tasks[..last]);
      IsTaskOneMore(tasks);
      if tasks[last].id in front then front else front + [tasks[last].id]
  }

  lemma IsTaskOneMore(tasks: seq<SubTask>)
    requires tasks != []
    ensures forall t :: IsTask(tasks, t) <==> IsTask(tasks[..|tasks| - 1], t) || t == tasks[|tasks| - 1].id
  {
    var front := tasks[..|tasks| - 1];
    forall t | IsTask(front, t)
      ensures IsTask(tasks, t)
    {
      var i :| 0 <= i < |front| && front[i].id == t;
      assert tasks[i].id == t;
    }
    forall t | IsTask(tasks, t) && t != tasks[|tasks| - 1].id
      ensures IsTask(front, t)
    {
      var i :| 0 <= i < |tasks| && tasks[i].id == t;
      assert front[i].id == t;
    }
  }

  /** With distinct ids every declaration has its own place. */
  lemma {:induction false} FirstIdsOfDistinct(tasks: seq<SubTask>)
    requires DistinctIds(tasks)
    ensures |FirstIds(tasks)| == |tasks| && forall i :: 0 <= i < |tasks| ==> FirstIds(tasks)[i] == tasks[i].id
  {
    if tasks != [] {
      FirstIdsOfDistinct(tasks[..|tasks| - 1]);
    }
  }

  ghost predicate DeclaredBefore(tasks: seq<SubTask>, n: nat, t: TaskId, dep: TaskId)
    requires n <= |tasks|
  {
    exists i :: 0 <= i < n && tasks[i].id == t && dep in tasks[i].dependencies
  }

  /** The inner loop: `task` becomes a dependent of each of its known dependencies. */
  method AddDependents(dag: Dag, task: SubTask) returns (dag': Dag)
    ensures dag'.Keys == dag.Keys
    ensures forall a :: a in dag ==> dag'[a].deps == dag[a].deps
    ensures forall a :: a in dag ==>
              dag'[a].dependents == dag[a].dependents + if a in task.dependencies then {task.id} else {}
  {
    dag' := dag;
    var deps := task.dependencies;
    for j := 0 to |deps|
      invariant dag'.Keys == dag.Keys
      invariant forall a :: a in dag ==> dag'[a].deps == dag[a].deps
      invariant forall a :: a in dag ==>
                  dag'[a].dependents == dag[a].dependents + if a in deps[..j] then {task.id} else {}
    {
      if deps[j] in dag' {
        dag' := dag'[deps[j] := dag'[deps[j]].(dependents := dag'[deps[j]].dependents + {task.id})];
      }
    }
  }

  ghost predicate HasDeps(dag: Dag, task: SubTask) {
    task.id in dag && dag[task.id].deps == Elements(task.dependencies)
  }

  /** Each of the first n declarations that is the last of its task has its dependencies in the graph. */
  ghost predicate HasLastDeps(dag: Dag, tasks: seq<SubTask>, n: int) {
    forall k {:trigger IsLast(tasks, n, k)} :: IsLast(tasks, n, k) ==> HasDeps(dag, tasks[k])
  }

  lemma DeclaredOneMore(dag: Dag, dag': Dag, tasks: seq<SubTask>, n: nat, node: Node)
    requires n < |tasks| && HasLastDeps(dag, tasks, n)
    requires dag' == dag[tasks[n].id := node] && node.deps == Elements(tasks[n].dependencies)
    ensures HasLastDeps(dag', tasks, n + 1)
  {
    forall k | IsLast(tasks, n + 1, k)
      ensures HasDeps(dag', tasks[k])
    {
      if k < n {
        assert tasks[n].id != tasks[k].id;
        assert IsLast(tasks, n, k);
      }
    }
  }

  /** The first loop of `_build_dag`: one node per id, still without dependents; a repeated id overwrites the node
      and keeps its place in the dictionary. */
  method DeclareNodes(tasks: seq<SubTask>) returns (dag: Dag, keys: seq<TaskId>)
    ensures keys == FirstIds(tasks) && dag.Keys == Elements(keys)
    ensures HasLastDeps(dag, tasks, |tasks|)
    ensures forall t :: t in dag ==> dag[t].dependents == {}
  {
    dag, keys := map[], [];
    for i := 0 to |tasks|
      invariant keys == FirstIds(tasks[..i]) && dag.Keys == Elements(keys)
      invariant HasLastDeps(dag, tasks, i)
      invariant forall t :: t in dag ==> dag[t].dependents == {}
    {
      var id, node := tasks[i].id, Node(set d | d in tasks[i].dependencies, {});
      assert node.deps == Elements(tasks[i].dependencies);
      DeclaredOneMore(dag, dag[id := node], tasks, i, node);
      assert tasks[..i + 1][..i] == tasks[..i];
      if id !in dag {
        keys := keys + [id];
      }
      dag := dag[id := node];
    }
    assert tasks[..|tasks|] == tasks;
  }

  /** `_build_dag`; `keys` is the iteration order of the dictionary. */
  method BuildDag(tasks: seq<SubTask>) returns (dag: Dag, keys: seq<TaskId>)
    ensures Represents(dag, tasks)
    ensures keys == FirstIds(tasks) && Elements(keys) == dag.Keys
  {
    dag, keys := DeclareNodes(tasks);
    for i := 0 to |tasks|
      invariant dag.Keys == Elements(keys)
      invariant HasLastDeps(dag, tasks, |tasks|)
      invariant HasDependents(dag, tasks, i)
    {
      ghost var before := dag;
      dag := AddDependents(dag, tasks[i]);
      SameDepsDeclared(before, dag, tasks);
      DependentsOneMore(before, dag, tasks, i);
    }
    RepresentsDeclarations(dag, keys, tasks);
  }

  ghost predicate HasDependents(dag: Dag, tasks: seq<SubTask>, n: int) {
    && 0 <= n <= |tasks|
    && forall a, b {:trigger b in dag[a].dependents} ::
         a in dag ==> (b in dag[a].dependents <==> DeclaredBefore(tasks, n, b, a))
  }

  lemma DependentsOneMore(dag: Dag, dag': Dag, tasks: seq<SubTask>, n: nat)
    requires n < |tasks| && HasDependents(dag, tasks, n) && dag'.Keys == dag.Keys
    requires forall a :: a in dag ==>
               dag'[a].dependents == dag[a].dependents + if a in tasks[n].dependencies then {tasks[n].id} else {}
    ensures HasDependents(dag', tasks, n + 1)
  {
    forall a, b | a in dag
      ensures b in dag'[a].dependents <==> DeclaredBefore(tasks, n + 1, b, a)
    {
      assert b in dag[a].dependents <==> DeclaredBefore(tasks, n, b, a);
    }
  }

  lemma SameDepsDeclared(dag: Dag, dag': Dag, tasks: seq<SubTask>)
    requires HasLastDeps(dag, tasks, |tasks|) && dag'.Keys == dag.Keys
    requires forall a :: a in dag ==> dag'[a].deps == dag[a].deps
    ensures HasLastDeps(dag', tasks, |tasks|)
  {
    forall k | IsLast(tasks, |tasks|, k)
      ensures HasDeps(dag', tasks[k])
    {
      assert HasDeps(dag, tasks[k]);
    }
  }

  lemma RepresentsDeclarations(dag: Dag, keys: seq<TaskId>, tasks: seq<SubTask>)
    requires keys == FirstIds(tasks) && dag.Keys == Elements(keys)
    requires HasLastDeps(dag, tasks, |tasks|)
    requires HasDependents(dag, tasks, |tasks|)
    ensures Represents(dag, tasks)
  {
    forall t, dep | t in dag
      ensures dep in dag[t].deps <==> Needs(tasks, t, dep)
    {
      var i :| 0 <= i < |tasks| && tasks[i].id == t;
      var last := LastDeclaration(tasks, |tasks|, i);
      assert HasDeps(dag, tasks[last]);
      if Needs(tasks, t, dep) {
        var k :| IsLast(tasks, |tasks|, k) && tasks[k].id == t && dep in tasks[k].dependencies;
        assert HasDeps(dag, tasks[k]);
      }
    }
    forall a, b | a in dag
      ensures b in dag[a].dependents <==> Declares(tasks, b, a)
    {
      assert DeclaredBefore(tasks, |tasks|, b, a) <==> Declares(tasks, b, a);
    }
  }

  // ---------------------------------------------------------------- Kahn's algorithm

  type Degrees = map<TaskId, int>

  /** Dependents are nodes themselves. */
  ghost predicate Closed(dag: Dag) {
    forall a, b {:trigger b in dag[a].dependents} :: a in dag && b in dag[a].dependents ==> b in dag
  }

  /** The tasks of a set that have `t` as a dependent; placing one of them lowers t's counter. */
  ghost function Notifiers(dag: Dag, before: set<TaskId>, t: TaskId): set<TaskId> {
    set a | a in before && a in dag && t in dag[a].dependents
  }

  /** t's counter once the tasks of `before` are placed. */
  ghost function Unmet(dag: Dag, before: seq<TaskId>, t: TaskId): int
    requires t in dag
  {
    |dag[t].deps| - |Notifiers(dag, Elements(before), t)|
  }

  ghost predicate IsReleased(dag: Dag, order: seq<TaskId>, i: int)
    requires 0 <= i < |order| && order[i] in dag
  {
    Unmet(dag, order[..i], order[i]) <= 0
  }

  /** Every task is preceded by as many tasks that have it as a dependent as it has dependencies. */
  ghost predicate AllReleased(dag: Dag, order: seq<TaskId>)
    requires Elements(order) <= dag.Keys
  {
    forall i {:trigger IsReleased(dag, order, i)} :: 0 <= i < |order| ==> IsReleased(dag, order, i)
  }

  ghost predicate IsReleaseOrder(dag: Dag, order: seq<TaskId>) {
    Distinct(order) && Elements(order) == dag.Keys && AllReleased(dag, order)
  }

  /** On a linked graph the notifiers are the dependencies, so release orders are execution orders. */
  lemma NotifiersAreDeps(dag: Dag, before: set<TaskId>, t: TaskId)
    requires Linked(dag) && before <= dag.Keys && t in dag
    ensures Notifiers(dag, before, t) == dag[t].deps * before
  {
    forall a
      ensures a in Notifiers(dag, before, t) <==> a in dag[t].deps * before
    {
      if a in before {
        assert t in dag[a].dependents <==> DependsOn(dag, t, a);
      }
    }
  }

  lemma ReleasedFollowsDeps(dag: Dag, order: seq<TaskId>, i: nat)
    requires Linked(dag) && Elements(order) <= dag.Keys && i < |order| && IsReleased(dag, order, i)
    ensures FollowsDeps(dag, order, i)
  {
    var before, deps := Elements(order[..i]), dag[order[i]].deps;
    NotifiersAreDeps(dag, before, order[i]);
    SubsetCardinality(deps * before, deps);
    assert deps * before == deps;
  }

  lemma ReleaseOrderIsExecutionOrder(dag: Dag, order: seq<TaskId>)
    requires Linked(dag) && IsReleaseOrder(dag, order)
    ensures IsExecutionOrder(dag, order)
  {
    forall i | 0 <= i < |order|
      ensures FollowsDeps(dag, order, i)
    {
      assert IsReleased(dag, order, i);
      ReleasedFollowsDeps(dag, order, i);
    }
  }

  /** `placed` followed by `queue` lists, once each, the tasks whose counter has come down to zero. */
  ghost predicate Released(dag: Dag, placed: seq<TaskId>, queue: seq<TaskId>, inDegree: Degrees) {
    && inDegree.Keys == dag.Keys
    && Distinct(placed + queue)
    && Elements(placed + queue) <= dag.Keys
    && forall t {:trigger inDegree[t]} :: t in dag ==> (t in Elements(placed + queue) <==> inDegree[t] <= 0)
  }

  lemma PlacedOneMore(dag: Dag, before: seq<TaskId>, current: TaskId, t: TaskId)
    requires current in dag && t in dag && current !in before
    ensures Unmet(dag, before + [current], t) == Unmet(dag, before, t) - if t in dag[current].dependents then 1 else 0
  {
    var all := Notifiers(dag, Elements(before), t);
    assert Notifiers(dag, Elements(before + [current]), t) ==
           all + if t in dag[current].dependents then {current} else {};
  }

  lemma ReleasedStep(dag: Dag, placed: seq<TaskId>, queue: seq<TaskId>, inDegree: Degrees, dep: TaskId)
    requires Released(dag, placed, queue, inDegree) && dep in dag
    ensures var n := inDegree[dep] - 1;
            Released(dag, placed, if n == 0 then queue + [dep] else queue, inDegree[dep := n])
  {
    if inDegree[dep] == 1 {
      assert dep !in placed + queue;
      assert placed + (queue + [dep]) == placed + queue + [dep];
    }
  }

  /** The inner loop of the sort; the iteration order over the set of dependents is arbitrary. */
  method Release(dependents: set<TaskId>, ghost dag: Dag, ghost placed: seq<TaskId>, queue: seq<TaskId>,
                 inDegree: Degrees)
    returns (queue': seq<TaskId>, inDegree': Degrees)
    requires Released(dag, placed, queue, inDegree)
    requires dependents <= dag.Keys
    ensures Released(dag, placed, queue', inDegree')
    ensures forall t :: t in dag ==> inDegree'[t] == inDegree[t] - if t in dependents then 1 else 0
  {
    queue', inDegree' := queue, inDegree;
    var todo := dependents;
    while todo != {}
      invariant todo <= dependents
      invariant Released(dag, placed, queue', inDegree')
      invariant forall t :: t in dag ==> inDegree'[t] == inDegree[t] - if t in dependents - todo then 1 else 0
      decreases todo
    {
      var dep :| dep in todo;
      ReleasedStep(dag, placed, queue', inDegree', dep);
      inDegree' := inDegree'[dep := inDegree'[dep] - 1];
      if inDegree'[dep] == 0 {
        queue' := queue' + [dep];
      }
      todo := todo - {dep};
    }
  }

  ghost predicate Counted(dag: Dag, order: seq<TaskId>, inDegree: Degrees) {
    inDegree.Keys == dag.Keys && forall t {:trigger inDegree[t]} :: t in dag ==> inDegree[t] == Unmet(dag, order, t)
  }

  lemma CountedOneMore(dag: Dag, order: seq<TaskId>, current: TaskId, before: Degrees, after: Degrees)
    requires Counted(dag, order, before)
    requires current in dag && current !in order && after.Keys == dag.Keys
    requires forall t :: t in dag ==> after[t] == before[t] - if t in dag[current].dependents then 1 else 0
    ensures Counted(dag, order + [current], after)
  {
    forall t | t in dag
      ensures after[t] == Unmet(dag, order + [current], t)
    {
      PlacedOneMore(dag, order, current, t);
    }
  }

  lemma ReleasedOneMore(dag: Dag, order: seq<TaskId>, current: TaskId)
    requires Elements(order) <= dag.Keys && AllReleased(dag, order)
    requires current in dag && Unmet(dag, order, current) <= 0
    ensures Elements(order + [current]) <= dag.Keys && AllReleased(dag, order + [current])
  {
    var longer := order + [current];
    forall i | 0 <= i < |longer|
      ensures IsReleased(dag, longer, i)
    {
      assert longer[..i] == order[..i];
      if i < |order| {
        assert IsReleased(dag, order, i);
      } else {
        assert order[..i] == order;
      }
    }
  }

  lemma UnmetWaits(dag: Dag, order: seq<TaskId>, s: TaskId)
    requires Linked(dag) && Elements(order) <= dag.Keys
    requires s in dag && dag[s].deps <= dag.Keys
    requires Unmet(dag, order, s) > 0
    ensures Waits(dag, dag.Keys - Elements(order), s)
  {
    var deps, before := dag[s].deps, Elements(order);
    NotifiersAreDeps(dag, before, s);
    assert deps * before != deps;
    var d :| d in deps && d !in before;
    assert d in deps * (dag.Keys - before);
  }

  lemma AllPlaced(dag: Dag, order: seq<TaskId>)
    requires Distinct(order) && Elements(order) <= dag.Keys
    ensures |order| == |dag| <==> Elements(order) == dag.Keys
  {
    DistinctCardinality(order);
    SubsetCardinality(Elements(order), dag.Keys);
  }

  lemma AllPlacedIsOrder(dag: Dag, order: seq<TaskId>, inDegree: Degrees)
    requires Elements(order) <= dag.Keys && AllReleased(dag, order)
    requires Released(dag, order, [], inDegree) && |order| == |dag|
    ensures IsReleaseOrder(dag, order)
    ensures Linked(dag) ==> IsExecutionOrder(dag, order) && Schedulable(dag)
  {
    assert order + [] == order;
    AllPlaced(dag, order);
    if Linked(dag) {
      ReleaseOrderIsExecutionOrder(dag, order);
      OrderedIsSchedulable(dag, order);
    }
  }

  /** What is left over when the queue runs empty has not come down to zero. */
  lemma SomeLeftOver(dag: Dag, order: seq<TaskId>, inDegree: Degrees)
    requires Counted(dag, order, inDegree) && Released(dag, order, [], inDegree) && |order| != |dag|
    ensures Elements(order) <= dag.Keys && dag.Keys - Elements(order) != {}
    ensures forall s :: s in dag.Keys - Elements(order) ==> Unmet(dag, order, s) > 0
  {
    assert order + [] == order;
    AllPlaced(dag, order);
    assert dag.Keys == Elements(order) + (dag.Keys - Elements(order));
  }

  /** On a linked graph the left-over tasks contain a cycle or miss a dependency. */
  lemma LeftOversAreStuck(dag: Dag, order: seq<TaskId>, inDegree: Degrees)
    requires Linked(dag) && Counted(dag, order, inDegree) && Released(dag, order, [], inDegree)
    requires |order| != |dag|
    ensures !Schedulable(dag)
  {
    var stuck := dag.Keys - Elements(order);
    SomeLeftOver(dag, order, inDegree);
    if AllKnown(dag) {
      forall s | s in stuck
        ensures Waits(dag, stuck, s)
      {
        UnmetWaits(dag, order, s);
      }
      StuckHasCycle(dag, stuck);
    }
  }

  lemma FewerNotify(dag: Dag, before: set<TaskId>, after: set<TaskId>, t: TaskId)
    requires before <= after
    ensures |Notifiers(dag, before, t)| <= |Notifiers(dag, after, t)|
  {
    SubsetCardinality(Notifiers(dag, before, t), Notifiers(dag, after, t));
  }

  lemma {:induction false} FirstMissing(other: seq<TaskId>, order: seq<TaskId>, t: TaskId) returns (i: nat)
    requires t in other && t !in order
    ensures i < |other| && other[i] !in order && Elements(other[..i]) <= Elements(order)
    decreases |other|
  {
    var last := |other| - 1;
    if u :| u in other[..last] && u !in order {
      i := FirstMissing(other[..last], order, u);
      assert other[..last][..i] == other[..i];
    } else {
      i := last;
      assert forall u :: u in other[..last] ==> u in order;
    }
  }

  /** Left-over tasks rule out every release order: the first of them in such an order would have been released. */
  lemma LeftOversAreNeverReleased(dag: Dag, order: seq<TaskId>, inDegree: Degrees, other: seq<TaskId>)
    requires Counted(dag, order, inDegree) && Released(dag, order, [], inDegree)
    requires |order| != |dag|
    ensures !IsReleaseOrder(dag, other)
  {
    SomeLeftOver(dag, order, inDegree);
    if IsReleaseOrder(dag, other) {
      var t :| t in dag.Keys - Elements(order);
      var i := FirstMissing(other, order, t);
      assert IsReleased(dag, other, i);
      FewerNotify(dag, Elements(other[..i]), Elements(order), other[i]);
      assert false;
    }
  }

  /** The tasks whose counter is zero, in dictionary order. */
  function Sources(keys: seq<TaskId>, inDegree: Degrees): (r: seq<TaskId>) {
    Filter(t => t in inDegree && inDegree[t] == 0, keys)
  }

  lemma ReleasedInitially(dag: Dag, keys: seq<TaskId>, inDegree: Degrees)
    requires Distinct(keys) && Elements(keys) == dag.Keys && inDegree.Keys == dag.Keys
    requires forall t :: t in dag ==> inDegree[t] >= 0
    ensures Released(dag, [], Sources(keys, inDegree), inDegree)
  {
    FilterKeepsDistinct(t => t in inDegree && inDegree[t] == 0, keys);
    var queue := Sources(keys, inDegree);
    assert [] + queue == queue;
  }

  lemma SortingInitially(dag: Dag, keys: seq<TaskId>, inDegree: Degrees)
    requires Distinct(keys) && Elements(keys) == dag.Keys
    requires inDegree == map t | t in dag :: |dag[t].deps|
    ensures Sorting(dag, [], Sources(keys, inDegree), inDegree)
  {
    ReleasedInitially(dag, keys, inDegree);
    forall t | t in dag
      ensures inDegree[t] == Unmet(dag, [], t)
    {
      assert Notifiers(dag, Elements([]), t) == {};
    }
  }

  lemma HeadIsReleased(dag: Dag, order: seq<TaskId>, queue: seq<TaskId>, inDegree: Degrees)
    requires Released(dag, order, queue, inDegree) && queue != []
    ensures queue[0] in dag && queue[0] !in order && inDegree[queue[0]] <= 0
    ensures Released(dag, order + [queue[0]], queue[1..], inDegree)
  {
    assert order + [queue[0]] + queue[1..] == order + queue;
    var k := |order|;
    assert (order + queue)[k] == queue[0];
    assert forall i :: 0 <= i < k ==> (order + queue)[i] == order[i];
  }

  lemma PlacedFit(dag: Dag, placed: seq<TaskId>, queue: seq<TaskId>, inDegree: Degrees)
    requires Released(dag, placed, queue, inDegree)
    ensures |placed| <= |dag|
  {
    DistinctCardinality(placed + queue);
    SubsetCardinality(Elements(placed + queue), dag.Keys);
  }

  ghost predicate Sorting(dag: Dag, order: seq<TaskId>, queue: seq<TaskId>, inDegree: Degrees) {
    && Elements(order) <= dag.Keys && AllReleased(dag, order)
    && Counted(dag, order, inDegree)
    && Released(dag, order, queue, inDegree)
  }

  /** One round of the sort: the head of the queue joins the order and its dependents are released. */
  method Place(dag: Dag, order: seq<TaskId>, queue: seq<TaskId>, inDegree: Degrees)
    returns (order': seq<TaskId>, queue': seq<TaskId>, inDegree': Degrees)
    requires Closed(dag) && Sorting(dag, order, queue, inDegree) && queue != []
    ensures order' == order + [queue[0]] && |order'| <= |dag|
    ensures Sorting(dag, order', queue', inDegree')
  {
    var current := queue[0];
    HeadIsReleased(dag, order, queue, inDegree);
    ReleasedOneMore(dag, order, current);
    order' := order + [current];
    queue', inDegree' := Release(dag[current].dependents, dag, order', queue[1..], inDegree);
    CountedOneMore(dag, order, current, inDegree, inDegree');
    PlacedFit(dag, order', queue', inDegree');
  }

  /** `_topological_sort`: Kahn's algorithm. `keys` is the iteration order of the dictionary. */
  method TopologicalSort(dag: Dag, keys: seq<TaskId>) returns (r: Result<seq<TaskId>, PlanError>)
    requires Closed(dag)
    requires Distinct(keys) && Elements(keys) == dag.Keys
    ensures r.Ok? <==> exists order :: IsReleaseOrder(dag, order)
    ensures r.Ok? ==> IsReleaseOrder(dag, r.value)
    ensures Linked(dag) ==> (r.Ok? <==> Schedulable(dag)) && (r.Ok? ==> IsExecutionOrder(dag, r.value))
  {
    var inDegree: Degrees := map t | t in dag :: |dag[t].deps|;
    var queue := Sources(keys, inDegree);
    var order: seq<TaskId> := [];
    SortingInitially(dag, keys, inDegree);
    while queue != []
      invariant Sorting(dag, order, queue, inDegree)
      decreases |dag| - |order|
    {
      order, queue, inDegree := Place(dag, order, queue, inDegree);
    }
    if |order| != |dag| {
      forall other
        ensures !IsReleaseOrder(dag, other)
      {
        LeftOversAreNeverReleased(dag, order, inDegree, other);
      }
      if Linked(dag) {
        LeftOversAreStuck(dag, order, inDegree);
      }
      return Err(CycleDetected);
    }
    AllPlacedIsOrder(dag, order, inDegree);
    return Ok(order);
  }

  // ---------------------------------------------------------------- parallel groups

  type Groups = seq<seq<TaskId>>

  ghost predicate EndsIn(dag: Dag, c: seq<TaskId>, t: TaskId) {
    IsChain(dag, c) && c[|c| - 1] == t
  }

  ghost predicate HasChain(dag: Dag, t: TaskId, n: nat) {
    exists c :: EndsIn(dag, c, t) && |c| == n
  }

  ghost predicate NoLongerChain(dag: Dag, t: TaskId, n: nat) {
    forall c :: EndsIn(dag, c, t) ==> |c| <= n
  }

  ghost predicate InGroup(groups: Groups, t: TaskId, g: int) {
    0 <= g < |groups| && t in groups[g]
  }

  ghost predicate Placed(groups: Groups, t: TaskId) {
    exists g :: InGroup(groups, t, g)
  }

  /** A group lists, in execution order, tasks whose longest dependency chain has exactly g + 1 tasks. */
  ghost predicate IsLayer(dag: Dag, order: seq<TaskId>, groups: Groups, g: int)
    requires 0 <= g < |groups|
  {
    && groups[g] != []
    && groups[g] == Filter(t => t in groups[g], order)
    && forall t :: t in groups[g] ==> HasChain(dag, t, g + 1) && NoLongerChain(dag, t, g + 1)
  }

  /** The groups layer the whole graph by longest dependency chain. */
  ghost predicate Layered(dag: Dag, order: seq<TaskId>, groups: Groups) {
    && (forall t :: t in dag <==> Placed(groups, t))
    && forall g {:trigger IsLayer(dag, order, groups, g)} :: 0 <= g < |groups| ==> IsLayer(dag, order, groups, g)
  }

  /** Loop state: `completed` holds the grouped tasks and every other task has a chain longer than any grouped one. */
  ghost predicate Grouping(dag: Dag, order: seq<TaskId>, groups: Groups, completed: set<TaskId>) {
    && completed <= dag.Keys
    && (forall t :: t in completed <==> Placed(groups, t))
    && (forall g {:trigger IsLayer(dag, order, groups, g)} :: 0 <= g < |groups| ==> IsLayer(dag, order, groups, g))
    && forall t :: t in dag && t !in completed ==> HasChain(dag, t, |groups| + 1)
  }

  predicate CanStart(dag: Dag, completed: set<TaskId>, t: TaskId) {
    t in dag && t !in completed && dag[t].deps <= completed
  }

  lemma StartsAfterLongest(dag: Dag, order: seq<TaskId>, groups: Groups, completed: set<TaskId>, t: TaskId)
    requires Grouping(dag, order, groups, completed) && CanStart(dag, completed, t)
    ensures HasChain(dag, t, |groups| + 1) && NoLongerChain(dag, t, |groups| + 1)
  {
    forall c | EndsIn(dag, c, t)
      ensures |c| <= |groups| + 1
    {
      if |c| > 1 {
        var d := c[|c| - 2];
        assert LinkAt(dag, c, |c| - 1);
        FrontIsChain(dag, c);
        assert Placed(groups, d);
        var g :| InGroup(groups, d, g);
        assert IsLayer(dag, order, groups, g);
        assert EndsIn(dag, c[..|c| - 1], d);
      }
    }
  }

  lemma WaitsEvenLonger(dag: Dag, n: nat, completed: set<TaskId>, t: TaskId)
    requires AllKnown(dag) && t in dag && !(dag[t].deps <= completed)
    requires forall d :: d in dag && d !in completed ==> HasChain(dag, d, n)
    ensures HasChain(dag, t, n + 1)
  {
    var d :| d in dag[t].deps && d !in completed;
    var c :| EndsIn(dag, c, d) && |c| == n;
    ExtendChain(dag, c, t);
    assert EndsIn(dag, c + [t], t);
  }

  lemma SomeoneCanStart(dag: Dag, order: seq<TaskId>, completed: set<TaskId>) returns (t: TaskId)
    requires IsExecutionOrder(dag, order) && completed < dag.Keys
    ensures t in order && CanStart(dag, completed, t)
  {
    var i := 0;
    while order[i] in completed
      invariant 0 <= i < |order|
      invariant forall k :: 0 <= k < i ==> order[k] in completed
      decreases |order| - i
    {
      if i + 1 == |order| {
        assert false;
      }
      i := i + 1;
    }
    t := order[i];
    assert FollowsDeps(dag, order, i);
  }

  lemma GroupAdded(dag: Dag, order: seq<TaskId>, groups: Groups, completed: set<TaskId>, group: seq<TaskId>)
    requires IsExecutionOrder(dag, order) && AllKnown(dag)
    requires Grouping(dag, order, groups, completed)
    requires group == Filter(t => CanStart(dag, completed, t), order) && group != []
    ensures Grouping(dag, order, groups + [group], completed + Elements(group))
  {
    var groups', completed' := groups + [group], completed + Elements(group);
    FilterAgrees(t => CanStart(dag, completed, t), t => t in group, order);
    forall g | 0 <= g < |groups'|
      ensures IsLayer(dag, order, groups', g)
    {
      if g < |groups| {
        assert IsLayer(dag, order, groups, g);
      } else {
        forall t | t in group
          ensures HasChain(dag, t, g + 1) && NoLongerChain(dag, t, g + 1)
        {
          StartsAfterLongest(dag, order, groups, completed, t);
        }
      }
    }
    forall t | t in completed'
      ensures Placed(groups', t)
    {
      if t in completed {
        var g :| InGroup(groups, t, g);
        assert InGroup(groups', t, g);
      } else {
        assert InGroup(groups', t, |groups|);
      }
    }
    forall t | Placed(groups', t)
      ensures t in completed'
    {
      var g :| InGroup(groups', t, g);
      assert g < |groups| ==> InGroup(groups, t, g);
    }
    forall t | t in dag && t !in completed'
      ensures HasChain(dag, t, |groups'| + 1)
    {
      WaitsEvenLonger(dag, |groups| + 1, completed, t);
    }
  }

  /** The inner loop: the candidates that can start now, in execution order. */
  method CollectReady(dag: Dag, order: seq<TaskId>, completed: set<TaskId>) returns (group: seq<TaskId>)
    requires Elements(order) <= dag.Keys
    ensures group == Filter(t => CanStart(dag, completed, t), order)
  {
    group := [];
    for i := 0 to |order|
      invariant group == Filter(t => CanStart(dag, completed, t), order[..i])
    {
      FilterStep(t => CanStart(dag, completed, t), order, i);
      if order[i] in completed {
        continue;
      }
      if dag[order[i]].deps <= completed {
        group := group + [order[i]];
      }
    }
    assert order[..|order|] == order;
  }

  lemma GroupingInitially(dag: Dag, order: seq<TaskId>)
    ensures Grouping(dag, order, [], {})
  {
    forall t | t in dag
      ensures HasChain(dag, t, 1)
    {
      assert EndsIn(dag, [t], t);
    }
  }

  /** Every dependency of a grouped task is in a strictly earlier group, every task is in at most one group, and
      every task left out still waits for one that is left out or unknown. */
  ghost predicate GroupedSafely(dag: Dag, groups: Groups) {
    && (forall t, g {:trigger InGroup(groups, t, g)} :: InGroup(groups, t, g) ==> StartsSafely(dag, groups, t, g))
    && (forall t, g, h {:trigger InGroup(groups, t, g), InGroup(groups, t, h)} ::
          InGroup(groups, t, g) && InGroup(groups, t, h) ==> g == h)
    && forall t {:trigger Placed(groups, t)} :: t in dag && !Placed(groups, t) ==>
         exists d :: d in dag[t].deps && !Placed(groups, d)
  }

  ghost predicate StartsSafely(dag: Dag, groups: Groups, t: TaskId, g: int) {
    t in dag && forall d :: d in dag[t].deps ==> exists h :: h < g && InGroup(groups, d, h)
  }

  /** Loop state in any order: `completed` holds the grouped tasks, each grouped once after its dependencies. */
  ghost predicate Starting(dag: Dag, groups: Groups, completed: set<TaskId>) {
    && completed <= dag.Keys
    && (forall t {:trigger Placed(groups, t)} :: t in completed <==> Placed(groups, t))
    && (forall t, g {:trigger InGroup(groups, t, g)} :: InGroup(groups, t, g) ==> StartsSafely(dag, groups, t, g))
    && (forall t, g, h {:trigger InGroup(groups, t, g), InGroup(groups, t, h)} ::
          InGroup(groups, t, g) && InGroup(groups, t, h) ==> g == h)
  }

  lemma PlacedWithGroup(groups: Groups, group: seq<TaskId>, t: TaskId)
    ensures Placed(groups + [group], t) <==> Placed(groups, t) || t in group
  {
    var groups' := groups + [group];
    if Placed(groups, t) {
      var g :| InGroup(groups, t, g);
      assert InGroup(groups', t, g);
    }
    if t in group {
      assert InGroup(groups', t, |groups|);
    }
    if Placed(groups', t) {
      var g :| InGroup(groups', t, g);
      assert g < |groups| ==> InGroup(groups, t, g);
    }
  }

  lemma StartsAfterCompleted(dag: Dag, groups: Groups, completed: set<TaskId>, group: seq<TaskId>, t: TaskId, g: int)
    requires Starting(dag, groups, completed)
    requires forall u :: u in group ==> CanStart(dag, completed, u)
    requires InGroup(groups + [group], t, g)
    ensures StartsSafely(dag, groups + [group], t, g)
  {
    if g < |groups| {
      assert InGroup(groups, t, g);
      assert StartsSafely(dag, groups, t, g);
    }
    forall d | d in dag[t].deps
      ensures exists h :: h < g && InGroup(groups + [group], d, h)
    {
      assert g == |groups| ==> Placed(groups, d);
      var h :| h < g && InGroup(groups, d, h);
      assert InGroup(groups + [group], d, h);
    }
  }

  lemma StartedGroup(dag: Dag, groups: Groups, completed: set<TaskId>, group: seq<TaskId>)
    requires Starting(dag, groups, completed)
    requires forall u :: u in group ==> CanStart(dag, completed, u)
    ensures Starting(dag, groups + [group], completed + Elements(group))
  {
    var groups', completed' := groups + [group], completed + Elements(group);
    forall t
      ensures t in completed' <==> Placed(groups', t)
    {
      PlacedWithGroup(groups, group, t);
    }
    forall t, g | InGroup(groups', t, g)
      ensures StartsSafely(dag, groups', t, g)
    {
      StartsAfterCompleted(dag, groups, completed, group, t, g);
    }
    forall t, g, h | InGroup(groups', t, g) && InGroup(groups', t, h)
      ensures g == h
    {
      assert g < |groups| ==> InGroup(groups, t, g) && Placed(groups, t);
      assert h < |groups| ==> InGroup(groups, t, h) && Placed(groups, t);
    }
  }

  /** No task can start any more. */
  ghost predicate NoneStarts(dag: Dag, completed: set<TaskId>) {
    forall t {:trigger CanStart(dag, completed, t)} :: t in dag ==> !CanStart(dag, completed, t)
  }

  lemma ReadyGrows(dag: Dag, order: seq<TaskId>, completed: set<TaskId>, group: seq<TaskId>)
    requires Elements(order) == dag.Keys
    requires group == Filter(t => CanStart(dag, completed, t), order)
    ensures group == [] <==> NoneStarts(dag, completed)
    ensures group != [] ==> |completed + Elements(group)| > |completed|
  {
    if group != [] {
      assert group[0] in group;
      SubsetCardinality(completed + {group[0]}, completed + Elements(group));
    } else {
      forall t | t in dag
        ensures !CanStart(dag, completed, t)
      {
        assert t in order && t !in group;
      }
    }
  }

  lemma OrderedEndsComplete(dag: Dag, order: seq<TaskId>, completed: set<TaskId>)
    requires IsExecutionOrder(dag, order) && completed <= dag.Keys && NoneStarts(dag, completed)
    ensures completed == dag.Keys
  {
    if completed != dag.Keys {
      var t := SomeoneCanStart(dag, order, completed);
      assert false;
    }
  }

  lemma EndsSafely(dag: Dag, groups: Groups, completed: set<TaskId>)
    requires Starting(dag, groups, completed) && (|completed| >= |dag| || NoneStarts(dag, completed))
    ensures GroupedSafely(dag, groups) && NoneStarts(dag, completed)
  {
    if |completed| >= |dag| {
      SubsetCardinality(completed, dag.Keys);
    }
    forall t | t in dag && !Placed(groups, t)
      ensures exists d :: d in dag[t].deps && !Placed(groups, d)
    {
      assert !CanStart(dag, completed, t);
      var d :| d in dag[t].deps && d !in completed;
      assert !Placed(groups, d);
    }
  }

  /** `_parallel_groups`, on any order: the groups are safe, and on a valid order they layer the whole graph. */
  method ParallelGroups(dag: Dag, order: seq<TaskId>) returns (groups: Groups)
    requires Distinct(order) && Elements(order) == dag.Keys
    ensures GroupedSafely(dag, groups)
    ensures IsExecutionOrder(dag, order) ==> Layered(dag, order, groups)
  {
    GroupingInitially(dag, order);
    var completed: set<TaskId> := {};
    groups := [];
    for i := 0 to |order|
      invariant Starting(dag, groups, completed)
      invariant IsExecutionOrder(dag, order) ==> Grouping(dag, order, groups, completed)
      invariant |completed| >= i || NoneStarts(dag, completed)
    {
      var group := CollectReady(dag, order, completed);
      ReadyGrows(dag, order, completed, group);
      if group != [] {
        StartedGroup(dag, groups, completed, group);
        if IsExecutionOrder(dag, order) {
          OrderedIsSchedulable(dag, order);
          GroupAdded(dag, order, groups, completed, group);
        }
        groups := groups + [group];
        completed := completed + (set t | t in group);
      }
    }
    DistinctCardinality(order);
    EndsSafely(dag, groups, completed);
    if IsExecutionOrder(dag, order) {
      OrderedEndsComplete(dag, order, completed);
    }
  }

  /** No task waits for another task of its own group or of a later one, and every task is in one group only. */
  lemma GroupsAreSafe(dag: Dag, order: seq<TaskId>, groups: Groups, t: TaskId, g: int, d: TaskId, h: int)
    requires Layered(dag, order, groups)
    requires InGroup(groups, t, g) && InGroup(groups, d, h)
    ensures d == t ==> g == h
    ensures DependsOn(dag, t, d) ==> h < g
  {
    assert IsLayer(dag, order, groups, g) && IsLayer(dag, order, groups, h);
    var c :| EndsIn(dag, c, t) && |c| == g + 1;
    var e :| EndsIn(dag, e, d) && |e| == h + 1;
    if DependsOn(dag, t, d) {
      ExtendChain(dag, e, t);
      assert EndsIn(dag, e + [t], t);
    }
  }

  /** Any assignment of levels in which every dependency lies strictly lower. */
  ghost predicate IsLayering(dag: Dag, level: map<TaskId, nat>) {
    && level.Keys == dag.Keys
    && forall t, d {:trigger DependsOn(dag, t, d)} :: DependsOn(dag, t, d) && d in dag ==> level[d] < level[t]
  }

  lemma {:induction false} LayeringClimbsChain(dag: Dag, level: map<TaskId, nat>, c: seq<TaskId>)
    requires IsLayering(dag, level) && IsChain(dag, c)
    ensures |c| - 1 <= level[c[|c| - 1]]
  {
    if |c| > 1 {
      assert LinkAt(dag, c, |c| - 1);
      FrontIsChain(dag, c);
      LayeringClimbsChain(dag, level, c[..|c| - 1]);
    }
  }

  /** No layering puts a task on a lower level than its group index, so none has fewer levels. */
  lemma GroupsAreLowest(dag: Dag, order: seq<TaskId>, groups: Groups, level: map<TaskId, nat>, t: TaskId, g: int)
    requires Layered(dag, order, groups) && IsLayering(dag, level)
    requires InGroup(groups, t, g)
    ensures g <= level[t]
  {
    assert IsLayer(dag, order, groups, g);
    var c :| EndsIn(dag, c, t) && |c| == g + 1;
    LayeringClimbsChain(dag, level, c);
  }

  /** `plan` after decomposition: the graph, its order and its groups, or the error of the sort. */
  method MakePlan(tasks: seq<SubTask>) returns (r: Result<Plan, PlanError>)
    ensures exists dag :: Represents(dag, tasks)
    ensures forall dag :: Represents(dag, tasks) ==> PlansFor(dag, tasks, r)
  {
    var dag, keys := BuildDag(tasks);
    ThereIsOneGraph(dag, tasks);
    GraphIsClosed(dag, tasks);
    LinkedExactly(dag, tasks);
    var order := TopologicalSort(dag, keys);
    if order.Err? {
      return Err(order.error);
    }
    var groups := ParallelGroups(dag, order.value);
    DistinctCardinality(order.value);
    return Ok(Plan(order.value, groups, |order.value|));
  }

  /** A plan exactly when the graph has a release order, with such an order and safe groups. If nothing is withdrawn,
      that is exactly when the graph can be scheduled, with a valid order and the layering by longest chain. */
  ghost predicate PlansFor(dag: Dag, tasks: seq<SubTask>, r: Result<Plan, PlanError>) {
    && (r.Ok? <==> exists order :: IsReleaseOrder(dag, order))
    && (r.Ok? ==>
          && IsReleaseOrder(dag, r.value.executionOrder)
          && GroupedSafely(dag, r.value.parallelGroups)
          && r.value.estimatedSteps == |dag|)
    && (NothingWithdrawn(tasks) ==>
          && (r.Ok? <==> Schedulable(dag))
          && (r.Ok? ==>
                && IsExecutionOrder(dag, r.value.executionOrder)
                && Layered(dag, r.value.executionOrder, r.value.parallelGroups)))
  }

  lemma GraphIsClosed(dag: Dag, tasks: seq<SubTask>)
    requires Represents(dag, tasks)
    ensures Closed(dag)
  {
    forall a, b | a in dag && b in dag[a].dependents
      ensures b in dag
    {
      assert Declares(tasks, b, a);
    }
  }

  /** With distinct ids there is one step per sub-task. */
  lemma OneStepPerTask(dag: Dag, tasks: seq<SubTask>)
    requires DistinctIds(tasks) && Represents(dag, tasks)
    ensures |dag| == |tasks|
  {
    FirstIdsOfDistinct(tasks);
    DistinctCardinality(FirstIds(tasks));
    assert dag.Keys == Elements(FirstIds(tasks));
  }

  /** Sub-tasks a, x and b, where x is declared twice, first depending on a and then on b, and b depends on x. */
  function Redeclared(a: TaskId, x: TaskId, b: TaskId): seq<SubTask> {
    [SubTask(a, []), SubTask(x, [a]), SubTask(x, [b]), SubTask(b, [x])]
  }

  function RedeclaredDag(a: TaskId, x: TaskId, b: TaskId): Dag {
    map[a := Node({}, {x}), x := Node({b}, {b}), b := Node({x}, {x})]
  }

  /** A repeated id can hide a cycle: the sort accepts these sub-tasks, since the withdrawn dependency of x on a still
      lowers its counter, although x and b depend on each other. */
  lemma RedeclarationHidesCycle(a: TaskId, x: TaskId, b: TaskId)
    requires a != x && x != b && a != b
    ensures !NothingWithdrawn(Redeclared(a, x, b))
    ensures Represents(RedeclaredDag(a, x, b), Redeclared(a, x, b))
    ensures IsReleaseOrder(RedeclaredDag(a, x, b), [a, x, b]) && !Schedulable(RedeclaredDag(a, x, b))
  {
    RedeclaredRepresented(a, x, b);
    RedeclaredReleased(a, x, b);
    RedeclaredBlocks(a, x, b);
    LinkedExactly(RedeclaredDag(a, x, b), Redeclared(a, x, b));
    assert x in RedeclaredDag(a, x, b)[a].dependents;
    assert !DependsOn(RedeclaredDag(a, x, b), x, a);
  }

  lemma RedeclaredRepresented(a: TaskId, x: TaskId, b: TaskId)
    requires a != x && x != b && a != b
    ensures Represents(RedeclaredDag(a, x, b), Redeclared(a, x, b))
  {
    var dag, tasks := RedeclaredDag(a, x, b), Redeclared(a, x, b);
    assert tasks[0].id == a && tasks[1].id == x && tasks[2].id == x && tasks[3].id == b;
    assert IsLast(tasks, 4, 0) && !IsLast(tasks, 4, 1) && IsLast(tasks, 4, 2) && IsLast(tasks, 4, 3);
  }

  lemma RedeclaredReleased(a: TaskId, x: TaskId, b: TaskId)
    requires a != x && x != b && a != b
    ensures IsReleaseOrder(RedeclaredDag(a, x, b), [a, x, b])
  {
    var dag, order := RedeclaredDag(a, x, b), [a, x, b];
    assert Elements(order) == dag.Keys;
    assert order[..0] == [] && order[..1] == [a] && order[..2] == [a, x];
    assert Notifiers(dag, Elements(order[..1]), x) == {a};
    assert Notifiers(dag, Elements(order[..2]), b) == {x};
    assert IsReleased(dag, order, 0) && IsReleased(dag, order, 1) && IsReleased(dag, order, 2);
  }

  lemma RedeclaredBlocks(a: TaskId, x: TaskId, b: TaskId)
    requires a != x && x != b && a != b
    ensures !Schedulable(RedeclaredDag(a, x, b))
  {
    var dag, c := RedeclaredDag(a, x, b), [x, b, x];
    assert LinkAt(dag, c, 1) && LinkAt(dag, c, 2);
    assert IsCycle(dag, c);
  }

  /** The declarations determine the graph. */
  lemma ThereIsOneGraph(dag: Dag, tasks: seq<SubTask>)
    requires Represents(dag, tasks)
    ensures forall other {:trigger Represents(other, tasks)} :: Represents(other, tasks) ==> other == dag
  {
    forall other: Dag | Represents(other, tasks)
      ensures other == dag
    {
      forall t
        ensures t in dag <==> t in other
        ensures t in dag ==> dag[t] == other[t]
      {
        if t in dag {
          SameNode(dag, other, tasks, t);
        }
      }
    }
  }

  lemma SameNode(dag: Dag, other: Dag, tasks: seq<SubTask>, t: TaskId)
    requires Represents(dag, tasks) && Represents(other, tasks) && t in dag
    ensures t in other && dag[t] == other[t]
  {
    SameDeps(dag, other, tasks, t);
    SameDependents(dag, other, tasks, t);
  }

  lemma SameDeps(dag: Dag, other: Dag, tasks: seq<SubTask>, t: TaskId)
    requires Represents(dag, tasks) && Represents(other, tasks) && t in dag
    ensures t in other && dag[t].deps == other[t].deps
  {
    forall d
      ensures d in dag[t].deps <==> d in other[t].deps
    {
      assert d in dag[t].deps <==> Needs(tasks, t, d);
    }
  }

  lemma SameDependents(dag: Dag, other: Dag, tasks: seq<SubTask>, t: TaskId)
    requires Represents(dag, tasks) && Represents(other, tasks) && t in dag
    ensures t in other && dag[t].dependents == other[t].dependents
  {
    forall b
      ensures b in dag[t].dependents <==> b in other[t].dependents
    {
      assert b in dag[t].dependents <==> Declares(tasks, b, t);
    }
  }
}
