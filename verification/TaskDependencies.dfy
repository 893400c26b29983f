/**
 Task dependencies (src/modules/task/dependency.service.ts): an explicit-stack depth-first search
 guards every insertion into task_dependencies. The tables are maps from id to row; ids are compared
 for equality only. Each exported service function is one atomic step.
 */
module TaskDependencies {
  import opened Wrappers
  import opened Digraph

  type OrgId = nat
  type WorkspaceId = nat
  type DependencyId = nat
  type UserId = nat

  datatype Task = Task(org: OrgId, workspace: WorkspaceId, deleted: bool)

  datatype Dependency = Dependency(org: OrgId, blocking: Node, blocked: Node, createdBy: UserId)

  datatype DependencyError =
    | SelfDependency
    | BlockingTaskNotFound
    | BlockedTaskNotFound
    | CrossWorkspaceDependency
    | DependencyCycle
    | DuplicateKey

  datatype State = State(tasks: map<Node, Task>, deps: map<DependencyId, Dependency>)

  /** The edges the search of one organization sees. */
  function OrgEdges(deps: map<DependencyId, Dependency>, org: OrgId): Edges {
    set d | d in deps && deps[d].org == org :: (deps[d].blocking, deps[d].blocked)
  }

  function AllEdges(deps: map<DependencyId, Dependency>): Edges {
    set d | d in deps :: (deps[d].blocking, deps[d].blocked)
  }

  predicate LiveIn(s: State, org: OrgId, t: Node) {
    t in s.tasks && !s.tasks[t].deleted && s.tasks[t].org == org
  }

  // ----- specification of the operations

  /** The error addDependency raises, if any; the checks run in this order. */
  ghost function Refusal(s: State, org: OrgId, blocking: Node, blocked: Node): Option<DependencyError> {
    if blocking == blocked then Some(SelfDependency)
    else if !LiveIn(s, org, blocking) then Some(BlockingTaskNotFound)
    else if !LiveIn(s, org, blocked) then Some(BlockedTaskNotFound)
    else if s.tasks[blocking].workspace != s.tasks[blocked].workspace then Some(CrossWorkspaceDependency)
    else if Reaches(OrgEdges(s.deps, org), blocked, blocking) then Some(DependencyCycle)
    else None
  }

  datatype Op =
    | CreateTask(task: Node, org: OrgId, workspace: WorkspaceId)
    | DeleteTask(task: Node)
    | Add(org: OrgId, blocking: Node, blocked: Node, creator: UserId, id: DependencyId)
    | Remove(org: OrgId, id: DependencyId)

  ghost function Step(s: State, op: Op): State {
    match op
    case CreateTask(t, org, ws) =>
      if t in s.tasks then s else s.(tasks := s.tasks[t := Task(org, ws, false)])
    case DeleteTask(t) =>
      if t in s.tasks then s.(tasks := s.tasks[t := s.tasks[t].(deleted := true)]) else s
    case Add(org, a, b, creator, id) =>
      if Refusal(s, org, a, b).None? && id !in s.deps
      then s.(deps := s.deps[id := Dependency(org, a, b, creator)])
      else s
    case Remove(org, id) =>
      if id in s.deps && s.deps[id].org == org then s.(deps := s.deps - {id}) else s
  }

  ghost function Run(s: State, ops: seq<Op>): State
    decreases |ops|
  {
    if ops == [] then s else Step(Run(s, ops[..|ops| - 1]), ops[|ops| - 1])
  }

  // ----- the invariant of every run

  /** Both ends of every edge are tasks of the row's organization and share a workspace. */
  ghost predicate SameHome(s: State) {
    forall d :: d in s.deps ==>
      var e := s.deps[d];
      && e.blocking in s.tasks && e.blocked in s.tasks
      && s.tasks[e.blocking].org == e.org == s.tasks[e.blocked].org
      && s.tasks[e.blocking].workspace == s.tasks[e.blocked].workspace
  }

  ghost predicate Consistent(s: State) {
    SameHome(s) && Acyclic(AllEdges(s.deps))
  }

  /** A path that starts at a task of one organization only uses that organization's edges. */
  lemma {:induction false} PathStaysInOrg(s: State, p: seq<Node>, org: OrgId)
    requires SameHome(s) && IsPath(AllEdges(s.deps), p)
    requires p[0] in s.tasks && s.tasks[p[0]].org == org
    ensures IsPath(OrgEdges(s.deps, org), p)
    decreases |p|
  {
    if |p| >= 2 {
      FirstStep(AllEdges(s.deps), p);
      var d :| d in s.deps && (s.deps[d].blocking, s.deps[d].blocked) == (p[0], p[1]);
      assert (p[0], p[1]) in OrgEdges(s.deps, org);
      PathStaysInOrg(s, p[1..], org);
      forall i | 0 <= i < |p| - 1 ensures (p[i], p[i + 1]) in OrgEdges(s.deps, org) {
        if i > 0 {
          assert p[1..][i - 1] == p[i] && p[1..][i - 1 + 1] == p[i + 1];
        }
      }
    }
  }

  /** The org-scoped search misses nothing: reachability in the whole table is the same. */
  lemma OrgScopedReach(s: State, org: OrgId, a: Node, b: Node)
    requires SameHome(s) && a in s.tasks && s.tasks[a].org == org
    ensures Reaches(AllEdges(s.deps), a, b) <==> Reaches(OrgEdges(s.deps, org), a, b)
  {
    if Reaches(AllEdges(s.deps), a, b) {
      var p :| Connects(AllEdges(s.deps), p, a, b);
      PathStaysInOrg(s, p, org);
      assert Connects(OrgEdges(s.deps, org), p, a, b);
    }
    if Reaches(OrgEdges(s.deps, org), a, b) {
      var p :| Connects(OrgEdges(s.deps, org), p, a, b);
      assert OrgEdges(s.deps, org) <= AllEdges(s.deps);
      assert Connects(AllEdges(s.deps), p, a, b);
    }
  }

  /** The guard is exact: an edge is refused as a cycle just when the whole table would become cyclic. */
  lemma GuardIsExact(s: State, org: OrgId, a: Node, b: Node)
    requires Consistent(s)
    requires a != b && LiveIn(s, org, a) && LiveIn(s, org, b) && s.tasks[a].workspace == s.tasks[b].workspace
    ensures Refusal(s, org, a, b) == Some(DependencyCycle) <==> !Acyclic(AllEdges(s.deps) + {(a, b)})
    ensures Refusal(s, org, a, b) == None <==> Acyclic(AllEdges(s.deps) + {(a, b)})
  {
    OrgScopedReach(s, org, b, a);
    AddEdgeAcyclic(AllEdges(s.deps), a, b);
  }

  lemma StepKeepsConsistent(s: State, op: Op)
    requires Consistent(s)
    ensures Consistent(Step(s, op))
  {
    var t := Step(s, op);
    match op
    case Add(org, a, b, creator, id) =>
      if t != s {
        GuardIsExact(s, org, a, b);
        InsertedEdges(s, org, a, b, creator, id);
      }
    case Remove(_, _) =>
      assert AllEdges(t.deps) <= AllEdges(s.deps);
      AcyclicSubgraph(AllEdges(s.deps), AllEdges(t.deps));
    case CreateTask(_, _, _) =>
    case DeleteTask(_) =>
  }

  lemma {:induction false} RunKeepsConsistent(s: State, ops: seq<Op>)
    requires Consistent(s)
    ensures Consistent(Run(s, ops))
    decreases |ops|
  {
    if ops != [] {
      RunKeepsConsistent(s, ops[..|ops| - 1]);
      StepKeepsConsistent(Run(s, ops[..|ops| - 1]), ops[|ops| - 1]);
    }
  }

  const EMPTY := State(map[], map[])

  /**
   After any sequence of task creations, deletions, addDependency and removeDependency calls on empty
   tables, every edge joins two tasks of one organization and workspace, the graph has no cycle,
   and all tasks can be listed so that each one comes after everything that blocks it.
   */
  lemma EveryRunCanBeScheduled(ops: seq<Op>)
    ensures Consistent(Run(EMPTY, ops))
    ensures exists order :: Topological(AllEdges(Run(EMPTY, ops).deps), Run(EMPTY, ops).tasks.Keys, order)
  {
    var s := Run(EMPTY, ops);
    assert AllEdges(EMPTY.deps) == {};
    AcyclicByEdges({});
    RunKeepsConsistent(EMPTY, ops);
    AcyclicIffOrdered(AllEdges(s.deps), s.tasks.Keys);
  }

  // ----- what the operations achieve

  /** A call may store its edge: distinct live tasks of the organization in one workspace, no path back, a new id. */
  ghost predicate MayAdd(s: State, org: OrgId, a: Node, b: Node, id: DependencyId) {
    && a != b && a in s.tasks && b in s.tasks && !s.tasks[a].deleted && !s.tasks[b].deleted
    && s.tasks[a].org == org && s.tasks[b].org == org && s.tasks[a].workspace == s.tasks[b].workspace
    && !Reaches(OrgEdges(s.deps, org), b, a) && id !in s.deps
  }

  ghost predicate Usable(s: State, org: OrgId, t: Node) {
    t in s.tasks && !s.tasks[t].deleted && s.tasks[t].org == org
  }

  /** A call is refused exactly when it may not add, and the error it reports is true of the tables. */
  lemma RefusalIsTrue(s: State, org: OrgId, a: Node, b: Node, id: DependencyId)
    requires id !in s.deps
    ensures var r := Refusal(s, org, a, b);
      && (r.None? <==> MayAdd(s, org, a, b, id))
      && (r == Some(SelfDependency) <==> a == b)
      && (r == Some(BlockingTaskNotFound) <==> a != b && !Usable(s, org, a))
      && (r == Some(BlockedTaskNotFound) <==> a != b && Usable(s, org, a) && !Usable(s, org, b))
      && (r == Some(CrossWorkspaceDependency) ==> s.tasks[a].workspace != s.tasks[b].workspace)
      && (r == Some(DependencyCycle) ==> s.tasks[a].workspace == s.tasks[b].workspace && Reaches(OrgEdges(s.deps, org), b, a))
  {
  }

  /**
   An allowed call stores exactly its row: one edge more, all other rows as they were, and the opposite
   edge is refused from then on. A call that is not allowed changes nothing.
   */
  lemma AddStoresEdge(s: State, org: OrgId, a: Node, b: Node, u: UserId, id: DependencyId)
    ensures var t := Step(s, Add(org, a, b, u, id));
      && t.tasks == s.tasks
      && (!MayAdd(s, org, a, b, id) ==> t.deps == s.deps)
      && (MayAdd(s, org, a, b, id) ==>
            && id in t.deps && t.deps[id] == Dependency(org, a, b, u)
            && (forall d :: d != id ==> (d in t.deps <==> d in s.deps) && (d in s.deps ==> t.deps[d] == s.deps[d]))
            && AllEdges(t.deps) == AllEdges(s.deps) + {(a, b)}
            && Refusal(t, org, b, a) == Some(DependencyCycle))
  {
    var t := Step(s, Add(org, a, b, u, id));
    if MayAdd(s, org, a, b, id) {
      InsertedEdges(s, org, a, b, u, id);
      EdgeBlocksOpposite(t, id);
    }
  }

  /** While a row is there, its organization's search finds the way from its blocking to its blocked task. */
  lemma EdgeBlocksOpposite(s: State, id: DependencyId)
    requires id in s.deps
    ensures Reaches(OrgEdges(s.deps, s.deps[id].org), s.deps[id].blocking, s.deps[id].blocked)
  {
    var e := s.deps[id];
    var g := OrgEdges(s.deps, e.org);
    assert (e.blocking, e.blocked) in g;
    ReachesSelf(g, e.blocked);
    ReachesViaEdge(g, e.blocking, e.blocked, e.blocked);
  }

  predicate Removes(op: Op, org: OrgId, id: DependencyId) {
    op == Remove(org, id)
  }

  /** A stored dependency stays until its organization removes it, and all that time its opposite is refused. */
  lemma {:induction false} DependencyStands(s: State, ops: seq<Op>, id: DependencyId)
    requires id in s.deps && forall i :: 0 <= i < |ops| ==> !Removes(ops[i], s.deps[id].org, id)
    ensures var t, e := Run(s, ops), s.deps[id];
      && id in t.deps && t.deps[id] == e
      && Refusal(t, e.org, e.blocked, e.blocking).Some?
    decreases |ops|
  {
    if ops != [] {
      DependencyStands(s, ops[..|ops| - 1], id);
      assert !Removes(ops[|ops| - 1], s.deps[id].org, id);
    }
    EdgeBlocksOpposite(Run(s, ops), id);
  }

  /** Removing what was just added restores the tables; another organization's removal does nothing. */
  lemma RemoveUndoesAdd(s: State, org: OrgId, a: Node, b: Node, u: UserId, id: DependencyId, other: OrgId)
    requires MayAdd(s, org, a, b, id)
    ensures var t := Step(s, Add(org, a, b, u, id));
      && Step(t, Remove(org, id)) == s
      && (other != org ==> Step(t, Remove(other, id)) == t)
  {
    assert s.deps[id := Dependency(org, a, b, u)] - {id} == s.deps;
  }

  // ----- two calls that interleave

  /** The INSERT of a call whose guard has passed. */
  function Inserted(s: State, org: OrgId, a: Node, b: Node, creator: UserId, id: DependencyId): State {
    s.(deps := s.deps[id := Dependency(org, a, b, creator)])
  }

  lemma InsertedEdges(s: State, org: OrgId, a: Node, b: Node, creator: UserId, id: DependencyId)
    requires id !in s.deps
    ensures AllEdges(Inserted(s, org, a, b, creator, id).deps) == AllEdges(s.deps) + {(a, b)}
  {
    var t := Inserted(s, org, a, b, creator, id);
    forall e | e in AllEdges(s.deps) + {(a, b)} ensures e in AllEdges(t.deps) {
      if e == (a, b) {
        assert t.deps[id] == Dependency(org, a, b, creator);
      } else {
        var d :| d in s.deps && (s.deps[d].blocking, s.deps[d].blocked) == e;
        assert t.deps[d] == s.deps[d];
      }
    }
  }

  /**
   The guarantee needs check and insert to be one step. When two calls both pass the guard on one
   consistent table and then both insert, the table stays consistent exactly when the task one of them
   blocks does not lead to the task that blocks in the other, both ways round.
   */
  lemma InterleavedInsertsSafeIff(s: State, org: OrgId, a: Node, b: Node, org': OrgId, c: Node, d: Node,
                                  u: UserId, i: DependencyId, j: DependencyId)
    requires Consistent(s) && i != j && i !in s.deps && j !in s.deps
    requires Refusal(s, org, a, b).None? && Refusal(s, org', c, d).None?
    ensures Consistent(Inserted(Inserted(s, org, a, b, u, i), org', c, d, u, j)) <==>
            !(Reaches(OrgEdges(s.deps, org), b, c) && Reaches(OrgEdges(s.deps, org'), d, a))
  {
    var g, t := AllEdges(s.deps), Inserted(s, org, a, b, u, i);
    InsertedEdges(s, org, a, b, u, i);
    InsertedEdges(t, org', c, d, u, j);
    OrgScopedReach(s, org, b, a);
    OrgScopedReach(s, org, b, c);
    OrgScopedReach(s, org', d, c);
    OrgScopedReach(s, org', d, a);
    AddTwoEdgesAcyclic(g, a, b, c, d);
    assert SameHome(Inserted(t, org', c, d, u, j));
  }

  /** Opposite edges between the same two tasks always close a cycle when they pass the guard together. */
  lemma InterleavedInsertsCanCycle(s: State, org: OrgId, a: Node, b: Node, u: UserId, i: DependencyId, j: DependencyId)
    requires Consistent(s) && i != j && i !in s.deps && j !in s.deps
    requires Refusal(s, org, a, b).None? && Refusal(s, org, b, a).None?
    ensures !Consistent(Inserted(Inserted(s, org, a, b, u, i), org, b, a, u, j))
  {
    InterleavedInsertsSafeIff(s, org, a, b, org, b, a, u, i, j);
    ReachesSelf(OrgEdges(s.deps, org), a);
    ReachesSelf(OrgEdges(s.deps, org), b);
  }

  /** Such calls exist: two fresh tasks. */
  lemma OppositeCallsBothPass()
    ensures var s := State(map[1 := Task(0, 0, false), 2 := Task(0, 0, false)], map[]);
      Consistent(s) && Refusal(s, 0, 1, 2).None? && Refusal(s, 0, 2, 1).None?
  {
    var s := State(map[1 := Task(0, 0, false), 2 := Task(0, 0, false)], map[]);
    assert AllEdges(s.deps) == {} && OrgEdges(s.deps, 0) == {};
    assert !Reaches({}, 1, 2) by {
      if Reaches({}, 1, 2) { ReachStaysInClosed({}, {1}, 1, 2); }
    }
    assert !Reaches({}, 2, 1) by {
      if Reaches({}, 2, 1) { ReachStaysInClosed({}, {2}, 2, 1); }
    }
    AcyclicByEdges({});
  }

  // ----- the service

  class DependencyService {
    var tasks: map<Node, Task>
    var deps: map<DependencyId, Dependency>

    ghost function Tables(): State
      reads this
    {
      State(tasks, deps)
    }

    constructor ()
      ensures Tables() == EMPTY
    {
      tasks, deps := map[], map[];
    }

    /** SELECT blocked_task_id ... WHERE org_id = org AND blocking_task_id = current, in any row order. */
    method SelectBlocked(org: OrgId, current: Node) returns (rows: seq<Node>)
      ensures forall n :: n in rows <==> (current, n) in OrgEdges(deps, org)
    {
      rows := [];
      var todo := deps.Keys;
      while todo != {}
        invariant todo <= deps.Keys
        invariant forall n :: n in rows <==>
          exists d :: d in deps.Keys - todo && deps[d] == Dependency(org, current, n, deps[d].createdBy)
        decreases todo
      {
        var d :| d in todo;
        todo := todo - {d};
        if deps[d].org == org && deps[d].blocking == current {
          rows := rows + [deps[d].blocked];
          assert deps[d] == Dependency(org, current, deps[d].blocked, deps[d].createdBy);
        }
      }
    }

    /** The depth-first search: true exactly when blocking is reachable from blocked in the org's graph. */
    method WouldCreateCycle(org: OrgId, blocking: Node, blocked: Node) returns (cycle: bool)
      ensures cycle <==> Reaches(OrgEdges(deps, org), blocked, blocking)
    {
      ghost var g := OrgEdges(deps, org);
      ghost var nodes := {blocked} + set e | e in g :: e.1;
      var visited: set<Node> := {};
      var stack := [blocked];
      ReachesSelf(g, blocked);
      while |stack| > 0
        invariant visited <= nodes && forall n :: n in stack ==> n in nodes
        invariant forall n :: n in visited || n in stack ==> Reaches(g, blocked, n)
        invariant blocked in visited || blocked in stack
        invariant blocking !in visited
        invariant forall e :: e in g && e.0 in visited ==> e.1 in visited || e.1 in stack
        decreases nodes - visited, |stack|
      {
        var current := stack[|stack| - 1];
        ghost var before := stack;
        stack := stack[..|stack| - 1];
        assert forall n :: n in before ==> n in stack || n == current;
        if current == blocking {
          return true;
        }
        if current in visited {
          continue;
        }
        visited := visited + {current};
        var rows := SelectBlocked(org, current);
        forall n | n in rows ensures Reaches(g, blocked, n) && n in nodes {
          ReachesSelf(g, n);
          ReachesViaEdge(g, current, n, n);
          ReachesTransitive(g, blocked, current, n);
          assert (current, n) in g;
        }
        ghost var rest := stack;
        var i := 0;
        while i < |rows|
          invariant 0 <= i <= |rows|
          invariant stack == rest + rows[..i]
        {
          stack := stack + [rows[i]];
          i := i + 1;
        }
        assert stack == rest + rows;
      }
      if Reaches(g, blocked, blocking) {
        ReachStaysInClosed(g, visited, blocked, blocking);
      }
      return false;
    }

    method AddDependency(org: OrgId, blocking: Node, blocked: Node, creator: UserId, id: DependencyId)
      returns (r: Result<Dependency, DependencyError>)
      modifies this
      ensures Tables() == Step(old(Tables()), Add(org, blocking, blocked, creator, id))
      ensures r == match Refusal(old(Tables()), org, blocking, blocked)
                   case Some(e) => Err(e)
                   case None => if id in old(deps) then Err(DuplicateKey)
                                else Ok(Dependency(org, blocking, blocked, creator))
      ensures tasks == old(tasks)
      ensures r.Ok? <==> MayAdd(old(Tables()), org, blocking, blocked, id)
      ensures r.Ok? ==> r.value == Dependency(org, blocking, blocked, creator) && deps == old(deps)[id := r.value]
      ensures r.Err? ==> deps == old(deps)
    {
      if blocking == blocked {
        return Err(SelfDependency);
      }
      if !(blocking in tasks && !tasks[blocking].deleted) || tasks[blocking].org != org {
        return Err(BlockingTaskNotFound);
      }
      if !(blocked in tasks && !tasks[blocked].deleted) || tasks[blocked].org != org {
        return Err(BlockedTaskNotFound);
      }
      if tasks[blocking].workspace != tasks[blocked].workspace {
        return Err(CrossWorkspaceDependency);
      }
      var cycle := WouldCreateCycle(org, blocking, blocked);
      if cycle {
        return Err(DependencyCycle);
      }
      if id in deps {
        return Err(DuplicateKey);
      }
      deps := deps[id := Dependency(org, blocking, blocked, creator)];
      return Ok(deps[id]);
    }

    method RemoveDependency(org: OrgId, id: DependencyId)
      modifies this
      ensures Tables() == Step(old(Tables()), Remove(org, id))
      ensures tasks == old(tasks)
      ensures id !in deps || (deps[id].org != org && deps == old(deps))
      ensures forall d :: d != id || (d in old(deps) && old(deps)[d].org != org) ==>
                (d in deps <==> d in old(deps)) && (d in deps ==> deps[d] == old(deps)[d])
    {
      if id in deps && deps[id].org == org {
        deps := deps - {id};
      }
    }
  }
}
