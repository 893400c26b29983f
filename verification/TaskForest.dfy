/**
 Subtasks: the depth rule of createTask and the cascading soft delete of deleteTask
 (src/modules/task/task.service.ts, task.repository.ts). Every task names at most one parent; the
 cascade follows parent_task_id with a recursive query.
 */
module TaskForest {
  import opened Wrappers

  type TaskId = nat
  type OrgId = nat
  type UserId = nat

  const MAX_TASK_DEPTH := 2

  datatype Task = Task(org: OrgId, parent: Option<TaskId>, depth: nat, creator: UserId, deleted: bool)

  type Tasks = map<TaskId, Task>

  datatype TaskError = ParentTaskNotFound | DepthExceeded | AssigneeNotInOrg | DuplicateKey | TaskNotFound | InsufficientRole

  predicate Live(s: Tasks, t: TaskId) {
    t in s && !s[t].deleted
  }

  // ----- the shape of every reachable table

  /** Parents exist, share the organization, are one level up, and are live under live children. */
  ghost predicate Forest(s: Tasks) {
    forall t :: t in s ==>
      && s[t].depth <= MAX_TASK_DEPTH
      && (s[t].parent.None? ==> s[t].depth == 0)
      && (s[t].parent.Some? ==>
            && s[t].parent.value in s
            && s[s[t].parent.value].org == s[t].org
            && s[t].depth == s[s[t].parent.value].depth + 1
            && (!s[t].deleted ==> !s[s[t].parent.value].deleted))
  }

  /** The chain of parents, nearest first. */
  ghost function Ancestors(s: Tasks, t: TaskId): seq<TaskId>
    requires Forest(s) && t in s
    decreases s[t].depth
  {
    if s[t].parent.None? then [] else [s[t].parent.value] + Ancestors(s, s[t].parent.value)
  }

  lemma {:induction false} DepthCountsAncestors(s: Tasks, t: TaskId)
    requires Forest(s) && t in s
    ensures |Ancestors(s, t)| == s[t].depth <= MAX_TASK_DEPTH
    ensures forall a :: a in Ancestors(s, t) ==> a in s && s[a].org == s[t].org && s[a].depth < s[t].depth
    ensures !s[t].deleted ==> forall a :: a in Ancestors(s, t) ==> !s[a].deleted
    decreases s[t].depth
  {
    if s[t].parent.Some? {
      DepthCountsAncestors(s, s[t].parent.value);
    }
  }

  // ----- the recursive query

  /** One expansion: live tasks of the organization whose parent is in the working set. */
  function Children(s: Tasks, org: OrgId, working: set<TaskId>): set<TaskId> {
    set t | t in s && s[t].parent.Some? && s[t].parent.value in working && s[t].org == org && !s[t].deleted
  }

  /** Iterate until an expansion comes back empty; the working set lies at one depth of the forest. */
  function Closure(s: Tasks, org: OrgId, working: set<TaskId>, ghost depth: nat): set<TaskId>
    requires Forest(s) && depth <= MAX_TASK_DEPTH + 1
    requires forall t :: t in working ==> t in s && s[t].depth == depth
    decreases MAX_TASK_DEPTH + 1 - depth
  {
    if working == {} then {} else working + Closure(s, org, Children(s, org, working), depth + 1)
  }

  function Subtasks(s: Tasks, org: OrgId, root: TaskId): set<TaskId>
    requires Forest(s) && root in s
  {
    Closure(s, org, Children(s, org, {root}), s[root].depth + 1)
  }

  function SoftDelete(s: Tasks, ids: set<TaskId>): Tasks {
    map t | t in s :: if t in ids then s[t].(deleted := true) else s[t]
  }

  /** The rows the first UPDATE and then the second one mark. */
  function Cascade(s: Tasks, org: OrgId, root: TaskId): Tasks
    requires Forest(s) && root in s
  {
    var s1 := SoftDelete(s, Subtasks(s, org, root));
    if s1[root].org == org && !s1[root].deleted then SoftDelete(s1, {root}) else s1
  }

  // ----- what the query finds

  ghost predicate Descends(s: Tasks, t: TaskId, root: TaskId)
    requires Forest(s)
  {
    t in s && root in Ancestors(s, t)
  }

  /** A live task lies under exactly the live tasks of its parent chain, one level at a time. */
  lemma {:induction false} ClosureFindsDescendants(s: Tasks, org: OrgId, working: set<TaskId>, depth: nat, t: TaskId)
    requires Forest(s) && depth <= MAX_TASK_DEPTH + 1
    requires forall w :: w in working ==> w in s && s[w].depth == depth && s[w].org == org && !s[w].deleted
    ensures t in Closure(s, org, working, depth) <==>
            Live(s, t) && (t in working || exists w :: w in working && w in Ancestors(s, t))
    decreases MAX_TASK_DEPTH + 1 - depth
  {
    if working != {} {
      var next := Children(s, org, working);
      ClosureFindsDescendants(s, org, next, depth + 1, t);
      if Live(s, t) {
        ViaChild(s, org, working, depth, t);
      }
    }
  }

  /** Below a set of same-level live tasks means being a child of one, or below such a child. */
  lemma {:induction false} ViaChild(s: Tasks, org: OrgId, working: set<TaskId>, depth: nat, t: TaskId)
    requires Forest(s) && Live(s, t)
    requires forall w :: w in working ==> w in s && s[w].depth == depth && s[w].org == org && !s[w].deleted
    ensures (exists w :: w in working && w in Ancestors(s, t)) <==>
            t in Children(s, org, working) || (exists c :: c in Children(s, org, working) && c in Ancestors(s, t))
    decreases s[t].depth
  {
    if s[t].parent.Some? {
      var p := s[t].parent.value;
      ViaChild(s, org, working, depth, p);
      assert Ancestors(s, t) == [p] + Ancestors(s, p);
      DepthCountsAncestors(s, t);
      if p in working {
        assert t in Children(s, org, working);
        assert p in Ancestors(s, t);
      } else if w :| w in working && w in Ancestors(s, t) {
        assert w in Ancestors(s, p);
      }
    }
  }

  lemma ParentSetDescends(s: Tasks, org: OrgId, root: TaskId, t: TaskId)
    requires Forest(s) && Live(s, root) && s[root].org == org
    ensures t in Subtasks(s, org, root) <==> Live(s, t) && Descends(s, t, root)
  {
    ClosureFindsDescendants(s, org, {root}, s[root].depth, t);
    assert Closure(s, org, {root}, s[root].depth) == {root} + Subtasks(s, org, root);
    if t in s {
      DepthCountsAncestors(s, t);
    }
    ClosureDeeper(s, org, Children(s, org, {root}), s[root].depth + 1);
  }

  lemma {:induction false} ClosureDeeper(s: Tasks, org: OrgId, working: set<TaskId>, depth: nat)
    requires Forest(s) && depth <= MAX_TASK_DEPTH + 1
    requires forall w :: w in working ==> w in s && s[w].depth == depth
    ensures forall t :: t in Closure(s, org, working, depth) ==> t in s && s[t].depth >= depth
    decreases MAX_TASK_DEPTH + 1 - depth
  {
    if working != {} {
      ClosureDeeper(s, org, Children(s, org, working), depth + 1);
    }
  }

  /**
   Deleting a live task marks exactly that task and all its descendants, and the recursive query is done
   after children and grandchildren.
   */
  lemma CascadeIsExact(s: Tasks, org: OrgId, root: TaskId, t: TaskId)
    requires Forest(s) && Live(s, root) && s[root].org == org && t in s
    ensures Cascade(s, org, root).Keys == s.Keys
    ensures Cascade(s, org, root)[t] == s[t].(deleted := s[t].deleted || t == root || Descends(s, t, root))
    ensures Live(Cascade(s, org, root), t) <==> Live(s, t) && t != root && !Descends(s, t, root)
    ensures var children := Children(s, org, {root});
      var grandchildren := Children(s, org, children);
      Subtasks(s, org, root) == children + grandchildren && Children(s, org, grandchildren) == {}
  {
    ParentSetDescends(s, org, root, t);
    ParentSetDescends(s, org, root, root);
    DepthCountsAncestors(s, root);
    var children := Children(s, org, {root});
    var grandchildren := Children(s, org, children);
    assert Children(s, org, grandchildren) == {};
    if children == {} {
      assert grandchildren == {};
    } else {
      assert Subtasks(s, org, root) == children + Closure(s, org, grandchildren, s[root].depth + 2);
      if grandchildren != {} {
        assert Closure(s, org, grandchildren, s[root].depth + 2) == grandchildren + Closure(s, org, {}, s[root].depth + 3);
      }
    }
  }

  lemma CascadeKeepsForest(s: Tasks, org: OrgId, root: TaskId)
    requires Forest(s) && Live(s, root) && s[root].org == org
    ensures Forest(Cascade(s, org, root))
  {
    var u := Cascade(s, org, root);
    forall t | t in s ensures u[t] == s[t].(deleted := u[t].deleted) {
    }
    forall t | t in s && s[t].parent.Some? && !u[t].deleted ensures !u[s[t].parent.value].deleted {
      var p := s[t].parent.value;
      CascadeIsExact(s, org, root, t);
      CascadeIsExact(s, org, root, p);
      assert Live(u, t);
      assert Ancestors(s, t) == [p] + Ancestors(s, p);
    }
  }

  // ----- runs

  datatype Op =
    | Create(id: TaskId, org: OrgId, user: UserId, parent: Option<TaskId>, assigneesOk: bool)
    | Delete(org: OrgId, id: TaskId, user: UserId, isAdmin: bool)

  function CreateRefusal(s: Tasks, id: TaskId, org: OrgId, parent: Option<TaskId>, assigneesOk: bool): Option<TaskError> {
    if parent.Some? && (!Live(s, parent.value) || s[parent.value].org != org) then Some(ParentTaskNotFound)
    else if parent.Some? && s[parent.value].depth + 1 > MAX_TASK_DEPTH then Some(DepthExceeded)
    else if !assigneesOk then Some(AssigneeNotInOrg)
    else if id in s then Some(DuplicateKey)
    else None
  }

  function NewTask(s: Tasks, org: OrgId, user: UserId, parent: Option<TaskId>): Task
    requires parent.Some? ==> parent.value in s
  {
    Task(org, parent, if parent.Some? then s[parent.value].depth + 1 else 0, user, false)
  }

  function DeleteRefusal(s: Tasks, org: OrgId, id: TaskId, user: UserId, isAdmin: bool): Option<TaskError> {
    if !Live(s, id) || s[id].org != org then Some(TaskNotFound)
    else if s[id].creator != user && !isAdmin then Some(InsufficientRole)
    else None
  }

  function Step(s: Tasks, op: Op): Tasks
    requires Forest(s)
  {
    match op
    case Create(id, org, user, parent, ok) =>
      if CreateRefusal(s, id, org, parent, ok).None? then s[id := NewTask(s, org, user, parent)] else s
    case Delete(org, id, user, isAdmin) =>
      if DeleteRefusal(s, org, id, user, isAdmin).None? then Cascade(s, org, id) else s
  }

  lemma StepKeepsForest(s: Tasks, op: Op)
    requires Forest(s)
    ensures Forest(Step(s, op))
  {
    match op
    case Create(_, _, _, _, _) =>
    case Delete(org, id, user, isAdmin) =>
      if DeleteRefusal(s, org, id, user, isAdmin).None? { CascadeKeepsForest(s, org, id); }
  }

  /** The table after a run of creations and deletions on an empty one. */
  ghost function Run(ops: seq<Op>): (s: Tasks)
    ensures Forest(s)
    decreases |ops|
  {
    if ops == [] then map[]
    else
      var s := Run(ops[..|ops| - 1]);
      StepKeepsForest(s, ops[|ops| - 1]);
      Step(s, ops[|ops| - 1])
  }

  /**
   In every run, each task's depth is its number of ancestors and at most 2, all of them belong to its
   organization, and no live task has a deleted ancestor.
   */
  lemma EveryRunIsAForest(ops: seq<Op>, t: TaskId)
    requires t in Run(ops)
    ensures var s := Run(ops);
      && |Ancestors(s, t)| == s[t].depth <= 2
      && (forall a :: a in Ancestors(s, t) ==> a in s && s[a].org == s[t].org)
      && (Live(s, t) ==> forall a :: a in Ancestors(s, t) ==> Live(s, a))
  {
    DepthCountsAncestors(Run(ops), t);
  }

  /** What a task was created as, except for deletion, stays for the rest of the run; deletion is final. */
  lemma {:induction false} TasksArePermanent(ops: seq<Op>, more: seq<Op>, t: TaskId)
    requires t in Run(ops)
    ensures var u := Run(ops + more);
      t in u && u[t] == Run(ops)[t].(deleted := u[t].deleted) && (Run(ops)[t].deleted ==> u[t].deleted)
    decreases |more|
  {
    if more == [] {
      assert ops + more == ops;
    } else {
      var init := more[..|more| - 1];
      assert (ops + more)[..|ops + more| - 1] == ops + init;
      TasksArePermanent(ops, init, t);
      var s, op := Run(ops + init), more[|more| - 1];
      if op.Delete? && DeleteRefusal(s, op.org, op.id, op.user, op.isAdmin).None? {
        CascadeIsExact(s, op.org, op.id, t);
      }
    }
  }

  /** Each refusal of createTask names a true reason. */
  lemma CreateRefusalIsTrue(s: Tasks, id: TaskId, org: OrgId, parent: Option<TaskId>, assigneesOk: bool)
    requires CreateRefusal(s, id, org, parent, assigneesOk).Some?
    ensures match CreateRefusal(s, id, org, parent, assigneesOk).value
      case ParentTaskNotFound =>
        parent.Some? && (parent.value in s ==> s[parent.value].deleted || s[parent.value].org != org)
      case DepthExceeded => parent.Some? && Live(s, parent.value) && s[parent.value].org == org && s[parent.value].depth >= 2
      case AssigneeNotInOrg => !assigneesOk
      case DuplicateKey => id in s
      case _ => false
  {
  }

  /** Only the creator or an administrator of its organization deletes a task, and whoever may, does. */
  lemma DeleteNeedsRight(s: Tasks, org: OrgId, id: TaskId, user: UserId, isAdmin: bool)
    requires Forest(s) && Live(s, id)
    ensures !Live(Step(s, Delete(org, id, user, isAdmin)), id) <==> s[id].org == org && (s[id].creator == user || isAdmin)
  {
    if DeleteRefusal(s, org, id, user, isAdmin).None? {
      CascadeIsExact(s, org, id, id);
    }
  }

  // ----- the service

  class TaskService {
    var tasks: Tasks
    const members: set<(OrgId, UserId)>

    constructor (members: set<(OrgId, UserId)>)
      ensures tasks == map[] && this.members == members
    {
      tasks, this.members := map[], members;
    }

    method CreateTask(id: TaskId, org: OrgId, user: UserId, parent: Option<TaskId>, assignees: seq<UserId>)
      returns (r: Result<Task, TaskError>)
      requires Forest(tasks)
      modifies this
      ensures Forest(tasks)
      ensures var ok := forall a :: a in assignees ==> (org, a) in members;
        && tasks == Step(old(tasks), Create(id, org, user, parent, ok))
        && r == match CreateRefusal(old(tasks), id, org, parent, ok)
                case Some(e) => Err(e)
                case None => Ok(tasks[id])
      ensures r.Ok? <==>
              && (parent.Some? ==> parent.value in old(tasks) && !old(tasks)[parent.value].deleted
                                   && old(tasks)[parent.value].org == org && old(tasks)[parent.value].depth < 2)
              && (forall a :: a in assignees ==> (org, a) in members) && id !in old(tasks)
      ensures r.Ok? ==>
              && r.value == Task(org, parent, if parent.Some? then old(tasks)[parent.value].depth + 1 else 0, user, false)
              && tasks == old(tasks)[id := r.value]
      ensures r.Err? ==> tasks == old(tasks)
    {
      ghost var ok := forall a :: a in assignees ==> (org, a) in members;
      StepKeepsForest(tasks, Create(id, org, user, parent, ok));
      var depth := 0;
      if parent.Some? {
        if !Live(tasks, parent.value) || tasks[parent.value].org != org {
          return Err(ParentTaskNotFound);
        }
        depth := tasks[parent.value].depth + 1;
        if depth > MAX_TASK_DEPTH {
          return Err(DepthExceeded);
        }
      }
      var i := 0;
      while i < |assignees|
        invariant 0 <= i <= |assignees|
        invariant forall k :: 0 <= k < i ==> (org, assignees[k]) in members
      {
        if (org, assignees[i]) !in members {
          return Err(AssigneeNotInOrg);
        }
        i := i + 1;
      }
      if id in tasks {
        return Err(DuplicateKey);
      }
      tasks := tasks[id := Task(org, parent, depth, user, false)];
      return Ok(tasks[id]);
    }

    method DeleteTask(org: OrgId, id: TaskId, user: UserId, isAdmin: bool) returns (e: Option<TaskError>)
      requires Forest(tasks)
      modifies this
      ensures Forest(tasks)
      ensures tasks == Step(old(tasks), Delete(org, id, user, isAdmin))
      ensures e == DeleteRefusal(old(tasks), org, id, user, isAdmin)
      ensures e == Some(TaskNotFound) <==> id !in old(tasks) || old(tasks)[id].deleted || old(tasks)[id].org != org
      ensures e == None <==> id in old(tasks) && !old(tasks)[id].deleted && old(tasks)[id].org == org
                             && (old(tasks)[id].creator == user || isAdmin)
      ensures e.Some? ==> tasks == old(tasks)
      ensures e == None ==> tasks.Keys == old(tasks).Keys
      ensures e == None ==> forall t :: t in tasks ==>
                tasks[t] == old(tasks)[t].(deleted := old(tasks)[t].deleted || t == id || id in Ancestors(old(tasks), t))
    {
      StepKeepsForest(tasks, Delete(org, id, user, isAdmin));
      if DeleteRefusal(tasks, org, id, user, isAdmin).None? {
        forall t | t in tasks
          ensures t in Cascade(tasks, org, id)
          ensures Cascade(tasks, org, id)[t] ==
                  tasks[t].(deleted := tasks[t].deleted || t == id || id in Ancestors(tasks, t))
        {
          CascadeIsExact(tasks, org, id, t);
        }
      }
      if !Live(tasks, id) || tasks[id].org != org {
        return Some(TaskNotFound);
      }
      if tasks[id].creator != user && !isAdmin {
        return Some(InsufficientRole);
      }
      var subtasks := Subtasks(tasks, org, id);
      tasks := SoftDelete(tasks, subtasks);
      if id in tasks && tasks[id].org == org && !tasks[id].deleted {
        tasks := SoftDelete(tasks, {id});
      }
      return None;
    }
  }
}
