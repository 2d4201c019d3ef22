/**
 * The hierarchy a set of tasks forms through its parent links. Links may be
 * cyclic, and a parent may be missing from the set.
 */
module TaskTree {
  import opened Prelude

  datatype TaskTarget = OnTask(parentTaskId: string) | OnBranch(branch: string)

  datatype Task = Task(id: string, target: TaskTarget)

  /** The parent task id; empty for a top-level task. */
  function ParentId(t: Task): string {
    if t.target.OnTask? then t.target.parentTaskId else ""
  }

  function Ids(tasks: seq<Task>): set<string> {
    if tasks == [] then {} else Ids(tasks[..|tasks| - 1]) + {tasks[|tasks| - 1].id}
  }

  lemma {:induction false} IdOf(tasks: seq<Task>, t: Task)
    requires t in tasks
    ensures t.id in Ids(tasks)
  {
    assert tasks == tasks[..|tasks| - 1] + [tasks[|tasks| - 1]];
    if t != tasks[|tasks| - 1] {
      IdOf(tasks[..|tasks| - 1], t);
    }
  }

  lemma {:induction false} TaskOf(tasks: seq<Task>, x: string) returns (t: Task)
    requires x in Ids(tasks)
    ensures t in tasks && t.id == x
  {
    if tasks[|tasks| - 1].id == x {
      t := tasks[|tasks| - 1];
    } else {
      t := TaskOf(tasks[..|tasks| - 1], x);
    }
  }

  lemma {:induction false} NotAnId(tasks: seq<Task>, x: string)
    requires forall i :: 0 <= i < |tasks| ==> tasks[i].id != x
    ensures x !in Ids(tasks)
  {
    if tasks != [] {
      NotAnId(tasks[..|tasks| - 1], x);
    }
  }

  lemma IdsStep(tasks: seq<Task>, i: nat)
    requires i < |tasks|
    ensures Ids(tasks[..i + 1]) == Ids(tasks[..i]) + {tasks[i].id}
    ensures DistinctIds(tasks) ==> tasks[i].id !in Ids(tasks[..i])
  {
    assert tasks[..i + 1][..i] == tasks[..i];
    if DistinctIds(tasks) {
      NotAnId(tasks[..i], tasks[i].id);
    }
  }

  ghost predicate DistinctIds(tasks: seq<Task>) {
    forall i, j :: 0 <= i < j < |tasks| ==> tasks[i].id != tasks[j].id
  }

  // ---- Parent links as a graph

  /** Task id to parent id, for the tasks that have a parent. */
  function Parents(tasks: seq<Task>): (pm: map<string, string>) {
    if tasks == [] then map[]
    else
      var (rest, t) := (Parents(tasks[..|tasks| - 1]), tasks[|tasks| - 1]);
      if ParentId(t) != "" then rest[t.id := ParentId(t)] else rest
  }

  /** The id `n` parent links above `x`. */
  ghost function Up(pm: map<string, string>, x: string, n: nat): Option<string> {
    if n == 0 then Some(x)
    else
      var y := Up(pm, x, n - 1);
      if y.Some? && y.value in pm then Some(pm[y.value]) else None
  }

  /** `a` is `x` or one of its ancestors. */
  ghost predicate Above(pm: map<string, string>, a: string, x: string) {
    exists n: nat :: Up(pm, x, n) == Some(a)
  }

  lemma {:induction false} UpFromParent(pm: map<string, string>, x: string, n: nat)
    requires x in pm
    ensures Up(pm, x, n + 1) == Up(pm, pm[x], n)
  {
    if n > 0 {
      UpFromParent(pm, x, n - 1);
    } else {
      assert Up(pm, x, 0) == Some(x);
    }
  }

  lemma AboveSelf(pm: map<string, string>, x: string)
    ensures Above(pm, x, x)
  {
    assert Up(pm, x, 0) == Some(x);
  }

  lemma AboveParent(pm: map<string, string>, a: string, x: string)
    requires Above(pm, a, x) && a in pm
    ensures Above(pm, pm[a], x)
  {
    var n: nat :| Up(pm, x, n) == Some(a);
    assert Up(pm, x, n + 1) == Some(pm[a]);
  }

  lemma AboveChild(pm: map<string, string>, a: string, x: string)
    requires x in pm && Above(pm, a, pm[x])
    ensures Above(pm, a, x)
  {
    var n: nat :| Up(pm, pm[x], n) == Some(a);
    UpFromParent(pm, x, n);
  }

  /** A set closed under "parent of" that holds `x` holds everything above `x`. */
  lemma {:induction false} UpClosed(pm: map<string, string>, s: set<string>, x: string, n: nat, a: string)
    requires x in s && Up(pm, x, n) == Some(a)
    requires forall y :: y in s && y in pm ==> pm[y] in s
    ensures a in s
  {
    if n > 0 {
      UpClosed(pm, s, x, n - 1, Up(pm, x, n - 1).value);
    }
  }

  /** A set closed under "child of" that holds `a` holds everything below `a`. */
  lemma {:induction false} DownClosed(pm: map<string, string>, s: set<string>, x: string, n: nat, a: string)
    requires a in s && Up(pm, x, n) == Some(a)
    requires forall y :: y in pm && pm[y] in s ==> y in s
    ensures x in s
  {
    if n > 0 {
      DownClosed(pm, s, x, n - 1, Up(pm, x, n - 1).value);
    }
  }

  lemma {:induction false} ParentsAt(tasks: seq<Task>, i: nat)
    requires DistinctIds(tasks) && i < |tasks|
    ensures tasks[i].id in Parents(tasks) <==> ParentId(tasks[i]) != ""
    ensures tasks[i].id in Parents(tasks) ==> Parents(tasks)[tasks[i].id] == ParentId(tasks[i])
  {
    var init := tasks[..|tasks| - 1];
    if i < |init| {
      assert init[i] == tasks[i];
      ParentsAt(init, i);
    } else {
      ParentsKeys(init);
    }
  }

  lemma {:induction false} ParentsKeys(tasks: seq<Task>)
    ensures forall x :: x in Parents(tasks) ==> (exists i :: 0 <= i < |tasks| && tasks[i].id == x) && Parents(tasks)[x] != ""
  {
    if tasks != [] {
      var init := tasks[..|tasks| - 1];
      ParentsKeys(init);
      forall x | x in Parents(tasks) ensures exists i :: 0 <= i < |tasks| && tasks[i].id == x {
        if x in Parents(init) {
          var i :| 0 <= i < |init| && init[i].id == x;
          assert tasks[i].id == x;
        } else {
          assert tasks[|tasks| - 1].id == x;
        }
      }
    }
  }

  /** The link of `x` comes from the one task with that id. */
  lemma ParentLink(tasks: seq<Task>, x: string) returns (t: Task)
    requires DistinctIds(tasks) && x in Parents(tasks)
    ensures t in tasks && t.id == x && Parents(tasks)[x] == ParentId(t) && ParentId(t) != ""
  {
    ParentsKeys(tasks);
    var i :| 0 <= i < |tasks| && tasks[i].id == x;
    ParentsAt(tasks, i);
    t := tasks[i];
  }

  lemma TaskLink(tasks: seq<Task>, t: Task)
    requires DistinctIds(tasks) && t in tasks
    ensures t.id in Parents(tasks) <==> ParentId(t) != ""
    ensures t.id in Parents(tasks) ==> Parents(tasks)[t.id] == ParentId(t)
  {
    var i :| 0 <= i < |tasks| && tasks[i] == t;
    ParentsAt(tasks, i);
  }

  // ---- The child index

  function ChildrenOf(tasks: seq<Task>, p: string): seq<Task> {
    if tasks == [] then []
    else
      var (init, t) := (tasks[..|tasks| - 1], tasks[|tasks| - 1]);
      if ParentId(t) == p && p != "" then ChildrenOf(init, p) + [t] else ChildrenOf(init, p)
  }

  lemma {:induction false} ChildTask(tasks: seq<Task>, p: string, i: nat)
    requires i < |ChildrenOf(tasks, p)|
    ensures var c := ChildrenOf(tasks, p)[i]; c in tasks && ParentId(c) == p && p != ""
  {
    var init := tasks[..|tasks| - 1];
    assert tasks == init + [tasks[|tasks| - 1]];
    if i < |ChildrenOf(init, p)| {
      ChildTask(init, p, i);
    }
  }

  lemma {:induction false} ChildListed(tasks: seq<Task>, t: Task)
    requires t in tasks && ParentId(t) != ""
    ensures t in ChildrenOf(tasks, ParentId(t))
  {
    var init := tasks[..|tasks| - 1];
    assert tasks == init + [tasks[|tasks| - 1]];
    if t in init {
      ChildListed(init, t);
    }
  }

  lemma ChildrenStep(tasks: seq<Task>, i: nat, p: string)
    requires i < |tasks|
    ensures ChildrenOf(tasks[..i + 1], p) ==
            ChildrenOf(tasks[..i], p) + if ParentId(tasks[i]) == p && p != "" then [tasks[i]] else []
  {
    assert tasks[..i + 1][..i] == tasks[..i];
  }

  function ChildrenAt(tasks: seq<Task>, p: string): set<nat> {
    set i: nat | i < |tasks| && tasks[i].target == OnTask(p) && p != ""
  }

  /** The children of a task are those with it as their target, in the order of the tasks. */
  lemma {:induction false} ChildrenPicked(tasks: seq<Task>, p: string)
    ensures Picks(tasks, ChildrenAt(tasks, p), ChildrenOf(tasks, p))
  {
    if tasks == [] {
      assert ChildrenAt(tasks, p) == {};
      PicksNone(tasks);
    } else {
      var (init, t) := (tasks[..|tasks| - 1], tasks[|tasks| - 1]);
      ChildrenPicked(init, p);
      hide Picks;
      PicksStep(tasks, ChildrenAt(tasks, p), ChildrenAt(init, p), ChildrenOf(init, p), t.target == OnTask(p) && p != "");
    }
  }

  /** `index.get(p) ?? []` */
  function Listed(index: map<string, seq<Task>>, p: string): seq<Task> {
    if p in index then index[p] else []
  }

  /** The index lists the children among `tasks` of every id, or of every id of `keys` if given. */
  ghost predicate Indexes(index: map<string, seq<Task>>, tasks: seq<Task>, keys: Option<set<string>>) {
    forall p {:trigger Listed(index, p)} :: Indexed(keys, p) ==> Listed(index, p) == ChildrenOf(tasks, p)
  }

  predicate Indexed(keys: Option<set<string>>, p: string) {
    keys.None? || p in keys.value
  }

  /** `siblings.push(task)`, under the key of its parent */
  function Filed(index: map<string, seq<Task>>, t: Task): map<string, seq<Task>> {
    index[ParentId(t) := Listed(index, ParentId(t)) + [t]]
  }

  lemma IndexStep(index: map<string, seq<Task>>, tasks: seq<Task>, i: nat, keys: Option<set<string>>)
    requires i < |tasks| && Indexes(index, tasks[..i], keys)
    ensures var p := ParentId(tasks[i]);
      Indexes(if p != "" && Indexed(keys, p) then Filed(index, tasks[i]) else index, tasks[..i + 1], keys)
  {
    var (t, p) := (tasks[i], ParentId(tasks[i]));
    var now := if p != "" && Indexed(keys, p) then Filed(index, t) else index;
    forall q | Indexed(keys, q) ensures Listed(now, q) == ChildrenOf(tasks[..i + 1], q) {
      ChildrenStep(tasks, i, q);
      assert Listed(index, q) == ChildrenOf(tasks[..i], q);
    }
  }

  method IndexChildren(allTasks: seq<Task>) returns (childrenByParent: map<string, seq<Task>>)
    ensures Indexes(childrenByParent, allTasks, None)
  {
    childrenByParent := map[];
    for i := 0 to |allTasks|
      invariant Indexes(childrenByParent, allTasks[..i], None)
    {
      IndexStep(childrenByParent, allTasks, i, None);
      if ParentId(allTasks[i]) != "" {
        childrenByParent := Filed(childrenByParent, allTasks[i]);
      }
    }
    assert allTasks[..|allTasks|] == allTasks;
  }

  // ---- Subtrees

  /** The members of `ids` strictly below `a`. */
  ghost function Below(pm: map<string, string>, ids: set<string>, a: string): set<string> {
    set x | x in ids && x != a && Above(pm, a, x)
  }

  /** The ids of the subtree of `root`: itself and every task below it. */
  ghost function Subtree(tasks: seq<Task>, root: string): set<string> {
    {root} + Below(Parents(tasks), Ids(tasks), root)
  }

  ghost predicate ChildClosed(tasks: seq<Task>, s: set<string>) {
    forall t :: t in tasks && ParentId(t) != "" && ParentId(t) in s ==> t.id in s
  }

  lemma SubtreeClosed(tasks: seq<Task>, root: string)
    requires DistinctIds(tasks)
    ensures ChildClosed(tasks, Subtree(tasks, root))
  {
    var pm := Parents(tasks);
    forall t | t in tasks && ParentId(t) != "" && ParentId(t) in Subtree(tasks, root)
      ensures t.id in Subtree(tasks, root)
    {
      TaskLink(tasks, t);
      IdOf(tasks, t);
      AboveSelf(pm, root);
      AboveChild(pm, root, t.id);
    }
  }

  /** The subtree is the least child-closed set that holds the root. */
  lemma SubtreeLeast(tasks: seq<Task>, root: string, s: set<string>)
    requires DistinctIds(tasks) && root in s && ChildClosed(tasks, s)
    ensures Subtree(tasks, root) <= s
  {
    var pm := Parents(tasks);
    forall y | y in pm && pm[y] in s ensures y in s {
      var t := ParentLink(tasks, y);
    }
    forall x | x in Subtree(tasks, root) && x != root ensures x in s {
      var n: nat :| Up(pm, x, n) == Some(root);
      DownClosed(pm, s, x, n, root);
    }
  }

  // ---- collectSubtreeIds

  /** The children of every id of `done` are collected. */
  ghost predicate Expanded(tasks: seq<Task>, done: set<string>, ids: set<string>) {
    forall t :: t in tasks && ParentId(t) != "" && ParentId(t) in done ==> t.id in ids
  }

  /** The task itself and all its descendants, at every depth, over any parent links. */
  method CollectSubtreeIds(rootId: string, allTasks: seq<Task>) returns (ids: set<string>)
    requires DistinctIds(allTasks)
    ensures ids == Subtree(allTasks, rootId)
  {
    var childrenByParent := IndexChildren(allTasks);
    ids := {rootId};
    var queue := [rootId];
    ghost var done := {};
    SubtreeClosed(allTasks, rootId);
    while |queue| > 0
      invariant rootId in ids && ids <= Subtree(allTasks, rootId)
      invariant forall q :: q in queue ==> q in ids
      invariant forall x :: x in ids ==> x in done || x in queue
      invariant Expanded(allTasks, done, ids)
      decreases Subtree(allTasks, rootId) - ids, |queue|
    {
      var current := queue[|queue| - 1];
      assert queue == queue[..|queue| - 1] + [current];
      queue := queue[..|queue| - 1];
      var children := Listed(childrenByParent, current);
      ChildrenInside(allTasks, current, done, ids, Subtree(allTasks, rootId));
      ids, queue := CollectChildren(children, ids, queue);
      done := done + {current};
    }
    SubtreeLeast(allTasks, rootId, ids);
  }

  lemma ChildrenInside(tasks: seq<Task>, p: string, done: set<string>, ids: set<string>, s: set<string>)
    requires ChildClosed(tasks, s) && p in s && Expanded(tasks, done, ids)
    ensures Ids(ChildrenOf(tasks, p)) <= s
    ensures Expanded(tasks, done + {p}, ids + Ids(ChildrenOf(tasks, p)))
  {
    forall x | x in Ids(ChildrenOf(tasks, p)) ensures x in s {
      var t := TaskOf(ChildrenOf(tasks, p), x);
      var i :| 0 <= i < |ChildrenOf(tasks, p)| && ChildrenOf(tasks, p)[i] == t;
      ChildTask(tasks, p, i);
    }
    forall t | t in tasks && ParentId(t) == p && p != "" ensures t.id in Ids(ChildrenOf(tasks, p)) {
      ChildListed(tasks, t);
      IdOf(ChildrenOf(tasks, p), t);
    }
  }

  /** One round of the worklist: the uncollected children join both sets. */
  method CollectChildren(children: seq<Task>, collected: set<string>, rest: seq<string>)
    returns (ids: set<string>, queue: seq<string>)
    requires forall q :: q in rest ==> q in collected
    ensures ids == collected + Ids(children)
    ensures forall q :: q in queue ==> q in ids
    ensures forall x :: x in ids ==> x in collected || x in queue
    ensures rest <= queue
    ensures ids == collected ==> queue == rest
  {
    ids, queue := collected, rest;
    for k := 0 to |children|
      invariant ids == collected + Ids(children[..k])
      invariant forall q :: q in queue ==> q in ids
      invariant forall x :: x in ids ==> x in collected || x in queue
      invariant rest <= queue
      invariant ids == collected ==> queue == rest
    {
      var child := children[k];
      IdsStep(children, k);
      if child.id !in ids {
        ids := ids + {child.id};
        queue := queue + [child.id];
      }
    }
    assert children[..|children|] == children;
  }

  // ---- descendantCounts

  /** What the walk up from `x` adds to the count of `a`. */
  ghost function Credit(pm: map<string, string>, a: string, x: string): nat {
    if a != x && Above(pm, a, x) then 1 else 0
  }

  /** Walks up from one task and credits each of its ancestors once, stopping at a repeated id. */
  method CreditAncestors(x: string, parentOf: map<string, string>, was: map<string, nat>)
    returns (counts: map<string, nat>)
    requires forall y :: y in parentOf ==> parentOf[y] != ""
    ensures counts.Keys == was.Keys
    ensures forall a :: a in counts ==> counts[a] == was[a] + Credit(parentOf, a, x)
  {
    counts := was;
    var seen := {x};
    var ancestor := if x in parentOf then Some(parentOf[x]) else None;
    AboveSelf(parentOf, x);
    if x in parentOf {
      AboveParent(parentOf, x, x);
    }
    while ancestor.Some? && ancestor.value !in seen
      invariant x in seen && seen <= {x} + parentOf.Values
      invariant ancestor.Some? ==> ancestor.value in parentOf.Values && Above(parentOf, ancestor.value, x)
      invariant forall y :: y in seen ==> Above(parentOf, y, x)
      invariant forall y :: y in seen && y in parentOf ==> parentOf[y] in seen || ancestor == Some(parentOf[y])
      invariant counts.Keys == was.Keys
      invariant forall a :: a in counts ==> counts[a] == was[a] + if a != x && a in seen then 1 else 0
      decreases {x} + parentOf.Values - seen
    {
      var a := ancestor.value;
      seen := seen + {a};
      if a in counts {
        counts := counts[a := counts[a] + 1];
      }
      if a in parentOf {
        AboveParent(parentOf, a, x);
        ancestor := Some(parentOf[a]);
      } else {
        ancestor := None;
      }
    }
    forall a | Above(parentOf, a, x) ensures a in seen {
      var n: nat :| Up(parentOf, x, n) == Some(a);
      UpClosed(parentOf, seen, x, n, a);
    }
  }

  lemma BelowAdded(pm: map<string, string>, ids: set<string>, x: string, a: string)
    requires x !in ids
    ensures |Below(pm, ids + {x}, a)| == |Below(pm, ids, a)| + Credit(pm, a, x)
  {
    var was := Below(pm, ids, a);
    if a != x && Above(pm, a, x) {
      assert Below(pm, ids + {x}, a) == was + {x};
    } else {
      assert Below(pm, ids + {x}, a) == was;
    }
  }

  /** For every task, how many tasks its subtree holds besides itself. */
  method DescendantCounts(allTasks: seq<Task>) returns (counts: map<string, nat>)
    requires DistinctIds(allTasks)
    ensures counts.Keys == Ids(allTasks)
    ensures forall a :: a in counts ==> counts[a] == |Subtree(allTasks, a)| - 1
  {
    var parentOf;
    parentOf, counts := IndexParents(allTasks);
    ParentsKeys(allTasks);
    ghost var walked := {};
    for i := 0 to |allTasks|
      invariant counts.Keys == Ids(allTasks) && walked == Ids(allTasks[..i])
      invariant forall a :: a in counts ==> counts[a] == |Below(parentOf, walked, a)|
    {
      var x := allTasks[i].id;
      IdsStep(allTasks, i);
      forall a | a in counts
        ensures |Below(parentOf, walked + {x}, a)| == |Below(parentOf, walked, a)| + Credit(parentOf, a, x)
      {
        BelowAdded(parentOf, walked, x, a);
      }
      counts := CreditAncestors(x, parentOf, counts);
      walked := walked + {x};
    }
    assert allTasks[..|allTasks|] == allTasks;
    forall a | a in counts ensures counts[a] == |Subtree(allTasks, a)| - 1 {
      SubtreeSize(allTasks, a);
    }
  }

  lemma SubtreeSize(tasks: seq<Task>, a: string)
    ensures |Subtree(tasks, a)| == |Below(Parents(tasks), Ids(tasks), a)| + 1
  {
  }

  method IndexParents(allTasks: seq<Task>) returns (parentOf: map<string, string>, counts: map<string, nat>)
    requires DistinctIds(allTasks)
    ensures parentOf == Parents(allTasks)
    ensures counts.Keys == Ids(allTasks) && forall a :: a in counts ==> counts[a] == 0
  {
    parentOf, counts := map[], map[];
    for i := 0 to |allTasks|
      invariant parentOf == Parents(allTasks[..i])
      invariant counts.Keys == Ids(allTasks[..i]) && forall a :: a in counts ==> counts[a] == 0
    {
      var task := allTasks[i];
      IdsStep(allTasks, i);
      assert allTasks[..i + 1][..i] == allTasks[..i];
      counts := counts[task.id := 0];
      if ParentId(task) != "" {
        parentOf := parentOf[task.id := ParentId(task)];
      }
    }
    assert allTasks[..|allTasks|] == allTasks;
  }
}
