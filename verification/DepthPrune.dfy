/** Cutting a task set to its first levels, and counting what that hides. */
module DepthPrune {
  import opened Prelude
  import opened TaskTree

  // ---- Levels within the set

  /** The parent links that stay inside the set. */
  ghost function Inner(tasks: seq<Task>): map<string, string> {
    map x | x in Parents(tasks) && Parents(tasks)[x] in Ids(tasks) :: Parents(tasks)[x]
  }

  /** `x` is `level - 1` links below a display root: a task whose parent is not in the set. */
  ghost predicate AtLevel(pm: map<string, string>, x: string, level: nat) {
    level >= 1 && Up(pm, x, level - 1).Some? && Up(pm, x, level - 1).value !in pm
  }

  lemma {:induction false} LevelUnique(pm: map<string, string>, x: string, k: nat, l: nat)
    requires AtLevel(pm, x, k) && AtLevel(pm, x, l)
    ensures k == l
  {
    if k < l {
      UpEnds(pm, x, k - 1, l - 1);
    } else if l < k {
      UpEnds(pm, x, l - 1, k - 1);
    }
  }

  /** The chain of parents stops where there is no link. */
  lemma {:induction false} UpEnds(pm: map<string, string>, x: string, n: nat, m: nat)
    requires n < m && Up(pm, x, n).Some? && Up(pm, x, n).value !in pm
    ensures Up(pm, x, m).None?
  {
    if n < m - 1 {
      UpEnds(pm, x, n, m - 1);
    }
  }

  lemma RootLevel(pm: map<string, string>, x: string)
    ensures AtLevel(pm, x, 1) <==> x !in pm
  {
    assert Up(pm, x, 0) == Some(x);
  }

  lemma ChildLevel(pm: map<string, string>, x: string, l: nat)
    requires x in pm && l >= 1
    ensures AtLevel(pm, x, l + 1) <==> AtLevel(pm, pm[x], l)
  {
    UpFromParent(pm, x, l - 1);
  }

  /** Its parent chain ends at a display root. */
  ghost predicate Rooted(pm: map<string, string>, x: string) {
    exists l: nat :: AtLevel(pm, x, l)
  }

  /** Its level is at most `levels`. */
  ghost predicate Within(pm: map<string, string>, x: string, levels: nat) {
    exists l: nat :: l <= levels && AtLevel(pm, x, l)
  }

  lemma {:induction false} UpSplit(pm: map<string, string>, x: string, n: nat, m: nat)
    requires Up(pm, x, n).Some?
    ensures Up(pm, x, n + m) == Up(pm, Up(pm, x, n).value, m)
  {
    var y := Up(pm, x, n).value;
    if m > 0 {
      UpSplit(pm, x, n, m - 1);
    } else {
      assert Up(pm, y, 0) == Some(y);
    }
  }

  /** A task at a deeper level has exactly one ancestor at each level above its own. */
  lemma AncestorAtLevel(pm: map<string, string>, x: string, l: nat, k: nat) returns (b: string)
    requires AtLevel(pm, x, l) && 1 <= k <= l
    ensures AtLevel(pm, b, k) && Above(pm, b, x) && Up(pm, x, l - k) == Some(b)
  {
    UpDefined(pm, x, l - k, l - 1);
    b := Up(pm, x, l - k).value;
    UpSplit(pm, x, l - k, k - 1);
  }

  lemma {:induction false} UpDefined(pm: map<string, string>, x: string, n: nat, m: nat)
    requires n <= m && Up(pm, x, m).Some?
    ensures Up(pm, x, n).Some?
  {
    if n < m {
      UpDefined(pm, x, n, m - 1);
    }
  }

  /** Below a task of level `k`, levels are larger. */
  lemma BelowDeeper(pm: map<string, string>, b: string, k: nat, x: string) returns (l: nat)
    requires AtLevel(pm, b, k) && Above(pm, b, x)
    ensures AtLevel(pm, x, l) && l >= k && Up(pm, x, l - k) == Some(b) && (x != b ==> l > k)
  {
    var n: nat :| Up(pm, x, n) == Some(b);
    UpSplit(pm, x, n, k - 1);
    l := n + k;
    assert n == 0 ==> x == b;
  }

  /** The subtrees of two tasks of the same level do not meet. */
  lemma SameLevelDisjoint(pm: map<string, string>, ids: set<string>, a: string, b: string, k: nat)
    requires AtLevel(pm, a, k) && AtLevel(pm, b, k) && a != b
    ensures Below(pm, ids, a) !! Below(pm, ids, b)
  {
    forall x | x in Below(pm, ids, a) && x in Below(pm, ids, b) ensures false {
      var l := BelowDeeper(pm, a, k, x);
      var m := BelowDeeper(pm, b, k, x);
      LevelUnique(pm, x, l, m);
    }
  }

  /** Inside the set, the descendants of a task are those of the full parent graph. */
  lemma InnerBelow(tasks: seq<Task>, a: string)
    requires a in Ids(tasks)
    ensures Below(Inner(tasks), Ids(tasks), a) == Below(Parents(tasks), Ids(tasks), a)
  {
    var (pm, full, ids) := (Inner(tasks), Parents(tasks), Ids(tasks));
    forall x | x in ids && Above(pm, a, x) ensures Above(full, a, x) {
      var n: nat :| Up(pm, x, n) == Some(a);
      UpInner(pm, full, x, n);
    }
    forall x | x in ids && Above(full, a, x) ensures Above(pm, a, x) {
      var n: nat :| Up(full, x, n) == Some(a);
      UpOuter(tasks, x, n);
    }
  }

  lemma {:induction false} UpInner(pm: map<string, string>, full: map<string, string>, x: string, n: nat)
    requires Up(pm, x, n).Some? && forall y :: y in pm ==> y in full && full[y] == pm[y]
    ensures Up(full, x, n) == Up(pm, x, n)
  {
    if n > 0 {
      UpInner(pm, full, x, n - 1);
    }
  }

  lemma {:induction false} UpOuter(tasks: seq<Task>, x: string, n: nat)
    requires Up(Parents(tasks), x, n).Some? && Up(Parents(tasks), x, n).value in Ids(tasks)
    ensures Up(Inner(tasks), x, n) == Up(Parents(tasks), x, n)
  {
    if n > 0 {
      ParentsKeys(tasks);
      var y := Up(Parents(tasks), x, n - 1).value;
      var i :| 0 <= i < |tasks| && tasks[i].id == y;
      IdOf(tasks, tasks[i]);
      UpOuter(tasks, x, n - 1);
    }
  }

  // ---- The child index of the set

  /** `!parentId || !present.has(parentId)` */
  predicate IsDisplayRoot(tasks: seq<Task>, t: Task) {
    ParentId(t) == "" || ParentId(t) !in Ids(tasks)
  }

  lemma InnerLink(tasks: seq<Task>, t: Task)
    requires DistinctIds(tasks) && t in tasks
    ensures t.id in Inner(tasks) <==> !IsDisplayRoot(tasks, t)
    ensures t.id in Inner(tasks) ==> Inner(tasks)[t.id] == ParentId(t)
  {
    TaskLink(tasks, t);
  }

  method IndexLevels(tasks: seq<Task>) returns (childrenByParent: map<string, seq<Task>>, roots: seq<Task>)
    ensures Indexes(childrenByParent, tasks, Some(Ids(tasks)))
    ensures forall t :: t in roots <==> t in tasks && IsDisplayRoot(tasks, t)
  {
    var present := Ids(tasks);
    childrenByParent, roots := map[], [];
    for i := 0 to |tasks|
      invariant Indexes(childrenByParent, tasks[..i], Some(present))
      invariant forall t :: t in roots <==> t in tasks[..i] && IsDisplayRoot(tasks, t)
    {
      IndexStep(childrenByParent, tasks, i, Some(present));
      assert tasks[..i + 1] == tasks[..i] + [tasks[i]];
      if ParentId(tasks[i]) != "" && ParentId(tasks[i]) in present {
        childrenByParent := Filed(childrenByParent, tasks[i]);
      } else {
        roots := roots + [tasks[i]];
      }
    }
    assert tasks[..|tasks|] == tasks;
  }

  // ---- countDescendants

  /** Every child of an id of `s` is in `t`. */
  ghost predicate ChildrenIn(tasks: seq<Task>, s: set<string>, t: set<string>) {
    forall c :: c in tasks && ParentId(c) != "" && ParentId(c) in s ==> c.id in t
  }

  /** What the count added to `seen` is below `id`, closed under children, and is what was counted. */
  ghost predicate Counted(tasks: seq<Task>, id: string, seen: set<string>, after: set<string>, count: nat) {
    && seen <= after <= seen + Below(Inner(tasks), Ids(tasks), id)
    && count == |after| - |seen|
    && ChildrenIn(tasks, after - seen, after)
  }

  /** The recursive count of the descendants of `id`, over a shared `seen` set. */
  method CountDescendants(id: string, childrenByParent: map<string, seq<Task>>, seen: set<string>, ghost tasks: seq<Task>)
    returns (count: nat, after: set<string>)
    requires Indexes(childrenByParent, tasks, Some(Ids(tasks))) && DistinctIds(tasks)
    requires id in Ids(tasks) && id in seen && seen <= Ids(tasks)
    ensures Counted(tasks, id, seen, after, count)
    ensures ChildrenIn(tasks, {id}, after)
    decreases Ids(tasks) - seen, 1
  {
    var children := Listed(childrenByParent, id);
    assert children == ChildrenOf(tasks, id);
    count, after := 0, seen;
    for k := 0 to |children|
      invariant Counted(tasks, id, seen, after, count)
      invariant forall j :: 0 <= j < k ==> children[j].id in after
    {
      ChildTask(tasks, id, k);
      count, after := CountChild(id, children[k], childrenByParent, seen, after, count, tasks);
    }
    ChildrenCounted(tasks, id, after);
  }

  /** One turn of the loop over the children: a child already seen adds nothing. */
  method CountChild(ghost id: string, child: Task, childrenByParent: map<string, seq<Task>>, ghost seen: set<string>,
                    before: set<string>, was: nat, ghost tasks: seq<Task>)
    returns (count: nat, after: set<string>)
    requires Indexes(childrenByParent, tasks, Some(Ids(tasks))) && DistinctIds(tasks)
    requires id in Ids(tasks) && id in seen && seen <= Ids(tasks) && id != ""
    requires child in tasks && ParentId(child) == id
    requires Counted(tasks, id, seen, before, was)
    ensures Counted(tasks, id, seen, after, count)
    ensures before <= after && child.id in after
    decreases Ids(tasks) - seen, 0
  {
    count, after := was, before;
    if child.id !in before {
      IdOf(tasks, child);
      var n, more := CountDescendants(child.id, childrenByParent, before + {child.id}, tasks);
      ChildCounted(tasks, id, child, seen, before, was, more, n);
      count, after := was + 1 + n, more;
    }
  }

  lemma ChildrenCounted(tasks: seq<Task>, id: string, after: set<string>)
    requires forall j :: 0 <= j < |ChildrenOf(tasks, id)| ==> ChildrenOf(tasks, id)[j].id in after
    ensures ChildrenIn(tasks, {id}, after)
  {
    forall c | c in tasks && ParentId(c) != "" && ParentId(c) in {id} ensures c.id in after {
      ChildListed(tasks, c);
    }
  }

  /** What a recursive call on one child keeps of the caller's invariant. */
  lemma ChildCounted(tasks: seq<Task>, id: string, child: Task, seen: set<string>, before: set<string>, count: nat,
                     after: set<string>, n: nat)
    requires DistinctIds(tasks) && id in Ids(tasks) && id in seen && id != ""
    requires child in tasks && ParentId(child) == id && child.id !in before
    requires Counted(tasks, id, seen, before, count)
    requires Counted(tasks, child.id, before + {child.id}, after, n) && ChildrenIn(tasks, {child.id}, after)
    ensures Counted(tasks, id, seen, after, count + 1 + n) && before <= after
  {
    ChildBelow(tasks, id, child);
    forall c | c in tasks && ParentId(c) != "" && ParentId(c) in after - seen ensures c.id in after {
      var p := ParentId(c);
      assert p in before - seen || p in {child.id} || p in after - (before + {child.id});
    }
  }

  lemma ChildBelow(tasks: seq<Task>, id: string, child: Task)
    requires DistinctIds(tasks) && child in tasks && ParentId(child) == id && id in Ids(tasks) && id != ""
    ensures Below(Inner(tasks), Ids(tasks), child.id) <= Below(Inner(tasks), Ids(tasks), id) + {id}
    ensures child.id != id ==> child.id in Below(Inner(tasks), Ids(tasks), id)
  {
    var pm := Inner(tasks);
    InnerLink(tasks, child);
    IdOf(tasks, child);
    AboveSelf(pm, child.id);
    AboveParent(pm, child.id, child.id);
    forall x | Above(pm, child.id, x) ensures Above(pm, id, x) {
      AboveParent(pm, child.id, x);
    }
  }

  /** Started at one id, the count is the number of tasks below it. */
  lemma CountIsBelow(tasks: seq<Task>, id: string, after: set<string>, count: nat)
    requires DistinctIds(tasks) && id in Ids(tasks)
    requires Counted(tasks, id, {id}, after, count) && ChildrenIn(tasks, {id}, after)
    ensures count == |Below(Inner(tasks), Ids(tasks), id)|
  {
    var pm := Inner(tasks);
    forall y | y in pm && pm[y] in after ensures y in after {
      var t := ParentLink(tasks, y);
      assert pm[y] in {id} || pm[y] in after - {id};
    }
    forall x | x in Below(pm, Ids(tasks), id) ensures x in after {
      var n: nat :| Up(pm, x, n) == Some(id);
      DownClosed(pm, after, x, n, id);
    }
    assert after == {id} + Below(pm, Ids(tasks), id);
  }

  // ---- pruneTasksToDepth

  /** The sum of the values of a map. */
  ghost function Total(m: map<string, nat>): nat {
    if m == map[] then 0 else
      assert m.Keys != {};
      var k :| k in m.Keys;
      m[k] + Total(m - {k})
  }

  lemma {:induction false} TotalWithout(m: map<string, nat>, k: string)
    requires k in m
    ensures Total(m) == m[k] + Total(m - {k})
  {
    var j :| j in m.Keys && Total(m) == m[j] + Total(m - {j});
    if j != k {
      TotalWithout(m - {j}, k);
      TotalWithout(m - {k}, j);
      assert m - {j} - {k} == m - {k} - {j};
    }
  }

  datatype DepthPruneResult = DepthPruneResult(kept: seq<Task>, hidden: map<string, nat>, hiddenTotal: nat)

  datatype Queued = Queued(task: Task, level: nat)

  /** `tasks.filter(t => keptIds.has(t.id))` */
  function Kept(tasks: seq<Task>, keptIds: set<string>): seq<Task> {
    if tasks == [] then []
    else
      var (init, t) := (tasks[..|tasks| - 1], tasks[|tasks| - 1]);
      Kept(init, keptIds) + if t.id in keptIds then [t] else []
  }

  lemma {:induction false} KeptCount(tasks: seq<Task>, keptIds: set<string>)
    requires DistinctIds(tasks)
    ensures |Kept(tasks, keptIds)| == |keptIds * Ids(tasks)|
  {
    if tasks != [] {
      var (init, t) := (tasks[..|tasks| - 1], tasks[|tasks| - 1]);
      IdsStep(tasks, |tasks| - 1);
      assert tasks[..|tasks|] == tasks;
      KeptCount(init, keptIds);
      hide Ids, DistinctIds;
      OneMoreKept(keptIds, Ids(init), t.id);
    }
  }

  lemma OneMoreKept(kept: set<string>, ids: set<string>, id: string)
    requires id !in ids
    ensures |kept * (ids + {id})| == |kept * ids| + if id in kept then 1 else 0
  {
    if id in kept {
      assert kept * (ids + {id}) == kept * ids + {id};
    } else {
      assert kept * (ids + {id}) == kept * ids;
    }
  }

  lemma {:induction false} KeptPicks(tasks: seq<Task>, keptIds: set<string>)
    ensures Picks(tasks, (set i: nat | i < |tasks| && tasks[i].id in keptIds), Kept(tasks, keptIds))
  {
    var keep := set i: nat | i < |tasks| && tasks[i].id in keptIds;
    if tasks == [] {
      assert keep == {};
      PicksNone(tasks);
    } else {
      var (init, t) := (tasks[..|tasks| - 1], tasks[|tasks| - 1]);
      var before := set i: nat | i < |init| && init[i].id in keptIds;
      KeptPicks(init, keptIds);
      PicksPush(init, before, Kept(init, keptIds), t);
      InitLast(tasks);
      assert keep == if t.id in keptIds then before + {|init|} else before;
      assert Kept(init, keptIds) + [] == Kept(init, keptIds);
    }
  }

  /** The tasks of the first `levels` levels, by position. */
  ghost function WithinAt(tasks: seq<Task>, levels: nat): set<nat> {
    set i: nat | i < |tasks| && Within(Inner(tasks), tasks[i].id, levels)
  }

  lemma KeptWithin(tasks: seq<Task>, levels: nat)
    ensures var kept := Kept(tasks, WithinIds(tasks, levels));
      && Picks(tasks, WithinAt(tasks, levels), kept)
      && forall t :: t in kept <==> t in tasks && Within(Inner(tasks), t.id, levels)
  {
    var (ids, kept) := (WithinIds(tasks, levels), Kept(tasks, WithinIds(tasks, levels)));
    KeptPicks(tasks, ids);
    forall i: nat | i < |tasks| ensures tasks[i].id in ids <==> Within(Inner(tasks), tasks[i].id, levels) {
      IdOf(tasks, tasks[i]);
    }
    assert (set i: nat | i < |tasks| && tasks[i].id in ids) == WithinAt(tasks, levels);
    PicksMembers(tasks, WithinAt(tasks, levels), kept);
    forall t ensures t in kept <==> t in tasks && Within(Inner(tasks), t.id, levels) {
      if t in tasks {
        var i: nat :| i < |tasks| && tasks[i] == t;
        assert i in WithinAt(tasks, levels) <==> Within(Inner(tasks), t.id, levels);
      }
    }
  }

  ghost function WithinIds(tasks: seq<Task>, levels: nat): set<string> {
    set x | x in Ids(tasks) && Within(Inner(tasks), x, levels)
  }

  ghost function RootedIds(tasks: seq<Task>): set<string> {
    set x | x in Ids(tasks) && Rooted(Inner(tasks), x)
  }

  /** Some task of `kept` at the limit is strictly above `y`. */
  ghost predicate HiddenUnder(pm: map<string, string>, kept: set<string>, levels: nat, y: string) {
    exists x :: x in kept && AtLevel(pm, x, levels) && x != y && Above(pm, x, y)
  }

  ghost function Elided(tasks: seq<Task>, kept: set<string>, levels: nat): set<string> {
    set y | y in Ids(tasks) && HiddenUnder(Inner(tasks), kept, levels, y)
  }

  ghost function QueuedIds(queue: seq<Queued>): set<string> {
    if queue == [] then {} else QueuedIds(queue[..|queue| - 1]) + {queue[|queue| - 1].task.id}
  }

  lemma {:induction false} QueuedTogether(a: seq<Queued>, b: seq<Queued>)
    ensures QueuedIds(a + b) == QueuedIds(a) + QueuedIds(b)
  {
    if b == [] {
      assert a + b == a;
    } else {
      assert (a + b)[..|a + b| - 1] == a + b[..|b| - 1];
      QueuedTogether(a, b[..|b| - 1]);
    }
  }

  lemma QueuedLast(rest: seq<Queued>, q: Queued)
    ensures QueuedIds(rest + [q]) == QueuedIds(rest) + {q.task.id}
  {
    assert (rest + [q])[..|rest|] == rest;
  }

  ghost predicate ItemOk(tasks: seq<Task>, levels: nat, q: Queued) {
    q.task in tasks && q.level <= levels && AtLevel(Inner(tasks), q.task.id, q.level)
  }

  ghost predicate QueueOk(tasks: seq<Task>, levels: nat, queue: seq<Queued>) {
    forall i {:trigger ItemOk(tasks, levels, queue[i])} :: 0 <= i < |queue| ==> ItemOk(tasks, levels, queue[i])
  }

  /** A root, or a child of a kept task above the limit, is kept or queued. */
  ghost predicate Covered(tasks: seq<Task>, levels: nat, kept: set<string>, queue: seq<Queued>) {
    forall t :: t in tasks && (IsDisplayRoot(tasks, t) || (ParentId(t) in kept && !AtLevel(Inner(tasks), ParentId(t), levels)))
      ==> t.id in kept || t.id in QueuedIds(queue)
  }

  /** `hidden` maps each kept task at the limit with descendants to how many it has. */
  ghost predicate HiddenOk(tasks: seq<Task>, levels: nat, kept: set<string>, hidden: map<string, nat>) {
    var (pm, ids) := (Inner(tasks), Ids(tasks));
    forall x :: if x in kept && AtLevel(pm, x, levels) && Below(pm, ids, x) != {}
      then x in hidden && hidden[x] == |Below(pm, ids, x)|
      else x !in hidden
  }

  /** Visiting one more task at the limit elides its descendants, and nothing was elided twice. */
  lemma ElidedMore(tasks: seq<Task>, kept: set<string>, levels: nat, x: string)
    requires x !in kept && AtLevel(Inner(tasks), x, levels)
    ensures |Elided(tasks, kept + {x}, levels)| ==
            |Elided(tasks, kept, levels)| + |Below(Inner(tasks), Ids(tasks), x)|
  {
    var (pm, ids) := (Inner(tasks), Ids(tasks));
    var (was, more) := (Elided(tasks, kept, levels), Below(pm, ids, x));
    forall y | y in ids
      ensures HiddenUnder(pm, kept + {x}, levels, y) <==> HiddenUnder(pm, kept, levels, y) || y in more
    {
      if HiddenUnder(pm, kept, levels, y) {
        var b :| b in kept && AtLevel(pm, b, levels) && b != y && Above(pm, b, y);
        assert b in kept + {x};
      }
      if y in more {
        assert x in kept + {x};
      }
    }
    assert Elided(tasks, kept + {x}, levels) == was + more;
    forall y | y in was ensures y !in more {
      var b :| b in kept && AtLevel(pm, b, levels) && b != y && Above(pm, b, y);
      SameLevelDisjoint(pm, ids, b, x, levels);
      assert y in Below(pm, ids, b);
    }
  }

  lemma ElidedSame(tasks: seq<Task>, kept: set<string>, levels: nat, x: string)
    requires !AtLevel(Inner(tasks), x, levels)
    ensures Elided(tasks, kept + {x}, levels) == Elided(tasks, kept, levels)
  {
    var pm := Inner(tasks);
    forall y ensures HiddenUnder(pm, kept + {x}, levels, y) <==> HiddenUnder(pm, kept, levels, y) {
      if HiddenUnder(pm, kept, levels, y) {
        var b :| b in kept && AtLevel(pm, b, levels) && b != y && Above(pm, b, y);
        assert b in kept + {x};
      }
    }
  }

  /** With nothing queued, every task within the limit is kept. */
  lemma {:induction false} AllWithinKept(tasks: seq<Task>, levels: nat, kept: set<string>, x: string, l: nat)
    requires DistinctIds(tasks) && Covered(tasks, levels, kept, []) && x in Ids(tasks)
    requires l <= levels && AtLevel(Inner(tasks), x, l)
    ensures x in kept
    decreases l
  {
    var pm := Inner(tasks);
    var t := TaskOf(tasks, x);
    InnerLink(tasks, t);
    if x in pm {
      ParentAbove(pm, x, l, levels);
      AllWithinKept(tasks, levels, kept, pm[x], l - 1);
    }
    assert QueuedIds([]) == {};
  }

  lemma ParentAbove(pm: map<string, string>, x: string, l: nat, levels: nat)
    requires x in pm && l <= levels && AtLevel(pm, x, l)
    ensures l > 1 && AtLevel(pm, pm[x], l - 1) && !AtLevel(pm, pm[x], levels)
  {
    RootLevel(pm, x);
    ChildLevel(pm, x, l - 1);
    if AtLevel(pm, pm[x], levels) {
      LevelUnique(pm, pm[x], l - 1, levels);
    }
  }

  lemma DeepElided(tasks: seq<Task>, levels: nat, x: string)
    requires levels >= 1 && x in RootedIds(tasks) && x !in WithinIds(tasks, levels)
    ensures x in Elided(tasks, WithinIds(tasks, levels), levels)
  {
    var pm := Inner(tasks);
    var l: nat :| AtLevel(pm, x, l);
    assert l > levels;
    var b := AncestorAtLevel(pm, x, l, levels);
    AncestorInside(tasks, x, l - levels);
    assert Within(pm, b, levels);
    assert b != x;
  }

  lemma ElidedDeep(tasks: seq<Task>, levels: nat, x: string)
    requires x in Elided(tasks, WithinIds(tasks, levels), levels)
    ensures x in RootedIds(tasks) && x !in WithinIds(tasks, levels)
  {
    var pm := Inner(tasks);
    var b :| b in WithinIds(tasks, levels) && AtLevel(pm, b, levels) && b != x && Above(pm, b, x);
    var l := BelowDeeper(pm, b, levels, x);
    forall k: nat | AtLevel(pm, x, k) ensures k > levels {
      LevelUnique(pm, x, l, k);
    }
  }

  /** What is kept and what is elided are together the tasks with a display root. */
  lemma KeptPlusElided(tasks: seq<Task>, levels: nat)
    requires levels >= 1
    ensures |WithinIds(tasks, levels)| + |Elided(tasks, WithinIds(tasks, levels), levels)| == |RootedIds(tasks)|
  {
    var (kept, all) := (WithinIds(tasks, levels), RootedIds(tasks));
    var gone := Elided(tasks, kept, levels);
    forall x ensures x in gone <==> x in all && x !in kept {
      if x in gone {
        ElidedDeep(tasks, levels, x);
      } else if x in all && x !in kept {
        DeepElided(tasks, levels, x);
      }
    }
    WithinRooted(tasks, levels);
    assert all == kept + gone && kept !! gone;
  }

  lemma WithinRooted(tasks: seq<Task>, levels: nat)
    ensures WithinIds(tasks, levels) <= RootedIds(tasks)
  {
    forall x | x in WithinIds(tasks, levels) ensures Rooted(Inner(tasks), x) {
      var l: nat :| l <= levels && AtLevel(Inner(tasks), x, l);
    }
  }

  lemma AncestorInside(tasks: seq<Task>, x: string, n: nat)
    requires x in Ids(tasks) && Up(Inner(tasks), x, n).Some?
    ensures Up(Inner(tasks), x, n).value in Ids(tasks)
  {
  }

  lemma VisitCovered(tasks: seq<Task>, levels: nat, kept: set<string>, rest: seq<Queued>, x: Queued, queue: seq<Queued>)
    requires Covered(tasks, levels, kept, rest + [x])
    requires QueuedIds(rest) <= QueuedIds(queue)
    requires AtLevel(Inner(tasks), x.task.id, levels) || Ids(ChildrenOf(tasks, x.task.id)) <= QueuedIds(queue)
    ensures Covered(tasks, levels, kept + {x.task.id}, queue)
  {
    QueuedLast(rest, x);
    forall t | t in tasks && (IsDisplayRoot(tasks, t) ||
        (ParentId(t) in kept + {x.task.id} && !AtLevel(Inner(tasks), ParentId(t), levels)))
      ensures t.id in kept + {x.task.id} || t.id in QueuedIds(queue)
    {
      if ParentId(t) == x.task.id && !IsDisplayRoot(tasks, t) {
        ChildListed(tasks, t);
        IdOf(ChildrenOf(tasks, x.task.id), t);
      }
    }
  }

  /** The loop state of the prune: what is kept, hidden and still queued. */
  ghost predicate Pruning(tasks: seq<Task>, levels: nat, queue: seq<Queued>, kept: set<string>,
                          hidden: map<string, nat>, hiddenTotal: nat)
  {
    && kept <= WithinIds(tasks, levels)
    && QueueOk(tasks, levels, queue)
    && Covered(tasks, levels, kept, queue)
    && HiddenOk(tasks, levels, kept, hidden)
    && hiddenTotal == |Elided(tasks, kept, levels)|
  }

  /** `ts.map(task => ({ task, level }))` */
  function AtOnce(ts: seq<Task>, level: nat): (qs: seq<Queued>)
    ensures |qs| == |ts|
  {
    if ts == [] then [] else AtOnce(ts[..|ts| - 1], level) + [Queued(ts[|ts| - 1], level)]
  }

  /** With nothing queued, the prune is done. */
  lemma Pruned(tasks: seq<Task>, levels: nat, kept: set<string>, hidden: map<string, nat>, hiddenTotal: nat)
    requires DistinctIds(tasks) && levels >= 1 && Pruning(tasks, levels, [], kept, hidden, hiddenTotal)
    ensures kept == WithinIds(tasks, levels) && HiddenOk(tasks, levels, kept, hidden)
    ensures hiddenTotal == Total(hidden) && |Kept(tasks, kept)| + hiddenTotal == |RootedIds(tasks)|
  {
    forall x | x in WithinIds(tasks, levels) ensures x in kept {
      var l: nat :| l <= levels && AtLevel(Inner(tasks), x, l);
      AllWithinKept(tasks, levels, kept, x, l);
    }
    assert kept == WithinIds(tasks, levels);
    KeptCount(tasks, kept);
    assert kept * Ids(tasks) == kept;
    KeptPlusElided(tasks, levels);
    HiddenSum(tasks, levels, kept, hidden);
  }

  method PruneTasksToDepth(tasks: seq<Task>, levels: int) returns (result: Option<DepthPruneResult>)
    requires DistinctIds(tasks)
    ensures result.None? <==> levels < 1
    ensures result.Some? ==> Picks(tasks, WithinAt(tasks, levels), result.value.kept)
    ensures result.Some? ==> forall t :: t in result.value.kept <==> t in tasks && Within(Inner(tasks), t.id, levels)
    ensures result.Some? ==> HiddenOk(tasks, levels, WithinIds(tasks, levels), result.value.hidden)
    ensures result.Some? ==> result.value.hiddenTotal == Total(result.value.hidden)
    ensures result.Some? ==> |result.value.kept| + result.value.hiddenTotal == |RootedIds(tasks)|
  {
    if levels < 1 {
      return None;
    }
    hide WithinIds, RootedIds, Kept, HiddenOk, Total, Within, WithinAt, Picks;
    var childrenByParent, roots := IndexLevels(tasks);
    var queue := AtOnce(roots, 1);
    StartPruning(tasks, levels, roots);
    var keptIds, hidden, hiddenTotal := {}, map[], 0;
    while |queue| > 0
      invariant Pruning(tasks, levels, queue, keptIds, hidden, hiddenTotal)
      decreases Ids(tasks) - keptIds, |queue|
    {
      var q := queue[|queue| - 1];
      assert queue == queue[..|queue| - 1] + [q];
      if q.task.id in keptIds {
        SkipPruned(tasks, levels, queue[..|queue| - 1], q, keptIds, hidden, hiddenTotal);
        queue := queue[..|queue| - 1];
      } else {
        QueuedTask(tasks, levels, queue[..|queue| - 1], q);
        queue, keptIds, hidden, hiddenTotal :=
          Visit(tasks, levels, childrenByParent, queue[..|queue| - 1], q, keptIds, hidden, hiddenTotal);
      }
    }
    assert queue == [];
    Pruned(tasks, levels, keptIds, hidden, hiddenTotal);
    KeptWithin(tasks, levels);
    result := Some(DepthPruneResult(Kept(tasks, keptIds), hidden, hiddenTotal));
  }

  /** Visits a task that is not kept yet: queue its children, or count them at the limit. */
  method Visit(tasks: seq<Task>, levels: nat, childrenByParent: map<string, seq<Task>>, rest: seq<Queued>, q: Queued,
               keptIds: set<string>, hidden: map<string, nat>, hiddenTotal: nat)
    returns (queue: seq<Queued>, kept': set<string>, hidden': map<string, nat>, hiddenTotal': nat)
    requires DistinctIds(tasks) && Indexes(childrenByParent, tasks, Some(Ids(tasks)))
    requires Pruning(tasks, levels, rest + [q], keptIds, hidden, hiddenTotal) && q.task.id !in keptIds
    ensures kept' == keptIds + {q.task.id}
    ensures Pruning(tasks, levels, queue, kept', hidden', hiddenTotal')
  {
    var id := q.task.id;
    kept', hidden', hiddenTotal' := keptIds + {id}, hidden, hiddenTotal;
    QueuedTask(tasks, levels, rest, q);
    if q.level >= levels {
      queue := rest;
      var elided, after := CountDescendants(id, childrenByParent, {id}, tasks);
      CountIsBelow(tasks, id, after, elided);
      VisitedAtLimit(tasks, levels, rest, q, keptIds, hidden, hiddenTotal, elided);
      if elided > 0 {
        hidden' := hidden[id := elided];
        hiddenTotal' := hiddenTotal + elided;
      }
    } else {
      var children := Listed(childrenByParent, id);
      assert children == ChildrenOf(tasks, id);
      queue := rest + AtOnce(children, q.level + 1);
      VisitedAbove(tasks, levels, rest, q, keptIds, hidden, hiddenTotal);
    }
  }

  lemma QueuedTask(tasks: seq<Task>, levels: nat, rest: seq<Queued>, q: Queued)
    requires QueueOk(tasks, levels, rest + [q])
    ensures q.task in tasks && q.task.id in Ids(tasks) && q.level <= levels
    ensures ItemOk(tasks, levels, q) && Within(Inner(tasks), q.task.id, levels)
    ensures QueueOk(tasks, levels, rest)
  {
    var all := rest + [q];
    assert ItemOk(tasks, levels, all[|rest|]);
    forall i | 0 <= i < |rest| ensures ItemOk(tasks, levels, rest[i]) {
      assert ItemOk(tasks, levels, all[i]);
    }
    IdOf(tasks, q.task);
  }

  lemma VisitedAtLimit(tasks: seq<Task>, levels: nat, rest: seq<Queued>, q: Queued, kept: set<string>,
                       hidden: map<string, nat>, hiddenTotal: nat, elided: nat)
    requires Pruning(tasks, levels, rest + [q], kept, hidden, hiddenTotal) && q.task.id !in kept && q.level >= levels
    requires elided == |Below(Inner(tasks), Ids(tasks), q.task.id)|
    ensures Pruning(tasks, levels, rest, kept + {q.task.id},
      if elided > 0 then hidden[q.task.id := elided] else hidden, hiddenTotal + elided)
  {
    QueuedTask(tasks, levels, rest, q);
    ElidedMore(tasks, kept, levels, q.task.id);
    VisitCovered(tasks, levels, kept, rest, q, rest);
    HiddenAtLimit(tasks, levels, kept, hidden, q.task.id, elided);
  }

  lemma HiddenAtLimit(tasks: seq<Task>, levels: nat, kept: set<string>, hidden: map<string, nat>, x: string, elided: nat)
    requires HiddenOk(tasks, levels, kept, hidden) && x !in kept && AtLevel(Inner(tasks), x, levels)
    requires elided == |Below(Inner(tasks), Ids(tasks), x)|
    ensures x !in hidden
    ensures HiddenOk(tasks, levels, kept + {x}, if elided > 0 then hidden[x := elided] else hidden)
  {
  }

  lemma VisitedAbove(tasks: seq<Task>, levels: nat, rest: seq<Queued>, q: Queued, kept: set<string>,
                     hidden: map<string, nat>, hiddenTotal: nat)
    requires DistinctIds(tasks)
    requires Pruning(tasks, levels, rest + [q], kept, hidden, hiddenTotal) && q.level < levels
    ensures Pruning(tasks, levels, rest + AtOnce(ChildrenOf(tasks, q.task.id), q.level + 1), kept + {q.task.id},
      hidden, hiddenTotal)
  {
    QueuedTask(tasks, levels, rest, q);
    NotAtLimit(Inner(tasks), q.task.id, q.level, levels);
    ElidedSame(tasks, kept, levels, q.task.id);
    ChildrenQueued(tasks, levels, rest, q);
    VisitCovered(tasks, levels, kept, rest, q, rest + AtOnce(ChildrenOf(tasks, q.task.id), q.level + 1));
    HiddenAbove(tasks, levels, kept, hidden, q.task.id);
  }

  lemma HiddenAbove(tasks: seq<Task>, levels: nat, kept: set<string>, hidden: map<string, nat>, x: string)
    requires HiddenOk(tasks, levels, kept, hidden) && !AtLevel(Inner(tasks), x, levels)
    ensures HiddenOk(tasks, levels, kept + {x}, hidden)
  {
  }

  lemma HiddenWithout(tasks: seq<Task>, levels: nat, kept: set<string>, hidden: map<string, nat>, x: string)
    requires HiddenOk(tasks, levels, kept, hidden) && x in kept
    ensures HiddenOk(tasks, levels, kept - {x}, hidden - {x})
    ensures x in hidden ==> AtLevel(Inner(tasks), x, levels) && hidden[x] == |Below(Inner(tasks), Ids(tasks), x)|
    ensures x !in hidden && AtLevel(Inner(tasks), x, levels) ==> Below(Inner(tasks), Ids(tasks), x) == {}
  {
  }

  /** The total is the sum of the entries. */
  lemma {:induction false} HiddenSum(tasks: seq<Task>, levels: nat, kept: set<string>, hidden: map<string, nat>)
    requires HiddenOk(tasks, levels, kept, hidden)
    ensures Total(hidden) == |Elided(tasks, kept, levels)|
    decreases kept
  {
    if kept == {} {
      NothingHidden(tasks, levels, hidden);
    } else {
      var x :| x in kept;
      HiddenWithout(tasks, levels, kept, hidden, x);
      HiddenSum(tasks, levels, kept - {x}, hidden - {x});
      HiddenSumStep(tasks, levels, kept, hidden, x);
    }
  }

  lemma NothingHidden(tasks: seq<Task>, levels: nat, hidden: map<string, nat>)
    requires HiddenOk(tasks, levels, {}, hidden)
    ensures Total(hidden) == 0 && Elided(tasks, {}, levels) == {}
  {
    assert hidden.Keys == {};
  }

  lemma HiddenSumStep(tasks: seq<Task>, levels: nat, kept: set<string>, hidden: map<string, nat>, x: string)
    requires HiddenOk(tasks, levels, kept, hidden) && x in kept
    ensures Total(hidden) - Total(hidden - {x}) == |Elided(tasks, kept, levels)| - |Elided(tasks, kept - {x}, levels)|
  {
    HiddenWithout(tasks, levels, kept, hidden, x);
    ElidedStep(tasks, kept - {x}, levels, x);
    assert kept - {x} + {x} == kept;
    if x in hidden {
      TotalWithout(hidden, x);
    } else {
      assert hidden - {x} == hidden;
    }
  }

  lemma ElidedStep(tasks: seq<Task>, kept: set<string>, levels: nat, x: string)
    requires x !in kept
    ensures |Elided(tasks, kept + {x}, levels)| == |Elided(tasks, kept, levels)| +
            if AtLevel(Inner(tasks), x, levels) then |Below(Inner(tasks), Ids(tasks), x)| else 0
  {
    if AtLevel(Inner(tasks), x, levels) {
      ElidedMore(tasks, kept, levels, x);
    } else {
      ElidedSame(tasks, kept, levels, x);
    }
  }

  lemma NotAtLimit(pm: map<string, string>, x: string, l: nat, levels: nat)
    requires AtLevel(pm, x, l) && l < levels
    ensures !AtLevel(pm, x, levels)
  {
    if AtLevel(pm, x, levels) {
      LevelUnique(pm, x, l, levels);
    }
  }

  lemma {:induction false} AtOnceAt(ts: seq<Task>, level: nat, i: nat)
    requires i < |ts|
    ensures AtOnce(ts, level)[i] == Queued(ts[i], level)
  {
    if i < |ts| - 1 {
      AtOnceAt(ts[..|ts| - 1], level, i);
    }
  }

  lemma {:induction false} AtOnceIds(ts: seq<Task>, level: nat)
    ensures QueuedIds(AtOnce(ts, level)) == Ids(ts)
  {
    if ts != [] {
      AtOnceIds(ts[..|ts| - 1], level);
      QueuedLast(AtOnce(ts[..|ts| - 1], level), Queued(ts[|ts| - 1], level));
    }
  }

  lemma StartPruning(tasks: seq<Task>, levels: nat, roots: seq<Task>)
    requires DistinctIds(tasks) && levels >= 1
    requires forall t :: t in roots <==> t in tasks && IsDisplayRoot(tasks, t)
    ensures Pruning(tasks, levels, AtOnce(roots, 1), {}, map[], 0)
  {
    AtOnceIds(roots, 1);
    var pm := Inner(tasks);
    var queue := AtOnce(roots, 1);
    forall i | 0 <= i < |queue| ensures ItemOk(tasks, levels, queue[i]) {
      AtOnceAt(roots, 1, i);
      assert roots[i] in roots;
      InnerLink(tasks, queue[i].task);
      RootLevel(pm, queue[i].task.id);
    }
    assert Elided(tasks, {}, levels) == {};
    forall t | t in roots ensures t.id in QueuedIds(AtOnce(roots, 1)) {
      IdOf(roots, t);
    }
  }

  lemma SkipPruned(tasks: seq<Task>, levels: nat, rest: seq<Queued>, q: Queued, kept: set<string>,
                   hidden: map<string, nat>, hiddenTotal: nat)
    requires Pruning(tasks, levels, rest + [q], kept, hidden, hiddenTotal) && q.task.id in kept
    ensures Pruning(tasks, levels, rest, kept, hidden, hiddenTotal)
  {
    QueuedLast(rest, q);
    QueuedTask(tasks, levels, rest, q);
  }

  lemma ChildrenQueued(tasks: seq<Task>, levels: nat, rest: seq<Queued>, q: Queued)
    requires DistinctIds(tasks) && QueueOk(tasks, levels, rest + [q]) && q.level < levels
    ensures var queue := rest + AtOnce(ChildrenOf(tasks, q.task.id), q.level + 1);
      && QueueOk(tasks, levels, queue) && QueuedIds(rest) <= QueuedIds(queue)
      && Ids(ChildrenOf(tasks, q.task.id)) <= QueuedIds(queue)
  {
    var children := ChildrenOf(tasks, q.task.id);
    QueuedTask(tasks, levels, rest, q);
    ChildrenOk(tasks, levels, q);
    OkTogether(tasks, levels, rest, AtOnce(children, q.level + 1));
    AtOnceIds(children, q.level + 1);
    QueuedTogether(rest, AtOnce(children, q.level + 1));
  }

  lemma OkTogether(tasks: seq<Task>, levels: nat, a: seq<Queued>, b: seq<Queued>)
    requires QueueOk(tasks, levels, a) && QueueOk(tasks, levels, b)
    ensures QueueOk(tasks, levels, a + b)
  {
    forall i | 0 <= i < |a + b| ensures ItemOk(tasks, levels, (a + b)[i]) {
      if i < |a| {
        assert ItemOk(tasks, levels, a[i]);
      } else {
        assert ItemOk(tasks, levels, b[i - |a|]);
      }
    }
  }

  lemma ChildrenOk(tasks: seq<Task>, levels: nat, q: Queued)
    requires DistinctIds(tasks) && ItemOk(tasks, levels, q) && q.level < levels
    ensures QueueOk(tasks, levels, AtOnce(ChildrenOf(tasks, q.task.id), q.level + 1))
  {
    var children := ChildrenOf(tasks, q.task.id);
    var more := AtOnce(children, q.level + 1);
    IdOf(tasks, q.task);
    forall i | 0 <= i < |more| ensures ItemOk(tasks, levels, more[i]) {
      AtOnceAt(children, q.level + 1, i);
      ChildTask(tasks, q.task.id, i);
      ChildOneDeeper(tasks, q, children[i]);
    }
  }

  lemma ChildOneDeeper(tasks: seq<Task>, q: Queued, child: Task)
    requires DistinctIds(tasks) && child in tasks && ParentId(child) == q.task.id && ParentId(child) != ""
    requires q.task.id in Ids(tasks) && AtLevel(Inner(tasks), q.task.id, q.level)
    ensures AtLevel(Inner(tasks), child.id, q.level + 1)
  {
    InnerLink(tasks, child);
    ChildLevel(Inner(tasks), child.id, q.level);
  }

  // ---- What the prune reports

  /** A `hidden` entry is the task's descendant count in the full parent graph. */
  lemma HiddenIsDescendantCount(tasks: seq<Task>, x: string)
    requires x in Ids(tasks)
    ensures |Below(Inner(tasks), Ids(tasks), x)| == |Subtree(tasks, x)| - 1
  {
    InnerBelow(tasks, x);
    SubtreeSize(tasks, x);
  }

  ghost predicate StrictlyAbove(pm: map<string, string>, a: string, x: string) {
    exists n: nat :: n >= 1 && Up(pm, x, n) == Some(a)
  }

  /** `x` is its own proper ancestor. */
  ghost predicate OnCycle(pm: map<string, string>, x: string) {
    StrictlyAbove(pm, x, x)
  }

  lemma StrictlyAboveParent(pm: map<string, string>, a: string, x: string)
    requires a in pm && (a == x || StrictlyAbove(pm, a, x))
    ensures StrictlyAbove(pm, pm[a], x)
  {
    if a == x {
      assert Up(pm, x, 0) == Some(x) && Up(pm, x, 1) == Some(pm[x]);
    } else {
      var n: nat :| n >= 1 && Up(pm, x, n) == Some(a);
      assert Up(pm, x, n + 1) == Some(pm[a]);
    }
  }

  lemma RootedOffCycle(pm: map<string, string>, x: string)
    requires Rooted(pm, x)
    ensures !OnCycle(pm, x)
  {
    if OnCycle(pm, x) {
      var l: nat :| AtLevel(pm, x, l);
      var n: nat :| n >= 1 && Up(pm, x, n) == Some(x);
      UpSplit(pm, x, n, l - 1);
      LevelUnique(pm, x, l, n + l);
    }
  }

  /** Without a cycle, a walk up never repeats an id, so it ends. */
  lemma {:induction false} AcyclicRooted(tasks: seq<Task>, x: string, seen: set<string>)
    requires x in Ids(tasks) && forall y :: y in Ids(tasks) ==> !OnCycle(Inner(tasks), y)
    requires forall y :: y in seen ==> StrictlyAbove(Inner(tasks), x, y)
    ensures Rooted(Inner(tasks), x)
    decreases Ids(tasks) - seen
  {
    var pm := Inner(tasks);
    RootLevel(pm, x);
    if x in pm {
      assert x !in seen;
      forall y | y in seen + {x} ensures StrictlyAbove(pm, pm[x], y) {
        StrictlyAboveParent(pm, x, y);
      }
      AcyclicRooted(tasks, pm[x], seen + {x});
      var l: nat :| AtLevel(pm, pm[x], l);
      ChildLevel(pm, x, l);
    }
  }

  /** Kept and hidden tasks are all the tasks exactly when no parent cycle runs inside the set. */
  lemma NothingLostIffAcyclic(tasks: seq<Task>)
    requires DistinctIds(tasks)
    ensures |RootedIds(tasks)| == |tasks| <==> forall x :: x in Ids(tasks) ==> !OnCycle(Inner(tasks), x)
  {
    KeptAll(tasks);
    KeptCount(tasks, Ids(tasks));
    assert Ids(tasks) * Ids(tasks) == Ids(tasks);
    if |RootedIds(tasks)| == |tasks| {
      SubsetSameSize(RootedIds(tasks), Ids(tasks));
      forall x | x in Ids(tasks) ensures !OnCycle(Inner(tasks), x) {
        RootedOffCycle(Inner(tasks), x);
      }
    }
    if forall x :: x in Ids(tasks) ==> !OnCycle(Inner(tasks), x) {
      forall x | x in Ids(tasks) ensures x in RootedIds(tasks) {
        AcyclicRooted(tasks, x, {});
      }
      assert RootedIds(tasks) == Ids(tasks);
    }
  }

  lemma {:induction false} KeptAll(tasks: seq<Task>)
    ensures forall s :: Ids(tasks) <= s ==> Kept(tasks, s) == tasks
  {
    if tasks != [] {
      var (init, t) := (tasks[..|tasks| - 1], tasks[|tasks| - 1]);
      KeptAll(init);
      assert tasks == init + [t];
    }
  }

  lemma {:induction false} SubsetSameSize(a: set<string>, b: set<string>)
    requires a <= b && |a| == |b|
    ensures a == b
  {
    if x :| x in b && x !in a {
      assert a <= b - {x};
      SubsetSmaller(a, b - {x});
    }
  }
}
