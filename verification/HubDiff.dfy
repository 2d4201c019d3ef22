/**
 * Which paths a task changed itself, once the commits that accepted its children
 * are set aside. One pass over the first-parent walk decides what to exclude and
 * another attributes commits to children.
 */
module HubDiff {
  import opened Prelude
  import opened Text

  datatype Task = Task(id: string, code: Option<string>)

  datatype Commit = Commit(sha: string, subject: string, paths: seq<string>)

  datatype Attribution = Attribution(childId: string, paths: seq<string>, attributed: bool)

  // ---- Matching a child's accept

  function ShortId(id: string): string {
    if |id| <= 8 then id else id[..8]
  }

  function DisplayId(t: Task): string {
    if t.code.Some? then t.code.value else ShortId(t.id)
  }

  function AcceptTagName(id: string): string { "lazy-accept-" + id }

  function Needle(name: string): string { "Accept task " + name + ":" }

  /** The subjects by which an untagged accept is recognised: never a third, as what is displayed is the code or the short id. */
  function AcceptSubjectNeedles(child: Task): (needles: seq<string>)
    ensures 1 <= |needles| <= 2
    ensures |needles| == 2 <==> child.code.Some? && child.code.value != ""
  {
    var needles := [Needle(ShortId(child.id))];
    var withCode := if child.code.Some? && child.code.value != "" then needles + [Needle(child.code.value)] else needles;
    var shown := DisplayId(child);
    if shown != ShortId(child.id) && Some(shown) != child.code then withCode + [Needle(shown)] else withCode
  }

  predicate SubjectMatches(child: Task, c: Commit) {
    exists k :: 0 <= k < |AcceptSubjectNeedles(child)| && Contains(c.subject, AcceptSubjectNeedles(child)[k])
  }

  /** The commit the child's accept tag names; empty when there is no tag. */
  function Tagged(child: Task, tags: map<string, string>): string {
    var name := AcceptTagName(child.id);
    if name in tags then tags[name] else ""
  }

  /** The child's accept is this commit: its tag says so or, without a tag, the subject does. */
  predicate Claims(child: Task, tags: map<string, string>, c: Commit) {
    if Tagged(child, tags) != "" then c.sha == Tagged(child, tags) else SubjectMatches(child, c)
  }

  // ---- The two passes

  method ExcludeAcceptedChildShas(accepted: seq<Task>, tags: map<string, string>, walk: seq<Commit>)
    returns (exclude: set<string>)
    ensures ExcludesAll(accepted, tags, walk, exclude)
  {
    exclude := {};
    for k := 0 to |accepted|
      invariant forall sha :: sha in exclude <==> exists j :: 0 <= j < k && Excludes(accepted[j], tags, walk, sha)
    {
      ghost var was := exclude;
      exclude := ExcludeOne(accepted[k], tags, walk, exclude);
    }
  }

  /** The excluded set is what the children put in it, each by its tag or by its commits' subjects. */
  ghost predicate ExcludesAll(accepted: seq<Task>, tags: map<string, string>, walk: seq<Commit>, exclude: set<string>) {
    forall sha :: sha in exclude <==> exists k :: 0 <= k < |accepted| && Excludes(accepted[k], tags, walk, sha)
  }

  /** What one child puts in the excluded set: its tag, even outside the walk, or its matching commits. */
  ghost predicate Excludes(child: Task, tags: map<string, string>, walk: seq<Commit>, sha: string) {
    if Tagged(child, tags) != "" then sha == Tagged(child, tags)
    else exists i :: 0 <= i < |walk| && walk[i].sha == sha && SubjectMatches(child, walk[i])
  }

  method ExcludeOne(child: Task, tags: map<string, string>, walk: seq<Commit>, was: set<string>)
    returns (exclude: set<string>)
    ensures forall sha :: sha in exclude <==> sha in was || Excludes(child, tags, walk, sha)
  {
    exclude := was;
    if Tagged(child, tags) != "" {
      return exclude + {Tagged(child, tags)};
    }
    for i := 0 to |walk|
      invariant forall sha :: sha in exclude <==>
        sha in was || exists j :: 0 <= j < i && walk[j].sha == sha && SubjectMatches(child, walk[j])
    {
      if SubjectMatches(child, walk[i]) {
        exclude := exclude + {walk[i].sha};
      }
    }
  }

  function ClaimedBy(child: Task, tags: map<string, string>, walk: seq<Commit>): seq<Commit> {
    if walk == [] then []
    else
      var c := walk[|walk| - 1];
      ClaimedBy(child, tags, walk[..|walk| - 1]) + if Claims(child, tags, c) then [c] else []
  }

  /** The paths of some commits, in order of first occurrence. */
  function PathsOf(cs: seq<Commit>): seq<string> {
    if cs == [] then [] else PathsOf(cs[..|cs| - 1]) + cs[|cs| - 1].paths
  }

  /** `for (const p of more) paths.add(p)` */
  method AddAll(paths: seq<string>, ghost so: seq<string>, more: seq<string>) returns (all: seq<string>)
    requires paths == Distinct(so)
    ensures all == Distinct(so + more)
  {
    all := paths;
    assert so + more[..0] == so;
    for i := 0 to |more|
      invariant all == Distinct(so + more[..i])
    {
      assert so + more[..i + 1] == so + more[..i] + [more[i]];
      DistinctAppend(so + more[..i], more[i]);
      all := Added(all, more[i]);
    }
    assert more[..|more|] == more;
  }

  method CollectPaths(commits: seq<Commit>) returns (paths: seq<string>)
    ensures paths == Distinct(PathsOf(commits))
  {
    paths := [];
    for i := 0 to |commits|
      invariant paths == Distinct(PathsOf(commits[..i]))
    {
      assert commits[..i + 1][..i] == commits[..i];
      paths := AddAll(paths, PathsOf(commits[..i]), commits[i].paths);
    }
    assert commits[..|commits|] == commits;
  }

  method AttributeChild(child: Task, tags: map<string, string>, walk: seq<Commit>) returns (a: Attribution)
    ensures a == Attribution(child.id, Distinct(PathsOf(ClaimedBy(child, tags, walk))), ClaimedBy(child, tags, walk) != [])
  {
    var commits := ClaimedBy(child, tags, walk);
    var paths := CollectPaths(commits);
    a := Attribution(child.id, paths, commits != []);
  }

  function Remaining(walk: seq<Commit>, exclude: set<string>): seq<Commit> {
    if walk == [] then []
    else
      var c := walk[|walk| - 1];
      Remaining(walk[..|walk| - 1], exclude) + if c.sha in exclude then [] else [c]
  }

  lemma RemainingStep(walk: seq<Commit>, exclude: set<string>, i: nat)
    requires i < |walk|
    ensures var rest := Remaining(walk[..i], exclude);
      PathsOf(Remaining(walk[..i + 1], exclude)) ==
        if walk[i].sha in exclude then PathsOf(rest) else PathsOf(rest) + walk[i].paths
  {
    var rest := Remaining(walk[..i], exclude);
    assert walk[..i + 1][..i] == walk[..i];
    if walk[i].sha in exclude {
      assert rest + [] == rest;
    } else {
      assert (rest + [walk[i]])[..|rest|] == rest;
    }
  }

  /** The paths the task changed itself: those of the commits left, then the uncommitted ones. */
  method DirectPaths(walk: seq<Commit>, exclude: set<string>, dirty: seq<string>) returns (paths: seq<string>)
    ensures paths == Distinct(PathsOf(Remaining(walk, exclude)) + dirty)
  {
    paths := [];
    for i := 0 to |walk|
      invariant paths == Distinct(PathsOf(Remaining(walk[..i], exclude)))
    {
      assert walk[..i + 1][..i] == walk[..i];
      ghost var rest := Remaining(walk[..i], exclude);
      RemainingStep(walk, exclude, i);
      if walk[i].sha !in exclude {
        paths := AddAll(paths, PathsOf(rest), walk[i].paths);
      }
    }
    assert walk[..|walk|] == walk;
    paths := AddAll(paths, PathsOf(Remaining(walk, exclude)), dirty);
  }

  datatype Plan = Plan(paths: seq<string>, attributions: seq<Attribution>)

  /** The direct part of a task's diff plan. `None`: the diff is not restricted. */
  method ResolveTaskDirectDiff(directOnly: bool, accepted: seq<Task>, tags: map<string, string>, walk: seq<Commit>,
                               dirty: seq<string>) returns (plan: Option<Plan>)
    ensures plan.None? <==> !directOnly || accepted == []
    ensures plan.Some? ==> IsPlan(accepted, tags, walk, dirty, plan.value)
  {
    if !directOnly || accepted == [] {
      return None;
    }
    var exclude := ExcludeAcceptedChildShas(accepted, tags, walk);
    var attributions := [];
    for k := 0 to |accepted|
      invariant |attributions| == k
      invariant forall j :: 0 <= j < k ==> AttributionOf(accepted[j], tags, walk, attributions[j])
    {
      var a := AttributeChild(accepted[k], tags, walk);
      attributions := attributions + [a];
    }
    var paths := DirectPaths(walk, exclude, dirty);
    plan := Some(Plan(paths, attributions));
    PlanPaths(accepted, tags, walk, dirty, exclude);
  }

  ghost predicate AttributionOf(child: Task, tags: map<string, string>, walk: seq<Commit>, a: Attribution) {
    a == Attribution(child.id, Distinct(PathsOf(ClaimedBy(child, tags, walk))), ClaimedBy(child, tags, walk) != [])
  }

  /** Some accepted child claims a commit with this sha. */
  ghost predicate ClaimedSha(accepted: seq<Task>, tags: map<string, string>, walk: seq<Commit>, sha: string) {
    exists k, i :: 0 <= k < |accepted| && 0 <= i < |walk| && walk[i].sha == sha && Claims(accepted[k], tags, walk[i])
  }

  /** The commits no child claims. */
  ghost function Unclaimed(accepted: seq<Task>, tags: map<string, string>, all: seq<Commit>, walk: seq<Commit>): seq<Commit> {
    if walk == [] then []
    else
      var c := walk[|walk| - 1];
      Unclaimed(accepted, tags, all, walk[..|walk| - 1]) + if ClaimedSha(accepted, tags, all, c.sha) then [] else [c]
  }

  /** The plan, told without the excluded set: direct paths are those of the unclaimed commits. */
  ghost predicate IsPlan(accepted: seq<Task>, tags: map<string, string>, walk: seq<Commit>, dirty: seq<string>, plan: Plan) {
    && plan.paths == Distinct(PathsOf(Unclaimed(accepted, tags, walk, walk)) + dirty)
    && |plan.attributions| == |accepted|
    && forall k :: 0 <= k < |accepted| ==> AttributionOf(accepted[k], tags, walk, plan.attributions[k])
  }

  /** A walked commit is excluded exactly when some child's attribution claims it. */
  lemma ExcludedIffClaimed(accepted: seq<Task>, tags: map<string, string>, walk: seq<Commit>, exclude: set<string>, i: nat)
    requires i < |walk|
    requires ExcludesAll(accepted, tags, walk, exclude)
    ensures walk[i].sha in exclude <==> ClaimedSha(accepted, tags, walk, walk[i].sha)
  {
    if walk[i].sha in exclude {
      var k :| 0 <= k < |accepted| && Excludes(accepted[k], tags, walk, walk[i].sha);
      if Tagged(accepted[k], tags) != "" {
        assert Claims(accepted[k], tags, walk[i]);
      } else {
        var j :| 0 <= j < |walk| && walk[j].sha == walk[i].sha && SubjectMatches(accepted[k], walk[j]);
        assert Claims(accepted[k], tags, walk[j]);
      }
    }
    if ClaimedSha(accepted, tags, walk, walk[i].sha) {
      var k, j :| 0 <= k < |accepted| && 0 <= j < |walk| && walk[j].sha == walk[i].sha && Claims(accepted[k], tags, walk[j]);
      assert Excludes(accepted[k], tags, walk, walk[i].sha);
    }
  }

  lemma {:induction false} RemainingIsUnclaimed(accepted: seq<Task>, tags: map<string, string>, walk: seq<Commit>,
                                                exclude: set<string>, n: nat)
    requires n <= |walk|
    requires ExcludesAll(accepted, tags, walk, exclude)
    ensures Remaining(walk[..n], exclude) == Unclaimed(accepted, tags, walk, walk[..n])
  {
    if n > 0 {
      hide ClaimedSha, ExcludesAll, Remaining, Unclaimed;
      ExcludedIffClaimed(accepted, tags, walk, exclude, n - 1);
      RemainingIsUnclaimed(accepted, tags, walk, exclude, n - 1);
      RemainingLast(accepted, tags, walk, exclude, n - 1);
    } else {
      assert walk[..n] == [];
    }
  }

  lemma RemainingLast(accepted: seq<Task>, tags: map<string, string>, walk: seq<Commit>, exclude: set<string>, i: nat)
    requires i < |walk|
    ensures Remaining(walk[..i + 1], exclude) == Remaining(walk[..i], exclude) + if walk[i].sha in exclude then [] else [walk[i]]
    ensures Unclaimed(accepted, tags, walk, walk[..i + 1]) ==
            Unclaimed(accepted, tags, walk, walk[..i]) + if ClaimedSha(accepted, tags, walk, walk[i].sha) then [] else [walk[i]]
  {
    PrefixStep(walk, i);
  }

  lemma PlanPaths(accepted: seq<Task>, tags: map<string, string>, walk: seq<Commit>, dirty: seq<string>, exclude: set<string>)
    requires ExcludesAll(accepted, tags, walk, exclude)
    ensures Remaining(walk, exclude) == Unclaimed(accepted, tags, walk, walk)
  {
    RemainingIsUnclaimed(accepted, tags, walk, exclude, |walk|);
    assert walk[..|walk|] == walk;
  }

  // ---- Nothing is lost between the two passes

  ghost predicate DistinctShas(walk: seq<Commit>) {
    forall i, j :: 0 <= i < j < |walk| ==> walk[i].sha != walk[j].sha
  }

  predicate Touches(cs: seq<Commit>, p: string) {
    exists i :: 0 <= i < |cs| && p in cs[i].paths
  }

  lemma {:induction false} PathsTouched(cs: seq<Commit>, p: string)
    ensures p in Distinct(PathsOf(cs)) <==> Touches(cs, p)
  {
    DistinctMembers(PathsOf(cs));
    if cs != [] {
      var init := cs[..|cs| - 1];
      PathsTouched(init, p);
      DistinctMembers(PathsOf(init));
      if Touches(init, p) {
        var i :| 0 <= i < |init| && p in init[i].paths;
        assert p in cs[i].paths;
      }
      if Touches(cs, p) && p !in cs[|cs| - 1].paths {
        var i :| 0 <= i < |cs| && p in cs[i].paths;
        assert p in init[i].paths;
      }
    }
  }

  lemma {:induction false} ClaimedMembers(child: Task, tags: map<string, string>, walk: seq<Commit>, c: Commit)
    ensures c in ClaimedBy(child, tags, walk) <==> c in walk && Claims(child, tags, c)
  {
    if walk != [] {
      ClaimedMembers(child, tags, walk[..|walk| - 1], c);
      assert walk == walk[..|walk| - 1] + [walk[|walk| - 1]];
    }
  }

  lemma {:induction false} UnclaimedMembers(accepted: seq<Task>, tags: map<string, string>, all: seq<Commit>,
                                            walk: seq<Commit>, c: Commit)
    ensures c in Unclaimed(accepted, tags, all, walk) <==> c in walk && !ClaimedSha(accepted, tags, all, c.sha)
  {
    if walk != [] {
      UnclaimedMembers(accepted, tags, all, walk[..|walk| - 1], c);
      assert walk == walk[..|walk| - 1] + [walk[|walk| - 1]];
    }
  }

  /** A child's attribution lists a path exactly when a commit it claims touched it. */
  lemma AttributedIff(child: Task, tags: map<string, string>, walk: seq<Commit>, a: Attribution, p: string)
    requires AttributionOf(child, tags, walk, a)
    ensures p in a.paths <==> exists i :: 0 <= i < |walk| && Claims(child, tags, walk[i]) && p in walk[i].paths
    ensures a.attributed <==> exists i :: 0 <= i < |walk| && Claims(child, tags, walk[i])
  {
    var cs := ClaimedBy(child, tags, walk);
    hide Claims, Distinct, PathsOf;
    PathsTouched(cs, p);
    forall c ensures c in cs <==> c in walk && Claims(child, tags, c) {
      ClaimedMembers(child, tags, walk, c);
    }
    hide ClaimedBy;
    TouchedBy(child, tags, walk, cs, p);
    if cs != [] {
      assert cs[0] in cs;
    }
  }

  lemma TouchedBy(child: Task, tags: map<string, string>, walk: seq<Commit>, cs: seq<Commit>, p: string)
    requires forall c :: c in cs <==> c in walk && Claims(child, tags, c)
    ensures Touches(cs, p) <==> exists i :: 0 <= i < |walk| && Claims(child, tags, walk[i]) && p in walk[i].paths
  {
    hide Claims;
    if Touches(cs, p) {
      var j :| 0 <= j < |cs| && p in cs[j].paths;
      assert cs[j] in cs;
      var i :| 0 <= i < |walk| && walk[i] == cs[j];
    }
    if i :| 0 <= i < |walk| && Claims(child, tags, walk[i]) && p in walk[i].paths {
      assert walk[i] in cs;
      var j :| 0 <= j < |cs| && cs[j] == walk[i];
    }
  }

  /** No accepted child claims the commit. */
  ghost predicate Own(accepted: seq<Task>, tags: map<string, string>, c: Commit) {
    forall k :: 0 <= k < |accepted| ==> !Claims(accepted[k], tags, c)
  }

  /** A path is direct exactly when it is uncommitted or a commit no child claims touched it. */
  lemma DirectIff(accepted: seq<Task>, tags: map<string, string>, walk: seq<Commit>, dirty: seq<string>, plan: Plan, p: string)
    requires IsPlan(accepted, tags, walk, dirty, plan) && DistinctShas(walk)
    ensures p in plan.paths <==> (p in dirty || exists i :: 0 <= i < |walk| && p in walk[i].paths && Own(accepted, tags, walk[i]))
  {
    var cs := Unclaimed(accepted, tags, walk, walk);
    DistinctMembers(PathsOf(cs) + dirty);
    DistinctMembers(PathsOf(cs));
    PathsTouched(cs, p);
    forall i | 0 <= i < |walk|
      ensures walk[i] in cs <==> Own(accepted, tags, walk[i])
    {
      UnclaimedMembers(accepted, tags, walk, walk, walk[i]);
      ClaimedOne(accepted, tags, walk, i);
    }
    if Touches(cs, p) {
      var j :| 0 <= j < |cs| && p in cs[j].paths;
      UnclaimedMembers(accepted, tags, walk, walk, cs[j]);
      var i :| 0 <= i < |walk| && walk[i] == cs[j];
    }
    if i :| 0 <= i < |walk| && p in walk[i].paths && walk[i] in cs {
      var j :| 0 <= j < |cs| && cs[j] == walk[i];
    }
  }

  lemma ClaimedOne(accepted: seq<Task>, tags: map<string, string>, walk: seq<Commit>, i: nat)
    requires DistinctShas(walk) && i < |walk|
    ensures ClaimedSha(accepted, tags, walk, walk[i].sha) <==>
            exists k :: 0 <= k < |accepted| && Claims(accepted[k], tags, walk[i])
  {
    if k :| 0 <= k < |accepted| && Claims(accepted[k], tags, walk[i]) {
      assert walk[i].sha == walk[i].sha;
    }
  }

  /** Direct paths and attributed paths together cover every path of every walked commit. */
  lemma NoPathLost(accepted: seq<Task>, tags: map<string, string>, walk: seq<Commit>, dirty: seq<string>, plan: Plan,
                   i: nat, p: string)
    requires IsPlan(accepted, tags, walk, dirty, plan) && DistinctShas(walk)
    requires i < |walk| && p in walk[i].paths
    ensures p in plan.paths || exists k :: 0 <= k < |accepted| && p in plan.attributions[k].paths
  {
    DirectIff(accepted, tags, walk, dirty, plan, p);
    if k :| 0 <= k < |accepted| && Claims(accepted[k], tags, walk[i]) {
      AttributedIff(accepted[k], tags, walk, plan.attributions[k], p);
    }
  }

  /** A child that nothing could be attributed to excludes nothing: every path its commit touched stays direct. */
  lemma UnattributedHidesNothing(accepted: seq<Task>, tags: map<string, string>, walk: seq<Commit>, dirty: seq<string>,
                                 plan: Plan, k: nat, plan': Plan)
    requires k < |accepted| && IsPlan(accepted, tags, walk, dirty, plan)
    requires !plan.attributions[k].attributed
    requires IsPlan(accepted[..k] + accepted[k + 1..], tags, walk, dirty, plan')
    ensures plan'.paths == plan.paths
  {
    var others := accepted[..k] + accepted[k + 1..];
    UnattributedIdle(accepted[k], tags, walk, plan.attributions[k]);
    forall sha ensures ClaimedSha(accepted, tags, walk, sha) <==> ClaimedSha(others, tags, walk, sha) {
      DropIdle(accepted, tags, walk, k, sha);
    }
    SameUnclaimed(accepted, others, tags, walk, walk);
  }

  lemma UnattributedIdle(child: Task, tags: map<string, string>, walk: seq<Commit>, a: Attribution)
    requires AttributionOf(child, tags, walk, a) && !a.attributed
    ensures Idle(child, tags, walk)
  {
    AttributedIff(child, tags, walk, a, "");
  }

  lemma DropIdle(accepted: seq<Task>, tags: map<string, string>, walk: seq<Commit>, k: nat, sha: string)
    requires k < |accepted| && Idle(accepted[k], tags, walk)
    ensures ClaimedSha(accepted, tags, walk, sha) <==> ClaimedSha(accepted[..k] + accepted[k + 1..], tags, walk, sha)
  {
    var others := accepted[..k] + accepted[k + 1..];
    assert accepted == accepted[..k] + [accepted[k]] + accepted[k + 1..];
    CarryClaims(accepted, others, tags, walk, sha);
    CarryClaims(others, accepted, tags, walk, sha);
  }

  /** The child claims no walked commit. */
  ghost predicate Idle(child: Task, tags: map<string, string>, walk: seq<Commit>) {
    forall i :: 0 <= i < |walk| ==> !Claims(child, tags, walk[i])
  }

  lemma CarryClaims(a: seq<Task>, b: seq<Task>, tags: map<string, string>, walk: seq<Commit>, sha: string)
    requires forall t :: t in a ==> t in b || Idle(t, tags, walk)
    ensures ClaimedSha(a, tags, walk, sha) ==> ClaimedSha(b, tags, walk, sha)
  {
    if ClaimedSha(a, tags, walk, sha) {
      var j, i :| 0 <= j < |a| && 0 <= i < |walk| && walk[i].sha == sha && Claims(a[j], tags, walk[i]);
      assert a[j] in b;
      var m :| 0 <= m < |b| && b[m] == a[j];
    }
  }

  lemma {:induction false} SameUnclaimed(a: seq<Task>, b: seq<Task>, tags: map<string, string>, all: seq<Commit>, walk: seq<Commit>)
    requires forall sha :: ClaimedSha(a, tags, all, sha) <==> ClaimedSha(b, tags, all, sha)
    ensures Unclaimed(a, tags, all, walk) == Unclaimed(b, tags, all, walk)
  {
    if walk != [] {
      SameUnclaimed(a, b, tags, all, walk[..|walk| - 1]);
    }
  }

  // ---- What is claimed and what is listed, without the passes

  /** The subject names the task in the way an accept does. */
  predicate AcceptedIn(subject: string, name: string) {
    Contains(subject, "Accept task " + name + ":")
  }

  /**
   * The accept tag decides if there is one; without it a subject does that names
   * the first eight characters of the id, or the code if there is one.
   */
  lemma ClaimsIff(child: Task, tags: map<string, string>, c: Commit)
    ensures var tag := "lazy-accept-" + child.id;
      Claims(child, tags, c) <==>
        if tag in tags && tags[tag] != "" then c.sha == tags[tag]
        else (AcceptedIn(c.subject, child.id[..Least(8, |child.id|)]) ||
              (OrEmpty(child.code) != "" && AcceptedIn(c.subject, child.code.value)))
  {
    var needles := AcceptSubjectNeedles(child);
    assert child.id[..|child.id|] == child.id;
    assert needles[0] == Needle(ShortId(child.id));
    if OrEmpty(child.code) != "" {
      assert needles[1] == Needle(child.code.value);
    }
  }

  function Least(a: nat, b: nat): nat { if a < b then a else b }

  lemma {:induction false} ClaimedPicks(child: Task, tags: map<string, string>, walk: seq<Commit>)
    ensures Picks(walk, (set i: nat | i < |walk| && Claims(child, tags, walk[i])), ClaimedBy(child, tags, walk))
  {
    var keep := set i: nat | i < |walk| && Claims(child, tags, walk[i]);
    if walk == [] {
      assert keep == {};
      PicksNone(walk);
    } else {
      var (init, c) := (walk[..|walk| - 1], walk[|walk| - 1]);
      ClaimedPicks(child, tags, init);
      hide Picks, Claims;
      PicksStep(walk, keep, (set i: nat | i < |init| && Claims(child, tags, init[i])), ClaimedBy(child, tags, init), Claims(child, tags, c));
      assert ClaimedBy(child, tags, init) + [] == ClaimedBy(child, tags, init);
    }
  }

  ghost function UnclaimedAt(accepted: seq<Task>, tags: map<string, string>, all: seq<Commit>, walk: seq<Commit>): set<nat> {
    set i: nat | i < |walk| && !ClaimedSha(accepted, tags, all, walk[i].sha)
  }

  lemma {:induction false} UnclaimedPicks(accepted: seq<Task>, tags: map<string, string>, all: seq<Commit>, walk: seq<Commit>)
    ensures Picks(walk, UnclaimedAt(accepted, tags, all, walk), Unclaimed(accepted, tags, all, walk))
  {
    if walk == [] {
      assert UnclaimedAt(accepted, tags, all, walk) == {};
      PicksNone(walk);
    } else {
      var (init, c) := (walk[..|walk| - 1], walk[|walk| - 1]);
      UnclaimedPicks(accepted, tags, all, init);
      hide Picks, ClaimedSha;
      var rest := Unclaimed(accepted, tags, all, init);
      PicksStep(walk, UnclaimedAt(accepted, tags, all, walk), UnclaimedAt(accepted, tags, all, init), rest,
        !ClaimedSha(accepted, tags, all, c.sha));
      assert rest + [] == rest;
    }
  }

  /** The paths of some commits are those of the first of them, then those of the others. */
  lemma {:induction false} PathsAppend(a: seq<Commit>, b: seq<Commit>)
    ensures PathsOf(a + b) == PathsOf(a) + PathsOf(b)
    ensures |b| == 1 ==> PathsOf(b) == b[0].paths
  {
    if b == [] {
      assert a + b == a;
    } else {
      InitOfAppend(a, b);
      PathsAppend(a, b[..|b| - 1]);
      Associates(PathsOf(a), PathsOf(b[..|b| - 1]), b[|b| - 1].paths);
      assert |b| == 1 ==> PathsOf(b[..|b| - 1]) == [];
    }
  }

  /**
   * A plan lists its paths in the order the walk, and then the worktree, first
   * names them; `own` are the unclaimed commits in the order of the walk.
   */
  lemma DirectInOrder(accepted: seq<Task>, tags: map<string, string>, walk: seq<Commit>, dirty: seq<string>, plan: Plan)
    returns (own: seq<Commit>)
    requires IsPlan(accepted, tags, walk, dirty, plan)
    ensures Picks(walk, UnclaimedAt(accepted, tags, walk, walk), own)
    ensures Picks(PathsOf(own) + dirty, FirstAt(PathsOf(own) + dirty), plan.paths)
  {
    own := Unclaimed(accepted, tags, walk, walk);
    UnclaimedPicks(accepted, tags, walk, walk);
    DistinctPicks(PathsOf(own) + dirty);
  }

  /** An attribution does so for the commits its child claims. */
  lemma AttributedInOrder(child: Task, tags: map<string, string>, walk: seq<Commit>, a: Attribution) returns (claimed: seq<Commit>)
    requires AttributionOf(child, tags, walk, a)
    ensures a.childId == child.id
    ensures Picks(walk, (set i: nat | i < |walk| && Claims(child, tags, walk[i])), claimed)
    ensures Picks(PathsOf(claimed), FirstAt(PathsOf(claimed)), a.paths)
  {
    claimed := ClaimedBy(child, tags, walk);
    ClaimedPicks(child, tags, walk);
    DistinctPicks(PathsOf(claimed));
  }
}
