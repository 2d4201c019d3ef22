/**
 * What the Builders of a set of segments are: the classes of a partition by
 * connectedness, each named by its earliest segment, newest first, and stable
 * while the set grows.
 */
module StitchTheorems {
  import opened Prelude
  import opened Lineage
  import opened Segments
  import opened Stitching

  // ---- Members and heads

  lemma {:induction false} SelectAscending(c: Collation, S: set<SegmentInput>, s: SegmentInput, xs: seq<SegmentInput>)
    requires Ascending(c, xs)
    ensures Ascending(c, Select(S, s, xs))
  {
    if xs != [] {
      var init := xs[..|xs| - 1];
      SelectAscending(c, S, s, init);
      SelectMembers(S, s, init);
      var r := Select(S, s, init);
      assert forall i :: 0 <= i < |r| ==> r[i] in init;
      assert forall x :: x in init ==> Before(c, x, xs[|xs| - 1]);
    }
  }

  /** The members of a Builder are its component, in ascending order. */
  lemma MembersAre(c: Collation, S: set<SegmentInput>, s: SegmentInput)
    requires Identified(c, S) && s in S
    ensures Ascending(c, Members(c, S, s))
    ensures forall t :: t in Members(c, S, s) <==> Connected(S, s, t)
  {
    var all := Ordered(c, S);
    SelectMembers(S, s, all);
    SelectAscending(c, S, s, all);
    forall t | Connected(S, s, t) ensures t in all {
      ConnectedMembers(S, s, t);
      assert t in SetOf(all);
    }
  }

  /** The earliest segment of the component of `s`. */
  ghost function HeadOf(c: Collation, S: set<SegmentInput>, s: SegmentInput): SegmentInput
    requires Identified(c, S) && s in S
  {
    Members(c, S, s)[0]
  }

  lemma HeadOfIs(c: Collation, S: set<SegmentInput>, s: SegmentInput)
    requires Identified(c, S) && s in S
    ensures var h := HeadOf(c, S, s);
      && Connected(S, s, h) && IsHead(c, S, h)
      && forall t :: Connected(S, s, t) ==> t == h || Before(c, h, t)
  {
    MembersAre(c, S, s);
    var ms := Members(c, S, s);
    assert ms[0] in ms;
    forall t | Connected(S, s, t) ensures t == ms[0] || Before(c, ms[0], t) {
      var k :| 0 <= k < |ms| && ms[k] == t;
    }
    ConnectedMembers(S, s, ms[0]);
    forall t | Connected(S, ms[0], t) ensures !Before(c, t, ms[0]) {
      ConnectedTransitive(S, s, ms[0], t);
    }
  }

  /** A component has one head. */
  lemma HeadUnique(c: Collation, S: set<SegmentInput>, g: SegmentInput, h: SegmentInput)
    requires Identified(c, S) && IsHead(c, S, g) && IsHead(c, S, h) && Connected(S, g, h)
    ensures g == h
  {
    ConnectedSymmetric(S, g, h);
    assert !Before(c, h, g) && !Before(c, g, h);
  }

  /** A head's members start with the head itself. */
  lemma HeadFirst(c: Collation, S: set<SegmentInput>, h: SegmentInput)
    requires Identified(c, S) && IsHead(c, S, h)
    ensures HeadOf(c, S, h) == h
  {
    HeadOfIs(c, S, h);
    HeadUnique(c, S, h, HeadOf(c, S, h));
  }

  // ---- The order of the list of Builders

  /** The Builder headed by `a` is listed before the one headed by `b`. */
  predicate Newer(c: Collation, a: SegmentInput, b: SegmentInput) {
    var (ra, rb) := (c.locale(OrEmpty(a.startedAt)), c.locale(OrEmpty(b.startedAt)));
    ra > rb || (ra == rb && Before(c, a, b))
  }

  ghost predicate NewestFirst(c: Collation, hs: seq<SegmentInput>) {
    forall i, j :: 0 <= i < j < |hs| ==> Newer(c, hs[i], hs[j])
  }

  /** The stable sort of the Builders, seen on their heads. */
  ghost function SortHeads(c: Collation, hs: seq<SegmentInput>): seq<SegmentInput> {
    if hs == [] then [] else InsertHead(c, hs[0], SortHeads(c, hs[1..]))
  }

  ghost function InsertHead(c: Collation, x: SegmentInput, hs: seq<SegmentInput>): (r: seq<SegmentInput>)
    ensures forall h :: h in r <==> h == x || h in hs
  {
    if hs == [] then [x]
    else if c.locale(OrEmpty(hs[0].startedAt)) > c.locale(OrEmpty(x.startedAt)) then [hs[0]] + InsertHead(c, x, hs[1..])
    else [x] + hs
  }

  lemma {:induction false} InsertHeadSorts(c: Collation, x: SegmentInput, hs: seq<SegmentInput>)
    requires NewestFirst(c, hs) && forall h :: h in hs ==> Before(c, x, h)
    ensures NewestFirst(c, InsertHead(c, x, hs))
  {
    if hs != [] && c.locale(OrEmpty(hs[0].startedAt)) > c.locale(OrEmpty(x.startedAt)) {
      InsertHeadSorts(c, x, hs[1..]);
      var r := InsertHead(c, x, hs[1..]);
      forall j | 0 <= j < |r| ensures Newer(c, hs[0], r[j]) {
        assert r[j] in r;
      }
    } else if hs != [] {
      forall j | 0 <= j < |hs| ensures Newer(c, x, hs[j]) {
        assert hs[j] in hs && hs[0] in hs;
        assert j > 0 ==> Newer(c, hs[0], hs[j]);
      }
    }
  }

  lemma {:induction false} SortHeadsSorts(c: Collation, hs: seq<SegmentInput>)
    requires Ascending(c, hs)
    ensures NewestFirst(c, SortHeads(c, hs))
    ensures forall h :: h in SortHeads(c, hs) <==> h in hs
  {
    if hs != [] {
      SortHeadsSorts(c, hs[1..]);
      assert forall h :: h in hs[1..] ==> Before(c, hs[0], h);
      InsertHeadSorts(c, hs[0], SortHeads(c, hs[1..]));
      assert hs == [hs[0]] + hs[1..];
    }
  }

  ghost predicate AllHeads(c: Collation, S: set<SegmentInput>, hs: seq<SegmentInput>) {
    forall h :: h in hs ==> h in S && IsHead(c, S, h)
  }

  lemma BuilderStart(c: Collation, S: set<SegmentInput>, h: SegmentInput)
    requires Identified(c, S) && IsHead(c, S, h)
    ensures BuilderAt(c, S, h) == BuilderOf(c, Members(c, S, h))
    ensures BuilderAt(c, S, h).startedAt == h.startedAt
  {
    HeadFirst(c, S, h);
  }

  lemma {:induction false} InsertCommutes(c: Collation, S: set<SegmentInput>, x: SegmentInput, hs: seq<SegmentInput>)
    requires Identified(c, S) && IsHead(c, S, x) && AllHeads(c, S, hs)
    ensures AllHeads(c, S, InsertHead(c, x, hs))
    ensures InsertNewest(c, BuilderAt(c, S, x), BuildersFor(c, S, hs)) == BuildersFor(c, S, InsertHead(c, x, hs))
  {
    BuilderStart(c, S, x);
    BuildersForCons(c, S, x, hs);
    if hs == [] {
      assert [x] + hs == [x];
    } else {
      var (first, rest) := (hs[0], hs[1..]);
      assert hs == [first] + rest && first in hs;
      BuilderStart(c, S, first);
      BuildersForCons(c, S, first, rest);
      InsertCommutes(c, S, x, rest);
      BuildersForCons(c, S, first, InsertHead(c, x, rest));
    }
  }

  lemma {:induction false} SortCommutes(c: Collation, S: set<SegmentInput>, hs: seq<SegmentInput>)
    requires Identified(c, S) && AllHeads(c, S, hs)
    ensures AllHeads(c, S, SortHeads(c, hs))
    ensures SortNewest(c, BuildersFor(c, S, hs)) == BuildersFor(c, S, SortHeads(c, hs))
  {
    if hs != [] {
      var (first, rest) := (hs[0], hs[1..]);
      assert hs == [first] + rest && first in hs;
      BuildersForCons(c, S, first, rest);
      SortCommutes(c, S, rest);
      InsertCommutes(c, S, first, SortHeads(c, rest));
    }
  }

  lemma {:induction false} HeadsAscending(c: Collation, S: set<SegmentInput>, xs: seq<SegmentInput>)
    requires Ascending(c, xs)
    ensures Ascending(c, HeadsIn(c, S, xs))
  {
    if xs != [] {
      var init := xs[..|xs| - 1];
      HeadsAscending(c, S, init);
      var r := HeadsIn(c, S, init);
      assert forall i :: 0 <= i < |r| ==> r[i] in init;
      assert forall x :: x in init ==> Before(c, x, xs[|xs| - 1]);
    }
  }

  /** The heads of the Builders, in the order of the list. */
  ghost function ListedHeads(c: Collation, S: set<SegmentInput>): seq<SegmentInput>
    requires Identified(c, S)
  {
    SortHeads(c, HeadsIn(c, S, Ordered(c, S)))
  }

  /**
   * There is one Builder per head, the list is newest first, and Builders that
   * start at the same time keep the `byStart` order of their heads.
   */
  lemma StitchedListed(c: Collation, S: set<SegmentInput>)
    requires Identified(c, S)
    ensures AllHeads(c, S, ListedHeads(c, S))
    ensures forall h :: IsHead(c, S, h) ==> h in ListedHeads(c, S)
    ensures NewestFirst(c, ListedHeads(c, S))
    ensures Stitched(c, S) == BuildersFor(c, S, ListedHeads(c, S))
  {
    var all := Ordered(c, S);
    var hs := HeadsIn(c, S, all);
    forall h | IsHead(c, S, h) ensures h in hs {
      assert h in SetOf(all);
    }
    HeadsAscending(c, S, all);
    SortHeadsSorts(c, hs);
    SortCommutes(c, S, hs);
  }

  // ---- The partition

  ghost predicate InBuilder(c: Collation, S: set<SegmentInput>, i: int, s: SegmentInput)
    requires Identified(c, S)
  {
    0 <= i < |Stitched(c, S)| && s.sessionId in Stitched(c, S)[i].segments
  }

  /** A Builder's segments are the component of its head. */
  lemma BuilderSegments(c: Collation, S: set<SegmentInput>, i: nat, s: SegmentInput)
    requires Identified(c, S) && i < |Stitched(c, S)| && s in S
    ensures |ListedHeads(c, S)| == |Stitched(c, S)|
    ensures InBuilder(c, S, i, s) <==> Connected(S, ListedHeads(c, S)[i], s)
  {
    StitchedListed(c, S);
    var h := ListedHeads(c, S)[i];
    assert h in ListedHeads(c, S);
    MembersAre(c, S, h);
    var ms := Members(c, S, h);
    BuildersForAt(c, S, ListedHeads(c, S), i);
    BuilderStart(c, S, h);
    assert Stitched(c, S)[i] == BuilderOf(c, ms);
    if s.sessionId in IdsOf(ms) {
      var k :| 0 <= k < |ms| && IdsOf(ms)[k] == s.sessionId;
      assert ms[k] in ms;
      ConnectedMembers(S, h, ms[k]);
      assert ms[k] == s;
    }
    if Connected(S, h, s) {
      var k :| 0 <= k < |ms| && ms[k] == s;
      assert IdsOf(ms)[k] == s.sessionId;
    }
  }

  lemma DistinctHeads(c: Collation, hs: seq<SegmentInput>, i: int, j: int)
    requires NewestFirst(c, hs) && 0 <= i < |hs| && 0 <= j < |hs| && hs[i] == hs[j]
    ensures i == j
  {
    assert !Newer(c, hs[i], hs[j]);
  }

  /** Every segment is in exactly one Builder. */
  lemma OneBuilderEach(c: Collation, S: set<SegmentInput>, s: SegmentInput) returns (i: nat)
    requires Identified(c, S) && s in S
    ensures InBuilder(c, S, i, s)
    ensures forall j :: InBuilder(c, S, j, s) ==> j == i
    ensures |ListedHeads(c, S)| == |Stitched(c, S)| && ListedHeads(c, S)[i] == HeadOf(c, S, s)
  {
    StitchedListed(c, S);
    HeadOfIs(c, S, s);
    var hs := ListedHeads(c, S);
    assert HeadOf(c, S, s) in hs;
    i :| 0 <= i < |hs| && hs[i] == HeadOf(c, S, s);
    ConnectedSymmetric(S, s, hs[i]);
    BuilderSegments(c, S, i, s);
    forall j | InBuilder(c, S, j, s) ensures j == i {
      BuilderSegments(c, S, j, s);
      ConnectedTransitive(S, hs[j], s, hs[i]);
      assert hs[j] in hs && hs[i] in hs;
      HeadUnique(c, S, hs[j], hs[i]);
      DistinctHeads(c, hs, i, j);
    }
  }

  /** Two segments are in the same Builder exactly when a chain of links joins them. */
  lemma SameBuilderIffConnected(c: Collation, S: set<SegmentInput>, a: SegmentInput, b: SegmentInput)
    requires Identified(c, S) && a in S && b in S
    ensures (exists i :: InBuilder(c, S, i, a) && InBuilder(c, S, i, b)) <==> Connected(S, a, b)
  {
    var i := OneBuilderEach(c, S, a);
    var j := OneBuilderEach(c, S, b);
    BuilderSegments(c, S, i, a);
    BuilderSegments(c, S, i, b);
    var h := ListedHeads(c, S)[i];
    ConnectedSymmetric(S, h, a);
    if InBuilder(c, S, i, b) {
      ConnectedTransitive(S, a, h, b);
    }
    if Connected(S, a, b) {
      ConnectedTransitive(S, h, a, b);
    }
  }

  /**
   * The Builder of `s` takes its id, title and start from its `byStart`-least
   * segment, and lists its segments oldest first.
   */
  lemma BuilderNamedByFirst(c: Collation, S: set<SegmentInput>, s: SegmentInput) returns (i: nat)
    requires Identified(c, S) && s in S
    ensures InBuilder(c, S, i, s) && HeadOf(c, S, s) in S
    ensures Stitched(c, S)[i] == BuilderOf(c, Members(c, S, HeadOf(c, S, s)))
    ensures Stitched(c, S)[i].id == HeadOf(c, S, s).sessionId
    ensures Stitched(c, S)[i].title == HeadOf(c, S, s).summary
    ensures forall t :: Connected(S, s, t) ==> t == HeadOf(c, S, s) || Before(c, HeadOf(c, S, s), t)
    ensures Ascending(c, Members(c, S, HeadOf(c, S, s)))
  {
    i := OneBuilderEach(c, S, s);
    HeadOfIs(c, S, s);
    StitchedListed(c, S);
    HeadFirst(c, S, HeadOf(c, S, s));
    MembersAre(c, S, HeadOf(c, S, s));
    BuildersForAt(c, S, ListedHeads(c, S), i);
    BuilderStart(c, S, HeadOf(c, S, s));
  }

  /** By start, at the same start by end, and at the same of both by id. */
  predicate Leads(c: Collation, a: SegmentInput, b: SegmentInput) {
    && c.locale(OrEmpty(a.startedAt)) <= c.locale(OrEmpty(b.startedAt))
    && (c.locale(OrEmpty(a.startedAt)) == c.locale(OrEmpty(b.startedAt)) ==>
      && c.locale(OrEmpty(a.endedAt)) <= c.locale(OrEmpty(b.endedAt))
      && (c.locale(OrEmpty(a.endedAt)) == c.locale(OrEmpty(b.endedAt)) ==> c.locale(a.sessionId) < c.locale(b.sessionId)))
  }

  /** A Builder's id, title and start are those of the segment of its component that leads all others. */
  lemma FirstLeads(c: Collation, S: set<SegmentInput>, s: SegmentInput) returns (i: nat, h: SegmentInput)
    requires Identified(c, S) && s in S
    ensures InBuilder(c, S, i, s) && h in S && Connected(S, s, h)
    ensures forall t :: Connected(S, s, t) && t != h ==> Leads(c, h, t)
    ensures var b := Stitched(c, S)[i]; b.id == h.sessionId && b.title == h.summary && b.startedAt == h.startedAt
  {
    i := BuilderNamedByFirst(c, S, s);
    h := HeadOf(c, S, s);
    HeadOfIs(c, S, s);
    HeadFirst(c, S, h);
  }

  /** A Builder lists its segments so that each leads all after it. */
  lemma SegmentsLead(c: Collation, S: set<SegmentInput>, i: nat, k: nat, l: nat, a: SegmentInput, b: SegmentInput)
    requires Identified(c, S) && i < |Stitched(c, S)| && a in S && b in S
    requires var ids := Stitched(c, S)[i].segments; k < l < |ids| && ids[k] == a.sessionId && ids[l] == b.sessionId
    ensures Leads(c, a, b)
  {
    StitchedListed(c, S);
    var h := ListedHeads(c, S)[i];
    assert h in ListedHeads(c, S);
    var ms := Members(c, S, h);
    MembersAre(c, S, h);
    BuildersForAt(c, S, ListedHeads(c, S), i);
    BuilderStart(c, S, h);
    assert ms[k] in ms && ms[l] in ms;
    ConnectedMembers(S, h, ms[k]);
    ConnectedMembers(S, h, ms[l]);
    assert Before(c, ms[k], ms[l]);
  }

  /** The end that a segment gives: its own or, failing that, its start; the empty string is none. */
  predicate EndsAt(m: SegmentInput, e: string) {
    e != "" && (m.endedAt == Some(e) || (m.endedAt.None? && m.startedAt == Some(e)))
  }

  /** A Builder has no end only if none of its segments gives one, and has the greatest of them otherwise. */
  lemma BuilderEndsLast(c: Collation, S: set<SegmentInput>, s: SegmentInput) returns (i: nat)
    requires Identified(c, S) && s in S
    ensures InBuilder(c, S, i, s)
    ensures Stitched(c, S)[i].endedAt.None? <==> forall t, e :: Connected(S, s, t) ==> !EndsAt(t, e)
    ensures Stitched(c, S)[i].endedAt.Some? ==>
      var end := Stitched(c, S)[i].endedAt.value;
      && (exists t :: Connected(S, s, t) && EndsAt(t, end))
      && forall t, e :: Connected(S, s, t) && EndsAt(t, e) ==> c.codeUnit(e) <= c.codeUnit(end)
  {
    i := BuilderNamedByFirst(c, S, s);
    hide Stitched, LatestEnd, EndsAt, Connected, HeadOf, Members;
    var h := HeadOf(c, S, s);
    MembersOf(c, S, s, h);
    LatestOfMembers(c, Members(c, S, h));
  }

  lemma MembersOf(c: Collation, S: set<SegmentInput>, s: SegmentInput, h: SegmentInput)
    requires Identified(c, S) && s in S && h == HeadOf(c, S, s)
    ensures h in S && forall t :: t in Members(c, S, h) <==> Connected(S, s, t)
  {
    HeadOfIs(c, S, s);
    MembersAre(c, S, h);
    forall t ensures t in Members(c, S, h) <==> Connected(S, s, t) {
      SameComponent(S, s, h, t);
    }
  }

  lemma LatestOfMembers(c: Collation, ms: seq<SegmentInput>)
    ensures LatestEnd(c, ms).None? <==> forall t, e :: t in ms ==> !EndsAt(t, e)
    ensures LatestEnd(c, ms).Some? ==>
      && (exists t :: t in ms && EndsAt(t, LatestEnd(c, ms).value))
      && forall t, e :: t in ms && EndsAt(t, e) ==> c.codeUnit(e) <= c.codeUnit(LatestEnd(c, ms).value)
  {
    LatestEndIsMax(c, ms);
    forall t, e | t in ms ensures EndsAt(t, e) <==> EndOf(t) == Some(e) {
    }
    forall i | 0 <= i < |ms| ensures ms[i] in ms && (EndOf(ms[i]).None? || EndsAt(ms[i], EndOf(ms[i]).value)) {
    }
  }

  lemma SameComponent(S: set<SegmentInput>, s: SegmentInput, h: SegmentInput, t: SegmentInput)
    requires Connected(S, s, h)
    ensures Connected(S, h, t) <==> Connected(S, s, t)
  {
    ConnectedSymmetric(S, s, h);
    if Connected(S, h, t) {
      ConnectedTransitive(S, s, h, t);
    }
    if Connected(S, s, t) {
      ConnectedTransitive(S, h, s, t);
    }
  }

  /** `endedAt` is missing only if every member lacks an end, and is the latest of them otherwise. */
  lemma {:induction false} LatestEndIsMax(c: Collation, ms: seq<SegmentInput>)
    ensures LatestEnd(c, ms).None? <==> forall i :: 0 <= i < |ms| ==> EndOf(ms[i]).None?
    ensures LatestEnd(c, ms).Some? ==>
      && (exists i :: 0 <= i < |ms| && EndOf(ms[i]) == LatestEnd(c, ms))
      && forall i :: 0 <= i < |ms| && EndOf(ms[i]).Some? ==>
          c.codeUnit(EndOf(ms[i]).value) <= c.codeUnit(LatestEnd(c, ms).value)
  {
    if ms != [] {
      var init := ms[..|ms| - 1];
      LatestEndIsMax(c, init);
      assert forall i :: 0 <= i < |init| ==> ms[i] == init[i];
      var last := |ms| - 1;
      assert EndOf(ms[last]).None? || EndOf(ms[last]).Some?;
      if LatestEnd(c, init).Some? {
        var i :| 0 <= i < |init| && EndOf(init[i]) == LatestEnd(c, init);
        assert EndOf(ms[i]) == LatestEnd(c, init);
      }
    }
  }

  // ---- Independence of the input order, and growth

  /** Permuting the segments changes nothing. */
  lemma OrderIndependent(c: Collation, xs: seq<SegmentInput>, ys: seq<SegmentInput>)
    requires multiset(xs) == multiset(ys) && Identified(c, SetOf(xs)) && NoRepeats(xs)
    ensures SetOf(xs) == SetOf(ys) && NoRepeats(ys)
    ensures Stitched(c, SetOf(xs)) == Stitched(c, SetOf(ys))
  {
    forall x ensures x in xs <==> x in ys {
      assert x in xs <==> x in multiset(xs);
      assert x in ys <==> x in multiset(ys);
    }
    NoRepeatsCounts(xs);
    CountsNoRepeats(ys);
  }

  lemma {:induction false} NoRepeatsCounts(xs: seq<SegmentInput>)
    requires NoRepeats(xs)
    ensures forall x :: multiset(xs)[x] <= 1
  {
    if xs != [] {
      NoRepeatsCounts(xs[1..]);
      assert xs == [xs[0]] + xs[1..];
      assert xs[0] !in xs[1..];
      assert xs[0] !in multiset(xs[1..]);
    }
  }

  lemma CountsNoRepeats(ys: seq<SegmentInput>)
    requires forall x :: multiset(ys)[x] <= 1
    ensures NoRepeats(ys)
  {
    forall i, j | 0 <= i < j < |ys| ensures ys[i] != ys[j] {
      assert ys == ys[..j] + [ys[j]] + ys[j + 1..];
      assert ys[..j][i] in multiset(ys[..j]);
      assert multiset(ys)[ys[j]] == multiset(ys[..j])[ys[j]] + 1 + multiset(ys[j + 1..])[ys[j]];
    }
  }

  /** Adding segments never splits a Builder. */
  lemma GrowthNeverSplits(c: Collation, S: set<SegmentInput>, S': set<SegmentInput>, a: SegmentInput, b: SegmentInput,
                          i: nat) returns (j: nat)
    requires Identified(c, S') && S <= S' && a in S && b in S
    requires InBuilder(c, S, i, a) && InBuilder(c, S, i, b)
    ensures InBuilder(c, S', j, a) && InBuilder(c, S', j, b)
  {
    SameBuilderIffConnected(c, S, a, b);
    ConnectedMonotone(S, S', a, b);
    SameBuilderIffConnected(c, S', a, b);
    j := OneBuilderEach(c, S', a);
  }

  /**
   * When the added segments all sort after the existing ones, a Builder that
   * holds an old segment is named by one of the old Builders it absorbs, the
   * earliest of them; a Builder that absorbs no other keeps its id.
   */
  lemma GrowthKeepsId(c: Collation, S: set<SegmentInput>, S': set<SegmentInput>, s: SegmentInput)
    requires Identified(c, S') && S <= S' && s in S
    requires forall a, b :: a in S && b in S' - S ==> Before(c, a, b)
    ensures var h := HeadOf(c, S', s);
      && h in S && HeadOf(c, S, h) == h && Connected(S', s, h)
      && (forall t :: t in S && Connected(S', s, t) ==>
            HeadOf(c, S, t) == h || Before(c, h, HeadOf(c, S, t)))
      && ((forall t :: t in S && Connected(S', s, t) ==> Connected(S, s, t)) ==> h == HeadOf(c, S, s))
  {
    var h := HeadOf(c, S', s);
    HeadOfIs(c, S', s);
    ConnectedReflexive(S', s);
    ConnectedMembers(S', s, h);
    assert h in S by {
      assert h == s || Before(c, h, s);
      assert h !in S ==> Before(c, s, h);
    }
    forall t | t in S && Connected(S', s, t)
      ensures HeadOf(c, S, t) == h || Before(c, h, HeadOf(c, S, t))
    {
      HeadOfIs(c, S, t);
      ConnectedMonotone(S, S', t, HeadOf(c, S, t));
      ConnectedTransitive(S', s, t, HeadOf(c, S, t));
    }
    forall t | Connected(S, h, t) ensures !Before(c, t, h) {
      ConnectedMonotone(S, S', h, t);
      ConnectedTransitive(S', s, h, t);
    }
    HeadFirst(c, S, h);
    if forall t :: t in S && Connected(S', s, t) ==> Connected(S, s, t) {
      HeadOfIs(c, S, s);
      ConnectedSymmetric(S, s, HeadOf(c, S, s));
      ConnectedTransitive(S, HeadOf(c, S, s), s, h);
      HeadUnique(c, S, HeadOf(c, S, s), h);
    }
  }

  /** A growing Builder keeps its id exactly when nothing it comes to hold sorts before its head. */
  lemma IdKeptIff(c: Collation, S: set<SegmentInput>, S': set<SegmentInput>, s: SegmentInput)
    requires Identified(c, S') && S <= S' && s in S
    ensures HeadOf(c, S', s) == HeadOf(c, S, s) <==>
            forall t :: Connected(S', s, t) ==> !Before(c, t, HeadOf(c, S, s))
  {
    var (g, h) := (HeadOf(c, S', s), HeadOf(c, S, s));
    HeadOfIs(c, S, s);
    HeadOfIs(c, S', s);
    ConnectedMonotone(S, S', s, h);
    assert h == g || Before(c, g, h);
  }

  // ---- Lineage as the records give it

  predicate HasUuid(r: Raw) {
    r.Record? && r.uuid.Some? && r.uuid.value != ""
  }

  predicate IsUuidOf(r: Raw, u: string) {
    r.Record? && r.uuid == Some(u) && u != ""
  }

  /** The record names `u` as its parent, as its logical parent or as the message it was forked at. */
  predicate Names(r: Raw, u: string) {
    && r.Record?
    && (|| (u != "" && (r.parentUuid == Some(u) || r.logicalParentUuid == Some(u)))
        || (r.forkedFrom.Some? && r.forkedFrom.value.messageUuid == Some(u)))
  }

  predicate NamesSession(r: Raw, sid: string) {
    r.Record? && r.forkedFrom.Some? && r.forkedFrom.value.sessionId == Some(sid)
  }

  /** The positions from `i` on of records with a uuid. */
  function WithUuidFrom(rs: seq<Raw>, i: nat): set<nat> {
    set j: nat | i <= j < |rs| && HasUuid(rs[j])
  }

  predicate NoneBefore(rs: seq<Raw>, i: nat)
    requires i <= |rs|
  {
    forall j :: 0 <= j < i ==> !HasUuid(rs[j])
  }

  /** `u` is the first uuid of the segment, or that of one of its last `LINEAGE_TAIL` records with a uuid. */
  predicate IsAnchor(rs: seq<Raw>, u: string) {
    exists i: nat :: i < |rs| && AnchorAt(rs, u, i)
  }

  predicate AnchorAt(rs: seq<Raw>, u: string, i: nat)
    requires i < |rs|
  {
    IsUuidOf(rs[i], u) && (NoneBefore(rs, i) || |WithUuidFrom(rs, i)| <= LINEAGE_TAIL)
  }

  predicate SomeReferences(rs: seq<Raw>, u: string) {
    exists r :: r in rs && Names(r, u)
  }

  predicate SomeDefines(rs: seq<Raw>, u: string) {
    exists r :: r in rs && IsUuidOf(r, u)
  }

  predicate SomeForks(rs: seq<Raw>, sid: string) {
    exists r :: r in rs && NamesSession(r, sid)
  }

  /** Some record of `rs` names `u`, and no record of `rs`, earlier or later, is `u`. */
  predicate PointsOutTo(rs: seq<Raw>, u: string) {
    SomeReferences(rs, u) && !SomeDefines(rs, u)
  }

  /** `s` is the segment captured from `rs`. */
  ghost predicate CapturedFrom(s: SegmentInput, rs: seq<Raw>) {
    s.lineage == LineageOf(rs, Some(s.sessionId))
  }

  lemma RecordSays(r: Raw, u: string)
    ensures u in Defines(r) <==> IsUuidOf(r, u)
    ensures u in References(r) <==> Names(r, u)
    ensures u in Forks(r) <==> NamesSession(r, u)
    ensures "" !in Defines(r)
  {
  }

  lemma {:induction false} DefinedSomewhere(rs: seq<Raw>, u: string)
    ensures u in AllDefined(rs) <==> SomeDefines(rs, u)
    ensures "" !in AllDefined(rs)
  {
    hide Defines, IsUuidOf;
    if rs != [] {
      DefinedSomewhere(rs[..|rs| - 1], u);
      RecordSays(rs[|rs| - 1], u);
      InitLast(rs);
    }
  }

  lemma {:induction false} ReferencedSomewhere(rs: seq<Raw>, u: string)
    ensures u in AllReferenced(rs) <==> SomeReferences(rs, u)
  {
    hide References, Names;
    if rs != [] {
      ReferencedSomewhere(rs[..|rs| - 1], u);
      RecordSays(rs[|rs| - 1], u);
      InitLast(rs);
    }
  }

  lemma {:induction false} ForkedSomewhere(rs: seq<Raw>, sid: string)
    ensures sid in AllForks(rs) <==> SomeForks(rs, sid)
  {
    hide Forks, NamesSession;
    if rs != [] {
      ForkedSomewhere(rs[..|rs| - 1], sid);
      RecordSays(rs[|rs| - 1], sid);
      InitLast(rs);
    }
  }

  lemma FromLess(init: seq<Raw>, r: Raw, i: nat)
    requires i <= |init|
    ensures WithUuidFrom(init + [r], i) == WithUuidFrom(init, i) + if HasUuid(r) then {|init|} else {}
    ensures |init| !in WithUuidFrom(init, i)
  {
  }

  lemma LastPush(us: seq<string>, v: string, n: nat)
    ensures Last(us + [v], n) == if n == 0 then [] else Last(us, n - 1) + [v]
  {
  }

  ghost predicate AmongLast(rs: seq<Raw>, u: string, n: nat, i: nat) {
    i < |rs| && IsUuidOf(rs[i], u) && |WithUuidFrom(rs, i)| <= n
  }

  /** The last `n` uuids are those of the last `n` records with one. */
  lemma {:induction false} LastDefined(rs: seq<Raw>, u: string, n: nat)
    ensures u in Last(AllDefined(rs), n) <==> exists i: nat :: AmongLast(rs, u, n, i)
  {
    if rs != [] {
      hide AmongLast, Last;
      var (init, r) := (rs[..|rs| - 1], rs[|rs| - 1]);
      InitLast(rs);
      if HasUuid(r) {
        hide AllDefined;
        SaidPush(init, r);
        LastPush(AllDefined(init), r.uuid.value, n);
        if n > 0 {
          LastDefined(init, u, n - 1);
          ShiftedLast(init, r, u, n, n - 1);
        } else {
          forall i: nat ensures !AmongLast(rs, u, n, i) {
            NoneAmongNone(init, r, u, i);
          }
        }
      } else {
        LastDefined(init, u, n);
        assert AllDefined(init) + [] == AllDefined(init);
        SameLast(init, r, u, n);
      }
    } else {
      assert Last([], n) == [];
    }
  }

  lemma SameLast(init: seq<Raw>, r: Raw, u: string, n: nat)
    requires !HasUuid(r)
    ensures (exists i: nat :: AmongLast(init + [r], u, n, i)) <==> exists i: nat :: AmongLast(init, u, n, i)
  {
    forall i: nat ensures AmongLast(init + [r], u, n, i) <==> AmongLast(init, u, n, i) {
      if i < |init| {
        FromLess(init, r, i);
      }
    }
  }

  lemma ShiftedLast(init: seq<Raw>, r: Raw, u: string, n: nat, m: nat)
    requires HasUuid(r) && n == m + 1
    ensures (exists i: nat :: AmongLast(init + [r], u, n, i)) <==>
            (r.uuid == Some(u) || exists i: nat :: AmongLast(init, u, m, i))
  {
    var (rs, e) := (init + [r], |init|);
    forall i: nat | i < e ensures AmongLast(rs, u, n, i) <==> AmongLast(init, u, m, i) {
      FromLess(init, r, i);
    }
    FromLess(init, r, e);
    assert WithUuidFrom(init, e) == {};
    assert AmongLast(rs, u, n, e) <==> r.uuid == Some(u);
  }

  lemma NoneAmongNone(init: seq<Raw>, r: Raw, u: string, i: nat)
    requires HasUuid(r)
    ensures !AmongLast(init + [r], u, 0, i)
  {
    if i <= |init| {
      FromLess(init, r, i);
      assert |init| in WithUuidFrom(init + [r], i);
    }
  }

  ghost predicate IsFirst(rs: seq<Raw>, u: string, i: nat) {
    i < |rs| && IsUuidOf(rs[i], u) && NoneBefore(rs, i)
  }

  lemma {:induction false} FirstDefined(rs: seq<Raw>, u: string)
    ensures AllDefined(rs) == [] <==> NoneBefore(rs, |rs|)
    ensures AllDefined(rs) != [] && AllDefined(rs)[0] == u <==> exists i: nat :: IsFirst(rs, u, i)
  {
    if rs != [] {
      var (init, e) := (rs[..|rs| - 1], |rs| - 1);
      FirstDefined(init, u);
      assert NoneBefore(rs, |rs|) <==> NoneBefore(init, e) && !HasUuid(rs[e]);
      forall i: nat | i < e ensures IsFirst(rs, u, i) <==> IsFirst(init, u, i) {
      }
      assert NoneBefore(rs, e) <==> NoneBefore(init, e);
      if NoneBefore(init, e) {
        assert IsFirst(rs, u, e) <==> IsUuidOf(rs[e], u);
        forall i: nat | i < e ensures !IsFirst(init, u, i) {
        }
      }
    }
  }

  /** What others can link to a captured segment by. */
  lemma CapturedAnchors(s: SegmentInput, rs: seq<Raw>, u: string)
    requires CapturedFrom(s, rs)
    ensures u in Own(s) <==> IsAnchor(rs, u)
  {
    DefinedSomewhere(rs, "");
    LastDefined(rs, u, LINEAGE_TAIL);
    FirstDefined(rs, u);
    var uuids := AllDefined(rs);
    assert u in Own(s) <==> (uuids != [] && uuids[0] == u) || u in Last(uuids, LINEAGE_TAIL);
    forall i: nat | i < |rs| ensures AnchorAt(rs, u, i) <==> IsFirst(rs, u, i) || AmongLast(rs, u, LINEAGE_TAIL, i) {
    }
  }

  /** A reference counts whatever the order a uuid is referenced and defined in. */
  lemma CapturedReferences(s: SegmentInput, rs: seq<Raw>, u: string)
    requires CapturedFrom(s, rs)
    ensures u in s.lineage.externalRefs <==> PointsOutTo(rs, u)
  {
    DefinedSomewhere(rs, u);
    ReferencedSomewhere(rs, u);
    DistinctMembers(AllReferenced(rs));
  }

  lemma CapturedForks(s: SegmentInput, rs: seq<Raw>, sid: string)
    requires CapturedFrom(s, rs)
    ensures sid in s.lineage.forkedFromSessionIds <==>
            sid != s.sessionId && SomeForks(rs, sid)
  {
    ForkedSomewhere(rs, sid);
    DistinctMembers(AllForks(rs));
  }

  lemma {:induction false} StoredRecords(ms: seq<Message>)
    ensures |AsRecords(ms)| == |ms| && forall i :: 0 <= i < |ms| ==> AsRecords(ms)[i] == Record(Some(ms[i].uuid), ms[i].parentUuid, None, None)
  {
    if ms != [] {
      StoredRecords(ms[..|ms| - 1]);
    }
  }

  lemma {:induction false} StoredForks(ms: seq<Message>)
    ensures AllForks(AsRecords(ms)) == []
  {
    if ms != [] {
      var init := ms[..|ms| - 1];
      StoredForks(init);
      SaidPush(AsRecords(init), AsRecord(ms[|ms| - 1]));
    }
  }

  /**
   * Of stored messages the lineage is that of records with just their uuids and
   * parents: it points out to every parent that is none of the messages.
   */
  lemma StoredReferences(ms: seq<Message>, s: SegmentInput, u: string)
    requires s.lineage == LineageOf(AsRecords(ms), None)
    ensures CapturedFrom(s, AsRecords(ms)) && s.lineage.forkedFromSessionIds == []
    ensures u in s.lineage.externalRefs <==>
            u != "" && (exists m :: m in ms && m.parentUuid == Some(u)) && forall m :: m in ms ==> m.uuid != u
  {
    StoredCaptured(ms, s);
    hide CapturedFrom, AsRecords, Names, IsUuidOf;
    CapturedReferences(s, AsRecords(ms), u);
    StoredNames(ms, u);
  }

  lemma StoredCaptured(ms: seq<Message>, s: SegmentInput)
    requires s.lineage == LineageOf(AsRecords(ms), None)
    ensures CapturedFrom(s, AsRecords(ms)) && s.lineage.forkedFromSessionIds == []
  {
    StoredForks(ms);
  }

  lemma StoredNames(ms: seq<Message>, u: string)
    ensures SomeReferences(AsRecords(ms), u) <==> u != "" && exists m :: m in ms && m.parentUuid == Some(u)
    ensures SomeDefines(AsRecords(ms), u) <==> u != "" && exists m :: m in ms && m.uuid == u
  {
    var rs := AsRecords(ms);
    StoredRecords(ms);
    hide AsRecords;
    forall i | 0 <= i < |ms|
      ensures rs[i] in rs && ms[i] in ms
      ensures Names(rs[i], u) <==> u != "" && ms[i].parentUuid == Some(u)
      ensures IsUuidOf(rs[i], u) <==> u != "" && ms[i].uuid == u
    {
    }
  }

  lemma SharesAsRecorded(a: SegmentInput, ra: seq<Raw>, b: SegmentInput, rb: seq<Raw>)
    requires CapturedFrom(a, ra) && CapturedFrom(b, rb)
    ensures SharesAnchor(a, b) <==> exists u :: IsAnchor(ra, u) && IsAnchor(rb, u)
  {
    hide IsAnchor, Own, CapturedFrom;
    forall u ensures u in Own(a) && u in Own(b) <==> IsAnchor(ra, u) && IsAnchor(rb, u) {
      CapturedAnchors(a, ra, u);
      CapturedAnchors(b, rb, u);
    }
  }

  lemma RefersAsRecorded(a: SegmentInput, ra: seq<Raw>, b: SegmentInput, rb: seq<Raw>)
    requires CapturedFrom(a, ra) && CapturedFrom(b, rb)
    ensures RefersTo(a, b) <==> exists u :: PointsOutTo(ra, u) && IsAnchor(rb, u)
  {
    hide IsAnchor, Own, CapturedFrom, PointsOutTo;
    forall u ensures u in a.lineage.externalRefs && u in Own(b) <==> PointsOutTo(ra, u) && IsAnchor(rb, u) {
      CapturedReferences(a, ra, u);
      CapturedAnchors(b, rb, u);
    }
  }

  /**
   * Two captured segments are linked exactly when they keep a common anchor,
   * one points out to an anchor of the other, or one is a fork of the other.
   */
  lemma LinkedAsRecorded(a: SegmentInput, ra: seq<Raw>, b: SegmentInput, rb: seq<Raw>)
    requires CapturedFrom(a, ra) && CapturedFrom(b, rb) && a.sessionId != b.sessionId
    ensures Linked(a, b) <==>
      || (exists u :: IsAnchor(ra, u) && IsAnchor(rb, u))
      || (exists u :: PointsOutTo(ra, u) && IsAnchor(rb, u))
      || (exists u :: PointsOutTo(rb, u) && IsAnchor(ra, u))
      || SomeForks(ra, b.sessionId) || SomeForks(rb, a.sessionId)
  {
    hide SharesAnchor, RefersTo, IsAnchor, PointsOutTo, SomeForks, CapturedFrom;
    SharesAsRecorded(a, ra, b, rb);
    RefersAsRecorded(a, ra, b, rb);
    RefersAsRecorded(b, rb, a, ra);
    CapturedForks(a, ra, b.sessionId);
    CapturedForks(b, rb, a.sessionId);
  }

  /**
   * A segment whose message ids are not uuids keeps no evidence: it joins
   * another only if that one names it as the session it was forked from.
   */
  lemma NoLineageStandsAlone(a: SegmentInput, b: SegmentInput)
    requires a.lineage == NO_LINEAGE
    ensures Linked(a, b) <==> ForkOf(b, a)
  {
    assert Own(a) == [];
  }
}
