/**
 * Grouping captured segments into Builders. A Builder is a connected component
 * of the "continues" relation between segments; the program finds it with a
 * union-find over session ids.
 */
module Segments {
  import opened Prelude
  import opened Lineage

  datatype SegmentInput = SegmentInput(
    sessionId: string,
    startedAt: Option<string>,
    endedAt: Option<string>,
    summary: string,
    lineage: SegmentLineage)

  datatype StitchedBuilder = StitchedBuilder(
    id: string,
    title: string,
    startedAt: Option<string>,
    endedAt: Option<string>,
    segments: seq<string>)

  /**
   * The two string orders the program uses, `localeCompare` and `<`, each given
   * by the rank it assigns to a string. Strings are countable, so every total
   * order on them has such a rank.
   */
  datatype Collation = Collation(locale: string -> real, codeUnit: string -> real)

  /** `byStart(a, b) < 0` */
  predicate Before(c: Collation, a: SegmentInput, b: SegmentInput) {
    var (sa, sb) := (c.locale(OrEmpty(a.startedAt)), c.locale(OrEmpty(b.startedAt)));
    var (ea, eb) := (c.locale(OrEmpty(a.endedAt)), c.locale(OrEmpty(b.endedAt)));
    if sa != sb then sa < sb
    else if ea != eb then ea < eb
    else c.locale(a.sessionId) < c.locale(b.sessionId)
  }

  /** The collation tells the (nonempty) session ids of `S` apart. */
  ghost predicate Identified(c: Collation, S: set<SegmentInput>) {
    && (forall a, b :: a in S && b in S && c.locale(a.sessionId) == c.locale(b.sessionId) ==> a == b)
    && (forall a :: a in S ==> a.sessionId != "")
  }

  // ---- The relation the Builders are the components of

  /** Where a continuation of `s` can point: its first and its last record uuids. */
  function Own(s: SegmentInput): seq<string> {
    Truthy(s.lineage.firstUuid) + Without(s.lineage.tailUuids, {""})
  }

  predicate SharesAnchor(a: SegmentInput, b: SegmentInput) {
    exists u :: u in Own(a) && u in Own(b)
  }

  predicate RefersTo(a: SegmentInput, b: SegmentInput) {
    exists u :: u in a.lineage.externalRefs && u in Own(b)
  }

  predicate ForkOf(a: SegmentInput, b: SegmentInput) {
    b.sessionId in a.lineage.forkedFromSessionIds
  }

  predicate Linked(a: SegmentInput, b: SegmentInput) {
    || SharesAnchor(a, b)
    || RefersTo(a, b) || RefersTo(b, a)
    || ForkOf(a, b) || ForkOf(b, a)
  }

  predicate Step(p: seq<SegmentInput>, i: int)
    requires 0 < i < |p|
  {
    Linked(p[i - 1], p[i])
  }

  ghost predicate Chain(S: set<SegmentInput>, p: seq<SegmentInput>) {
    && |p| > 0
    && (forall i :: 0 <= i < |p| ==> p[i] in S)
    && (forall i {:trigger Step(p, i)} :: 0 < i < |p| ==> Step(p, i))
  }

  /** A chain of pairwise links inside `S` joins the two segments. */
  ghost predicate Connected(S: set<SegmentInput>, a: SegmentInput, b: SegmentInput) {
    exists p :: Chain(S, p) && p[0] == a && p[|p| - 1] == b
  }

  lemma ConnectedReflexive(S: set<SegmentInput>, a: SegmentInput)
    requires a in S
    ensures Connected(S, a, a)
  {
    assert Chain(S, [a]);
  }

  lemma ConnectedLink(S: set<SegmentInput>, a: SegmentInput, b: SegmentInput)
    requires a in S && b in S && Linked(a, b)
    ensures Connected(S, a, b)
  {
    assert Step([a, b], 1);
    assert Chain(S, [a, b]);
  }

  lemma {:induction false} ChainReversed(S: set<SegmentInput>, p: seq<SegmentInput>)
    requires Chain(S, p)
    ensures Connected(S, p[|p| - 1], p[0])
  {
    var q := seq(|p|, i requires 0 <= i < |p| => p[|p| - 1 - i]);
    forall i | 0 < i < |q| ensures Step(q, i) {
      assert Step(p, |p| - i);
    }
    assert Chain(S, q);
  }

  lemma ConnectedSymmetric(S: set<SegmentInput>, a: SegmentInput, b: SegmentInput)
    requires Connected(S, a, b)
    ensures Connected(S, b, a)
  {
    var p :| Chain(S, p) && p[0] == a && p[|p| - 1] == b;
    ChainReversed(S, p);
  }

  lemma ConnectedTransitive(S: set<SegmentInput>, a: SegmentInput, b: SegmentInput, d: SegmentInput)
    requires Connected(S, a, b) && Connected(S, b, d)
    ensures Connected(S, a, d)
  {
    var p :| Chain(S, p) && p[0] == a && p[|p| - 1] == b;
    var q :| Chain(S, q) && q[0] == b && q[|q| - 1] == d;
    ChainJoined(S, p, q);
  }

  lemma ChainJoined(S: set<SegmentInput>, p: seq<SegmentInput>, q: seq<SegmentInput>)
    requires Chain(S, p) && Chain(S, q) && p[|p| - 1] == q[0]
    ensures Chain(S, p + q[1..]) && (p + q[1..])[0] == p[0] && (p + q[1..])[|p + q[1..]| - 1] == q[|q| - 1]
  {
    hide Linked;
    var r := p + q[1..];
    forall i | 0 <= i < |r| ensures r[i] in S {
      assert i >= |p| ==> r[i] == q[i - |p| + 1];
    }
    forall i | 0 < i < |r| ensures Step(r, i) {
      if i < |p| {
        assert Step(p, i);
      } else {
        assert Step(q, i - |p| + 1);
      }
    }
  }

  lemma ConnectedMonotone(S: set<SegmentInput>, S': set<SegmentInput>, a: SegmentInput, b: SegmentInput)
    requires S <= S' && Connected(S, a, b)
    ensures Connected(S', a, b)
  {
    var p :| Chain(S, p) && p[0] == a && p[|p| - 1] == b;
    assert Chain(S', p);
  }

  lemma ConnectedMembers(S: set<SegmentInput>, a: SegmentInput, b: SegmentInput)
    requires Connected(S, a, b)
    ensures a in S && b in S
  {
  }

  // ---- Orders on segments

  ghost predicate Ascending(c: Collation, s: seq<SegmentInput>) {
    forall i, j :: 0 <= i < j < |s| ==> Before(c, s[i], s[j])
  }

  function SetOf(s: seq<SegmentInput>): set<SegmentInput> { set x | x in s }

  /** `[...segments].sort(byStart)` */
  function SortByStart(c: Collation, s: seq<SegmentInput>): seq<SegmentInput> {
    if s == [] then [] else InsertByStart(c, s[0], SortByStart(c, s[1..]))
  }

  function InsertByStart(c: Collation, x: SegmentInput, s: seq<SegmentInput>): seq<SegmentInput> {
    if s == [] then [x]
    else if Before(c, s[0], x) then [s[0]] + InsertByStart(c, x, s[1..])
    else [x] + s
  }

  lemma SetOfCons(x: SegmentInput, s: seq<SegmentInput>)
    ensures SetOf([x] + s) == {x} + SetOf(s)
  {
  }

  lemma {:induction false} InsertByStartSet(c: Collation, x: SegmentInput, s: seq<SegmentInput>)
    ensures SetOf(InsertByStart(c, x, s)) == SetOf(s) + {x}
  {
    SetOfCons(x, s);
    if s != [] && Before(c, s[0], x) {
      SetOfCons(s[0], s[1..]);
      assert [s[0]] + s[1..] == s;
      InsertByStartSet(c, x, s[1..]);
      SetOfCons(s[0], InsertByStart(c, x, s[1..]));
    }
  }

  lemma AscendingCons(c: Collation, x: SegmentInput, s: seq<SegmentInput>)
    requires Ascending(c, s) && forall y :: y in SetOf(s) ==> Before(c, x, y)
    ensures Ascending(c, [x] + s)
  {
    forall j | 0 <= j < |s| ensures Before(c, x, s[j]) {
      assert s[j] in SetOf(s);
    }
  }

  lemma AscendingTail(c: Collation, s: seq<SegmentInput>)
    requires Ascending(c, s) && s != []
    ensures Ascending(c, s[1..]) && forall y :: y in SetOf(s[1..]) ==> Before(c, s[0], y)
  {
  }

  lemma {:induction false} InsertByStartSorts(c: Collation, x: SegmentInput, s: seq<SegmentInput>)
    requires Ascending(c, s) && Identified(c, SetOf(s) + {x}) && x !in s
    ensures Ascending(c, InsertByStart(c, x, s))
    ensures SetOf(InsertByStart(c, x, s)) == SetOf(s) + {x}
  {
    InsertByStartSet(c, x, s);
    if s != [] {
      SetOfCons(s[0], s[1..]);
      assert [s[0]] + s[1..] == s;
      AscendingTail(c, s);
      if Before(c, s[0], x) {
        InsertByStartSorts(c, x, s[1..]);
        InsertByStartSet(c, x, s[1..]);
        AscendingCons(c, s[0], InsertByStart(c, x, s[1..]));
      } else {
        assert s[0] in SetOf(s) + {x};
        AscendingCons(c, x, s);
      }
    }
  }

  ghost predicate NoRepeats(s: seq<SegmentInput>) {
    forall i, j :: 0 <= i < j < |s| ==> s[i] != s[j]
  }

  lemma {:induction false} SortByStartSorts(c: Collation, s: seq<SegmentInput>)
    requires Identified(c, SetOf(s)) && NoRepeats(s)
    ensures Ascending(c, SortByStart(c, s)) && SetOf(SortByStart(c, s)) == SetOf(s)
  {
    if s != [] {
      assert SetOf(s) == {s[0]} + SetOf(s[1..]);
      SortByStartSorts(c, s[1..]);
      assert s[0] !in SetOf(s[1..]);
      InsertByStartSorts(c, s[0], SortByStart(c, s[1..]));
    }
  }

  lemma LeastFirst(c: Collation, s: seq<SegmentInput>, x: SegmentInput)
    requires Ascending(c, s) && x in SetOf(s)
    ensures s != [] && (x == s[0] || Before(c, s[0], x))
  {
  }

  lemma TailSet(c: Collation, s: seq<SegmentInput>)
    requires Ascending(c, s) && s != []
    ensures s[0] in SetOf(s) && SetOf(s[1..]) == SetOf(s) - {s[0]}
  {
    assert s == [s[0]] + s[1..];
    assert s[0] !in s[1..];
  }

  /** A finite set of segments has only one ascending enumeration. */
  lemma {:induction false} AscendingUnique(c: Collation, s: seq<SegmentInput>, t: seq<SegmentInput>)
    requires Ascending(c, s) && Ascending(c, t) && SetOf(s) == SetOf(t)
    ensures s == t
  {
    assert t != [] ==> t[0] in SetOf(t);
    if s != [] {
      TailSet(c, s);
      LeastFirst(c, t, s[0]);
      TailSet(c, t);
      LeastFirst(c, s, t[0]);
      AscendingUnique(c, s[1..], t[1..]);
      assert s == [s[0]] + s[1..] && t == [t[0]] + t[1..];
    }
  }

  /** The ascending enumeration of `S`. */
  ghost function Ordered(c: Collation, S: set<SegmentInput>): (s: seq<SegmentInput>)
    requires Identified(c, S)
    ensures Ascending(c, s) && SetOf(s) == S
  {
    if S == {} then [] else
      var x :| x in S;
      var rest := Ordered(c, S - {x});
      InsertByStartSorts(c, x, rest);
      assert (S - {x}) + {x} == S;
      InsertByStart(c, x, rest)
  }

  // ---- Builders as the program must return them

  /** `segments` members of the component of `s`, order kept. */
  ghost function Select(S: set<SegmentInput>, s: SegmentInput, xs: seq<SegmentInput>): seq<SegmentInput> {
    if xs == [] then []
    else
      var rest := Select(S, s, xs[..|xs| - 1]);
      if Connected(S, s, xs[|xs| - 1]) then rest + [xs[|xs| - 1]] else rest
  }

  /** `m.endedAt ?? m.startedAt`, with the empty string counted as missing. */
  function EndOf(m: SegmentInput): Option<string> {
    var e := if m.endedAt.Some? then m.endedAt else m.startedAt;
    if e == Some("") then None else e
  }

  /** The fold the program runs for a Builder's `endedAt`. */
  function LatestEnd(c: Collation, ms: seq<SegmentInput>): Option<string> {
    if ms == [] then None
    else
      var best := LatestEnd(c, ms[..|ms| - 1]);
      var e := EndOf(ms[|ms| - 1]);
      if e.Some? && (best.None? || c.codeUnit(e.value) > c.codeUnit(best.value)) then e else best
  }

  function IdsOf(ms: seq<SegmentInput>): (ids: seq<string>)
    ensures |ids| == |ms| && forall i :: 0 <= i < |ms| ==> ids[i] == ms[i].sessionId
  {
    seq(|ms|, i requires 0 <= i < |ms| => ms[i].sessionId)
  }

  function BuilderOf(c: Collation, ms: seq<SegmentInput>): StitchedBuilder
    requires ms != []
  {
    StitchedBuilder(ms[0].sessionId, ms[0].summary, ms[0].startedAt, LatestEnd(c, ms), IdsOf(ms))
  }

  /** `builders.sort((a, b) => compare b's start with a's)`, a stable sort. */
  function SortNewest(c: Collation, bs: seq<StitchedBuilder>): seq<StitchedBuilder> {
    if bs == [] then [] else InsertNewest(c, bs[0], SortNewest(c, bs[1..]))
  }

  predicate StartsLater(c: Collation, a: StitchedBuilder, b: StitchedBuilder) {
    c.locale(OrEmpty(a.startedAt)) > c.locale(OrEmpty(b.startedAt))
  }

  function InsertNewest(c: Collation, x: StitchedBuilder, bs: seq<StitchedBuilder>): seq<StitchedBuilder> {
    if bs == [] then [x]
    else if StartsLater(c, bs[0], x) then [bs[0]] + InsertNewest(c, x, bs[1..])
    else [x] + bs
  }

  /** `s` is the `byStart`-least segment of its component. */
  ghost predicate IsHead(c: Collation, S: set<SegmentInput>, s: SegmentInput) {
    s in S && forall t :: Connected(S, s, t) ==> !Before(c, t, s)
  }

  /** The heads among `xs`, in order. */
  ghost function HeadsIn(c: Collation, S: set<SegmentInput>, xs: seq<SegmentInput>): (hs: seq<SegmentInput>)
    ensures forall h :: h in hs <==> h in xs && IsHead(c, S, h)
  {
    if xs == [] then []
    else
      var (init, x) := (xs[..|xs| - 1], xs[|xs| - 1]);
      assert xs == init + [x];
      if IsHead(c, S, x) then HeadsIn(c, S, init) + [x] else HeadsIn(c, S, init)
  }

  /** The members of the component of `s`, ascending. */
  ghost function Members(c: Collation, S: set<SegmentInput>, s: SegmentInput): (ms: seq<SegmentInput>)
    requires Identified(c, S) && s in S
    ensures s in ms
  {
    SelectMembers(S, s, Ordered(c, S));
    ConnectedReflexive(S, s);
    assert s in SetOf(Ordered(c, S));
    Select(S, s, Ordered(c, S))
  }

  /** The Builder headed by `h`. (A segment of `S` always has members.) */
  ghost function BuilderAt(c: Collation, S: set<SegmentInput>, h: SegmentInput): StitchedBuilder
    requires Identified(c, S)
  {
    var ms := Select(S, h, Ordered(c, S));
    if ms == [] then StitchedBuilder("", "", None, None, []) else BuilderOf(c, ms)
  }

  ghost function BuildersFor(c: Collation, S: set<SegmentInput>, hs: seq<SegmentInput>): (bs: seq<StitchedBuilder>)
    requires Identified(c, S)
    ensures |bs| == |hs|
  {
    Map(h => BuilderAt(c, S, h), hs)
  }

  lemma BuildersForAt(c: Collation, S: set<SegmentInput>, hs: seq<SegmentInput>, i: nat)
    requires Identified(c, S) && i < |hs|
    ensures BuildersFor(c, S, hs)[i] == BuilderAt(c, S, hs[i])
  {
    MapAt(h => BuilderAt(c, S, h), hs, i);
  }

  lemma BuildersForPush(c: Collation, S: set<SegmentInput>, hs: seq<SegmentInput>, h: SegmentInput)
    requires Identified(c, S)
    ensures BuildersFor(c, S, hs + [h]) == BuildersFor(c, S, hs) + [BuilderAt(c, S, h)]
  {
    MapPush(h => BuilderAt(c, S, h), hs, h);
  }

  lemma BuildersForCons(c: Collation, S: set<SegmentInput>, x: SegmentInput, hs: seq<SegmentInput>)
    requires Identified(c, S)
    ensures BuildersFor(c, S, [x] + hs) == [BuilderAt(c, S, x)] + BuildersFor(c, S, hs)
  {
    MapCons(h => BuilderAt(c, S, h), x, hs);
  }

  /** The Builders of a set of segments, newest first: one per component. */
  ghost function Stitched(c: Collation, S: set<SegmentInput>): seq<StitchedBuilder>
    requires Identified(c, S)
  {
    SortNewest(c, BuildersFor(c, S, HeadsIn(c, S, Ordered(c, S))))
  }

  lemma {:induction false} SelectMembers(S: set<SegmentInput>, s: SegmentInput, xs: seq<SegmentInput>)
    ensures forall x :: x in Select(S, s, xs) <==> x in xs && Connected(S, s, x)
  {
    if xs != [] {
      SelectMembers(S, s, xs[..|xs| - 1]);
      assert xs == xs[..|xs| - 1] + [xs[|xs| - 1]];
    }
  }
}
