/** Builders as listing records, with the statistics of their segments summed, and finding one by name. */
module BuilderListing {
  import opened Prelude
  import opened Text
  import opened Segments
  import opened StitchTheorems

  datatype Stats = Stats(messages: int, userMessages: int, assistantMessages: int, subagents: int, tokens: int)

  const ZERO := Stats(0, 0, 0, 0, 0)

  function AddStats(a: Stats, b: Stats): Stats {
    Stats(a.messages + b.messages, a.userMessages + b.userMessages, a.assistantMessages + b.assistantMessages,
          a.subagents + b.subagents, a.tokens + b.tokens)
  }

  /** The statistics of one segment; a segment that is not stored adds nothing. */
  function StatsOf(stored: map<string, Stats>, id: string): Stats {
    if id in stored then stored[id] else ZERO
  }

  function TotalStats(stored: map<string, Stats>, ids: seq<string>): Stats {
    if ids == [] then ZERO else AddStats(TotalStats(stored, ids[..|ids| - 1]), StatsOf(stored, ids[|ids| - 1]))
  }

  datatype BuilderSummary = BuilderSummary(
    id: string,
    title: string,
    startedAt: Option<string>,
    endedAt: Option<string>,
    segments: seq<string>,
    stats: Stats)

  function Summarize(stored: map<string, Stats>, b: StitchedBuilder): BuilderSummary {
    BuilderSummary(b.id, b.title, b.startedAt, b.endedAt, b.segments, TotalStats(stored, b.segments))
  }

  function SummarizeBuilders(stored: map<string, Stats>, bs: seq<StitchedBuilder>): seq<BuilderSummary> {
    if bs == [] then [] else SummarizeBuilders(stored, bs[..|bs| - 1]) + [Summarize(stored, bs[|bs| - 1])]
  }

  /** A listing keeps the Builders as they are and in order, each with the statistics of its segments. */
  lemma {:induction false} SummaryAt(stored: map<string, Stats>, bs: seq<StitchedBuilder>, i: nat)
    requires i < |bs|
    ensures |SummarizeBuilders(stored, bs)| == |bs| && SummarizeBuilders(stored, bs)[i] == Summarize(stored, bs[i])
    ensures var (s, b) := (SummarizeBuilders(stored, bs)[i], bs[i]);
      && s.id == b.id && s.title == b.title && s.startedAt == b.startedAt && s.endedAt == b.endedAt
      && s.segments == b.segments && s.stats == TotalStats(stored, b.segments)
  {
    if |bs| > 1 {
      SummaryAt(stored, bs[..|bs| - 1], if i < |bs| - 1 then i else 0);
    }
  }

  // ---- Statistics are conserved

  function GrandTotal(summaries: seq<BuilderSummary>): Stats {
    if summaries == [] then ZERO
    else AddStats(GrandTotal(summaries[..|summaries| - 1]), summaries[|summaries| - 1].stats)
  }

  function AllIds(bs: seq<StitchedBuilder>): seq<string> {
    if bs == [] then [] else AllIds(bs[..|bs| - 1]) + bs[|bs| - 1].segments
  }

  lemma {:induction false} TotalAppend(stored: map<string, Stats>, a: seq<string>, b: seq<string>)
    ensures TotalStats(stored, a + b) == AddStats(TotalStats(stored, a), TotalStats(stored, b))
  {
    if b == [] {
      assert a + b == a;
    } else {
      assert (a + b)[..|a + b| - 1] == a + b[..|b| - 1];
      TotalAppend(stored, a, b[..|b| - 1]);
    }
  }

  /** A sum does not depend on the order of its terms. */
  lemma {:induction false} TotalPermuted(stored: map<string, Stats>, a: seq<string>, b: seq<string>)
    requires multiset(a) == multiset(b)
    ensures TotalStats(stored, a) == TotalStats(stored, b)
  {
    if a == [] {
      assert |b| == |multiset(b)|;
    } else {
      hide StatsOf, AddStats;
      var (init, id) := (a[..|a| - 1], a[|a| - 1]);
      var k := LastFound(a, b);
      TakenOut(b, k);
      TotalPermuted(stored, init, b[..k] + b[k + 1..]);
      TotalWithout(stored, b[..k], id, b[k + 1..]);
    }
  }

  lemma TakenOut(b: seq<string>, k: nat)
    requires k < |b|
    ensures b == b[..k] + [b[k]] + b[k + 1..]
    ensures multiset(b[..k] + b[k + 1..]) == multiset(b) - multiset{b[k]}
  {
    assert b == b[..k] + [b[k]] + b[k + 1..];
  }

  lemma LastFound(a: seq<string>, b: seq<string>) returns (k: nat)
    requires a != [] && multiset(a) == multiset(b)
    ensures k < |b| && b[k] == a[|a| - 1]
    ensures multiset(a[..|a| - 1]) == multiset(b[..k] + b[k + 1..])
  {
    InitLast(a);
    assert a[|a| - 1] in multiset(b);
    k :| 0 <= k < |b| && b[k] == a[|a| - 1];
    TakenOut(b, k);
  }

  lemma TotalWithout(stored: map<string, Stats>, a: seq<string>, id: string, b: seq<string>)
    ensures TotalStats(stored, a + [id] + b) == AddStats(TotalStats(stored, a + b), StatsOf(stored, id))
  {
    TotalAppend(stored, a + [id], b);
    TotalPush(stored, a, id);
    TotalAppend(stored, a, b);
    AddSwap(TotalStats(stored, a), StatsOf(stored, id), TotalStats(stored, b));
  }

  lemma AddSwap(x: Stats, y: Stats, z: Stats)
    ensures AddStats(AddStats(x, y), z) == AddStats(AddStats(x, z), y)
  {
  }

  lemma TotalPush(stored: map<string, Stats>, a: seq<string>, id: string)
    ensures TotalStats(stored, a + [id]) == AddStats(TotalStats(stored, a), StatsOf(stored, id))
  {
    assert (a + [id])[..|a|] == a;
  }

  lemma TotalOne(stored: map<string, Stats>, ids: seq<string>)
    requires |ids| == 1
    ensures TotalStats(stored, ids) == if ids[0] in stored then stored[ids[0]] else Stats(0, 0, 0, 0, 0)
  {
    var none := ids[..|ids| - 1];
    assert TotalStats(stored, none) == ZERO;
  }

  /** A total over more segments adds up count by count. */
  lemma TotalAdds(stored: map<string, Stats>, a: seq<string>, b: seq<string>)
    ensures var (x, y, z) := (TotalStats(stored, a), TotalStats(stored, b), TotalStats(stored, a + b));
      && z.messages == x.messages + y.messages && z.userMessages == x.userMessages + y.userMessages
      && z.assistantMessages == x.assistantMessages + y.assistantMessages
      && z.subagents == x.subagents + y.subagents && z.tokens == x.tokens + y.tokens
  {
    hide TotalStats;
    TotalAppend(stored, a, b);
  }

  lemma {:induction false} GrandTotalIs(stored: map<string, Stats>, bs: seq<StitchedBuilder>)
    ensures GrandTotal(SummarizeBuilders(stored, bs)) == TotalStats(stored, AllIds(bs))
  {
    if bs != [] {
      GrandTotalIs(stored, bs[..|bs| - 1]);
      TotalAppend(stored, AllIds(bs[..|bs| - 1]), bs[|bs| - 1].segments);
    }
  }

  // ---- The Builders' segment lists together are the segments, each once

  ghost predicate AllDifferent(ids: seq<string>) {
    forall i, j :: 0 <= i < j < |ids| ==> ids[i] != ids[j]
  }

  lemma {:induction false} CountOnce(ids: seq<string>, id: string)
    requires AllDifferent(ids)
    ensures multiset(ids)[id] == if id in ids then 1 else 0
  {
    if ids != [] {
      CountOnce(ids[..|ids| - 1], id);
      assert ids == ids[..|ids| - 1] + [ids[|ids| - 1]];
    }
  }

  lemma SameIdsPermuted(a: seq<string>, b: seq<string>)
    requires AllDifferent(a) && AllDifferent(b) && forall id :: id in a <==> id in b
    ensures multiset(a) == multiset(b)
  {
    forall id ensures multiset(a)[id] == multiset(b)[id] {
      CountOnce(a, id);
      CountOnce(b, id);
    }
  }

  lemma MembersDifferent(c: Collation, S: set<SegmentInput>, ms: seq<SegmentInput>)
    requires Identified(c, S) && Ascending(c, ms) && SetOf(ms) <= S
    ensures AllDifferent(IdsOf(ms))
  {
    forall i, j | 0 <= i < j < |ms| ensures ms[i].sessionId != ms[j].sessionId {
      assert ms[i] in SetOf(ms) && ms[j] in SetOf(ms);
      assert Before(c, ms[i], ms[j]);
    }
  }

  /** One Builder: different ids, all of them of segments, its own id the first. */
  lemma BuilderIds(c: Collation, S: set<SegmentInput>, i: nat)
    requires Identified(c, S) && i < |Stitched(c, S)|
    ensures var b := Stitched(c, S)[i];
      && AllDifferent(b.segments) && b.segments != [] && b.id == b.segments[0]
      && forall id :: id in b.segments ==> exists s :: s in S && s.sessionId == id
  {
    StitchedListed(c, S);
    var h := ListedHeads(c, S)[i];
    assert h in ListedHeads(c, S);
    var ms := Members(c, S, h);
    MembersAre(c, S, h);
    MembersIn(c, S, h);
    BuildersForAt(c, S, ListedHeads(c, S), i);
    BuilderStart(c, S, h);
    MembersDifferent(c, S, ms);
    forall id | id in IdsOf(ms) ensures exists s :: s in S && s.sessionId == id {
      SegmentIds(ms, id);
    }
  }

  lemma MembersIn(c: Collation, S: set<SegmentInput>, h: SegmentInput)
    requires Identified(c, S) && h in S
    ensures SetOf(Members(c, S, h)) <= S
  {
    MembersAre(c, S, h);
    forall s | s in Members(c, S, h) ensures s in S {
      ConnectedMembers(S, h, s);
    }
  }

  lemma {:induction false} AllIdsMembers(bs: seq<StitchedBuilder>, id: string)
    ensures id in AllIds(bs) <==> exists i :: 0 <= i < |bs| && id in bs[i].segments
  {
    if bs != [] {
      var init := bs[..|bs| - 1];
      AllIdsMembers(init, id);
      if i :| 0 <= i < |bs| && id in bs[i].segments {
        assert i < |init| ==> id in init[i].segments;
      }
      if i :| 0 <= i < |init| && id in init[i].segments {
        assert id in bs[i].segments;
      }
    }
  }

  ghost predicate Apart(bs: seq<StitchedBuilder>) {
    && (forall i {:trigger bs[i]} :: 0 <= i < |bs| ==> AllDifferent(bs[i].segments))
    && (forall i, j, id :: 0 <= i < j < |bs| && id in bs[i].segments ==> id !in bs[j].segments)
  }

  lemma {:induction false} ApartAllDifferent(bs: seq<StitchedBuilder>)
    requires Apart(bs)
    ensures AllDifferent(AllIds(bs))
  {
    if bs != [] {
      var (init, last) := (bs[..|bs| - 1], bs[|bs| - 1].segments);
      forall i | 0 <= i < |init| ensures AllDifferent(init[i].segments) {
        assert AllDifferent(bs[i].segments);
      }
      ApartAllDifferent(init);
      forall id | id in AllIds(init) ensures id !in last {
        AllIdsMembers(init, id);
        var i :| 0 <= i < |init| && id in init[i].segments;
        assert id in bs[i].segments;
      }
      AppendDifferent(AllIds(init), last);
    }
  }

  lemma AppendDifferent(a: seq<string>, b: seq<string>)
    requires AllDifferent(a) && AllDifferent(b) && forall id :: id in a ==> id !in b
    ensures AllDifferent(a + b)
  {
    forall i, j | 0 <= i < j < |a + b| ensures (a + b)[i] != (a + b)[j] {
      if i < |a| <= j {
        assert a[i] in a && b[j - |a|] in b;
      }
    }
  }

  lemma StitchedApart(c: Collation, S: set<SegmentInput>)
    requires Identified(c, S)
    ensures Apart(Stitched(c, S))
  {
    var bs := Stitched(c, S);
    forall i | 0 <= i < |bs| ensures AllDifferent(bs[i].segments) {
      BuilderIds(c, S, i);
    }
    forall i, j, id | 0 <= i < j < |bs| && id in bs[i].segments ensures id !in bs[j].segments {
      BuilderIds(c, S, i);
      var s :| s in S && s.sessionId == id;
      var k := OneBuilderEach(c, S, s);
      assert InBuilder(c, S, i, s);
      assert InBuilder(c, S, j, s) <==> id in bs[j].segments;
    }
  }

  lemma StitchedIds(c: Collation, S: set<SegmentInput>, id: string)
    requires Identified(c, S)
    ensures id in AllIds(Stitched(c, S)) <==> exists s :: s in S && s.sessionId == id
  {
    AllIdsMembers(Stitched(c, S), id);
    if i :| 0 <= i < |Stitched(c, S)| && id in Stitched(c, S)[i].segments {
      BuilderIds(c, S, i);
    }
    if s :| s in S && s.sessionId == id {
      var i := OneBuilderEach(c, S, s);
    }
  }

  /** Statistics summed over all Builders are the statistics summed over all segments. */
  lemma StatsConserved(c: Collation, segments: seq<SegmentInput>, stored: map<string, Stats>)
    requires NoRepeats(segments) && Identified(c, SetOf(segments))
    ensures GrandTotal(SummarizeBuilders(stored, Stitched(c, SetOf(segments)))) == TotalStats(stored, IdsOf(segments))
  {
    var S := SetOf(segments);
    var bs := Stitched(c, S);
    GrandTotalIs(stored, bs);
    StitchedApart(c, S);
    ApartAllDifferent(bs);
    SegmentIdsDifferent(c, segments);
    forall id ensures id in AllIds(bs) <==> id in IdsOf(segments) {
      StitchedIds(c, S, id);
      SegmentIds(segments, id);
    }
    SameIdsPermuted(AllIds(bs), IdsOf(segments));
    TotalPermuted(stored, AllIds(bs), IdsOf(segments));
  }

  lemma SegmentIdsDifferent(c: Collation, segments: seq<SegmentInput>)
    requires NoRepeats(segments) && Identified(c, SetOf(segments))
    ensures AllDifferent(IdsOf(segments))
  {
    forall i, j | 0 <= i < j < |segments| ensures segments[i].sessionId != segments[j].sessionId {
      assert segments[i] in SetOf(segments) && segments[j] in SetOf(segments);
    }
  }

  lemma SegmentIds(segments: seq<SegmentInput>, id: string)
    ensures id in IdsOf(segments) <==> exists s :: s in SetOf(segments) && s.sessionId == id
  {
    if id in IdsOf(segments) {
      var k :| 0 <= k < |segments| && IdsOf(segments)[k] == id;
      assert segments[k] in SetOf(segments);
    }
    if s :| s in SetOf(segments) && s.sessionId == id {
      var k :| 0 <= k < |segments| && segments[k] == s;
      assert IdsOf(segments)[k] == id;
    }
  }

  // ---- Finding a Builder

  /** `bs.find(p)` */
  function FirstWhere(p: BuilderSummary -> bool, bs: seq<BuilderSummary>): Option<BuilderSummary> {
    if bs == [] then None else if p(bs[0]) then Some(bs[0]) else FirstWhere(p, bs[1..])
  }

  /** `bs.filter(p)` */
  function Where(p: BuilderSummary -> bool, bs: seq<BuilderSummary>): seq<BuilderSummary> {
    if bs == [] then [] else (if p(bs[0]) then [bs[0]] else []) + Where(p, bs[1..])
  }

  function Named(q: string): BuilderSummary -> bool { (b: BuilderSummary) => b.id == q }

  function Holding(q: string): BuilderSummary -> bool { (b: BuilderSummary) => q in b.segments }

  function HoldingPrefix(q: string): BuilderSummary -> bool { (b: BuilderSummary) => exists s :: s in b.segments && q <= s }

  function Exact(bs: seq<BuilderSummary>, q: string): Option<BuilderSummary> {
    var named := FirstWhere(Named(q), bs);
    if named.Some? then named else FirstWhere(Holding(q), bs)
  }

  function FindBuilder(bs: seq<BuilderSummary>, idOrSegmentId: string): Option<BuilderSummary> {
    var q := Trim(idOrSegmentId);
    if q == "" then None
    else if Exact(bs, q).Some? then Exact(bs, q)
    else
      var prefixed := Where(HoldingPrefix(q), bs);
      if |prefixed| == 1 then Some(prefixed[0]) else None
  }

  lemma {:induction false} FirstWhereIs(p: BuilderSummary -> bool, bs: seq<BuilderSummary>)
    ensures match FirstWhere(p, bs)
      case Some(b) => b in bs && p(b)
      case None => forall i :: 0 <= i < |bs| ==> !p(bs[i])
  {
    if bs != [] && !p(bs[0]) {
      FirstWhereIs(p, bs[1..]);
      forall i | 0 <= i < |bs| && FirstWhere(p, bs).None? ensures !p(bs[i]) {
        assert i > 0 ==> bs[i] == bs[1..][i - 1];
      }
    }
  }

  /** A listed segment's id finds the one Builder that holds the segment. */
  lemma FindsOwnBuilder(c: Collation, S: set<SegmentInput>, stored: map<string, Stats>, s: SegmentInput) returns (i: nat)
    requires Identified(c, S) && s in S && Trim(s.sessionId) == s.sessionId
    ensures InBuilder(c, S, i, s) && forall j :: InBuilder(c, S, j, s) ==> j == i
    ensures FindBuilder(SummarizeBuilders(stored, Stitched(c, S)), s.sessionId) == Some(Summarize(stored, Stitched(c, S)[i]))
  {
    i := OneBuilderEach(c, S, s);
    var (q, bs) := (s.sessionId, SummarizeBuilders(stored, Stitched(c, S)));
    SummaryAt(stored, Stitched(c, S), i);
    FirstWhereIs(Named(q), bs);
    FirstWhereIs(Holding(q), bs);
    assert Holding(q)(bs[i]);
    var found := Exact(bs, q).value;
    var j :| 0 <= j < |bs| && bs[j] == found;
    SummaryAt(stored, Stitched(c, S), j);
    BuilderIds(c, S, j);
    assert InBuilder(c, S, j, s);
  }
}
