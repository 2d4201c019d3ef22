/**
 * A Builder's transcript: the stored transcripts of its segments joined into one
 * record, without the history that a resumed segment may have copied.
 */
module BuilderTranscript {
  import opened Prelude
  import opened Text
  import opened AgentUsage
  import opened BuilderListing

  /** `body` is the rest of the message. An empty uuid is no uuid. */
  datatype Message = Message(uuid: string, user: bool, body: string)

  datatype Conversation = Conversation(
    sessionId: string,
    memberEmail: Option<string>,
    place: string,
    startedAt: Option<string>,
    endedAt: Option<string>,
    importedAt: nat,
    summary: string,
    stats: TranscriptStats,
    totalUsage: Usage,
    messages: seq<Message>,
    subagents: seq<string>)

  datatype TranscriptStats = TranscriptStats(messages: nat, userMessages: nat, assistantMessages: nat, subagents: nat, tokens: real)

  datatype Builder = Builder(id: string, title: string, startedAt: Option<string>, endedAt: Option<string>,
                             memberEmail: Option<string>, segments: seq<string>)

  // ---- Deduplication

  function Uuids(ms: seq<Message>): set<string> {
    if ms == [] then {} else Uuids(ms[..|ms| - 1]) + UuidOf(ms[|ms| - 1])
  }

  function UuidOf(m: Message): set<string> {
    if m.uuid == "" then {} else {m.uuid}
  }

  /** The first message with each uuid, and every message without one. */
  function FirstOccurrences(ms: seq<Message>): seq<Message> {
    if ms == [] then []
    else
      var (init, m) := (ms[..|ms| - 1], ms[|ms| - 1]);
      FirstOccurrences(init) + if m.uuid in Uuids(init) then [] else [m]
  }

  lemma {:induction false} UuidsAre(ms: seq<Message>, u: string)
    ensures u in Uuids(ms) <==> exists i :: 0 <= i < |ms| && ms[i].uuid == u && u != ""
  {
    if ms != [] {
      var (init, n) := (ms[..|ms| - 1], |ms| - 1);
      UuidsAre(init, u);
      if i :| 0 <= i < |init| && init[i].uuid == u && u != "" {
        assert ms[i].uuid == u;
      }
      if i :| 0 <= i < |ms| && ms[i].uuid == u && u != "" {
        assert i < n ==> init[i].uuid == u;
      }
    }
  }

  lemma UuidsPush(ms: seq<Message>, m: Message)
    ensures Uuids(ms + [m]) == Uuids(ms) + UuidOf(m)
  {
    assert (ms + [m])[..|ms|] == ms;
  }

  lemma FirstOccurrencesPush(ms: seq<Message>, m: Message)
    ensures FirstOccurrences(ms + [m]) == FirstOccurrences(ms) + if m.uuid in Uuids(ms) then [] else [m]
  {
    assert (ms + [m])[..|ms|] == ms;
  }

  lemma {:induction false} NoUuidLost(ms: seq<Message>)
    ensures Uuids(FirstOccurrences(ms)) == Uuids(ms)
  {
    if ms != [] {
      var (init, m) := (ms[..|ms| - 1], ms[|ms| - 1]);
      NoUuidLost(init);
      hide FirstOccurrences, Uuids;
      InitLast(ms);
      UuidsPush(init, m);
      if m.uuid in Uuids(init) {
        KnownDropped(init, m);
        assert Uuids(init) + UuidOf(m) == Uuids(init);
      } else {
        FirstOccurrencesPush(init, m);
        UuidsPush(FirstOccurrences(init), m);
      }
    }
  }

  lemma KnownDropped(ms: seq<Message>, m: Message)
    requires m.uuid in Uuids(ms)
    ensures FirstOccurrences(ms + [m]) == FirstOccurrences(ms)
  {
    FirstOccurrencesPush(ms, m);
  }

  ghost predicate NoUuidTwice(ms: seq<Message>) {
    forall i, j :: 0 <= i < j < |ms| && ms[i].uuid != "" ==> ms[i].uuid != ms[j].uuid
  }

  lemma {:induction false} EachUuidOnce(ms: seq<Message>)
    ensures NoUuidTwice(FirstOccurrences(ms))
  {
    if ms != [] {
      var (init, m) := (ms[..|ms| - 1], ms[|ms| - 1]);
      EachUuidOnce(init);
      NoUuidLost(init);
      var kept := FirstOccurrences(init);
      forall i | 0 <= i < |kept| && kept[i].uuid != "" ensures kept[i].uuid in Uuids(init) {
        UuidsAre(kept, kept[i].uuid);
      }
    }
  }

  /** Messages without a uuid are all kept. */
  function Unnamed(ms: seq<Message>): seq<Message> {
    if ms == [] then []
    else Unnamed(ms[..|ms| - 1]) + if ms[|ms| - 1].uuid == "" then [ms[|ms| - 1]] else []
  }

  lemma UnnamedPush(ms: seq<Message>, m: Message)
    ensures Unnamed(ms + [m]) == if m.uuid == "" then Unnamed(ms) + [m] else Unnamed(ms)
  {
    assert (ms + [m])[..|ms|] == ms;
  }

  lemma {:induction false} UnnamedKept(ms: seq<Message>)
    ensures Unnamed(FirstOccurrences(ms)) == Unnamed(ms)
  {
    if ms != [] {
      var (init, m) := (ms[..|ms| - 1], ms[|ms| - 1]);
      UnnamedKept(init);
      UuidsAre(init, "");
      var kept := FirstOccurrences(init);
      UnnamedPush(kept, m);
      assert kept + [] == kept;
    }
  }

  /** A segment that copies old messages and goes on adds only what goes on. */
  lemma {:induction false} CopiedHistoryOnce(past: seq<Message>, copied: seq<Message>, more: seq<Message>)
    requires forall m :: m in copied ==> m.uuid in Uuids(past)
    requires NoUuidTwice(more) && forall m :: m in more ==> m.uuid !in Uuids(past)
    ensures FirstOccurrences(past + copied + more) == FirstOccurrences(past) + more
  {
    if more != [] {
      hide FirstOccurrences, Uuids;
      var (init, m) := (more[..|more| - 1], more[|more| - 1]);
      InitLast(more);
      CopiedHistoryOnce(past, copied, init);
      Associates(past + copied, init, [m]);
      FirstOccurrencesPush(past + copied + init, m);
      FreshUuid(past, copied, init, m);
      Associates(FirstOccurrences(past), init, [m]);
    } else {
      assert past + copied + more == past + copied;
      CopiesDropped(past, copied);
      assert FirstOccurrences(past) + more == FirstOccurrences(past);
    }
  }

  lemma FreshUuid(past: seq<Message>, copied: seq<Message>, init: seq<Message>, m: Message)
    requires forall x :: x in copied ==> x.uuid in Uuids(past)
    requires NoUuidTwice(init + [m]) && m.uuid !in Uuids(past)
    ensures m.uuid !in Uuids(past + copied + init)
  {
    UuidsAppend(past + copied, init);
    UuidsAppend(past, copied);
    UuidsAre(copied, m.uuid);
    UuidsAre(init, m.uuid);
    forall i | 0 <= i < |init| && init[i].uuid != "" ensures init[i].uuid != m.uuid {
      assert (init + [m])[i] == init[i] && (init + [m])[|init|] == m;
    }
  }

  lemma {:induction false} UuidsAppend(a: seq<Message>, b: seq<Message>)
    ensures Uuids(a + b) == Uuids(a) + Uuids(b)
  {
    if b == [] {
      assert a + b == a;
    } else {
      UuidsAppend(a, b[..|b| - 1]);
      assert (a + b)[..|a + b| - 1] == a + b[..|b| - 1];
    }
  }

  lemma {:induction false} CopiesDropped(past: seq<Message>, copied: seq<Message>)
    requires forall m :: m in copied ==> m.uuid in Uuids(past)
    ensures FirstOccurrences(past + copied) == FirstOccurrences(past)
  {
    if copied == [] {
      assert past + copied == past;
    } else {
      var (init, m) := (copied[..|copied| - 1], copied[|copied| - 1]);
      CopiesDropped(past, init);
      assert past + copied == past + init + [m];
      FirstOccurrencesPush(past + init, m);
      UuidsAppend(past, init);
      assert m in copied;
    }
  }

  // ---- Joining

  /** `new Map(segments.map((s) => [s.sessionId, s])).get(id)`: the last one stored under the id. */
  function Stored(segments: seq<Conversation>, id: string): Option<Conversation> {
    if segments == [] then None
    else if segments[|segments| - 1].sessionId == id then Some(segments[|segments| - 1])
    else Stored(segments[..|segments| - 1], id)
  }

  /** The Builder's segments that are stored, in its order. */
  function OrderedSegments(ids: seq<string>, segments: seq<Conversation>): seq<Conversation> {
    if ids == [] then []
    else
      var last := Stored(segments, ids[|ids| - 1]);
      OrderedSegments(ids[..|ids| - 1], segments) + if last.Some? then [last.value] else []
  }

  function AllMessages(ordered: seq<Conversation>): seq<Message> {
    if ordered == [] then [] else AllMessages(ordered[..|ordered| - 1]) + ordered[|ordered| - 1].messages
  }

  function AllSubagents(ordered: seq<Conversation>): seq<string> {
    if ordered == [] then [] else AllSubagents(ordered[..|ordered| - 1]) + ordered[|ordered| - 1].subagents
  }

  function UsageOf(ordered: seq<Conversation>): Usage {
    if ordered == [] then NO_USAGE else Add(UsageOf(ordered[..|ordered| - 1]), ordered[|ordered| - 1].totalUsage)
  }

  function LastImport(ordered: seq<Conversation>): nat {
    if ordered == [] then 0
    else
      var before := LastImport(ordered[..|ordered| - 1]);
      if ordered[|ordered| - 1].importedAt > before then ordered[|ordered| - 1].importedAt else before
  }

  function UserMessages(ms: seq<Message>, user: bool): nat {
    if ms == [] then 0 else UserMessages(ms[..|ms| - 1], user) + if ms[|ms| - 1].user == user then 1 else 0
  }

  /** What a joined transcript is, for at least one stored segment. */
  ghost predicate IsJoined(b: Builder, ordered: seq<Conversation>, joined: Conversation)
    requires ordered != []
  {
    && joined.messages == FirstOccurrences(AllMessages(ordered))
    && joined.totalUsage == UsageOf(ordered)
    && joined.importedAt == LastImport(ordered)
    && joined.subagents == AllSubagents(ordered)
    && joined.sessionId == b.id && joined.summary == b.title && joined.memberEmail == b.memberEmail
    && joined.startedAt == b.startedAt && joined.endedAt == b.endedAt
    && joined.place == ordered[|ordered| - 1].place
    && joined.stats == TranscriptStats(|joined.messages|, UserMessages(joined.messages, true), UserMessages(joined.messages, false),
                                       |joined.subagents|, Total(joined.totalUsage))
  }

  /** A lone segment that already bears the Builder's id is the transcript, apart from its owner. */
  predicate Alone(b: Builder, ordered: seq<Conversation>) {
    |ordered| == 1 && ordered[0].sessionId == b.id
  }

  method AddMessage(had: seq<Message>, seen: set<string>, m: Message, ghost before: seq<Message>)
    returns (messages: seq<Message>, seen': set<string>)
    requires had == FirstOccurrences(before) && seen == Uuids(before)
    ensures messages == FirstOccurrences(before + [m]) && seen' == Uuids(before + [m])
  {
    FirstOccurrencesPush(before, m);
    UuidsPush(before, m);
    UuidsAre(before, "");
    messages, seen' := had, seen;
    if m.uuid != "" && m.uuid in seen {
      return;
    }
    if m.uuid != "" {
      seen' := seen' + {m.uuid};
    }
    messages := messages + [m];
  }

  lemma NextOf(before: seq<Message>, more: seq<Message>, i: nat)
    requires i < |more|
    ensures before + more[..i] + [more[i]] == before + more[..i + 1]
  {
    assert more[..i + 1] == more[..i] + [more[i]];
  }

  method AddMessages(had: seq<Message>, seen: set<string>, more: seq<Message>, ghost before: seq<Message>)
    returns (messages: seq<Message>, seen': set<string>)
    requires had == FirstOccurrences(before) && seen == Uuids(before)
    ensures messages == FirstOccurrences(before + more) && seen' == Uuids(before + more)
  {
    messages, seen' := had, seen;
    ghost var done := before;
    for i := 0 to |more|
      invariant done == before + more[..i]
      invariant messages == FirstOccurrences(done) && seen' == Uuids(done)
    {
      messages, seen' := AddMessage(messages, seen', more[i], done);
      NextOf(before, more, i);
      done := done + [more[i]];
    }
    assert done == before + more;
  }

  lemma GatheredNone()
    ensures FirstOccurrences([]) == [] && Uuids([]) == {}
  {
  }

  lemma GatheredStep(ordered: seq<Conversation>, i: nat)
    requires i < |ordered|
    ensures var (before, now, c) := (ordered[..i], ordered[..i + 1], ordered[i]);
      && AllMessages(now) == AllMessages(before) + c.messages && AllSubagents(now) == AllSubagents(before) + c.subagents
      && UsageOf(now) == Add(UsageOf(before), c.totalUsage)
      && LastImport(now) == if c.importedAt > LastImport(before) then c.importedAt else LastImport(before)
  {
    PrefixStep(ordered, i);
  }

  method JoinBuilderTranscript(builder: Builder, segments: seq<Conversation>) returns (joined: Option<Conversation>)
    ensures joined.None? <==> OrderedSegments(builder.segments, segments) == []
    ensures joined.Some? ==>
      var ordered := OrderedSegments(builder.segments, segments);
      if |ordered| == 1 && ordered[0].sessionId == builder.id then
        joined.value == ordered[0].(memberEmail := if builder.memberEmail.Some? then builder.memberEmail else ordered[0].memberEmail)
      else IsJoined(builder, ordered, joined.value)
  {
    var ordered := OrderedSegments(builder.segments, segments);
    hide OrderedSegments, FirstOccurrences, Uuids;
    if |ordered| == 0 {
      return None;
    }
    if Alone(builder, ordered) {
      return Some(ordered[0].(memberEmail := if builder.memberEmail.Some? then builder.memberEmail else ordered[0].memberEmail));
    }
    var seen: set<string> := {};
    var messages: seq<Message> := [];
    GatheredNone();
    var totalUsage := NO_USAGE;
    var importedAt: nat := 0;
    var subagents: seq<string> := [];
    for i := 0 to |ordered|
      invariant messages == FirstOccurrences(AllMessages(ordered[..i])) && seen == Uuids(AllMessages(ordered[..i]))
      invariant totalUsage == UsageOf(ordered[..i]) && importedAt == LastImport(ordered[..i])
      invariant subagents == AllSubagents(ordered[..i])
    {
      GatheredStep(ordered, i);
      messages, seen := AddMessages(messages, seen, ordered[i].messages, AllMessages(ordered[..i]));
      totalUsage := Add(totalUsage, ordered[i].totalUsage);
      importedAt := if ordered[i].importedAt > importedAt then ordered[i].importedAt else importedAt;
      subagents := subagents + ordered[i].subagents;
    }
    assert ordered[..|ordered|] == ordered;
    var newest := ordered[|ordered| - 1];
    var stats := TranscriptStats(|messages|, UserMessages(messages, true), UserMessages(messages, false), |subagents|,
                                 Total(totalUsage));
    joined := Some(Conversation(builder.id, builder.memberEmail, newest.place, builder.startedAt, builder.endedAt,
                                importedAt, builder.title, stats, totalUsage, messages, subagents));
  }

  // ---- What the joined transcript shows

  lemma {:induction false} UserMessagesSum(ms: seq<Message>)
    ensures UserMessages(ms, true) + UserMessages(ms, false) == |ms|
  {
    if ms != [] {
      UserMessagesSum(ms[..|ms| - 1]);
    }
  }

  lemma {:induction false} AllMessagesUuids(ordered: seq<Conversation>, u: string)
    ensures u in Uuids(AllMessages(ordered)) <==> exists i :: 0 <= i < |ordered| && u in Uuids(ordered[i].messages)
  {
    if ordered != [] {
      hide Uuids, AllMessages;
      var (init, last) := (ordered[..|ordered| - 1], |ordered| - 1);
      AllMessagesUuids(init, u);
      AllMessagesLast(ordered);
      UuidsAppend(AllMessages(init), ordered[last].messages);
      forall i | 0 <= i < last ensures ordered[i] == init[i] {
      }
    }
  }

  lemma AllMessagesLast(ordered: seq<Conversation>)
    requires ordered != []
    ensures AllMessages(ordered) == AllMessages(ordered[..|ordered| - 1]) + ordered[|ordered| - 1].messages
  {
  }

  /** Every uuid of every stored segment is in the joined transcript, once; and its counts add up. */
  lemma JoinedTranscript(b: Builder, ordered: seq<Conversation>, joined: Conversation, u: string)
    requires ordered != [] && IsJoined(b, ordered, joined)
    ensures u in Uuids(joined.messages) <==> exists i :: 0 <= i < |ordered| && u in Uuids(ordered[i].messages)
    ensures NoUuidTwice(joined.messages)
    ensures joined.stats.userMessages + joined.stats.assistantMessages == joined.stats.messages
  {
    NoUuidLost(AllMessages(ordered));
    EachUuidOnce(AllMessages(ordered));
    AllMessagesUuids(ordered, u);
    UserMessagesSum(joined.messages);
  }

  // ---- What is joined, by positions

  /** The positions of messages without a uuid and of the first with each. */
  function NewAt(ms: seq<Message>): set<nat> {
    set i: nat | i < |ms| && IsNew(ms, i)
  }

  predicate IsNew(ms: seq<Message>, i: nat)
    requires i < |ms|
  {
    ms[i].uuid == "" || forall j :: 0 <= j < i ==> ms[j].uuid != ms[i].uuid
  }

  /** What is kept of the messages is each without a uuid and the first with each uuid, in order. */
  lemma {:induction false} FirstOccurrencesPicked(ms: seq<Message>)
    ensures Picks(ms, NewAt(ms), FirstOccurrences(ms))
  {
    if ms == [] {
      assert NewAt(ms) == {};
      PicksNone(ms);
    } else {
      var (init, m) := (ms[..|ms| - 1], ms[|ms| - 1]);
      FirstOccurrencesPicked(init);
      UuidsAre(init, m.uuid);
      NewAtStep(ms);
      hide Picks, NewAt, Uuids;
      PicksStep(ms, NewAt(ms), NewAt(init), FirstOccurrences(init), IsNew(ms, |init|));
      assert FirstOccurrences(init) + [] == FirstOccurrences(init);
    }
  }

  lemma NewAtStep(ms: seq<Message>)
    requires ms != []
    ensures var (init, last) := (ms[..|ms| - 1], |ms| - 1);
      && (forall i: nat :: i in NewAt(ms) <==> i in NewAt(init) || (i == last && IsNew(ms, last)))
      && (IsNew(ms, last) <==> !exists i :: 0 <= i < |init| && init[i].uuid == ms[last].uuid && ms[last].uuid != "")
  {
    var init := ms[..|ms| - 1];
    forall i: nat | i < |init| ensures IsNew(ms, i) <==> IsNew(init, i) {
      assert forall j :: 0 <= j <= i ==> init[j] == ms[j];
    }
  }

  /** The last conversation stored under its id. */
  predicate IsLastStored(segments: seq<Conversation>, j: nat) {
    j < |segments| && forall k :: j < k < |segments| ==> segments[k].sessionId != segments[j].sessionId
  }

  predicate IsStored(segments: seq<Conversation>, id: string) {
    exists j :: 0 <= j < |segments| && segments[j].sessionId == id
  }

  function StoredAt(ids: seq<string>, segments: seq<Conversation>): set<nat> {
    set i: nat | i < |ids| && IsStored(segments, ids[i])
  }

  function SessionsOf(cs: seq<Conversation>): seq<string> {
    seq(|cs|, i requires 0 <= i < |cs| => cs[i].sessionId)
  }

  lemma {:induction false} StoredIs(segments: seq<Conversation>, id: string)
    ensures Stored(segments, id).Some? <==> IsStored(segments, id)
    ensures Stored(segments, id).Some? ==>
      Stored(segments, id).value.sessionId == id &&
      exists j: nat :: IsLastStored(segments, j) && segments[j] == Stored(segments, id).value
  {
    if segments != [] {
      var (init, last) := (segments[..|segments| - 1], |segments| - 1);
      StoredIs(init, id);
      assert forall j :: 0 <= j < last ==> segments[j] == init[j];
      assert IsStored(segments, id) <==> IsStored(init, id) || segments[last].sessionId == id;
      if segments[last].sessionId == id {
        assert IsLastStored(segments, last);
      } else if Stored(init, id).Some? {
        var j: nat :| IsLastStored(init, j) && init[j] == Stored(init, id).value;
        assert IsLastStored(segments, j);
      }
    }
  }

  /** What is joined are the stored ones of the Builder's segments, in its order, each as stored last. */
  lemma {:induction false} OrderedSegmentsAre(ids: seq<string>, segments: seq<Conversation>)
    ensures Picks(ids, StoredAt(ids, segments), SessionsOf(OrderedSegments(ids, segments)))
    ensures forall s :: s in OrderedSegments(ids, segments) ==> exists j: nat :: IsLastStored(segments, j) && segments[j] == s
  {
    if ids == [] {
      assert StoredAt(ids, segments) == {} && SessionsOf([]) == [];
      PicksNone(ids);
    } else {
      var (init, id) := (ids[..|ids| - 1], ids[|ids| - 1]);
      OrderedSegmentsAre(init, segments);
      StoredIs(segments, id);
      var rest := OrderedSegments(init, segments);
      SessionsPush(rest, Stored(segments, id));
      hide Picks, IsStored, SessionsOf, IsLastStored;
      PicksStep(ids, StoredAt(ids, segments), StoredAt(init, segments), SessionsOf(rest), IsStored(segments, id));
    }
  }

  lemma SessionsPush(rest: seq<Conversation>, last: Option<Conversation>)
    ensures SessionsOf(rest + if last.Some? then [last.value] else []) ==
            if last.Some? then SessionsOf(rest) + [last.value.sessionId] else SessionsOf(rest)
  {
    assert rest + [] == rest;
  }

  /** What is gathered from some segments and then more. */
  lemma {:induction false} GatheredAppend(a: seq<Conversation>, b: seq<Conversation>)
    ensures AllMessages(a + b) == AllMessages(a) + AllMessages(b)
    ensures AllSubagents(a + b) == AllSubagents(a) + AllSubagents(b)
    ensures LastImport(a + b) == if LastImport(a) >= LastImport(b) then LastImport(a) else LastImport(b)
    ensures var (x, y, z) := (UsageOf(a), UsageOf(b), UsageOf(a + b));
      && z.input == x.input + y.input && z.output == x.output + y.output
      && z.cacheRead == x.cacheRead + y.cacheRead && z.cacheCreation == x.cacheCreation + y.cacheCreation
  {
    if b == [] {
      assert a + b == a;
    } else {
      InitOfAppend(a, b);
      var (init, last) := (b[..|b| - 1], b[|b| - 1]);
      GatheredAppend(a, init);
      Associates(AllMessages(a), AllMessages(init), last.messages);
      Associates(AllSubagents(a), AllSubagents(init), last.subagents);
    }
  }

  lemma GatheredOne(c: Conversation)
    ensures AllMessages([c]) == c.messages && AllSubagents([c]) == c.subagents
    ensures LastImport([c]) == c.importedAt && UsageOf([c]) == c.totalUsage
  {
    assert [c][..0] == [];
  }

  function UserAt(ms: seq<Message>, user: bool): set<nat> {
    set i: nat | i < |ms| && ms[i].user == user
  }

  /** How many messages are the user's, or are not. */
  lemma {:induction false} UserMessagesCount(ms: seq<Message>, user: bool)
    ensures UserMessages(ms, user) == |UserAt(ms, user)|
  {
    if ms == [] {
      assert UserAt(ms, user) == {};
    } else {
      var (init, last) := (ms[..|ms| - 1], |ms| - 1);
      UserMessagesCount(init, user);
      UserAtStep(ms, user);
      hide UserAt;
      if ms[last].user == user {
        assert UserAt(ms, user) == UserAt(init, user) + {last};
      } else {
        assert UserAt(ms, user) == UserAt(init, user);
      }
    }
  }

  lemma UserAtStep(ms: seq<Message>, user: bool)
    requires ms != []
    ensures var (init, last) := (ms[..|ms| - 1], |ms| - 1);
      && last !in UserAt(init, user)
      && forall i: nat :: i in UserAt(ms, user) <==> i in UserAt(init, user) || (i == last && ms[last].user == user)
  {
  }

  // ---- Resolving a name

  datatype Resolution = Unknown | Ambiguous(choices: seq<BuilderSummary>) | Resolved(builder: BuilderSummary)

  /** The lookup part of resolving: like finding, but several matches are reported. */
  function ResolveBuilder(bs: seq<BuilderSummary>, idOrPrefix: string): Resolution {
    var q := Trim(idOrPrefix);
    if q == "" then Unknown
    else if Exact(bs, q).Some? then Resolved(Exact(bs, q).value)
    else
      var matches := Where(HoldingPrefix(q), bs);
      if |matches| > 1 then Ambiguous(matches)
      else if matches == [] then Unknown
      else Resolved(matches[0])
  }

  /** Finding a Builder and resolving it agree, but for the report of an ambiguous name. */
  lemma FindAgreesWithResolve(bs: seq<BuilderSummary>, name: string, b: BuilderSummary)
    ensures FindBuilder(bs, name) == Some(b) <==> ResolveBuilder(bs, name) == Resolved(b)
  {
  }

  lemma {:induction false} WhereMembers(p: BuilderSummary -> bool, bs: seq<BuilderSummary>, b: BuilderSummary)
    ensures b in Where(p, bs) <==> b in bs && p(b)
  {
    if bs != [] {
      WhereMembers(p, bs[1..], b);
      assert bs == [bs[0]] + bs[1..];
    }
  }

  lemma {:induction false} WhereMany(p: BuilderSummary -> bool, bs: seq<BuilderSummary>)
    ensures |Where(p, bs)| > 1 <==> exists i, j :: 0 <= i < j < |bs| && p(bs[i]) && p(bs[j])
  {
    if bs != [] {
      var rest := bs[1..];
      WhereMany(p, rest);
      if |Where(p, rest)| > 1 {
        var i, j :| 0 <= i < j < |rest| && p(rest[i]) && p(rest[j]);
        assert p(bs[i + 1]) && p(bs[j + 1]);
      } else if p(bs[0]) && Where(p, rest) != [] {
        WhereMembers(p, rest, Where(p, rest)[0]);
        var j :| 0 <= j < |rest| && rest[j] == Where(p, rest)[0];
        assert p(bs[0]) && p(bs[j + 1]);
      }
      if i, j :| 0 <= i < j < |bs| && p(bs[i]) && p(bs[j]) {
        WhereMembers(p, rest, bs[j]);
        assert rest[j - 1] == bs[j];
        assert i > 0 ==> p(rest[i - 1]) && p(rest[j - 1]);
      }
    }
  }

  /** A name is ambiguous exactly when it names nothing exactly and begins a segment id of two Builders. */
  lemma AmbiguousIff(bs: seq<BuilderSummary>, name: string)
    ensures var q := Trim(name);
      ResolveBuilder(bs, name).Ambiguous? <==>
        (q != "" && Exact(bs, q).None?
         && exists i, j :: 0 <= i < j < |bs| && HoldingPrefix(q)(bs[i]) && HoldingPrefix(q)(bs[j]))
  {
    WhereMany(HoldingPrefix(Trim(name)), bs);
  }

  lemma {:induction false} WherePush(p: BuilderSummary -> bool, bs: seq<BuilderSummary>, b: BuilderSummary)
    ensures Where(p, bs + [b]) == if p(b) then Where(p, bs) + [b] else Where(p, bs)
  {
    if bs == [] {
      assert bs + [b] == [b] && [b][1..] == [];
    } else {
      assert (bs + [b])[0] == bs[0] && (bs + [b])[1..] == bs[1..] + [b];
      WherePush(p, bs[1..], b);
      WhereCons(p, bs);
      WhereCons(p, bs + [b]);
      hide Where;
      Associates(if p(bs[0]) then [bs[0]] else [], Where(p, bs[1..]), [b]);
    }
  }

  lemma WhereCons(p: BuilderSummary -> bool, bs: seq<BuilderSummary>)
    requires bs != []
    ensures Where(p, bs) == (if p(bs[0]) then [bs[0]] else []) + Where(p, bs[1..])
  {
  }

  /** The matches are listed in the order of the Builders. */
  lemma {:induction false} WherePicks(p: BuilderSummary -> bool, bs: seq<BuilderSummary>)
    ensures Picks(bs, (set i: nat | i < |bs| && p(bs[i])), Where(p, bs))
  {
    var keep := set i: nat | i < |bs| && p(bs[i]);
    if bs == [] {
      assert keep == {};
      PicksNone(bs);
    } else {
      var (init, b) := (bs[..|bs| - 1], bs[|bs| - 1]);
      WherePicks(p, init);
      WherePush(p, init, b);
      InitLast(bs);
      hide Picks;
      PicksStep(bs, keep, (set i: nat | i < |init| && p(init[i])), Where(p, init), p(b));
    }
  }

  predicate Begins(b: BuilderSummary, q: string) {
    exists s :: s in b.segments && q <= s
  }

  /** The first with the id; failing that the first with the segment; failing that the only one with a segment that begins so. */
  predicate IsNamed(bs: seq<BuilderSummary>, q: string, i: nat) {
    && i < |bs|
    && if exists j :: 0 <= j < |bs| && bs[j].id == q then
         bs[i].id == q && forall j :: 0 <= j < i ==> bs[j].id != q
       else if exists j :: 0 <= j < |bs| && q in bs[j].segments then
         q in bs[i].segments && forall j :: 0 <= j < i ==> q !in bs[j].segments
       else
         Begins(bs[i], q) && forall j :: 0 <= j < |bs| && j != i ==> !Begins(bs[j], q)
  }

  lemma {:induction false} FirstWhereIff(p: BuilderSummary -> bool, bs: seq<BuilderSummary>, i: nat)
    requires i < |bs| && p(bs[i]) && forall j :: 0 <= j < i ==> !p(bs[j])
    ensures FirstWhere(p, bs) == Some(bs[i])
  {
    if i > 0 {
      assert !p(bs[0]);
      assert bs[1..][i - 1] == bs[i];
      forall j | 0 <= j < i - 1 ensures !p(bs[1..][j]) {
        assert bs[1..][j] == bs[j + 1];
      }
      FirstWhereIff(p, bs[1..], i - 1);
    }
  }

  lemma {:induction false} FirstSuch(p: BuilderSummary -> bool, bs: seq<BuilderSummary>) returns (i: nat)
    requires exists j :: 0 <= j < |bs| && p(bs[j])
    ensures i < |bs| && p(bs[i]) && forall j :: 0 <= j < i ==> !p(bs[j])
  {
    if p(bs[0]) {
      i := 0;
    } else {
      var j :| 0 <= j < |bs| && p(bs[j]);
      assert bs[1..][j - 1] == bs[j];
      var k := FirstSuch(p, bs[1..]);
      i := k + 1;
      forall j | 0 <= j < i ensures !p(bs[j]) {
        assert j > 0 ==> bs[1..][j - 1] == bs[j];
      }
    }
  }

  lemma OneMatch(p: BuilderSummary -> bool, bs: seq<BuilderSummary>)
    ensures |Where(p, bs)| == 1 <==> exists i :: 0 <= i < |bs| && p(bs[i]) && forall j :: 0 <= j < |bs| && j != i ==> !p(bs[j])
    ensures forall i :: 0 <= i < |bs| && p(bs[i]) && |Where(p, bs)| == 1 ==> Where(p, bs)[0] == bs[i]
  {
    WhereMany(p, bs);
    forall b ensures b in Where(p, bs) <==> b in bs && p(b) {
      WhereMembers(p, bs, b);
    }
    if Where(p, bs) != [] {
      assert Where(p, bs)[0] in Where(p, bs);
    }
    forall i | 0 <= i < |bs| && p(bs[i]) ensures bs[i] in Where(p, bs) {
    }
  }

  /** Which Builder a name finds. */
  lemma FoundIff(bs: seq<BuilderSummary>, name: string, b: BuilderSummary)
    ensures FindBuilder(bs, name) == Some(b) <==>
            Trim(name) != "" && exists i: nat :: IsNamed(bs, Trim(name), i) && bs[i] == b
  {
    var q := Trim(name);
    FirstWhereIs(Named(q), bs);
    FirstWhereIs(Holding(q), bs);
    if exists j :: 0 <= j < |bs| && bs[j].id == q {
      var j :| 0 <= j < |bs| && bs[j].id == q;
      assert Named(q)(bs[j]);
      var i := FirstSuch(Named(q), bs);
      FirstWhereIff(Named(q), bs, i);
      OnlyFirst(bs, q, i);
    } else if exists j :: 0 <= j < |bs| && q in bs[j].segments {
      var j :| 0 <= j < |bs| && q in bs[j].segments;
      assert Holding(q)(bs[j]);
      var i := FirstSuch(Holding(q), bs);
      FirstWhereIff(Holding(q), bs, i);
      OnlyFirst(bs, q, i);
    } else {
      OneMatch(HoldingPrefix(q), bs);
    }
  }

  lemma OnlyFirst(bs: seq<BuilderSummary>, q: string, i: nat)
    requires i < |bs| && (bs[i].id == q || ((forall j :: 0 <= j < |bs| ==> bs[j].id != q) && q in bs[i].segments))
    requires forall j :: 0 <= j < i ==> if bs[i].id == q then bs[j].id != q else q !in bs[j].segments
    ensures forall k: nat :: IsNamed(bs, q, k) <==> k == i
  {
  }
}
