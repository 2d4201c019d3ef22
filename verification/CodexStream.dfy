/**
 * Codex's JSONL event stream. The activity stream retains a few lines and hands
 * them over, at the end of a turn, as an excerpt that is parsed in place of the
 * full output.
 */
module CodexStream {
  import opened Prelude
  import opened Text
  import opened AgentUsage

  datatype RawUsage = RawUsage(input: Field, output: Field, cached: Field, cacheWrite: Field)

  /** One line of output, parsed. Fields that are absent or of another type are `None`. */
  datatype Event =
    | NotJson
    | ThreadStarted(threadId: Option<string>)
    | AgentMessage(text: Option<string>)
    | TurnCompleted(usage: Option<RawUsage>)
    | TurnFailed(message: Option<string>)
    | OtherEvent(kind: string)

  datatype Response = Response(result: string, sessionId: string, usage: Option<Usage>)

  datatype Outcome = Ok(response: Response) | Failed(message: string) | Missing | Empty

  /** Codex's input count includes its cached tokens; the stored input count excludes them. */
  function MapUsage(raw: RawUsage): (u: Option<Usage>)
    ensures u.Some? <==>
      IsCount(raw.input) && IsCount(raw.output) && IsOptionalCount(raw.cached) && IsOptionalCount(raw.cacheWrite)
    ensures u.Some? ==>
      && u.value.cacheRead == CountOr0(raw.cached) && u.value.cacheCreation == CountOr0(raw.cacheWrite)
      && u.value.output == raw.output.value
      && u.value.input >= 0.0 && u.value.input + u.value.cacheRead ==
        if CountOr0(raw.cached) <= raw.input.value then raw.input.value else CountOr0(raw.cached)
    ensures u.Some? && CountOr0(raw.cached) <= raw.input.value ==>
      Total(u.value) == raw.input.value + raw.output.value + CountOr0(raw.cacheWrite)
  {
    if !IsCount(raw.input) || !IsCount(raw.output) then None
    else if !IsOptionalCount(raw.cached) || !IsOptionalCount(raw.cacheWrite) then None
    else
      var cached := CountOr0(raw.cached);
      var input := raw.input.value - cached;
      Some(Usage(if input > 0.0 then input else 0.0, raw.output.value, cached, CountOr0(raw.cacheWrite)))
  }

  // ---- What a list of lines says

  function SessionOf(es: seq<Event>): Option<string> {
    if es == [] then None
    else
      var e := es[|es| - 1];
      if e.ThreadStarted? && e.threadId.Some? then e.threadId else SessionOf(es[..|es| - 1])
  }

  /** The text of a message that counts as part of the result. */
  function Said(e: Event): seq<string> {
    if e.AgentMessage? && e.text.Some? && !IsBlank(e.text.value) then [e.text.value] else []
  }

  function Messages(es: seq<Event>): seq<string> {
    if es == [] then [] else Messages(es[..|es| - 1]) + Said(es[|es| - 1])
  }

  function UsageOf(es: seq<Event>): Option<Usage> {
    if es == [] then None
    else
      var e := es[|es| - 1];
      if e.TurnCompleted? && e.usage.Some? then MapUsage(e.usage.value) else UsageOf(es[..|es| - 1])
  }

  /** The message of the last failure; empty when there is none to report. */
  function FailureOf(es: seq<Event>): string {
    if es == [] then ""
    else
      var e := es[|es| - 1];
      if e.TurnFailed? then (if e.message.Some? then e.message.value else "unknown error")
      else FailureOf(es[..|es| - 1])
  }

  predicate Completed(es: seq<Event>) {
    exists i :: 0 <= i < |es| && es[i].TurnCompleted?
  }

  /** The outcome, from what the lines say. */
  function Judge(messages: seq<string>, session: Option<string>, usage: Option<Usage>, failure: string, completed: bool): Outcome {
    if failure != "" then Failed(failure)
    else if messages == [] || OrEmpty(session) == "" || !completed then Missing
    else Ok(Response(Join(messages, "\n\n"), session.value, usage))
  }

  /** What parsing `lines` must give. */
  function Parsed(lines: seq<Event>): Outcome {
    if lines == [] then Empty
    else Judge(Messages(lines), SessionOf(lines), UsageOf(lines), FailureOf(lines), Completed(lines))
  }

  /** The program's single scan over the lines. */
  method ParseResponse(lines: seq<Event>) returns (outcome: Outcome)
    ensures outcome == Parsed(lines)
  {
    if lines == [] {
      return Empty;
    }
    var sessionId: Option<string>, usage: Option<Usage>, failure, sawTurnCompleted, messages := None, None, "", false, [];
    for i := 0 to |lines|
      invariant sessionId == SessionOf(lines[..i]) && usage == UsageOf(lines[..i])
      invariant failure == FailureOf(lines[..i]) && messages == Messages(lines[..i])
      invariant sawTurnCompleted == Completed(lines[..i])
    {
      assert lines[..i + 1][..i] == lines[..i];
      CompletedStep(lines, i);
      match lines[i] {
        case ThreadStarted(id) => sessionId := if id.Some? then id else sessionId;
        case AgentMessage(text) =>
          if text.Some? && !IsBlank(text.value) {
            messages := messages + [text.value];
          }
        case TurnCompleted(raw) =>
          sawTurnCompleted := true;
          if raw.Some? {
            usage := MapUsage(raw.value);
          }
        case TurnFailed(message) => failure := if message.Some? then message.value else "unknown error";
        case _ =>
      }
    }
    assert lines[..|lines|] == lines;
    if failure != "" {
      return Failed(failure);
    }
    if messages == [] || OrEmpty(sessionId) == "" || !sawTurnCompleted {
      return Missing;
    }
    return Ok(Response(Join(messages, "\n\n"), sessionId.value, usage));
  }

  // ---- The outcome, told by the events and where they stand

  predicate IsLastFailure(es: seq<Event>, i: nat) {
    i < |es| && es[i].TurnFailed? && forall j :: i < j < |es| ==> !es[j].TurnFailed?
  }

  /** The last failure says `m`, and that is not empty. */
  ghost predicate Fails(es: seq<Event>, m: string) {
    m != "" && exists i: nat :: IsLastFailure(es, i) && m == if es[i].message.Some? then es[i].message.value else "unknown error"
  }

  /** The last thread line with an id. */
  predicate IsLastSession(es: seq<Event>, i: nat) {
    && i < |es| && es[i].ThreadStarted? && es[i].threadId.Some?
    && forall j :: i < j < |es| && es[j].ThreadStarted? ==> es[j].threadId.None?
  }

  /** The last completion with a usage. */
  predicate IsLastUsage(es: seq<Event>, i: nat) {
    && i < |es| && es[i].TurnCompleted? && es[i].usage.Some?
    && forall j :: i < j < |es| && es[j].TurnCompleted? ==> es[j].usage.None?
  }

  predicate IsText(e: Event) {
    e.AgentMessage? && e.text.Some? && !IsBlank(e.text.value)
  }

  function TextAt(es: seq<Event>): set<nat> {
    set i: nat | i < |es| && IsText(es[i])
  }

  /** The texts of the lines; empty where a line has none. */
  function Texts(es: seq<Event>): seq<string> {
    seq(|es|, i requires 0 <= i < |es| => if es[i].AgentMessage? && es[i].text.Some? then es[i].text.value else "")
  }

  lemma {:induction false} FailureIs(es: seq<Event>, i: nat)
    requires IsLastFailure(es, i)
    ensures FailureOf(es) == if es[i].message.Some? then es[i].message.value else "unknown error"
  {
    if i < |es| - 1 {
      FailureIs(es[..|es| - 1], i);
    }
  }

  lemma {:induction false} LastFailure(es: seq<Event>) returns (i: nat)
    requires FailureOf(es) != ""
    ensures IsLastFailure(es, i)
  {
    i := |es| - 1;
    if !es[i].TurnFailed? {
      i := LastFailure(es[..|es| - 1]);
    }
  }

  lemma {:induction false} SessionIs(es: seq<Event>, i: nat)
    requires IsLastSession(es, i)
    ensures SessionOf(es) == es[i].threadId
  {
    if i < |es| - 1 {
      SessionIs(es[..|es| - 1], i);
    }
  }

  lemma {:induction false} LastSession(es: seq<Event>) returns (i: nat)
    requires SessionOf(es).Some?
    ensures IsLastSession(es, i)
  {
    i := |es| - 1;
    if !(es[i].ThreadStarted? && es[i].threadId.Some?) {
      i := LastSession(es[..|es| - 1]);
    }
  }

  lemma {:induction false} UsageIs(es: seq<Event>, i: nat)
    requires IsLastUsage(es, i)
    ensures UsageOf(es) == MapUsage(es[i].usage.value)
  {
    if i < |es| - 1 {
      UsageIs(es[..|es| - 1], i);
    }
  }

  lemma {:induction false} LastUsage(es: seq<Event>) returns (i: nat)
    requires UsageOf(es).Some?
    ensures IsLastUsage(es, i)
  {
    i := |es| - 1;
    if !(es[i].TurnCompleted? && es[i].usage.Some?) {
      i := LastUsage(es[..|es| - 1]);
    }
  }

  lemma {:induction false} MessagesPicked(es: seq<Event>)
    ensures Picks(Texts(es), TextAt(es), Messages(es))
  {
    if es == [] {
      assert TextAt(es) == {};
      PicksNone(Texts(es));
    } else {
      var (init, e) := (es[..|es| - 1], es[|es| - 1]);
      MessagesPicked(init);
      TextsStep(es);
      hide Picks, Texts, TextAt, IsText;
      PicksStep(Texts(es), TextAt(es), TextAt(init), Messages(init), IsText(e));
      SaidText(init, e);
    }
  }

  lemma TextsStep(es: seq<Event>)
    requires es != []
    ensures var (init, last) := (es[..|es| - 1], |es| - 1);
      && |Texts(es)| == |es| && Texts(es)[..last] == Texts(init)
      && (IsText(es[last]) ==> Texts(es)[last] == es[last].text.value)
      && forall i: nat :: i in TextAt(es) <==> i in TextAt(init) || (i == last && IsText(es[last]))
  {
  }

  lemma SaidText(init: seq<Event>, e: Event)
    ensures Messages(init) + Said(e) == if IsText(e) then Messages(init) + [e.text.value] else Messages(init)
  {
  }

  lemma {:induction false} SomeText(es: seq<Event>)
    ensures Messages(es) == [] <==> forall i :: 0 <= i < |es| ==> !IsText(es[i])
  {
    if es != [] {
      SomeText(es[..|es| - 1]);
      SaidText(es[..|es| - 1], es[|es| - 1]);
    }
  }

  /** The output reports a failure exactly when its last failure says something, and then that. */
  lemma FailedIff(es: seq<Event>, m: string)
    requires es != []
    ensures Parsed(es) == Failed(m) <==> Fails(es, m)
  {
    if FailureOf(es) != "" {
      var i := LastFailure(es);
      FailureIs(es, i);
    }
    if Fails(es, m) {
      var i: nat :| IsLastFailure(es, i) && m == if es[i].message.Some? then es[i].message.value else "unknown error";
      FailureIs(es, i);
    }
  }

  /** The output is an answer exactly when it reports no failure, completes, and has a text and a session id. */
  lemma OkIff(es: seq<Event>)
    requires es != []
    ensures Parsed(es).Ok? <==>
      && (forall m :: !Fails(es, m))
      && (exists i :: 0 <= i < |es| && es[i].TurnCompleted?)
      && (exists i :: 0 <= i < |es| && IsText(es[i]))
      && exists i: nat :: IsLastSession(es, i) && es[i].threadId.value != ""
  {
    hide Fails, IsLastSession, IsText, FailureOf, SessionOf, Messages;
    NothingFails(es);
    SessionThere(es);
    SomeText(es);
  }

  lemma NothingFails(es: seq<Event>)
    requires es != []
    ensures FailureOf(es) == "" <==> forall m :: !Fails(es, m)
  {
    hide Fails;
    FailedIff(es, FailureOf(es));
    forall m | Fails(es, m) ensures FailureOf(es) != "" {
      FailedIff(es, m);
    }
  }

  lemma SessionThere(es: seq<Event>)
    ensures OrEmpty(SessionOf(es)) != "" <==> exists i: nat :: IsLastSession(es, i) && es[i].threadId.value != ""
  {
    if SessionOf(es).Some? {
      var i := LastSession(es);
      SessionIs(es, i);
    }
    forall i: nat | IsLastSession(es, i) ensures SessionOf(es) == es[i].threadId {
      SessionIs(es, i);
    }
  }

  /** The answer: all texts in order, the last session id, and what the last usage maps to. */
  lemma OkSays(es: seq<Event>) returns (texts: seq<string>, i: nat)
    requires Parsed(es).Ok?
    ensures Picks(Texts(es), TextAt(es), texts) && Parsed(es).response.result == Join(texts, "\n\n")
    ensures IsLastSession(es, i) && es[i].threadId == Some(Parsed(es).response.sessionId)
    ensures Parsed(es).response.usage.Some? ==> exists k: nat :: IsLastUsage(es, k)
    ensures forall k: nat :: IsLastUsage(es, k) ==> Parsed(es).response.usage == MapUsage(es[k].usage.value)
  {
    texts := Messages(es);
    MessagesPicked(es);
    i := LastSession(es);
    SessionIs(es, i);
    if UsageOf(es).Some? {
      var k := LastUsage(es);
    }
    forall k: nat | IsLastUsage(es, k) ensures UsageOf(es) == MapUsage(es[k].usage.value) {
      UsageIs(es, k);
    }
  }

  lemma CompletedStep(es: seq<Event>, i: nat)
    requires i < |es|
    ensures Completed(es[..i + 1]) <==> Completed(es[..i]) || es[i].TurnCompleted?
  {
    assert forall j :: 0 <= j < i ==> es[..i + 1][j] == es[..i][j];
    assert es[..i + 1][i] == es[i];
  }

  // ---- The activity stream

  function LastThread(es: seq<Event>): seq<Event> {
    if es == [] then []
    else if es[|es| - 1].ThreadStarted? then [es[|es| - 1]]
    else LastThread(es[..|es| - 1])
  }

  function MessageLines(es: seq<Event>): seq<Event> {
    if es == [] then []
    else MessageLines(es[..|es| - 1]) + if es[|es| - 1].AgentMessage? then [es[|es| - 1]] else []
  }

  /** The excerpt emitted when the last line of `es` completes a turn. */
  function Excerpt(es: seq<Event>): seq<Event>
    requires es != []
  {
    LastThread(es[..|es| - 1]) + MessageLines(es[..|es| - 1]) + [es[|es| - 1]]
  }

  /** The excerpt retained over a stream: that of the last turn completion. */
  function Retained(es: seq<Event>): Option<seq<Event>> {
    if es == [] then None
    else if es[|es| - 1].TurnCompleted? then Some(Excerpt(es))
    else Retained(es[..|es| - 1])
  }

  class CodexActivityStream {
    var threadStartedLine: Option<Event>
    var agentMessageLines: seq<Event>
    ghost var seen: seq<Event>

    ghost predicate Valid()
      reads this
    {
      && LastThread(seen) == (if threadStartedLine.Some? then [threadStartedLine.value] else [])
      && agentMessageLines == MessageLines(seen)
    }

    constructor ()
      ensures Valid() && seen == []
    {
      threadStartedLine, agentMessageLines, seen := None, [], [];
    }

    method ParseLine(line: Event) returns (raw: Option<seq<Event>>)
      requires Valid()
      modifies this
      ensures Valid() && seen == old(seen) + [line]
      ensures raw == if line.TurnCompleted? then Some(Excerpt(seen)) else None
    {
      ghost var before := seen;
      seen := seen + [line];
      assert seen[..|seen| - 1] == before;
      if line.ThreadStarted? {
        threadStartedLine := Some(line);
      }
      if line.TurnCompleted? {
        return Some((if threadStartedLine.Some? then [threadStartedLine.value] else []) + agentMessageLines + [line]);
      }
      if line.AgentMessage? {
        agentMessageLines := agentMessageLines + [line];
      }
      return None;
    }
  }

  /** A turn as the supervisor watches it: it keeps the last result line. */
  method WatchTurn(lines: seq<Event>) returns (result: Option<seq<Event>>)
    ensures result == Retained(lines)
  {
    var stream := new CodexActivityStream();
    result := None;
    for i := 0 to |lines|
      invariant fresh(stream) && stream.Valid() && stream.seen == lines[..i]
      invariant result == Retained(lines[..i])
    {
      assert lines[..i + 1][..i] == lines[..i];
      var raw := stream.ParseLine(lines[i]);
      if raw.Some? {
        result := raw;
      }
    }
    assert lines[..|lines|] == lines;
  }

  // ---- Parsing the excerpt is parsing the output

  lemma {:induction false} MessagesAppend(a: seq<Event>, b: seq<Event>)
    ensures Messages(a + b) == Messages(a) + Messages(b)
  {
    if b == [] {
      assert a + b == a;
    } else {
      assert (a + b)[..|a + b| - 1] == a + b[..|b| - 1];
      MessagesAppend(a, b[..|b| - 1]);
    }
  }

  lemma {:induction false} SessionAppend(a: seq<Event>, b: seq<Event>)
    ensures SessionOf(a + b) == if SessionOf(b).Some? then SessionOf(b) else SessionOf(a)
  {
    if b == [] {
      assert a + b == a;
    } else {
      assert (a + b)[..|a + b| - 1] == a + b[..|b| - 1];
      SessionAppend(a, b[..|b| - 1]);
    }
  }

  lemma {:induction false} UsageUntouched(a: seq<Event>, b: seq<Event>)
    requires !Completed(b)
    ensures UsageOf(a + b) == UsageOf(a)
  {
    if b == [] {
      assert a + b == a;
    } else {
      assert (a + b)[..|a + b| - 1] == a + b[..|b| - 1];
      CompletedStep(b, |b| - 1);
      assert b[..|b|] == b;
      UsageUntouched(a, b[..|b| - 1]);
    }
  }

  predicate NoFailure(es: seq<Event>) {
    forall i :: 0 <= i < |es| ==> !es[i].TurnFailed?
  }

  lemma {:induction false} NoFailureEmpty(es: seq<Event>)
    requires NoFailure(es)
    ensures FailureOf(es) == ""
  {
    if es != [] {
      NoFailureEmpty(es[..|es| - 1]);
    }
  }

  predicate IsLastThread(es: seq<Event>, i: nat) {
    i < |es| && es[i].ThreadStarted? && forall j :: i < j < |es| ==> !es[j].ThreadStarted?
  }

  /** The excerpt of a completion: the last thread line before it, if any, every message line, and itself. */
  lemma {:induction false} ExcerptIs(pre: seq<Event>, done: Event) returns (thread: seq<Event>, said: seq<Event>)
    ensures Excerpt(pre + [done]) == thread + said + [done]
    ensures Picks(pre, (set i: nat | i < |pre| && pre[i].AgentMessage?), said)
    ensures if thread == [] then forall i :: 0 <= i < |pre| ==> !pre[i].ThreadStarted?
            else exists i: nat :: IsLastThread(pre, i) && thread == [pre[i]]
  {
    assert (pre + [done])[..|pre|] == pre;
    thread, said := LastThread(pre), MessageLines(pre);
    MessageLinesPicked(pre);
    LastThreadIs(pre);
  }

  lemma {:induction false} MessageLinesPicked(es: seq<Event>)
    ensures Picks(es, (set i: nat | i < |es| && es[i].AgentMessage?), MessageLines(es))
  {
    var keep := set i: nat | i < |es| && es[i].AgentMessage?;
    if es == [] {
      assert keep == {};
      PicksNone(es);
    } else {
      var (init, e) := (es[..|es| - 1], es[|es| - 1]);
      var before := set i: nat | i < |init| && init[i].AgentMessage?;
      MessageLinesPicked(init);
      hide Picks;
      PicksStep(es, keep, before, MessageLines(init), e.AgentMessage?);
      assert MessageLines(init) + [] == MessageLines(init);
    }
  }

  lemma {:induction false} LastThreadIs(es: seq<Event>)
    ensures if LastThread(es) == [] then forall i :: 0 <= i < |es| ==> !es[i].ThreadStarted?
            else exists i: nat :: IsLastThread(es, i) && LastThread(es) == [es[i]]
  {
    if es != [] && es[|es| - 1].ThreadStarted? {
      assert IsLastThread(es, |es| - 1);
    } else if es != [] {
      var init := es[..|es| - 1];
      LastThreadIs(init);
      if LastThread(init) != [] {
        var i: nat :| IsLastThread(init, i) && LastThread(init) == [init[i]];
        assert IsLastThread(es, i);
      }
    }
  }

  predicate OnlyMessages(es: seq<Event>) {
    forall i :: 0 <= i < |es| ==> es[i].AgentMessage?
  }

  lemma {:induction false} MessageLinesSay(es: seq<Event>)
    ensures OnlyMessages(MessageLines(es)) && Messages(MessageLines(es)) == Messages(es)
  {
    if es != [] {
      var (kept, e) := (MessageLines(es[..|es| - 1]), es[|es| - 1]);
      MessageLinesSay(es[..|es| - 1]);
      if e.AgentMessage? {
        MessagesPush(kept, e);
      } else {
        assert kept + [] == kept;
      }
    }
  }

  lemma MessagesPush(es: seq<Event>, e: Event)
    ensures Messages(es + [e]) == Messages(es) + Said(e)
  {
    assert (es + [e])[..|es|] == es;
  }

  lemma {:induction false} OnlyMessagesSession(es: seq<Event>)
    requires OnlyMessages(es)
    ensures SessionOf(es).None? && UsageOf(es).None?
  {
    if es != [] {
      OnlyMessagesSession(es[..|es| - 1]);
    }
  }

  predicate AtMostOneThread(es: seq<Event>) {
    forall i, j :: 0 <= i < j < |es| && es[i].ThreadStarted? ==> !es[j].ThreadStarted?
  }

  /** The retained thread line carries the session id. */
  predicate LastThreadTells(es: seq<Event>) {
    SessionOf(es) == SessionOf(LastThread(es))
  }

  lemma {:induction false} OneThreadSession(es: seq<Event>)
    requires AtMostOneThread(es)
    ensures LastThreadTells(es)
  {
    if es != [] {
      var (init, e) := (es[..|es| - 1], es[|es| - 1]);
      OneThreadSession(init);
      if e.ThreadStarted? {
        assert forall i :: 0 <= i < |init| ==> !init[i].ThreadStarted?;
        NoThreadSession(init);
        assert [e][..0] == [];
      }
    }
  }

  lemma {:induction false} NoThreadSession(es: seq<Event>)
    requires forall i :: 0 <= i < |es| ==> !es[i].ThreadStarted?
    ensures SessionOf(es).None?
  {
    if es != [] {
      NoThreadSession(es[..|es| - 1]);
    }
  }

  lemma {:induction false} OneThreadLine(es: seq<Event>)
    ensures var thread := LastThread(es); |thread| <= 1 && (|thread| == 1 ==> thread[0].ThreadStarted?)
  {
    if es != [] && !es[|es| - 1].ThreadStarted? {
      OneThreadLine(es[..|es| - 1]);
    }
  }

  /** What the excerpt of `pre + [done]` says. */
  lemma ExcerptSays(pre: seq<Event>, done: Event)
    requires done.TurnCompleted?
    ensures var x := Excerpt(pre + [done]);
      && Messages(x) == Messages(pre) && SessionOf(x) == SessionOf(LastThread(pre)) && FailureOf(x) == ""
      && Completed(x) && UsageOf(x) == UsageOf([done])
  {
    var (thread, said) := (LastThread(pre), MessageLines(pre));
    assert (pre + [done])[..|pre|] == pre;
    MessageLinesSay(pre);
    OneThreadLine(pre);
    ThreadThenMessages(thread, said);
    var x := thread + said + [done];
    MessagesAppend(thread + said, [done]);
    SessionAppend(thread + said, [done]);
    SingleSays(done);
    UsageLast(thread + said, done);
    assert x[|x| - 1] == done;
    NoFailureEmpty(x);
  }

  lemma ThreadThenMessages(thread: seq<Event>, said: seq<Event>)
    requires |thread| <= 1 && (|thread| == 1 ==> thread[0].ThreadStarted?) && OnlyMessages(said)
    ensures Messages(thread + said) == Messages(said) && SessionOf(thread + said) == SessionOf(thread)
    ensures !Completed(thread + said) && NoFailure(thread + said)
  {
    hide Messages, SessionOf, UsageOf;
    MessagesAppend(thread, said);
    SessionAppend(thread, said);
    OnlyMessagesSession(said);
    ThreadSaysNothing(thread);
  }

  lemma ThreadSaysNothing(thread: seq<Event>)
    requires |thread| <= 1 && (|thread| == 1 ==> thread[0].ThreadStarted?)
    ensures Messages(thread) == []
  {
    if thread != [] {
      assert thread == [thread[0]];
      SingleSays(thread[0]);
    }
  }

  lemma SingleSays(e: Event)
    ensures Messages([e]) == Said(e)
    ensures SessionOf([e]) == if e.ThreadStarted? then e.threadId else None
  {
    assert [e][..0] == [];
  }

  lemma {:induction false} NoUsage(es: seq<Event>)
    requires !Completed(es)
    ensures UsageOf(es).None?
  {
    assert [] + es == es;
    UsageUntouched([], es);
  }

  lemma UsageLast(a: seq<Event>, done: Event)
    requires done.TurnCompleted? && !Completed(a)
    ensures UsageOf(a + [done]) == UsageOf([done])
  {
    assert (a + [done])[..|a|] == a && [done][..0] == [];
    NoUsage(a);
  }

  /** A turn that completes once, starts at most one thread and does not fail. */
  predicate OneTurn(pre: seq<Event>, done: Event, post: seq<Event>) {
    && done.TurnCompleted? && !Completed(pre) && !Completed(post)
    && AtMostOneThread(pre + [done] + post) && NoFailure(pre + [done] + post)
  }

  lemma WholeSays(pre: seq<Event>, done: Event, post: seq<Event>)
    requires done.TurnCompleted?
    ensures var es := pre + [done] + post;
      && Messages(es) == Messages(pre) + Messages(post)
      && SessionOf(es) == (if SessionOf(post).Some? then SessionOf(post) else SessionOf(pre))
      && Completed(es)
  {
    WholeMessages(pre, done, post);
    WholeSession(pre, done, post);
    assert (pre + [done] + post)[|pre|] == done;
  }

  lemma WholeMessages(pre: seq<Event>, done: Event, post: seq<Event>)
    requires done.TurnCompleted?
    ensures Messages(pre + [done] + post) == Messages(pre) + Messages(post)
  {
    MessagesAppend(pre, [done]);
    MessagesAppend(pre + [done], post);
    SingleSays(done);
  }

  lemma WholeSession(pre: seq<Event>, done: Event, post: seq<Event>)
    requires done.TurnCompleted?
    ensures SessionOf(pre + [done] + post) == if SessionOf(post).Some? then SessionOf(post) else SessionOf(pre)
  {
    SessionAppend(pre, [done]);
    SessionAppend(pre + [done], post);
    SingleSays(done);
  }

  lemma {:induction false} RetainedIs(pre: seq<Event>, done: Event, post: seq<Event>)
    requires done.TurnCompleted? && !Completed(post)
    ensures Retained(pre + [done] + post) == Some(Excerpt(pre + [done]))
  {
    var es := pre + [done] + post;
    if post == [] {
      assert es == pre + [done];
    } else {
      assert es[..|es| - 1] == pre + [done] + post[..|post| - 1];
      assert !Completed(post[..|post| - 1]) by {
        CompletedStep(post, |post| - 1);
        assert post[..|post|] == post;
      }
      RetainedIs(pre, done, post[..|post| - 1]);
    }
  }

  lemma {:induction false} MessagesNonempty(es: seq<Event>)
    ensures forall i :: 0 <= i < |Messages(es)| ==> Messages(es)[i] != ""
  {
    if es != [] {
      MessagesNonempty(es[..|es| - 1]);
    }
  }

  /** There is nothing to report: no message that counts, or no session. */
  predicate Incomplete(messages: seq<string>, session: Option<string>) {
    messages == [] || OrEmpty(session) == ""
  }

  /**
   * Over any stream, `done` its last completion: the retained excerpt parses like
   * the full output exactly when no failure is to be reported, and either both
   * have nothing to report or nothing the answer needs is outside the excerpt. That
   * is a message after the completion, a session that is not the last thread
   * line's, or a usage that is not this completion's.
   */
  lemma ExcerptParsesTheSameIff(pre: seq<Event>, done: Event, post: seq<Event>)
    requires done.TurnCompleted? && !Completed(post)
    ensures var es := pre + [done] + post;
      var kept := SessionOf(LastThread(pre));
      && Retained(es).Some?
      && (Parsed(Retained(es).value) == Parsed(es) <==>
            FailureOf(es) == "" &&
            ((Incomplete(Messages(pre), kept) && Incomplete(Messages(es), SessionOf(es))) ||
             (Messages(post) == [] && kept == SessionOf(es) && UsageOf([done]) == UsageOf(es))))
  {
    RetainedIs(pre, done, post);
    WholeSays(pre, done, post);
    ExcerptSays(pre, done);
    MessagesNonempty(post);
    var es := pre + [done] + post;
    SameJudgementIff(Messages(pre), Messages(post), SessionOf(LastThread(pre)), SessionOf(es), UsageOf([done]), UsageOf(es));
  }

  /** Two complete answers are equal exactly when they have the same messages, session and usage. */
  lemma SameJudgementIff(ms: seq<string>, more: seq<string>, a: Option<string>, b: Option<string>,
                         u: Option<Usage>, v: Option<Usage>)
    requires forall i :: 0 <= i < |more| ==> more[i] != ""
    ensures Judge(ms, a, u, "", true) == Judge(ms + more, b, v, "", true) <==>
            (Incomplete(ms, a) && Incomplete(ms + more, b)) || (more == [] && a == b && u == v)
  {
    if more == [] {
      assert ms + more == ms;
    } else {
      JoinLonger(ms, more, "\n\n");
    }
  }

  /**
   * Over a turn that completes once, has at most one thread and does not fail, all
   * that can be missed is what comes after the completion.
   */
  lemma OneTurnParsesTheSameIff(pre: seq<Event>, done: Event, post: seq<Event>)
    requires OneTurn(pre, done, post)
    ensures var es := pre + [done] + post;
      && Retained(es).Some?
      && (Parsed(Retained(es).value) == Parsed(es) <==>
            Incomplete(Messages(es), SessionOf(es)) || (Messages(post) == [] && SessionOf(post).None?))
  {
    ExcerptParsesTheSameIff(pre, done, post);
    WholeSays(pre, done, post);
    ThreadsOnce(pre, done, post);
    UsageUntouched(pre + [done], post);
    UsageLast(pre, done);
    NoFailureEmpty(pre + [done] + post);
  }

  lemma ThreadsOnce(pre: seq<Event>, done: Event, post: seq<Event>)
    requires AtMostOneThread(pre + [done] + post)
    ensures LastThreadTells(pre)
    ensures SessionOf(post).Some? ==> SessionOf(pre).None?
  {
    assert pre + [done] + post == pre + ([done] + post);
    ThreadsBefore(pre, [done] + post);
    OneThreadSession(pre);
    if SessionOf(post).Some? {
      ThreadAfter(pre, done, post);
    }
  }

  lemma ThreadsBefore(a: seq<Event>, b: seq<Event>)
    requires AtMostOneThread(a + b)
    ensures AtMostOneThread(a)
  {
    assert forall i :: 0 <= i < |a| ==> (a + b)[i] == a[i];
  }

  lemma ThreadAfter(pre: seq<Event>, done: Event, post: seq<Event>)
    requires AtMostOneThread(pre + [done] + post) && SessionOf(post).Some?
    ensures SessionOf(pre).None?
  {
    var es := pre + [done] + post;
    if exists j :: 0 <= j < |post| && post[j].ThreadStarted? {
      var j :| 0 <= j < |post| && post[j].ThreadStarted?;
      assert es[|pre| + 1 + j] == post[j];
      assert forall i :: 0 <= i < |pre| ==> es[i] == pre[i];
      NoThreadSession(pre);
    } else {
      NoThreadSession(post);
    }
  }
}
