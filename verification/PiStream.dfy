/**
 * pi's JSONL event stream. The session id comes first and the messages last, so
 * the activity stream folds both into one result line that stands for the whole
 * output.
 */
module PiStream {
  import opened Prelude
  import opened Text
  import opened AgentUsage

  datatype RawUsage = RawUsage(input: Field, output: Field, cacheWrite: Field, cacheRead: Field)

  /** A content block: text, or anything else. */
  datatype Block = TextBlock(text: string) | OtherBlock

  datatype Message =
    | Assistant(
        usage: Option<RawUsage>,
        content: seq<Block>,
        model: Option<string>,
        errorMessage: Option<string>,
        stopReason: Option<string>)
    | OtherMessage

  datatype Summary = Summary(
    text: string,
    usage: Option<Usage>,
    modelId: Option<string>,
    errorMessage: Option<string>,
    stopReason: Option<string>)

  /** The self-contained line the activity stream makes. Empty optional texts are left out. */
  datatype ResultLine = ResultLine(
    result: string,
    sessionId: string,
    usage: Option<Usage>,
    modelId: Option<string>,
    errorMessage: Option<string>,
    stopReason: Option<string>)

  /** One line of output, parsed. `messages` is `None` when it is not an array. */
  datatype Event =
    | NotJson
    | Session(id: Option<string>)
    | AgentEnd(messages: Option<seq<Message>>)
    | PiResult(line: ResultLine)
    | OtherEvent

  datatype Response = Response(result: string, sessionId: string, usage: Option<Usage>, modelId: Option<string>)

  datatype Outcome = Ok(response: Response) | TurnError(message: Option<string>) | NoText | Missing | Empty

  function Truthy(text: Option<string>): Option<string> {
    if text == Some("") then None else text
  }

  // ---- Usage of a turn: the sum over every model request, or nothing

  /** One request's usage, if all of it can be trusted. */
  function ParseUsage(raw: Option<RawUsage>): Option<Usage> {
    if raw.None? then None
    else
      var u := raw.value;
      if IsCount(u.input) && IsCount(u.output) && IsOptionalCount(u.cacheWrite) && IsOptionalCount(u.cacheRead)
      then Some(Usage(u.input.value, u.output.value, CountOr0(u.cacheRead), CountOr0(u.cacheWrite)))
      else None
  }

  predicate Measured(m: Message) {
    m.Assistant? ==> ParseUsage(m.usage).Some?
  }

  predicate AllMeasured(ms: seq<Message>) {
    forall i :: 0 <= i < |ms| ==> Measured(ms[i])
  }

  /** The field-wise sum over the assistant messages that have a usage. */
  function SumUsage(ms: seq<Message>): Usage {
    if ms == [] then NO_USAGE
    else
      var (rest, m) := (SumUsage(ms[..|ms| - 1]), ms[|ms| - 1]);
      if m.Assistant? && ParseUsage(m.usage).Some? then Add(rest, ParseUsage(m.usage).value) else rest
  }

  function LastAssistant(ms: seq<Message>): (m: Option<Message>)
    ensures m.Some? ==> m.value.Assistant?
  {
    if ms == [] then None
    else if ms[|ms| - 1].Assistant? then Some(ms[|ms| - 1])
    else LastAssistant(ms[..|ms| - 1])
  }

  function TextParts(blocks: seq<Block>): seq<string> {
    if blocks == [] then []
    else
      var b := blocks[|blocks| - 1];
      TextParts(blocks[..|blocks| - 1]) + if b.TextBlock? && !IsBlank(b.text) then [b.text] else []
  }

  function TrimmedModel(model: Option<string>): Option<string> {
    if model.Some? && !IsBlank(model.value) then Some(Trim(model.value)) else None
  }

  /** The summary of a turn: the last assistant message, and the usage of all of them. */
  function Summarized(ms: seq<Message>): Option<Summary> {
    var last := LastAssistant(ms);
    if last.None? then None
    else Some(Summary(
      Trim(Join(TextParts(last.value.content), "\n\n")),
      if AllMeasured(ms) then Some(SumUsage(ms)) else None,
      TrimmedModel(last.value.model), last.value.errorMessage, last.value.stopReason))
  }

  method SummarizeAssistantMessages(messages: Option<seq<Message>>) returns (summary: Option<Summary>)
    ensures summary == if messages.None? then None else Summarized(messages.value)
  {
    if messages.None? {
      return None;
    }
    var ms := messages.value;
    var usage, usageComplete, last: Option<Message> := NO_USAGE, true, None;
    for i := 0 to |ms|
      invariant usage == SumUsage(ms[..i]) && last == LastAssistant(ms[..i])
      invariant usageComplete == AllMeasured(ms[..i])
    {
      assert ms[..i + 1][..i] == ms[..i];
      MeasuredStep(ms, i);
      var msg := ms[i];
      if msg.Assistant? {
        last := Some(msg);
        var measured := ParseUsage(msg.usage);
        if measured.None? {
          usageComplete := false;
        } else {
          usage := Add(usage, measured.value);
        }
      }
    }
    assert ms[..|ms|] == ms;
    if last.None? {
      return None;
    }
    var parts := [];
    var content := last.value.content;
    for k := 0 to |content|
      invariant parts == TextParts(content[..k])
    {
      assert content[..k + 1][..k] == content[..k];
      if content[k].TextBlock? && !IsBlank(content[k].text) {
        parts := parts + [content[k].text];
      }
    }
    assert content[..|content|] == content;
    return Some(Summary(Trim(Join(parts, "\n\n")), if usageComplete then Some(usage) else None,
      TrimmedModel(last.value.model), last.value.errorMessage, last.value.stopReason));
  }

  lemma MeasuredStep(ms: seq<Message>, i: nat)
    requires i < |ms|
    ensures AllMeasured(ms[..i + 1]) <==> AllMeasured(ms[..i]) && Measured(ms[i])
  {
    assert forall k :: 0 <= k < i ==> ms[..i + 1][k] == ms[..i][k];
    assert ms[..i + 1][i] == ms[i];
  }

  // ---- The result line

  function BuildResultLine(sessionId: string, s: Summary): ResultLine {
    ResultLine(s.text, sessionId, s.usage, Truthy(s.modelId), Truthy(s.errorMessage), Truthy(s.stopReason))
  }

  function FromResultLine(line: ResultLine): Outcome {
    if line.stopReason == Some("error") || Truthy(line.errorMessage).Some? then TurnError(Truthy(line.errorMessage))
    else if line.result == "" then NoText
    else Ok(Response(line.result, line.sessionId, line.usage, Truthy(line.modelId)))
  }

  // ---- Parsing the output

  function SessionOf(es: seq<Event>): Option<string> {
    if es == [] then None
    else if es[|es| - 1].Session? && es[|es| - 1].id.Some? then es[|es| - 1].id
    else SessionOf(es[..|es| - 1])
  }

  /** The summary an event carries. */
  function Tells(e: Event): Option<Summary> {
    if e.AgentEnd? && e.messages.Some? then Summarized(e.messages.value) else None
  }

  function SummaryOf(es: seq<Event>): Option<Summary> {
    if es == [] then None
    else if Tells(es[|es| - 1]).Some? then Tells(es[|es| - 1])
    else SummaryOf(es[..|es| - 1])
  }

  predicate NoResultLine(es: seq<Event>) {
    forall i :: 0 <= i < |es| ==> !es[i].PiResult?
  }

  /** What parsing `lines` must give: a result line speaks for itself; otherwise session and summary do. */
  function Parsed(lines: seq<Event>): Outcome {
    if lines == [] then Empty
    else
      var r := FirstResult(lines);
      if r.Some? then FromResultLine(r.value)
      else if OrEmpty(SessionOf(lines)) == "" || SummaryOf(lines).None? then Missing
      else FromResultLine(BuildResultLine(SessionOf(lines).value, SummaryOf(lines).value))
  }

  function FirstResult(es: seq<Event>): Option<ResultLine> {
    if es == [] then None
    else
      var r := FirstResult(es[..|es| - 1]);
      if r.Some? then r
      else if es[|es| - 1].PiResult? then Some(es[|es| - 1].line)
      else None
  }

  lemma {:induction false} FirstResultStays(es: seq<Event>, i: nat)
    requires i <= |es| && FirstResult(es[..i]).Some?
    ensures FirstResult(es) == FirstResult(es[..i])
  {
    if i < |es| {
      assert es[..|es| - 1][..i] == es[..i];
      FirstResultStays(es[..|es| - 1], i);
    } else {
      assert es[..i] == es;
    }
  }

  method ParseResponse(lines: seq<Event>) returns (outcome: Outcome)
    ensures outcome == Parsed(lines)
  {
    if lines == [] {
      return Empty;
    }
    var sessionId: Option<string>, summary: Option<Summary> := None, None;
    for i := 0 to |lines|
      invariant FirstResult(lines[..i]).None?
      invariant sessionId == SessionOf(lines[..i]) && summary == SummaryOf(lines[..i])
    {
      assert lines[..i + 1][..i] == lines[..i];
      match lines[i] {
        case Session(id) => sessionId := if id.Some? then id else sessionId;
        case PiResult(line) =>
          FirstResultStays(lines, i + 1);
          return FromResultLine(line);
        case AgentEnd(messages) =>
          var s := SummarizeAssistantMessages(messages);
          summary := if s.Some? then s else summary;
        case _ =>
      }
    }
    assert lines[..|lines|] == lines;
    if OrEmpty(sessionId) == "" || summary.None? {
      return Missing;
    }
    return FromResultLine(BuildResultLine(sessionId.value, summary.value));
  }

  // ---- The activity stream

  class PiActivityStream {
    var sessionId: Option<string>
    ghost var seen: seq<Event>

    ghost predicate Valid()
      reads this
    {
      sessionId == SessionOf(seen)
    }

    constructor ()
      ensures Valid() && seen == []
    {
      sessionId, seen := None, [];
    }

    method ParseLine(line: Event) returns (raw: Option<ResultLine>)
      requires Valid()
      modifies this
      ensures Valid() && seen == old(seen) + [line]
      ensures raw == Emitted(seen)
    {
      ghost var before := seen;
      seen := seen + [line];
      assert seen[..|seen| - 1] == before;
      if line.Session? {
        if line.id.Some? {
          sessionId := line.id;
        }
        return None;
      }
      if line.AgentEnd? {
        var summary := SummarizeAssistantMessages(line.messages);
        if summary.None? || OrEmpty(sessionId) == "" {
          return None;
        }
        return Some(BuildResultLine(sessionId.value, summary.value));
      }
      return None;
    }
  }

  /** The result line emitted at the last line of `es`, if any. */
  function Emitted(es: seq<Event>): Option<ResultLine> {
    if es == [] then None
    else
      var s := Tells(es[|es| - 1]);
      if s.None? || OrEmpty(SessionOf(es)) == "" then None
      else Some(BuildResultLine(SessionOf(es).value, s.value))
  }

  function Retained(es: seq<Event>): Option<ResultLine> {
    if es == [] then None
    else if Emitted(es).Some? then Emitted(es)
    else Retained(es[..|es| - 1])
  }

  /** A turn as the supervisor watches it: it keeps the last result line. */
  method WatchTurn(lines: seq<Event>) returns (result: Option<ResultLine>)
    ensures result == Retained(lines)
  {
    var stream := new PiActivityStream();
    result := None;
    for i := 0 to |lines|
      invariant fresh(stream) && stream.Valid() && stream.seen == lines[..i]
      invariant result == Retained(lines[..i])
    {
      assert lines[..i + 1][..i] == lines[..i];
      var raw := stream.ParseLine(lines[i]);
      if raw.Some? {
        result := raw;
      }
    }
    assert lines[..|lines|] == lines;
  }

  // ---- The retained line parses as the output does

  /** Session headers come before anything that carries a summary. */
  predicate SessionLeads(es: seq<Event>) {
    forall i, j :: 0 <= i < j < |es| && Tells(es[i]).Some? ==> !(es[j].Session? && es[j].id.Some?)
  }

  lemma {:induction false} NoResult(es: seq<Event>)
    requires NoResultLine(es)
    ensures FirstResult(es).None?
  {
    if es != [] {
      NoResult(es[..|es| - 1]);
    }
  }

  /** While headers lead, what is retained is built from the final session and the final summary. */
  lemma {:induction false} RetainedIs(es: seq<Event>)
    requires SessionLeads(es)
    ensures Retained(es) ==
      if OrEmpty(SessionOf(es)) == "" || SummaryOf(es).None? then None
      else Some(BuildResultLine(SessionOf(es).value, SummaryOf(es).value))
  {
    if es != [] {
      var (init, e) := (es[..|es| - 1], es[|es| - 1]);
      RetainedIs(init);
      if e.Session? && e.id.Some? {
        NoSummaryYet(init);
      }
    }
  }

  lemma {:induction false} NoSummaryYet(es: seq<Event>)
    requires forall i :: 0 <= i < |es| ==> Tells(es[i]).None?
    ensures SummaryOf(es).None?
  {
    if es != [] {
      NoSummaryYet(es[..|es| - 1]);
    }
  }

  /**
   * Parsing the retained result line gives the response, or the error, that
   * parsing the full output gives; and a line is retained exactly when the
   * output has a session and a summary to report.
   */
  lemma ResultLineParsesTheSame(es: seq<Event>)
    requires es != [] && NoResultLine(es) && SessionLeads(es)
    ensures Retained(es).Some? <==> !Parsed(es).Missing?
    ensures Retained(es).Some? ==> Parsed([PiResult(Retained(es).value)]) == Parsed(es)
  {
    NoResult(es);
    RetainedIs(es);
    if Retained(es).Some? {
      ParsedAlone(Retained(es).value);
    }
  }

  lemma ParsedAlone(line: ResultLine)
    ensures Parsed([PiResult(line)]) == FromResultLine(line)
  {
    var es := [PiResult(line)];
    assert es[..0] == [] && es[|es| - 1] == PiResult(line);
    assert FirstResult(es) == Some(line);
  }

  /** No line is emitted after `a`. */
  predicate QuietAfter(a: seq<Event>, b: seq<Event>) {
    forall i {:trigger b[..i]} :: 0 < i <= |b| ==> Emitted(a + b[..i]).None?
  }

  lemma {:induction false} RetainedPast(a: seq<Event>, b: seq<Event>)
    requires QuietAfter(a, b)
    ensures Retained(a + b) == Retained(a)
  {
    if b == [] {
      assert a + b == a;
    } else {
      var init := b[..|b| - 1];
      assert b[..|b|] == b;
      assert (a + b)[..|a + b| - 1] == a + init;
      forall i | 0 < i <= |init| ensures Emitted(a + init[..i]).None? {
        assert init[..i] == b[..i];
      }
      RetainedPast(a, init);
    }
  }

  /** Whenever a line is retained the stream splits at the one emitted last. */
  lemma {:induction false} SplitAtLast(es: seq<Event>) returns (pre: seq<Event>, e: Event, post: seq<Event>)
    requires Retained(es).Some?
    ensures es == pre + [e] + post
    ensures Emitted(pre + [e]).Some? && QuietAfter(pre + [e], post)
  {
    hide Emitted;
    var (init, last) := (es[..|es| - 1], es[|es| - 1]);
    if Emitted(es).Some? {
      pre, e, post := init, last, [];
      assert pre + [e] == es;
    } else {
      pre, e, post := SplitAtLast(init);
      forall i | 0 < i <= |post + [last]| ensures Emitted(pre + [e] + (post + [last])[..i]).None? {
        if i <= |post| {
          assert (post + [last])[..i] == post[..i];
        } else {
          assert pre + [e] + (post + [last])[..i] == es;
        }
      }
      post := post + [last];
    }
  }

  lemma {:induction false} SummaryKnown(a: seq<Event>, b: seq<Event>)
    requires SummaryOf(a).Some?
    ensures SummaryOf(a + b).Some?
  {
    if b == [] {
      assert a + b == a;
    } else {
      assert (a + b)[..|a + b| - 1] == a + b[..|b| - 1];
      SummaryKnown(a, b[..|b| - 1]);
    }
  }

  predicate Failed(s: Summary) {
    s.stopReason == Some("error") || OrEmpty(s.errorMessage) != ""
  }

  /** Two summaries, each with its session, report the same turn: the same error, no text both, or the same response. */
  predicate SameReport(s: Summary, sessionId: string, s': Summary, sessionId': string) {
    if Failed(s) || Failed(s') then
      Failed(s) && Failed(s') && Truthy(s.errorMessage) == Truthy(s'.errorMessage)
    else if s.text == "" || s'.text == "" then
      s.text == s'.text
    else
      && sessionId == sessionId' && s.text == s'.text && s.usage == s'.usage
      && Truthy(s.modelId) == Truthy(s'.modelId)
  }

  /**
   * Without the condition on headers: `e` is the last line to emit a result line.
   * That line then speaks for the output exactly when the output still has a
   * session id, and its last summary, with that id, reports what `e` reports with
   * the id known at `e`.
   */
  lemma ResultLineAgreesIff(pre: seq<Event>, e: Event, post: seq<Event>)
    requires NoResultLine(pre + [e] + post)
    requires Emitted(pre + [e]).Some? && QuietAfter(pre + [e], post)
    ensures var es := pre + [e] + post;
      && Retained(es).Some? && Tells(e).Some? && SessionOf(pre + [e]).Some? && SummaryOf(es).Some?
      && (Parsed([PiResult(Retained(es).value)]) == Parsed(es) <==>
            OrEmpty(SessionOf(es)) != "" &&
            SameReport(Tells(e).value, SessionOf(pre + [e]).value, SummaryOf(es).value, SessionOf(es).value))
  {
    var es := pre + [e] + post;
    assert (pre + [e])[|pre|] == e;
    RetainedPast(pre + [e], post);
    SummaryKnown(pre + [e], post);
    NoResult(es);
    ParsedAlone(Retained(es).value);
  }

  // ---- Summaries and outcomes, told by messages and lines

  predicate IsLastAssistant(ms: seq<Message>, i: nat) {
    i < |ms| && ms[i].Assistant? && forall j :: i < j < |ms| ==> !ms[j].Assistant?
  }

  lemma {:induction false} LastAssistantIs(ms: seq<Message>)
    ensures LastAssistant(ms).None? <==> forall i :: 0 <= i < |ms| ==> !ms[i].Assistant?
    ensures LastAssistant(ms).Some? ==> exists i: nat :: IsLastAssistant(ms, i) && ms[i] == LastAssistant(ms).value
  {
    if ms != [] {
      var (init, last) := (ms[..|ms| - 1], |ms| - 1);
      LastAssistantIs(init);
      if ms[last].Assistant? {
        assert IsLastAssistant(ms, last);
      } else if LastAssistant(init).Some? {
        var i: nat :| IsLastAssistant(init, i) && init[i] == LastAssistant(init).value;
        assert IsLastAssistant(ms, i) && ms[i] == init[i];
      } else {
        assert forall i :: 0 <= i < last ==> ms[i] == init[i];
      }
    }
  }

  predicate IsText(b: Block) {
    b.TextBlock? && !IsBlank(b.text)
  }

  function TextAt(blocks: seq<Block>): set<nat> {
    set i: nat | i < |blocks| && IsText(blocks[i])
  }

  /** The texts of the blocks; empty where a block has none. */
  function Texts(blocks: seq<Block>): seq<string> {
    seq(|blocks|, i requires 0 <= i < |blocks| => if blocks[i].TextBlock? then blocks[i].text else "")
  }

  lemma TextsStep(blocks: seq<Block>)
    requires blocks != []
    ensures var (init, last) := (blocks[..|blocks| - 1], |blocks| - 1);
      && |Texts(blocks)| == |blocks| && Texts(blocks)[..last] == Texts(init)
      && (IsText(blocks[last]) ==> Texts(blocks)[last] == blocks[last].text)
      && forall i: nat :: i in TextAt(blocks) <==> i in TextAt(init) || (i == last && IsText(blocks[last]))
  {
  }

  lemma {:induction false} PartsPicked(blocks: seq<Block>)
    ensures Picks(Texts(blocks), TextAt(blocks), TextParts(blocks))
  {
    if blocks == [] {
      assert TextAt(blocks) == {};
      PicksNone(Texts(blocks));
    } else {
      var (init, b) := (blocks[..|blocks| - 1], blocks[|blocks| - 1]);
      PartsPicked(init);
      TextsStep(blocks);
      assert TextParts(init) + [] == TextParts(init);
      hide Picks, Texts, TextAt;
      PicksStep(Texts(blocks), TextAt(blocks), TextAt(init), TextParts(init), IsText(b));
    }
  }

  /** The counts of a request's usage are all there, finite and not negative. */
  predicate Countable(raw: Option<RawUsage>) {
    && raw.Some?
    && raw.value.input.Number? && raw.value.input.value >= 0.0
    && raw.value.output.Number? && raw.value.output.value >= 0.0
    && (raw.value.cacheWrite.Undefined? || (raw.value.cacheWrite.Number? && raw.value.cacheWrite.value >= 0.0))
    && (raw.value.cacheRead.Undefined? || (raw.value.cacheRead.Number? && raw.value.cacheRead.value >= 0.0))
  }

  /** What one message adds to the sum: each count to its own. */
  lemma SumOne(m: Message)
    ensures SumUsage([m]) ==
      if m.Assistant? && Countable(m.usage) then
        Usage(m.usage.value.input.value, m.usage.value.output.value,
              CountOr0(m.usage.value.cacheRead), CountOr0(m.usage.value.cacheWrite))
      else Usage(0.0, 0.0, 0.0, 0.0)
  {
    assert [m][..0] == [];
  }

  lemma {:induction false} SumAppend(a: seq<Message>, b: seq<Message>)
    ensures var (x, y, z) := (SumUsage(a), SumUsage(b), SumUsage(a + b));
      && z.input == x.input + y.input && z.output == x.output + y.output
      && z.cacheRead == x.cacheRead + y.cacheRead && z.cacheCreation == x.cacheCreation + y.cacheCreation
  {
    if b == [] {
      assert a + b == a;
    } else {
      InitOfAppend(a, b);
      SumAppend(a, b[..|b| - 1]);
    }
  }

  /**
   * A summary is of the last assistant message: its texts, joined and trimmed, its
   * model unless blank, its stop; with a usage exactly if every assistant message
   * has a countable one.
   */
  lemma SummarySays(ms: seq<Message>)
    ensures Summarized(ms).None? <==> forall i :: 0 <= i < |ms| ==> !ms[i].Assistant?
    ensures forall i: nat :: IsLastAssistant(ms, i) ==>
      && Summarized(ms).Some?
      && var s := Summarized(ms).value;
      && s.errorMessage == ms[i].errorMessage && s.stopReason == ms[i].stopReason
      && s.modelId == (if ms[i].model.Some? && !IsBlank(ms[i].model.value) then Some(Trim(ms[i].model.value)) else None)
      && (exists parts :: Picks(Texts(ms[i].content), TextAt(ms[i].content), parts) && s.text == Trim(Join(parts, "\n\n")))
      && (s.usage.Some? <==> forall j :: 0 <= j < |ms| && ms[j].Assistant? ==> Countable(ms[j].usage))
      && (s.usage.Some? ==> s.usage.value == SumUsage(ms))
  {
    LastAssistantIs(ms);
    forall i: nat | IsLastAssistant(ms, i) ensures LastAssistant(ms) == Some(ms[i]) {
    }
    MeasuredIff(ms);
    if LastAssistant(ms).Some? {
      PartsPicked(LastAssistant(ms).value.content);
    }
  }

  lemma MeasuredIff(ms: seq<Message>)
    ensures AllMeasured(ms) <==> forall j :: 0 <= j < |ms| && ms[j].Assistant? ==> Countable(ms[j].usage)
  {
    forall j | 0 <= j < |ms| ensures Measured(ms[j]) <==> ms[j].Assistant? ==> Countable(ms[j].usage) {
    }
  }

  /** What an outcome must be: an error first, then the lack of text, then the response. */
  predicate Reports(o: Outcome, text: string, sessionId: string, usage: Option<Usage>, model: Option<string>,
                    error: Option<string>, stop: Option<string>) {
    if stop == Some("error") || OrEmpty(error) != "" then
      o == TurnError(if OrEmpty(error) == "" then None else error)
    else if text == "" then
      o == NoText
    else
      o == Ok(Response(text, sessionId, usage, if OrEmpty(model) == "" then None else model))
  }

  /** The first result line decides, whatever else there is. */
  lemma FirstLineReports(es: seq<Event>, i: nat)
    requires i < |es| && es[i].PiResult? && forall j :: 0 <= j < i ==> !es[j].PiResult?
    ensures var l := es[i].line;
      Reports(Parsed(es), l.result, l.sessionId, l.usage, l.modelId, l.errorMessage, l.stopReason)
  {
    var before := es[..i];
    NoResult(before);
    assert es[..i + 1][..i] == before;
    FirstResultStays(es, i + 1);
  }

  predicate IsLastSession(es: seq<Event>, i: nat) {
    && i < |es| && es[i].Session? && es[i].id.Some?
    && forall j :: i < j < |es| && es[j].Session? ==> es[j].id.None?
  }

  /** The last line with messages of an assistant among them. */
  predicate IsLastSummary(es: seq<Event>, k: nat) {
    k < |es| && Tells(es[k]).Some? && forall j :: k < j < |es| ==> Tells(es[j]).None?
  }

  lemma {:induction false} SessionIs(es: seq<Event>, i: nat)
    requires IsLastSession(es, i)
    ensures SessionOf(es) == es[i].id
  {
    if i < |es| - 1 {
      SessionIs(es[..|es| - 1], i);
    }
  }

  lemma {:induction false} SummaryIs(es: seq<Event>, k: nat)
    requires IsLastSummary(es, k)
    ensures SummaryOf(es) == Tells(es[k])
  {
    if k < |es| - 1 {
      SummaryIs(es[..|es| - 1], k);
    }
  }

  lemma {:induction false} LastSession(es: seq<Event>) returns (i: nat)
    requires SessionOf(es).Some?
    ensures IsLastSession(es, i)
  {
    i := |es| - 1;
    if !(es[i].Session? && es[i].id.Some?) {
      i := LastSession(es[..|es| - 1]);
    }
  }

  lemma {:induction false} LastSummary(es: seq<Event>) returns (k: nat)
    requires SummaryOf(es).Some?
    ensures IsLastSummary(es, k)
  {
    k := |es| - 1;
    if Tells(es[k]).None? {
      k := LastSummary(es[..|es| - 1]);
    }
  }

  /** Without a result line the last session id and the last summary decide; with either lacking, output is missing. */
  lemma LastSummaryReports(es: seq<Event>)
    requires es != [] && NoResultLine(es)
    ensures Parsed(es).Missing? <==>
      (forall i: nat :: IsLastSession(es, i) ==> es[i].id == Some("")) || forall k: nat :: !IsLastSummary(es, k)
    ensures forall i: nat, k: nat :: IsLastSession(es, i) && es[i].id != Some("") && IsLastSummary(es, k) ==>
      var s := Tells(es[k]).value;
      Reports(Parsed(es), s.text, es[i].id.value, s.usage, s.modelId, s.errorMessage, s.stopReason)
  {
    NoResult(es);
    if SessionOf(es).Some? {
      var i := LastSession(es);
      SessionIs(es, i);
    }
    if SummaryOf(es).Some? {
      var k := LastSummary(es);
      SummaryIs(es, k);
    }
    forall i: nat | IsLastSession(es, i) ensures SessionOf(es) == es[i].id {
      SessionIs(es, i);
    }
    forall k: nat | IsLastSummary(es, k) ensures SummaryOf(es) == Tells(es[k]) {
      SummaryIs(es, k);
    }
  }

  /** A line is emitted at a summary while a session id is known, and carries both. */
  lemma EmittedIff(es: seq<Event>, e: Event)
    ensures var all := es + [e];
      && (Emitted(all).Some? <==> Tells(e).Some? && exists i: nat :: IsLastSession(all, i) && all[i].id != Some(""))
      && (Emitted(all).Some? ==>
        var (line, s) := (Emitted(all).value, Tells(e).value);
        && (forall i: nat :: IsLastSession(all, i) ==> all[i].id == Some(line.sessionId))
        && line.result == s.text && line.usage == s.usage && OrEmpty(line.modelId) == OrEmpty(s.modelId)
        && OrEmpty(line.errorMessage) == OrEmpty(s.errorMessage) && OrEmpty(line.stopReason) == OrEmpty(s.stopReason))
  {
    var all := es + [e];
    assert all[|es|] == e;
    if SessionOf(all).Some? {
      var i := LastSession(all);
      SessionIs(all, i);
    }
    forall i: nat | IsLastSession(all, i) ensures SessionOf(all) == all[i].id {
      SessionIs(all, i);
    }
  }
}
