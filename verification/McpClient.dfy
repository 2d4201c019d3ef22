/**
 * The bridge's JSON-RPC client: requests go out with fresh ids, replies come back
 * as lines of text cut into arbitrary chunks, and a request may also time out or
 * lose its server.
 */
module McpClient {
  import opened Prelude
  import opened Text

  /** What a line parses to; `error` is present when the reply's error is truthy, with its message if it has one. */
  datatype Message = Message(id: Option<int>, error: Option<Option<string>>, result: string)

  datatype Parse = NotJson | JsonNull | Json(message: Message)

  type Parser = string -> Parse

  datatype Outcome = Resolved(result: string) | Failed(message: string) | TimedOut | ServerExited(code: Option<int>)

  /** What settled a request. */
  datatype Cause = ByLine(line: string) | ByTimer | ByExit

  datatype Settlement = Settlement(id: int, outcome: Outcome, cause: Cause)

  /** The client's fields, and what has been settled and received so far. */
  datatype Client = Client(nextId: int, pending: seq<int>, timers: set<int>, buf: string, log: seq<Settlement>,
                           received: string, handled: seq<string>)

  const FRESH := Client(1, [], {}, "", [], "", [])

  datatype Event = Request | Data(chunk: string) | Timeout(id: int) | Exit(code: Option<int>)

  // ---- One step

  function OutcomeOf(m: Message): Outcome {
    match m.error
    case None => Resolved(m.result)
    case Some(None) => Failed("MCP error")
    case Some(Some(message)) => Failed(message)
  }

  /** `pending.delete(id)` */
  function Removed(ids: seq<int>, id: int): seq<int> {
    if ids == [] then []
    else Removed(ids[..|ids| - 1], id) + if ids[|ids| - 1] == id then [] else [ids[|ids| - 1]]
  }

  /** The request leaves the table, its timer is cleared, its promise is settled. */
  function Settle(c: Client, id: int, outcome: Outcome, cause: Cause): Client {
    c.(pending := Removed(c.pending, id), timers := c.timers - {id}, log := c.log + [Settlement(id, outcome, cause)])
  }

  /** The reply a line holds, if it is one to a pending request. */
  function ReplyIn(parse: Parser, c: Client, line: string): Option<Message> {
    if Trim(line) == "" || !parse(Trim(line)).Json? then None
    else
      var m := parse(Trim(line)).message;
      if m.id.Some? && m.id.value in c.pending then Some(m) else None
  }

  function HandleLine(parse: Parser, c: Client, line: string): Client {
    var m := ReplyIn(parse, c, line);
    var next := if m.Some? then Settle(c, m.value.id.value, OutcomeOf(m.value), ByLine(line)) else c;
    next.(handled := next.handled + [line])
  }

  function HandleLines(parse: Parser, c: Client, lines: seq<string>): Client {
    if lines == [] then c else HandleLine(parse, HandleLines(parse, c, lines[..|lines| - 1]), lines[|lines| - 1])
  }

  /** `msg.id` throws on this line. */
  predicate Throws(parse: Parser, line: string) {
    Trim(line) != "" && parse(Trim(line)).JsonNull?
  }

  /** The lines handled before the handler is left: all, or up to the first that throws. */
  function Taken(parse: Parser, lines: seq<string>): seq<string> {
    if lines == [] then []
    else if Throws(parse, lines[0]) then [lines[0]]
    else [lines[0]] + Taken(parse, lines[1..])
  }

  /** The text after its first `n` newlines. */
  function Rest(text: string, n: nat): string {
    if n == 0 || NewlineAt(text) == |text| then text else Rest(text[NewlineAt(text) + 1..], n - 1)
  }

  /** What a chunk leaves in the buffer. */
  function Left(parse: Parser, text: string): string {
    Rest(text, |Taken(parse, Ended(text))|)
  }

  function Arrive(parse: Parser, c: Client, chunk: string): Client {
    HandleLines(parse, c, Taken(parse, Ended(c.buf + chunk))).(buf := Left(parse, c.buf + chunk), received := c.received + chunk)
  }

  function SetOf(ids: seq<int>): set<int> {
    set id | id in ids
  }

  function Exits(ids: seq<int>, code: Option<int>): seq<Settlement> {
    if ids == [] then []
    else Exits(ids[..|ids| - 1], code) + [Settlement(ids[|ids| - 1], ServerExited(code), ByExit)]
  }

  /** A timer fires only while it is armed. */
  predicate Enabled(c: Client, e: Event) {
    e.Timeout? ==> e.id in c.timers
  }

  function Next(parse: Parser, c: Client, e: Event): Client {
    match e
    case Request => c.(nextId := c.nextId + 1, pending := c.pending + [c.nextId], timers := c.timers + {c.nextId})
    case Data(chunk) => Arrive(parse, c, chunk)
    case Timeout(id) => Settle(c, id, TimedOut, ByTimer)
    case Exit(code) => c.(pending := [], timers := c.timers - SetOf(c.pending), log := c.log + Exits(c.pending, code))
  }

  ghost predicate Happens(parse: Parser, c: Client, es: seq<Event>) {
    es == [] || (Happens(parse, c, es[..|es| - 1]) && Enabled(After(parse, c, es[..|es| - 1]), es[|es| - 1]))
  }

  function After(parse: Parser, c: Client, es: seq<Event>): Client {
    if es == [] then c else Next(parse, After(parse, c, es[..|es| - 1]), es[|es| - 1])
  }

  // ---- Invariant

  function Ids(log: seq<Settlement>): seq<int> {
    if log == [] then [] else Ids(log[..|log| - 1]) + [log[|log| - 1].id]
  }

  function UpTo(n: int): seq<int> {
    if n <= 1 then [] else UpTo(n - 1) + [n - 1]
  }

  /** Every id issued is exactly once in the table or in the log. */
  ghost predicate Conserved(c: Client) {
    c.nextId >= 1 && multiset(c.pending) + multiset(Ids(c.log)) == multiset(UpTo(c.nextId))
  }

  /** A reply settles the request whose id it carries, with what it says. */
  ghost predicate Answers(parse: Parser, s: Settlement, handled: seq<string>) {
    s.cause.ByLine? ==>
      && s.cause.line in handled
      && parse(Trim(s.cause.line)).Json?
      && parse(Trim(s.cause.line)).message.id == Some(s.id)
      && s.outcome == OutcomeOf(parse(Trim(s.cause.line)).message)
  }

  ghost predicate AllAnswer(parse: Parser, c: Client) {
    forall k {:trigger c.log[k]} :: 0 <= k < |c.log| ==> Answers(parse, c.log[k], c.handled)
  }

  /** The lines handled and the text in the buffer make up what was received. */
  ghost predicate Framed(c: Client) {
    Splits(c.received, c.handled, c.buf)
  }

  /** The lines taken off so far and the text left make up the whole text. */
  ghost predicate Splits(text: string, done: seq<string>, rest: string) {
    Lines(text) == done + Lines(rest)
  }

  ghost predicate Inv(parse: Parser, c: Client) {
    Conserved(c) && c.timers == SetOf(c.pending) && AllAnswer(parse, c) && Framed(c)
  }

  lemma {:induction false} UpToOnce(n: int, id: int)
    ensures multiset(UpTo(n))[id] == if 1 <= id < n then 1 else 0
  {
    if n > 1 {
      UpToOnce(n - 1, id);
    }
  }

  lemma {:induction false} RemovedOnce(ids: seq<int>, id: int)
    ensures multiset(Removed(ids, id)) == multiset(ids)[id := 0]
  {
    if ids != [] {
      var (init, last) := (ids[..|ids| - 1], ids[|ids| - 1]);
      RemovedOnce(init, id);
      assert ids == init + [last];
    }
  }

  lemma IdsPush(log: seq<Settlement>, s: Settlement)
    ensures Ids(log + [s]) == Ids(log) + [s.id]
  {
    assert (log + [s])[..|log|] == log;
  }

  /** No id is twice in the table and the log together. */
  lemma AtMostOnce(c: Client, id: int)
    requires Conserved(c)
    ensures multiset(c.pending)[id] + multiset(Ids(c.log))[id] == if 1 <= id < c.nextId then 1 else 0
  {
    UpToOnce(c.nextId, id);
    assert (multiset(c.pending) + multiset(Ids(c.log)))[id] == multiset(c.pending)[id] + multiset(Ids(c.log))[id];
  }

  lemma SettleConserves(c: Client, id: int, outcome: Outcome, cause: Cause)
    requires Conserved(c) && id in c.pending
    ensures Conserved(Settle(c, id, outcome, cause))
  {
    RemovedOnce(c.pending, id);
    IdsPush(c.log, Settlement(id, outcome, cause));
    assert id in multiset(c.pending);
    AtMostOnce(c, id);
    assert multiset(c.pending)[id := 0] + multiset{id} == multiset(c.pending);
  }

  lemma SettleTimers(c: Client, id: int)
    requires c.timers == SetOf(c.pending)
    ensures c.timers - {id} == SetOf(Removed(c.pending, id))
  {
    RemovedOnce(c.pending, id);
    forall x ensures x in SetOf(Removed(c.pending, id)) <==> x in c.timers && x != id {
      assert x in Removed(c.pending, id) <==> x in multiset(Removed(c.pending, id));
      assert x in c.pending <==> x in multiset(c.pending);
    }
  }

  lemma AnswersMore(parse: Parser, c: Client, s: Settlement, line: string)
    requires AllAnswer(parse, c) && Answers(parse, s, c.handled + [line])
    ensures AllAnswer(parse, c.(log := c.log + [s], handled := c.handled + [line]))
    ensures AllAnswer(parse, c.(handled := c.handled + [line]))
  {
  }

  /** Everything but the framing, which holds again once the whole chunk is handled. */
  ghost predicate Settled(parse: Parser, c: Client) {
    Conserved(c) && c.timers == SetOf(c.pending) && AllAnswer(parse, c)
  }

  lemma LineKeeps(parse: Parser, c: Client, line: string)
    requires Settled(parse, c)
    ensures Settled(parse, HandleLine(parse, c, line))
  {
    var m := ReplyIn(parse, c, line);
    if m.Some? {
      var s := Settlement(m.value.id.value, OutcomeOf(m.value), ByLine(line));
      SettleConserves(c, s.id, s.outcome, s.cause);
      SettleTimers(c, s.id);
      AnswersMore(parse, c, s, line);
    } else {
      AnswersMore(parse, c, Settlement(0, TimedOut, ByTimer), line);
    }
  }

  lemma {:induction false} LinesKeep(parse: Parser, c: Client, lines: seq<string>)
    requires Settled(parse, c)
    ensures Settled(parse, HandleLines(parse, c, lines))
  {
    if lines != [] {
      LinesKeep(parse, c, lines[..|lines| - 1]);
      LineKeeps(parse, HandleLines(parse, c, lines[..|lines| - 1]), lines[|lines| - 1]);
    }
  }

  lemma {:induction false} LinesHandled(parse: Parser, c: Client, lines: seq<string>)
    ensures HandleLines(parse, c, lines).handled == c.handled + lines
  {
    if lines != [] {
      LinesHandled(parse, c, lines[..|lines| - 1]);
      assert c.handled + lines == c.handled + lines[..|lines| - 1] + [lines[|lines| - 1]];
    }
  }

  lemma ExitsNone(code: Option<int>)
    ensures Exits([], code) == [] && SetOf([]) == {}
  {
  }

  lemma ExitsPush(ids: seq<int>, id: int, code: Option<int>)
    ensures Exits(ids + [id], code) == Exits(ids, code) + [Settlement(id, ServerExited(code), ByExit)]
  {
    assert (ids + [id])[..|ids|] == ids;
  }

  lemma {:induction false} ExitIds(ids: seq<int>, code: Option<int>)
    ensures Ids(Exits(ids, code)) == ids
  {
    if ids != [] {
      ExitIds(ids[..|ids| - 1], code);
      IdsPush(Exits(ids[..|ids| - 1], code), Settlement(ids[|ids| - 1], ServerExited(code), ByExit));
      assert ids == ids[..|ids| - 1] + [ids[|ids| - 1]];
    }
  }

  lemma {:induction false} IdsAppend(a: seq<Settlement>, b: seq<Settlement>)
    ensures Ids(a + b) == Ids(a) + Ids(b)
  {
    if b == [] {
      assert a + b == a;
    } else {
      var init := b[..|b| - 1];
      IdsAppend(a, init);
      IdsPush(a + init, b[|b| - 1]);
      assert a + b == a + init + [b[|b| - 1]];
    }
  }

  lemma {:induction false} ExitsByExit(ids: seq<int>, code: Option<int>, k: nat)
    requires k < |Exits(ids, code)|
    ensures Exits(ids, code)[k].cause == ByExit
  {
    if k < |Exits(ids[..|ids| - 1], code)| {
      ExitsByExit(ids[..|ids| - 1], code, k);
    }
  }

  lemma ExitAnswers(parse: Parser, c: Client, code: Option<int>)
    requires AllAnswer(parse, c)
    ensures AllAnswer(parse, Next(parse, c, Exit(code)))
  {
    var log := c.log + Exits(c.pending, code);
    forall k | 0 <= k < |log| ensures Answers(parse, log[k], c.handled) {
      if k >= |c.log| {
        ExitsByExit(c.pending, code, k - |c.log|);
      }
    }
  }

  lemma ExitKeeps(parse: Parser, c: Client, code: Option<int>)
    requires Inv(parse, c)
    ensures Inv(parse, Next(parse, c, Exit(code)))
  {
    ExitAnswers(parse, c, code);
    ExitIds(c.pending, code);
    IdsAppend(c.log, Exits(c.pending, code));
    assert SetOf([]) == {};
  }

  // ---- Framing

  lemma {:induction false} TakenPrefix(parse: Parser, lines: seq<string>)
    ensures |Taken(parse, lines)| <= |lines| && Taken(parse, lines) == lines[..|Taken(parse, lines)|]
  {
    if lines != [] && !Throws(parse, lines[0]) {
      TakenPrefix(parse, lines[1..]);
    }
  }

  lemma {:induction false} RestSplits(text: string, n: nat)
    requires n <= |Ended(text)|
    ensures Splits(text, Ended(text)[..n], Rest(text, n))
  {
    hide NewlineAt, Rest, Lines;
    if n > 0 {
      NewlineThere(text);
      FirstLine(text);
      FirstEnded(text);
      RestNext(text, n - 1);
      var (line, after) := (text[..NewlineAt(text)], text[NewlineAt(text) + 1..]);
      RestSplits(after, n - 1);
      assert Ended(text)[..n] == [line] + Ended(after)[..n - 1];
      SplitsPrepend(line, after, Ended(after)[..n - 1], Rest(after, n - 1));
    } else {
      NoLinesTaken(text);
      assert [] + Lines(text) == Lines(text);
    }
  }

  lemma EndedCons(text: string, line: string, after: string)
    requires Lines(text) == [line] + Lines(after)
    ensures Ended(text) == [line] + Ended(after) && Tail(text) == Tail(after)
  {
  }

  lemma SplitsPrepend(line: string, after: string, done: seq<string>, rest: string)
    requires Splits(after, done, rest)
    ensures [line] + Lines(after) == [line] + done + Lines(rest)
  {
    assert [line] + (done + Lines(rest)) == [line] + done + Lines(rest);
  }

  lemma LeftSplits(parse: Parser, text: string)
    ensures Splits(text, Taken(parse, Ended(text)), Left(parse, text))
  {
    TakenPrefix(parse, Ended(text));
    RestSplits(text, |Taken(parse, Ended(text))|);
  }

  lemma SplitsEnded(text: string, done: seq<string>, rest: string)
    requires Splits(text, done, rest)
    ensures Ended(text) == done + Ended(rest) && Tail(text) == Tail(rest)
  {
    var n := |Lines(rest)| - 1;
    assert Lines(rest) == Lines(rest)[..n] + [Lines(rest)[n]];
    assert Lines(text) == done + Lines(rest)[..n] + [Lines(rest)[n]];
  }

  lemma SplitsMore(text: string, done: seq<string>, rest: string, chunk: string)
    requires Splits(text, done, rest)
    ensures Splits(text + chunk, done, rest + chunk)
  {
    hide Lines;
    SplitsEnded(text, done, rest);
    LinesAppend(text, chunk);
    LinesAppend(rest, chunk);
    Associates(done, Ended(rest), Lines(Tail(rest) + chunk));
  }

  lemma SplitsThen(text: string, done: seq<string>, mid: string, more: seq<string>, rest: string)
    requires Splits(text, done, mid) && Splits(mid, more, rest)
    ensures Splits(text, done + more, rest)
  {
    assert done + (more + Lines(rest)) == done + more + Lines(rest);
  }

  lemma DataKeeps(parse: Parser, c: Client, chunk: string)
    requires Inv(parse, c)
    ensures Inv(parse, Arrive(parse, c, chunk))
  {
    var taken := Taken(parse, Ended(c.buf + chunk));
    LinesKeep(parse, c, taken);
    LinesHandled(parse, c, taken);
    SplitsMore(c.received, c.handled, c.buf, chunk);
    LeftSplits(parse, c.buf + chunk);
    SplitsThen(c.received + chunk, c.handled, c.buf + chunk, taken, Left(parse, c.buf + chunk));
  }

  lemma TimeoutKeeps(parse: Parser, c: Client, id: int)
    requires Inv(parse, c) && id in c.timers
    ensures Inv(parse, Next(parse, c, Timeout(id)))
  {
    hide Ids, UpTo, Removed, Lines;
    SettleConserves(c, id, TimedOut, ByTimer);
    SettleTimers(c, id);
  }

  lemma SetOfPush(ids: seq<int>, id: int)
    ensures SetOf(ids + [id]) == SetOf(ids) + {id}
  {
  }

  lemma RequestKeeps(parse: Parser, c: Client)
    requires Inv(parse, c)
    ensures Inv(parse, Next(parse, c, Request))
  {
    RequestConserves(parse, c);
    SetOfPush(c.pending, c.nextId);
  }

  lemma RequestConserves(parse: Parser, c: Client)
    requires Conserved(c)
    ensures Conserved(Next(parse, c, Request))
  {
    hide UpTo, Ids;
    UpToNext(c.nextId);
    SumPush(c.pending, Ids(c.log), c.nextId);
  }

  lemma UpToNext(n: int)
    requires n >= 1
    ensures multiset(UpTo(n + 1)) == multiset(UpTo(n)) + multiset{n}
  {
    assert UpTo(n + 1) == UpTo(n) + [n];
  }

  lemma SumPush(a: seq<int>, b: seq<int>, x: int)
    ensures multiset(a + [x]) + multiset(b) == multiset(a) + multiset(b) + multiset{x}
  {
    assert multiset(a + [x]) == multiset(a) + multiset{x};
  }

  /** What every event keeps. */
  lemma StepKeepsInv(parse: Parser, c: Client, e: Event)
    requires Inv(parse, c) && Enabled(c, e)
    ensures Inv(parse, Next(parse, c, e))
  {
    match e
    case Request => RequestKeeps(parse, c);
    case Data(chunk) => DataKeeps(parse, c, chunk);
    case Timeout(id) => TimeoutKeeps(parse, c, id);
    case Exit(code) => ExitKeeps(parse, c, code);
  }

  lemma {:induction false} RunKeepsInv(parse: Parser, es: seq<Event>)
    requires Happens(parse, FRESH, es)
    ensures Inv(parse, After(parse, FRESH, es))
  {
    if es != [] {
      RunKeepsInv(parse, es[..|es| - 1]);
      StepKeepsInv(parse, After(parse, FRESH, es[..|es| - 1]), es[|es| - 1]);
    }
  }

  // ---- What holds of every run

  lemma {:induction false} TwiceCounted(ids: seq<int>, i: nat, j: nat)
    requires i < j < |ids| && ids[i] == ids[j]
    ensures multiset(ids)[ids[i]] >= 2
  {
    assert ids == ids[..j] + [ids[j]] + ids[j + 1..];
    assert ids[..j][i] in multiset(ids[..j]);
  }

  lemma {:induction false} IdsAt(log: seq<Settlement>, i: nat)
    requires i < |log|
    ensures |Ids(log)| == |log| && Ids(log)[i] == log[i].id
  {
    if i < |log| - 1 {
      IdsAt(log[..|log| - 1], i);
    } else if |log| > 1 {
      IdsAt(log[..|log| - 1], 0);
    }
  }

  /** No request settles twice. */
  lemma SettledAtMostOnce(parse: Parser, es: seq<Event>, i: nat, j: nat)
    requires Happens(parse, FRESH, es)
    requires i < j < |After(parse, FRESH, es).log|
    ensures After(parse, FRESH, es).log[i].id != After(parse, FRESH, es).log[j].id
  {
    var c := After(parse, FRESH, es);
    RunKeepsInv(parse, es);
    IdsAt(c.log, i);
    IdsAt(c.log, j);
    if c.log[i].id == c.log[j].id {
      TwiceCounted(Ids(c.log), i, j);
      AtMostOnce(c, c.log[i].id);
    }
  }

  /** A request sent is either waiting or settled, never both, and nothing else is. */
  lemma WaitingXorSettled(parse: Parser, es: seq<Event>, id: int)
    requires Happens(parse, FRESH, es)
    ensures var c := After(parse, FRESH, es);
      && (1 <= id < c.nextId <==> id in c.pending || id in Ids(c.log))
      && !(id in c.pending && id in Ids(c.log))
  {
    var c := After(parse, FRESH, es);
    RunKeepsInv(parse, es);
    AtMostOnce(c, id);
    assert id in c.pending <==> multiset(c.pending)[id] > 0;
    assert id in Ids(c.log) <==> multiset(Ids(c.log))[id] > 0;
  }

  /** Once the server exits every request sent so far is settled. */
  lemma ExitSettlesAll(parse: Parser, es: seq<Event>, code: Option<int>)
    requires Happens(parse, FRESH, es)
    ensures var c := After(parse, FRESH, es + [Exit(code)]);
      c.pending == [] && c.timers == {} && multiset(Ids(c.log)) == multiset(UpTo(c.nextId))
  {
    assert (es + [Exit(code)])[..|es|] == es;
    RunKeepsInv(parse, es);
    ExitKeeps(parse, After(parse, FRESH, es), code);
  }

  /** A request settled by a line was settled by a reply with its own id, one of the lines received. */
  lemma RepliesAnswer(parse: Parser, es: seq<Event>, k: nat)
    requires Happens(parse, FRESH, es) && k < |After(parse, FRESH, es).log|
    ensures var c := After(parse, FRESH, es); Answers(parse, c.log[k], Ended(c.received))
  {
    var c := After(parse, FRESH, es);
    RunKeepsInv(parse, es);
    SplitsEnded(c.received, c.handled, c.buf);
  }

  // ---- Chunks do not matter

  lemma HandleLinesPush(parse: Parser, c: Client, lines: seq<string>, line: string)
    ensures HandleLines(parse, c, lines + [line]) == HandleLine(parse, HandleLines(parse, c, lines), line)
  {
    assert (lines + [line])[..|lines|] == lines;
  }

  lemma {:induction false} HandleLinesAppend(parse: Parser, c: Client, a: seq<string>, b: seq<string>)
    ensures HandleLines(parse, c, a + b) == HandleLines(parse, HandleLines(parse, c, a), b)
  {
    if b == [] {
      assert a + b == a;
    } else {
      HandleLinesAppend(parse, c, a, b[..|b| - 1]);
      assert (a + b)[..|a + b| - 1] == a + b[..|b| - 1];
    }
  }

  lemma HandleLineFrame(parse: Parser, c: Client, line: string, buf: string, received: string)
    ensures HandleLine(parse, c.(buf := buf, received := received), line) ==
            HandleLine(parse, c, line).(buf := buf, received := received)
  {
  }

  lemma {:induction false} LinesLeaveReceived(parse: Parser, c: Client, lines: seq<string>)
    ensures HandleLines(parse, c, lines).received == c.received
  {
    if lines != [] {
      LinesLeaveReceived(parse, c, lines[..|lines| - 1]);
    }
  }

  /** Lines are handled without a look at the buffer. */
  lemma {:induction false} HandleLinesFrame(parse: Parser, c: Client, lines: seq<string>, buf: string, received: string)
    ensures HandleLines(parse, c.(buf := buf, received := received), lines) ==
            HandleLines(parse, c, lines).(buf := buf, received := received)
  {
    if lines != [] {
      HandleLinesFrame(parse, c, lines[..|lines| - 1], buf, received);
    }
  }

  lemma ArriveLines(text: string, b: string)
    ensures Ended(text + b) == Ended(text) + Ended(Tail(text) + b) && Tail(text + b) == Tail(Tail(text) + b)
  {
    LinesAppend(text, b);
  }

  /** A line that throws is followed by another line. */
  predicate ThrowsEarly(parse: Parser, lines: seq<string>) {
    exists i :: 0 <= i < |lines| - 1 && Throws(parse, lines[i])
  }

  lemma {:induction false} TakenAll(parse: Parser, lines: seq<string>)
    requires !ThrowsEarly(parse, lines)
    ensures Taken(parse, lines) == lines
  {
    if |lines| > 1 {
      assert !Throws(parse, lines[0]);
      var rest := lines[1..];
      forall i | 0 <= i < |rest| - 1 ensures !Throws(parse, rest[i]) {
        assert !Throws(parse, lines[i + 1]);
      }
      TakenAll(parse, rest);
    }
  }

  lemma {:induction false} TakenSome(parse: Parser, lines: seq<string>)
    requires ThrowsEarly(parse, lines)
    ensures 1 <= |Taken(parse, lines)| < |lines|
    ensures Taken(parse, Taken(parse, lines)) == Taken(parse, lines)
  {
    if !Throws(parse, lines[0]) {
      var i :| 0 <= i < |lines| - 1 && Throws(parse, lines[i]);
      assert Throws(parse, lines[1..][i - 1]);
      TakenSome(parse, lines[1..]);
      assert Taken(parse, lines)[1..] == Taken(parse, lines[1..]);
    }
  }

  lemma LeftTail(parse: Parser, text: string)
    requires !ThrowsEarly(parse, Ended(text))
    ensures Taken(parse, Ended(text)) == Ended(text) && Left(parse, text) == Tail(text)
  {
    TakenAll(parse, Ended(text));
    RestIsTail(text);
  }

  lemma {:induction false} RestIsTail(text: string)
    ensures Rest(text, |Ended(text)|) == Tail(text)
  {
    NewlineOrNone(text);
    if '\n' !in text {
      OneLine(text);
    } else {
      FirstEnded(text);
      RestNext(text, |Ended(text)| - 1);
      RestIsTail(text[NewlineAt(text) + 1..]);
    }
  }

  lemma EarlyStays(parse: Parser, a: seq<string>, b: seq<string>)
    requires !ThrowsEarly(parse, a + b)
    ensures !ThrowsEarly(parse, a) && !ThrowsEarly(parse, b)
  {
    forall i | 0 <= i < |a| - 1 ensures !Throws(parse, a[i]) {
      assert !Throws(parse, (a + b)[i]);
    }
    forall i | 0 <= i < |b| - 1 ensures !Throws(parse, b[i]) {
      assert !Throws(parse, (a + b)[|a| + i]);
    }
  }

  lemma AppendAssociates(a: string, b: string, c: string)
    ensures a + b + c == a + (b + c)
  {
  }

  /** Two chunks do what their concatenation does, if no line throws before another. */
  lemma ArriveTwice(parse: Parser, c: Client, a: string, b: string)
    requires !ThrowsEarly(parse, Ended(c.buf + a + b))
    ensures Arrive(parse, Arrive(parse, c, a), b) == Arrive(parse, c, a + b)
  {
    var (text, mid) := (c.buf + a, Arrive(parse, c, a));
    ArriveLines(text, b);
    EarlyStays(parse, Ended(text), Ended(Tail(text) + b));
    LeftTail(parse, text);
    LeftTail(parse, text + b);
    LeftTail(parse, mid.buf + b);
    AppendAssociates(c.buf, a, b);
    AppendAssociates(c.received, a, b);
    HandleLinesAppend(parse, c, Ended(text), Ended(mid.buf + b));
    HandleLinesFrame(parse, HandleLines(parse, c, Ended(text)), Ended(mid.buf + b), mid.buf, mid.received);
  }

  lemma NewlineThere(text: string)
    requires Ended(text) != []
    ensures NewlineAt(text) < |text|
  {
    NewlineOrNone(text);
    if '\n' !in text {
      OneLine(text);
    }
  }

  lemma NoLinesTaken(text: string)
    ensures Rest(text, 0) == text && Lines("") == [""] && "" + text == text
  {
  }

  /** A text cut behind its first `n` lines. */
  lemma {:induction false} CutAt(text: string, n: nat) returns (head: string, rest: string)
    requires n <= |Ended(text)|
    ensures text == head + rest && rest == Rest(text, n) && Lines(head) == Ended(text)[..n] + [""]
  {
    hide NewlineAt, Rest, Lines;
    if n == 0 {
      NoLinesTaken(text);
      head, rest := "", text;
    } else {
      NewlineThere(text);
      FirstEnded(text);
      FirstLineWhole(text);
      var (line, after) := (text[..NewlineAt(text)], text[NewlineAt(text) + 1..]);
      RestNext(text, n - 1);
      head, rest := CutAt(after, n - 1);
      CutNext(line, head, rest, Ended(after), n);
      head := line + ['\n'] + head;
    }
  }

  lemma CutNext(line: string, head: string, rest: string, lines: seq<string>, n: nat)
    requires '\n' !in line && 0 < n <= |lines| + 1 && Lines(head) == lines[..n - 1] + [""]
    ensures Lines(line + ['\n'] + head) == ([line] + lines)[..n] + [""]
    ensures line + ['\n'] + (head + rest) == line + ['\n'] + head + rest
  {
    LineThen(line, head);
    PrefixCons(line, lines, n);
  }

  lemma PrefixCons(line: string, lines: seq<string>, n: nat)
    requires 0 < n <= |lines| + 1
    ensures ([line] + lines)[..n] + [""] == [line] + (lines[..n - 1] + [""])
  {
  }

  /** A line that throws before another can be cut off from it, and then both are handled. */
  lemma CutThere(parse: Parser, c: Client, text: string) returns (a: string, b: string)
    requires '\n' !in c.buf && ThrowsEarly(parse, Ended(c.buf + text))
    ensures a + b == text && a != "" && b != ""
    ensures |Arrive(parse, Arrive(parse, c, a), b).handled| > |Arrive(parse, c, text).handled|
  {
    var taken := Taken(parse, Ended(c.buf + text));
    a, b := CutBehind(parse, c.buf, text);
    CutHandled(parse, c, a, b, taken);
    LinesHandled(parse, c, taken);
    assert "" + b == b;
    LinesHandled(parse, Arrive(parse, c, a), Taken(parse, Ended(b)));
  }

  lemma CutBehind(parse: Parser, buf: string, text: string) returns (a: string, b: string)
    requires '\n' !in buf && ThrowsEarly(parse, Ended(buf + text))
    ensures var taken := Taken(parse, Ended(buf + text));
      Lines(buf + a) == taken + [""] && Taken(parse, taken) == taken
    ensures a + b == text && a != "" && b != "" && Ended(b) != []
  {
    var (whole, lines) := (buf + text, Ended(buf + text));
    var taken := Taken(parse, lines);
    TakenSome(parse, lines);
    TakenPrefix(parse, lines);
    var head;
    head, b := CutAt(whole, |taken|);
    RestSplits(whole, |taken|);
    SplitsEnded(whole, taken, b);
    a := CutInside(buf, text, head, b, taken);
  }

  lemma CutInside(buf: string, text: string, head: string, rest: string, taken: seq<string>) returns (a: string)
    requires '\n' !in buf && buf + text == head + rest && Lines(head) == taken + [""] && taken != [] && Ended(rest) != []
    ensures head == buf + a && a + rest == text && a != "" && rest != ""
  {
    if |head| <= |buf| {
      assert head == (head + rest)[..|head|] == (buf + text)[..|head|] == buf[..|head|];
      OneLine(head);
    }
    a := head[|buf|..];
    assert buf == (buf + text)[..|buf|] == (head + rest)[..|buf|] == head[..|buf|];
    assert text == (buf + text)[|buf|..] == (head + rest)[|buf|..] == a + rest;
  }

  lemma CutHandled(parse: Parser, c: Client, a: string, b: string, taken: seq<string>)
    requires Lines(c.buf + a) == taken + [""] && Taken(parse, taken) == taken && Ended(b) != []
    ensures Arrive(parse, c, a) == HandleLines(parse, c, taken).(buf := "", received := c.received + a)
    ensures Taken(parse, Ended(b)) != []
  {
    assert Ended(c.buf + a) == taken && Tail(c.buf + a) == "";
    RestIsTail(c.buf + a);
  }

  /**
   * From a buffer without a whole line, every way of cutting a text in two does
   * what the whole text does, exactly when no line of it throws before another.
   */
  lemma CutsIrrelevantIff(parse: Parser, c: Client, text: string)
    requires '\n' !in c.buf
    ensures (forall a, b {:trigger a + b} :: a + b == text && a != "" && b != "" ==>
               Arrive(parse, Arrive(parse, c, a), b) == Arrive(parse, c, text))
            <==> !ThrowsEarly(parse, Ended(c.buf + text))
  {
    if ThrowsEarly(parse, Ended(c.buf + text)) {
      var a, b := CutThere(parse, c, text);
    } else {
      forall a, b | a + b == text && a != "" && b != ""
        ensures Arrive(parse, Arrive(parse, c, a), b) == Arrive(parse, c, text)
      {
        AppendAssociates(c.buf, a, b);
        ArriveTwice(parse, c, a, b);
      }
    }
  }

  function ArriveAll(parse: Parser, c: Client, chunks: seq<string>): Client {
    if chunks == [] then c else Arrive(parse, ArriveAll(parse, c, chunks[..|chunks| - 1]), chunks[|chunks| - 1])
  }

  function Concat(chunks: seq<string>): string {
    if chunks == [] then "" else Concat(chunks[..|chunks| - 1]) + chunks[|chunks| - 1]
  }

  lemma {:induction false} ArriveAllAtOnce(parse: Parser, c: Client, chunks: seq<string>)
    requires '\n' !in c.buf && !ThrowsEarly(parse, Ended(c.buf + Concat(chunks)))
    ensures ArriveAll(parse, c, chunks) == Arrive(parse, c, Concat(chunks))
  {
    if chunks == [] {
      OneLine(c.buf);
      assert c.buf + "" == c.buf && c.received + "" == c.received;
    } else {
      var (before, last) := (Concat(chunks[..|chunks| - 1]), chunks[|chunks| - 1]);
      assert c.buf + Concat(chunks) == c.buf + before + last;
      ArriveLines(c.buf + before, last);
      EarlyStays(parse, Ended(c.buf + before), Ended(Tail(c.buf + before) + last));
      ArriveAllAtOnce(parse, c, chunks[..|chunks| - 1]);
      ArriveTwice(parse, c, before, last);
    }
  }

  /** However the same text is cut into chunks, the client ends in the same state, if no line throws before another. */
  lemma ChunkingIrrelevant(parse: Parser, c: Client, chunks: seq<string>, chunks': seq<string>)
    requires Concat(chunks) == Concat(chunks')
    requires '\n' !in c.buf && !ThrowsEarly(parse, Ended(c.buf + Concat(chunks)))
    ensures ArriveAll(parse, c, chunks) == ArriveAll(parse, c, chunks')
  {
    ArriveAllAtOnce(parse, c, chunks);
    ArriveAllAtOnce(parse, c, chunks');
  }

  /**
   * Whatever happens between the chunks, the lines handled are all those the text
   * received has ended, and the rest waits, if no line of it throws before another.
   */
  lemma {:induction false} HandlesAllReceived(parse: Parser, es: seq<Event>)
    requires !ThrowsEarly(parse, Ended(After(parse, FRESH, es).received))
    ensures After(parse, FRESH, es).handled == Ended(After(parse, FRESH, es).received)
    ensures After(parse, FRESH, es).buf == Tail(After(parse, FRESH, es).received)
  {
    if es == [] {
      OneLine("");
    } else {
      var (c, e) := (After(parse, FRESH, es[..|es| - 1]), es[|es| - 1]);
      hide After;
      LastStep(parse, es);
      if e.Data? {
        ArriveLines(c.received, e.chunk);
        EarlyStays(parse, Ended(c.received), Ended(Tail(c.received) + e.chunk));
        HandlesAllReceived(parse, es[..|es| - 1]);
        LeftTail(parse, c.buf + e.chunk);
        LinesHandled(parse, c, Ended(c.buf + e.chunk));
      } else {
        OnlyDataIsRead(parse, c, e);
        HandlesAllReceived(parse, es[..|es| - 1]);
      }
    }
  }

  lemma LastStep(parse: Parser, es: seq<Event>)
    requires es != []
    ensures After(parse, FRESH, es) == Next(parse, After(parse, FRESH, es[..|es| - 1]), es[|es| - 1])
  {
  }

  lemma OnlyDataIsRead(parse: Parser, c: Client, e: Event)
    requires !e.Data?
    ensures var next := Next(parse, c, e); next.received == c.received && next.handled == c.handled && next.buf == c.buf
  {
  }

  /** A run, of any requests, chunks, timeouts and exits, in which the server's output is `text`. */
  ghost predicate Reads(parse: Parser, es: seq<Event>, text: string) {
    Happens(parse, FRESH, es) && After(parse, FRESH, es).received == text
  }

  /**
   * All runs that read the same text handle the same lines, however it is cut and
   * whatever happens between the chunks, exactly when no line of the text throws
   * before another.
   */
  lemma HandledByTextIff(parse: Parser, text: string)
    ensures (forall es, es' {:trigger Reads(parse, es, text), Reads(parse, es', text)} ::
               Reads(parse, es, text) && Reads(parse, es', text) ==>
               After(parse, FRESH, es).handled == After(parse, FRESH, es').handled)
            <==> !ThrowsEarly(parse, Ended(text))
  {
    hide Reads, Happens, After, ThrowsEarly, Ended;
    if ThrowsEarly(parse, Ended(text)) {
      var a, b := TellingCut(parse, text);
    } else {
      forall es, es' | Reads(parse, es, text) && Reads(parse, es', text)
        ensures After(parse, FRESH, es).handled == After(parse, FRESH, es').handled
      {
        ReadsReceived(parse, es, text);
        ReadsReceived(parse, es', text);
        HandlesAllReceived(parse, es);
        HandlesAllReceived(parse, es');
      }
    }
  }

  lemma ReadsReceived(parse: Parser, es: seq<Event>, text: string)
    requires Reads(parse, es, text)
    ensures After(parse, FRESH, es).received == text
  {
  }

  lemma TellingCut(parse: Parser, text: string) returns (a: string, b: string)
    requires ThrowsEarly(parse, Ended(text))
    ensures Reads(parse, [Data(text)], text) && Reads(parse, [Data(a), Data(b)], text)
    ensures After(parse, FRESH, [Data(a), Data(b)]).handled != After(parse, FRESH, [Data(text)]).handled
  {
    assert FRESH.buf + text == text;
    a, b := CutThere(parse, FRESH, text);
    hide Reads, After, Arrive;
    ReadAtOnce(parse, text);
    ReadInTwo(parse, a, b);
  }

  lemma ReadAtOnce(parse: Parser, text: string)
    ensures Reads(parse, [Data(text)], text) && After(parse, FRESH, [Data(text)]) == Arrive(parse, FRESH, text)
  {
    assert [Data(text)][..0] == [];
    assert After(parse, FRESH, []) == FRESH && Happens(parse, FRESH, []);
    LastStep(parse, [Data(text)]);
    assert FRESH.received + text == text;
  }

  lemma ReadInTwo(parse: Parser, a: string, b: string)
    ensures Reads(parse, [Data(a), Data(b)], a + b)
    ensures After(parse, FRESH, [Data(a), Data(b)]) == Arrive(parse, Arrive(parse, FRESH, a), b)
  {
    ReadAtOnce(parse, a);
    assert [Data(a), Data(b)][..1] == [Data(a)];
    LastStep(parse, [Data(a), Data(b)]);
  }

  // ---- What a line, a timeout and an exit settle

  predicate IsReply(parse: Parser, line: string, id: int) {
    Trim(line) != "" && parse(Trim(line)).Json? && parse(Trim(line)).message.id == Some(id)
  }

  /** The outcome is what the reply says: its result or, if it has an error, the error's message or the default. */
  predicate Tells(parse: Parser, line: string, o: Outcome) {
    && parse(Trim(line)).Json?
    && var m := parse(Trim(line)).message;
    && (m.error.None? ==> o == Resolved(m.result))
    && (m.error.Some? ==> o == Failed(if m.error.value.Some? then m.error.value.value else "MCP error"))
  }

  ghost predicate SettledBy(parse: Parser, s: Settlement, id: int, line: string) {
    s.id == id && s.cause == ByLine(line) && Tells(parse, line, s.outcome)
  }

  /** A reply to a pending request settles it and nothing else; any other line settles nothing. */
  ghost predicate LineEffect(parse: Parser, c: Client, line: string, next: Client) {
    && (forall id :: IsReply(parse, line, id) && id in c.pending ==>
      && Picks(c.pending, Others(c.pending, id), next.pending) && id !in next.pending && next.timers == c.timers - {id}
      && |next.log| == |c.log| + 1 && c.log <= next.log && SettledBy(parse, next.log[|c.log|], id, line))
    && ((forall id :: IsReply(parse, line, id) ==> id !in c.pending) ==>
      next.pending == c.pending && next.timers == c.timers && next.log == c.log)
  }

  /** The positions of the other ids. */
  function Others(ids: seq<int>, id: int): set<nat> {
    set i: nat | i < |ids| && ids[i] != id
  }

  lemma {:induction false} RemovedPicks(ids: seq<int>, id: int)
    ensures Picks(ids, Others(ids, id), Removed(ids, id)) && id !in Removed(ids, id)
  {
    if ids == [] {
      assert Others(ids, id) == {};
      PicksNone(ids);
    } else {
      var (init, last) := (ids[..|ids| - 1], ids[|ids| - 1]);
      RemovedPicks(init, id);
      PicksPush(init, Others(init, id), Removed(init, id), last);
      InitLast(ids);
      if last == id {
        assert Others(ids, id) == Others(init, id) && Removed(ids, id) == Removed(init, id);
      } else {
        assert Others(ids, id) == Others(init, id) + {|init|} && Removed(ids, id) == Removed(init, id) + [last];
      }
    }
  }

  lemma LineHasEffect(parse: Parser, c: Client, line: string)
    ensures LineEffect(parse, c, line, HandleLine(parse, c, line))
  {
    hide Removed, Others, Picks;
    forall id | IsReply(parse, line, id) && id in c.pending
      ensures Picks(c.pending, Others(c.pending, id), HandleLine(parse, c, line).pending)
      ensures id !in HandleLine(parse, c, line).pending
    {
      RemovedPicks(c.pending, id);
    }
  }

  /** A chunk that ends one line. */
  lemma OneLineSettles(parse: Parser, c: Client, chunk: string, line: string)
    requires Ended(c.buf + chunk) == [line]
    ensures LineEffect(parse, c, line, Next(parse, c, Data(chunk)))
  {
    hide Picks, Others;
    LineHasEffect(parse, c, line);
    assert Taken(parse, [line]) == [line];
    assert [line][..0] == [];
    var (one, next) := (HandleLine(parse, c, line), Next(parse, c, Data(chunk)));
    assert HandleLines(parse, c, [line]) == one;
    assert next.pending == one.pending && next.timers == one.timers && next.log == one.log;
  }

  /** None of the first `k` lines throws. */
  predicate NoneThrows(parse: Parser, lines: seq<string>, k: nat)
    requires k <= |lines|
  {
    forall j :: 0 <= j < k ==> !Throws(parse, lines[j])
  }

  lemma {:induction false} TakenUpTo(parse: Parser, lines: seq<string>, k: nat)
    requires k <= |lines| && NoneThrows(parse, lines, k)
    ensures k <= |Taken(parse, lines)| && Taken(parse, lines)[..k] == lines[..k]
    ensures k < |lines| ==> k < |Taken(parse, lines)| && Taken(parse, lines)[k] == lines[k]
    ensures k < |lines| && Throws(parse, lines[k]) ==> Taken(parse, lines) == lines[..k + 1]
  {
    if k > 0 {
      assert !Throws(parse, lines[0]);
      assert forall j :: 0 <= j < k - 1 ==> lines[1..][j] == lines[j + 1];
      TakenUpTo(parse, lines[1..], k - 1);
    }
  }

  /** What is handled of a chunk: the lines up to the first that throws, and all if none does. */
  lemma HandledUpTo(parse: Parser, c: Client, chunk: string, k: nat)
    requires k <= |Ended(c.buf + chunk)| && NoneThrows(parse, Ended(c.buf + chunk), k)
    ensures var (lines, handled) := (Ended(c.buf + chunk), Next(parse, c, Data(chunk)).handled);
      && c.handled + lines[..k] <= handled <= c.handled + lines
      && (k < |lines| && Throws(parse, lines[k]) ==> handled == c.handled + lines[..k + 1])
  {
    var lines := Ended(c.buf + chunk);
    LinesHandled(parse, c, Taken(parse, lines));
    TakenUpTo(parse, lines, k);
    TakenPrefix(parse, lines);
  }

  lemma StaysIffOther(ids: seq<int>, gone: int, id: int)
    ensures id in Removed(ids, gone) <==> id in ids && id != gone
  {
    RemovedOnce(ids, gone);
    assert id in Removed(ids, gone) <==> id in multiset(Removed(ids, gone));
    assert id in ids <==> id in multiset(ids);
  }

  /** What is settled stays so, entries stay in the log, and only its reply settles a request. */
  lemma LineKeepsSettled(parse: Parser, c: Client, line: string, id: int)
    ensures var next := HandleLine(parse, c, line);
      && c.log <= next.log && next.timers <= c.timers && (id !in c.pending ==> id !in next.pending)
      && (id in c.pending && !IsReply(parse, line, id) ==> id in next.pending)
  {
    hide Removed;
    var m := ReplyIn(parse, c, line);
    if m.Some? {
      StaysIffOther(c.pending, m.value.id.value, id);
    }
  }

  lemma {:induction false} LinesKeepSettled(parse: Parser, c: Client, lines: seq<string>, id: int)
    ensures var next := HandleLines(parse, c, lines);
      c.log <= next.log && next.timers <= c.timers && (id !in c.pending ==> id !in next.pending)
  {
    if lines != [] {
      hide HandleLine, IsReply;
      LinesKeepSettled(parse, c, lines[..|lines| - 1], id);
      LineKeepsSettled(parse, HandleLines(parse, c, lines[..|lines| - 1]), lines[|lines| - 1], id);
    }
  }

  lemma {:induction false} LinesLeave(parse: Parser, c: Client, lines: seq<string>, id: int)
    requires id in c.pending && forall j :: 0 <= j < |lines| ==> !IsReply(parse, lines[j], id)
    ensures id in HandleLines(parse, c, lines).pending
  {
    if lines != [] {
      hide HandleLine, IsReply;
      LinesLeave(parse, c, lines[..|lines| - 1], id);
      LineKeepsSettled(parse, HandleLines(parse, c, lines[..|lines| - 1]), lines[|lines| - 1], id);
    }
  }

  /** The log has an entry past the first `n` by which the line settled the request. */
  ghost predicate Logged(parse: Parser, log: seq<Settlement>, n: nat, id: int, line: string) {
    exists i :: n <= i < |log| && SettledBy(parse, log[i], id, line)
  }

  /**
   * The first reply in a chunk to a pending request settles it with what it says,
   * if no line before it throws.
   */
  lemma ReplySettles(parse: Parser, c: Client, chunk: string, k: nat, id: int)
    requires k < |Ended(c.buf + chunk)| && NoneThrows(parse, Ended(c.buf + chunk), k)
    requires IsReply(parse, Ended(c.buf + chunk)[k], id) && id in c.pending
    requires forall j :: 0 <= j < k ==> !IsReply(parse, Ended(c.buf + chunk)[j], id)
    ensures var next := Next(parse, c, Data(chunk));
      && id !in next.pending && id !in next.timers && c.log <= next.log
      && Logged(parse, next.log, |c.log|, id, Ended(c.buf + chunk)[k])
  {
    var lines := Ended(c.buf + chunk);
    var taken := Taken(parse, lines);
    TakenUpTo(parse, lines, k);
    TakenSplit(parse, lines, k);
    forall j | 0 <= j < k ensures !IsReply(parse, lines[..k][j], id) {
    }
    FirstReplySettles(parse, c, lines[..k], lines[k], taken[k + 1..], id);
  }

  lemma TakenSplit(parse: Parser, lines: seq<string>, k: nat)
    requires k < |lines| && k < |Taken(parse, lines)|
    requires Taken(parse, lines)[..k] == lines[..k] && Taken(parse, lines)[k] == lines[k]
    ensures Taken(parse, lines) == lines[..k] + [lines[k]] + Taken(parse, lines)[k + 1..]
  {
  }

  lemma FirstReplySettles(parse: Parser, c: Client, before: seq<string>, line: string, more: seq<string>, id: int)
    requires IsReply(parse, line, id) && id in c.pending
    requires forall j :: 0 <= j < |before| ==> !IsReply(parse, before[j], id)
    ensures var next := HandleLines(parse, c, before + [line] + more);
      && id !in next.pending && id !in next.timers && c.log <= next.log
      && Logged(parse, next.log, |c.log|, id, line)
  {
    hide IsReply, SettledBy, Picks, HandleLine;
    var mid := HandleLines(parse, c, before);
    LinesLeave(parse, c, before, id);
    LinesKeepSettled(parse, c, before, id);
    LineHasEffect(parse, mid, line);
    var after := HandleLine(parse, mid, line);
    HandleLinesPush(parse, c, before, line);
    HandleLinesAppend(parse, c, before + [line], more);
    LinesKeepSettled(parse, after, more, id);
    hide HandleLines;
    assert SettledBy(parse, after.log[|mid.log|], id, line);
  }

  /** A timer that fires settles its request as timed out. */
  lemma TimeoutSettles(parse: Parser, c: Client, id: int)
    ensures var next := Next(parse, c, Timeout(id));
      && Picks(c.pending, Others(c.pending, id), next.pending) && id !in next.pending
      && next.timers == c.timers - {id} && next.log == c.log + [Settlement(id, TimedOut, ByTimer)]
  {
    hide Picks, Others;
    RemovedPicks(c.pending, id);
    assert Next(parse, c, Timeout(id)).pending == Removed(c.pending, id);
  }

  lemma {:induction false} ExitsAt(ids: seq<int>, code: Option<int>, k: nat)
    requires k < |ids|
    ensures |Exits(ids, code)| == |ids| && Exits(ids, code)[k] == Settlement(ids[k], ServerExited(code), ByExit)
  {
    if k < |ids| - 1 {
      ExitsAt(ids[..|ids| - 1], code, k);
    } else if k > 0 {
      ExitsAt(ids[..|ids| - 1], code, k - 1);
    }
  }

  /** An exit settles the pending requests in the order they were sent, each with the exit's code. */
  lemma ExitSettlesEach(parse: Parser, c: Client, code: Option<int>, k: nat)
    requires k < |c.pending|
    ensures var log := Next(parse, c, Exit(code)).log;
      && |log| == |c.log| + |c.pending| && c.log <= log
      && log[|c.log| + k] == Settlement(c.pending[k], ServerExited(code), ByExit)
  {
    ExitsAt(c.pending, code, k);
  }

  /** The first line off the buffer. */
  lemma TakenLine(parse: Parser, text: string)
    requires NewlineAt(text) < |text|
    ensures var (line, after) := (text[..NewlineAt(text)], text[NewlineAt(text) + 1..]);
      if Throws(parse, line) then Taken(parse, Ended(text)) == [line] && Left(parse, text) == after
      else Taken(parse, Ended(text)) == [line] + Taken(parse, Ended(after)) && Left(parse, text) == Left(parse, after)
  {
    hide Lines, NewlineAt, Rest;
    var (line, after) := (text[..NewlineAt(text)], text[NewlineAt(text) + 1..]);
    FirstEnded(text);
    TakenCons(parse, line, Ended(after));
    RestNext(text, if Throws(parse, line) then 0 else |Taken(parse, Ended(after))|);
  }

  lemma RestNext(text: string, n: nat)
    requires NewlineAt(text) < |text|
    ensures Rest(text, n + 1) == Rest(text[NewlineAt(text) + 1..], n)
    ensures Rest(text, 0) == text && Rest(text[NewlineAt(text) + 1..], 0) == text[NewlineAt(text) + 1..]
  {
  }

  lemma FirstEnded(text: string)
    requires NewlineAt(text) < |text|
    ensures Ended(text) == [text[..NewlineAt(text)]] + Ended(text[NewlineAt(text) + 1..])
    ensures Tail(text) == Tail(text[NewlineAt(text) + 1..])
  {
    hide Lines, NewlineAt;
    FirstLine(text);
    EndedCons(text, text[..NewlineAt(text)], text[NewlineAt(text) + 1..]);
  }

  lemma TakenCons(parse: Parser, line: string, more: seq<string>)
    ensures Taken(parse, [line] + more) == if Throws(parse, line) then [line] else [line] + Taken(parse, more)
  {
    assert ([line] + more)[1..] == more;
  }

  lemma TakenNext(parse: Parser, text: string, done: seq<string>, rest: string)
    requires Progress(parse, text, done, rest, false) && NewlineAt(rest) < |rest|
    ensures var (line, after) := (rest[..NewlineAt(rest)], rest[NewlineAt(rest) + 1..]);
      Progress(parse, text, done + [line], after, Throws(parse, line))
  {
    hide Lines, NewlineAt, Rest, Taken, Ended, Left, Throws;
    TakenLine(parse, rest);
    var (line, after) := (rest[..NewlineAt(rest)], rest[NewlineAt(rest) + 1..]);
    Regroup(done, line, Taken(parse, Ended(after)));
  }

  lemma Regroup(done: seq<string>, line: string, more: seq<string>)
    ensures done + ([line] + more) == done + [line] + more
  {
  }

  /** Of the text, `done` is handled so far and `rest` is in the buffer; the handler goes on there unless a line threw. */
  ghost predicate Progress(parse: Parser, text: string, done: seq<string>, rest: string, threw: bool) {
    if threw then Taken(parse, Ended(text)) == done && Left(parse, text) == rest
    else Taken(parse, Ended(text)) == done + Taken(parse, Ended(rest)) && Left(parse, text) == Left(parse, rest)
  }

  lemma ProgressStart(parse: Parser, text: string)
    ensures Progress(parse, text, [], text, false)
  {
    assert [] + Taken(parse, Ended(text)) == Taken(parse, Ended(text));
  }

  lemma HandledNone(parse: Parser, start: Client)
    ensures HandleLines(parse, start, []) == start
  {
  }

  lemma TakenDone(parse: Parser, text: string, done: seq<string>, rest: string, threw: bool)
    requires Progress(parse, text, done, rest, threw) && (threw || NewlineAt(rest) == |rest|)
    ensures Taken(parse, Ended(text)) == done && Left(parse, text) == rest
  {
    if !threw {
      NewlineOrNone(rest);
      OneLine(rest);
      assert done + [] == done;
    }
  }

  lemma HandledNext(parse: Parser, start: Client, done: seq<string>, line: string, buf: string)
    ensures HandleLine(parse, HandleLines(parse, start, done).(buf := buf), line) ==
            HandleLines(parse, start, done + [line]).(buf := buf)
  {
    HandleLinesPush(parse, start, done, line);
    var c := HandleLines(parse, start, done);
    HandleLineFrame(parse, c, line, buf, c.received);
  }

  // ---- The class

  /** The client as the program has it: handlers that update fields. `settled` stands for the promises. */
  class Bridge {
    const parse: Parser
    var nextId: int
    var pending: seq<int>
    var timers: set<int>
    var buf: string
    var settled: seq<Settlement>
    ghost var received: string
    ghost var handled: seq<string>

    ghost function State(): Client
      reads this
    {
      Client(nextId, pending, timers, buf, settled, received, handled)
    }

    constructor (parse: Parser)
      ensures this.parse == parse && State() == FRESH
    {
      this.parse := parse;
      nextId, pending, timers, buf, settled, received, handled := 1, [], {}, "", [], "", [];
    }

    method SettleOne(id: int, outcome: Outcome, cause: Cause)
      modifies this
      ensures State() == Settle(old(State()), id, outcome, cause)
    {
      pending := Removed(pending, id);
      timers := timers - {id};
      settled := settled + [Settlement(id, outcome, cause)];
    }

    /** Handles the lines that the chunk completes; a line that throws leaves the rest in the buffer. */
    method OnData(chunk: string)
      modifies this
      ensures State() == Next(parse, old(State()), Data(chunk))
    {
      hide Taken, Left, HandleLine, HandleLines, Progress, Ended;
      ghost var (start, text) := (old(State()), old(buf) + chunk);
      buf := buf + chunk;
      ghost var done: seq<string> := [];
      var threw := false;
      ProgressStart(parse, text);
      HandledNone(parse, start);
      while !threw && NewlineAt(buf) < |buf|
        invariant Progress(parse, text, done, buf, threw)
        invariant State() == HandleLines(parse, start, done).(buf := buf)
        decreases |buf|
      {
        TakenNext(parse, text, done, buf);
        var newline := NewlineAt(buf);
        var line := buf[..newline];
        buf := buf[newline + 1..];
        threw := OnLine(line);
        HandledNext(parse, start, done, line, buf);
        done := done + [line];
      }
      TakenDone(parse, text, done, buf, threw);
      received := received + chunk;
      LinesLeaveReceived(parse, start, done);
    }

    method OnLine(line: string) returns (threw: bool)
      modifies this
      ensures State() == HandleLine(parse, old(State()), line)
      ensures buf == old(buf) && threw == Throws(parse, line)
    {
      handled := handled + [line];
      if Trim(line) == "" {
        return false;
      }
      match parse(Trim(line)) {
        case NotJson => return false;
        case JsonNull => return true;
        case Json(m) =>
          if m.id.Some? && m.id.value in pending {
            SettleOne(m.id.value, OutcomeOf(m), ByLine(line));
          }
          return false;
      }
    }

    /** Sends the request under a fresh id and arms its timer. */
    method Send() returns (id: int)
      modifies this
      ensures id == old(nextId) && State() == Next(parse, old(State()), Request)
    {
      id := nextId;
      nextId := nextId + 1;
      timers := timers + {id};
      pending := pending + [id];
    }

    method OnTimeout(id: int)
      requires Enabled(State(), Timeout(id))
      modifies this
      ensures State() == Next(parse, old(State()), Timeout(id))
    {
      SettleOne(id, TimedOut, ByTimer);
    }

    method OnExit(code: Option<int>)
      modifies this
      ensures State() == Next(parse, old(State()), Exit(code))
    {
      hide Exits, SetOf;
      ghost var start := State();
      ExitsNone(code);
      for i := 0 to |pending|
        invariant pending == start.pending
        invariant State() == start.(timers := timers, log := start.log + Exits(pending[..i], code))
        invariant timers == start.timers - SetOf(pending[..i])
      {
        PrefixStep(pending, i);
        ExitsPush(pending[..i], pending[i], code);
        SetOfPush(pending[..i], pending[i]);
        Associates(start.log, Exits(pending[..i], code), [Settlement(pending[i], ServerExited(code), ByExit)]);
        timers := timers - {pending[i]};
        settled := settled + [Settlement(pending[i], ServerExited(code), ByExit)];
      }
      assert pending[..|pending|] == pending;
      pending := [];
    }
  }
}
