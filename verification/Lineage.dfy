/**
 * Lineage evidence of one conversation segment: what `LineageCollector` gathers
 * while the segment's raw records are read one by one.
 */
module Lineage {
  import opened Prelude

  /** How many trailing record uuids a segment keeps as anchors. */
  const LINEAGE_TAIL: nat := 32

  datatype SegmentLineage = SegmentLineage(
    firstUuid: Option<string>,
    tailUuids: seq<string>,
    externalRefs: seq<string>,
    forkedFromSessionIds: seq<string>)

  const NO_LINEAGE := SegmentLineage(None, [], [], [])

  datatype ForkedFrom = ForkedFrom(sessionId: Option<string>, messageUuid: Option<string>)

  /** A parsed JSONL record. A field that is absent or not a string is `None`. */
  datatype Raw =
    | NotAnObject
    | Record(
        uuid: Option<string>,
        parentUuid: Option<string>,
        logicalParentUuid: Option<string>,
        forkedFrom: Option<ForkedFrom>)

  // What one record says. Only a fork's message uuid may be the empty string.

  function Truthy(text: Option<string>): seq<string> {
    if text.Some? && text.value != "" then [text.value] else []
  }

  function Defines(r: Raw): seq<string> {
    if r.Record? then Truthy(r.uuid) else []
  }

  function ForkPoint(r: Raw): seq<string>
    requires r.Record?
  {
    if r.forkedFrom.Some? && r.forkedFrom.value.messageUuid.Some?
    then [r.forkedFrom.value.messageUuid.value] else []
  }

  function References(r: Raw): seq<string> {
    if r.NotAnObject? then []
    else Truthy(r.parentUuid) + Truthy(r.logicalParentUuid) + ForkPoint(r)
  }

  function Forks(r: Raw): seq<string> {
    if r.Record? && r.forkedFrom.Some? && r.forkedFrom.value.sessionId.Some?
    then [r.forkedFrom.value.sessionId.value] else []
  }

  // What a whole segment says, in record order.

  function AllDefined(rs: seq<Raw>): seq<string> {
    if rs == [] then [] else AllDefined(rs[..|rs| - 1]) + Defines(rs[|rs| - 1])
  }

  function AllReferenced(rs: seq<Raw>): seq<string> {
    if rs == [] then [] else AllReferenced(rs[..|rs| - 1]) + References(rs[|rs| - 1])
  }

  function AllForks(rs: seq<Raw>): seq<string> {
    if rs == [] then [] else AllForks(rs[..|rs| - 1]) + Forks(rs[|rs| - 1])
  }

  /** What one more record adds; anything but an object adds nothing. */
  lemma SaidPush(rs: seq<Raw>, r: Raw)
    ensures AllDefined(rs + [r]) == AllDefined(rs) + Defines(r)
    ensures AllReferenced(rs + [r]) == AllReferenced(rs) + References(r)
    ensures AllForks(rs + [r]) == AllForks(rs) + Forks(r)
    ensures r.NotAnObject? ==>
      AllDefined(rs + [r]) == AllDefined(rs) && AllReferenced(rs + [r]) == AllReferenced(rs) && AllForks(rs + [r]) == AllForks(rs)
  {
    assert (rs + [r])[..|rs|] == rs;
  }

  function Last(s: seq<string>, n: nat): seq<string> {
    if |s| <= n then s else s[|s| - n..]
  }

  /** `s` without the members of `drop`, order kept. */
  function Without(s: seq<string>, drop: set<string>): (r: seq<string>)
    ensures forall x :: x in r <==> x in s && x !in drop
  {
    if s == [] then []
    else if s[0] in drop then Without(s[1..], drop)
    else [s[0]] + Without(s[1..], drop)
  }

  function Elements(s: seq<string>): set<string> { set x | x in s }

  /** The lineage of a segment, as a function of its records and its own session id. */
  function LineageOf(rs: seq<Raw>, own: Option<string>): SegmentLineage {
    var uuids := AllDefined(rs);
    SegmentLineage(
      if uuids == [] then None else Some(uuids[0]),
      Last(uuids, LINEAGE_TAIL),
      Without(Distinct(AllReferenced(rs)), Elements(uuids)),
      Without(Distinct(AllForks(rs)), if own.Some? then {own.value} else {}))
  }

  class LineageCollector {
    var firstUuid: Option<string>
    var tail: seq<string>
    var defined: set<string>
    var refs: seq<string>
    var forked: seq<string>
    ghost var observed: seq<Raw>

    ghost predicate Valid()
      reads this
    {
      var uuids := AllDefined(observed);
      && firstUuid == (if uuids == [] then None else Some(uuids[0]))
      && tail == Last(uuids, LINEAGE_TAIL)
      && defined == Elements(uuids)
      && refs == Distinct(AllReferenced(observed))
      && forked == Distinct(AllForks(observed))
    }

    constructor ()
      ensures Valid() && observed == []
    {
      firstUuid, tail, defined, refs, forked := None, [], {}, [], [];
      observed := [];
    }

    method Observe(raw: Raw)
      requires Valid()
      modifies this
      ensures Valid() && observed == old(observed) + [raw]
    {
      hide Distinct, Last, Elements, AllDefined, AllReferenced, AllForks;
      ghost var before := observed;
      SaidPush(before, raw);
      if raw.Record? {
        NoteUuid(raw.uuid, AllDefined(before));
        NoteReferences(raw, AllReferenced(before));
        NoteFork(raw, AllForks(before));
      }
      observed := before + [raw];
    }

    method NoteUuid(uuid: Option<string>, ghost uuids: seq<string>)
      requires firstUuid == (if uuids == [] then None else Some(uuids[0]))
      requires tail == Last(uuids, LINEAGE_TAIL) && defined == Elements(uuids)
      modifies `firstUuid, `tail, `defined
      ensures var now := uuids + Truthy(uuid);
        && firstUuid == (if now == [] then None else Some(now[0]))
        && tail == Last(now, LINEAGE_TAIL) && defined == Elements(now)
    {
      if uuid.Some? && uuid.value != "" {
        if firstUuid == None {
          firstUuid := uuid;
        }
        defined := defined + {uuid.value};
        tail := tail + [uuid.value];
        if |tail| > LINEAGE_TAIL {
          tail := tail[1..];
        }
      }
    }

    method NoteReferences(raw: Raw, ghost named: seq<string>)
      requires raw.Record? && refs == Distinct(named)
      modifies `refs
      ensures refs == Distinct(named + References(raw))
    {
      hide Distinct;
      var (parent, logical, fork) := (Truthy(raw.parentUuid), Truthy(raw.logicalParentUuid), ForkPoint(raw));
      NoteReference(parent, named);
      NoteReference(logical, named + parent);
      NoteReference(fork, named + parent + logical);
      Associates(named + parent, logical, fork);
      Associates(named, parent, logical + fork);
      Associates(parent, logical, fork);
    }

    method NoteReference(uuid: seq<string>, ghost named: seq<string>)
      requires |uuid| <= 1 && refs == Distinct(named)
      modifies `refs
      ensures refs == Distinct(named + uuid)
    {
      if |uuid| == 1 {
        DistinctAppend(named, uuid[0]);
        refs := Added(refs, uuid[0]);
        assert uuid == [uuid[0]];
      } else {
        assert named + uuid == named;
      }
    }

    method NoteFork(raw: Raw, ghost named: seq<string>)
      requires raw.Record? && forked == Distinct(named)
      modifies `forked
      ensures forked == Distinct(named + Forks(raw))
    {
      assert named + [] == named;
      if raw.forkedFrom.Some? && raw.forkedFrom.value.sessionId.Some? {
        DistinctAppend(named, raw.forkedFrom.value.sessionId.value);
        forked := Added(forked, raw.forkedFrom.value.sessionId.value);
      }
    }

    method Finish(ownSessionId: Option<string>) returns (lineage: SegmentLineage)
      requires Valid()
      ensures lineage == LineageOf(observed, ownSessionId)
    {
      lineage := SegmentLineage(
        firstUuid, tail, Without(refs, defined),
        Without(forked, if ownSessionId.Some? then {ownSessionId.value} else {}));
    }
  }

  // ---- Lineage of a segment stored before its raw records were kept

  datatype Message = Message(uuid: string, parentUuid: Option<string>)

  predicate IsHexDigit(ch: char) {
    '0' <= ch <= '9' || 'a' <= ch <= 'f' || 'A' <= ch <= 'F'
  }

  /** 8-4-4-4-12 hexadecimal digits. */
  predicate IsUuid(s: string) {
    && |s| == 36
    && forall i :: 0 <= i < 36 ==> if i in {8, 13, 18, 23} then s[i] == '-' else IsHexDigit(s[i])
  }

  /** A group of `n` hexadecimal digits. */
  predicate Hex(s: string, n: nat) {
    |s| == n && forall i :: 0 <= i < n ==> IsHexDigit(s[i])
  }

  /** A uuid is five groups of hexadecimal digits with hyphens between. */
  lemma UuidGroups(s: string, a: string, b: string, c: string, d: string, e: string)
    requires s == a + "-" + b + "-" + c + "-" + d + "-" + e
    requires |a| == 8 && |b| == 4 && |c| == 4 && |d| == 4
    ensures IsUuid(s) <==> Hex(a, 8) && Hex(b, 4) && Hex(c, 4) && Hex(d, 4) && Hex(e, 12)
  {
    assert a == s[..8] && b == s[9..13] && c == s[14..18] && d == s[19..23] && e == s[24..];
    if |s| == 36 {
      forall i | 0 <= i < 36
        ensures s[i] == if i < 8 then a[i] else if i == 8 then '-' else if i < 13 then b[i - 9] else if i == 13 then '-'
          else if i < 18 then c[i - 14] else if i == 18 then '-' else if i < 23 then d[i - 19] else if i == 23 then '-' else e[i - 24]
      {
      }
    }
  }

  function AsRecord(m: Message): Raw {
    Record(Some(m.uuid), m.parentUuid, None, None)
  }

  function AsRecords(messages: seq<Message>): seq<Raw> {
    if messages == [] then []
    else AsRecords(messages[..|messages| - 1]) + [AsRecord(messages[|messages| - 1])]
  }

  predicate AllUuids(messages: seq<Message>) {
    forall i :: 0 <= i < |messages| ==> IsUuid(messages[i].uuid)
  }

  method LineageFromMessages(messages: seq<Message>) returns (lineage: SegmentLineage)
    ensures lineage == if AllUuids(messages) then LineageOf(AsRecords(messages), None) else NO_LINEAGE
  {
    if !AllUuids(messages) {
      return NO_LINEAGE;
    }
    var c := new LineageCollector();
    for i := 0 to |messages|
      invariant fresh(c) && c.Valid()
      invariant c.observed == AsRecords(messages[..i])
    {
      assert messages[..i + 1][..i] == messages[..i];
      c.Observe(AsRecord(messages[i]));
    }
    assert messages[..|messages|] == messages;
    lineage := c.Finish(None);
  }
}
