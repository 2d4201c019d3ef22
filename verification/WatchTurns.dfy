/**
 * The turn timeline that `watch` prints. Turns land while it reads: the count and
 * the turns come from two reads, and a turn whose sequence was reserved earlier may
 * land below turns already stored.
 */
module WatchTurns {
  import opened Prelude

  const RECENT_TURNS := 5

  datatype Turn = Turn(sequence: int, human: bool, timestamp: int, content: string)

  datatype Line = Header | Shown(turn: Turn) | NothingYet

  /** Turns as the storage returns them: by sequence, each sequence once. */
  predicate BySequence(ts: seq<Turn>) {
    forall i, j :: 0 <= i < j < |ts| ==> ts[i].sequence < ts[j].sequence
  }

  ghost function SetOf(ts: seq<Turn>): set<Turn> {
    set t | t in ts
  }

  /** Turns are added, never changed or removed. */
  predicate Grown(a: seq<Turn>, b: seq<Turn>) {
    BySequence(b) && forall t :: t in a ==> t in b
  }

  class Storage {
    var turns: seq<Turn>
    var session: bool

    constructor ()
      ensures turns == [] && !session
    {
      turns, session := [], false;
    }

    /** Others write while the reader waits. */
    method Elapse()
      requires BySequence(turns)
      modifies this
      ensures Grown(old(turns), turns) && (old(session) ==> session)
    {
      var now: seq<Turn> := *;
      if Grown(turns, now) {
        turns := now;
      }
      var started: bool := *;
      session := session || started;
    }
  }

  // ---- What is emitted

  function TurnsOf(lines: seq<Line>): seq<Turn> {
    if lines == [] then []
    else TurnsOf(lines[..|lines| - 1]) + if lines[|lines| - 1].Shown? then [lines[|lines| - 1].turn] else []
  }

  lemma TurnsOfPush(lines: seq<Line>, line: Line)
    ensures TurnsOf(lines + [line]) == TurnsOf(lines) + if line.Shown? then [line.turn] else []
  {
    assert (lines + [line])[..|lines|] == lines;
  }

  /** The lines of some turns. */
  function ShownLines(turns: seq<Turn>): seq<Line> {
    if turns == [] then [] else ShownLines(turns[..|turns| - 1]) + [Shown(turns[|turns| - 1])]
  }

  lemma LinesPush(lines: seq<Line>, shown: seq<Line>, line: Line)
    ensures lines + (shown + [line]) == lines + shown + [line]
  {
  }

  lemma TurnsSplit(before: seq<Turn>, turns: seq<Turn>)
    requires turns != []
    ensures before + turns == before + turns[..|turns| - 1] + [turns[|turns| - 1]]
  {
  }

  lemma {:induction false} TurnsOfShown(lines: seq<Line>, turns: seq<Turn>)
    ensures TurnsOf(lines + ShownLines(turns)) == TurnsOf(lines) + turns
  {
    if turns == [] {
      assert lines + [] == lines;
    } else {
      var (init, t) := (turns[..|turns| - 1], turns[|turns| - 1]);
      TurnsOfShown(lines, init);
      TurnsOfPush(lines + ShownLines(init), Shown(t));
      LinesPush(lines, ShownLines(init), Shown(t));
      TurnsSplit(TurnsOf(lines), turns);
    }
  }

  /** What the first look prints. */
  function FirstLines(turns: seq<Turn>): seq<Line> {
    [Header] + ShownLines(Recent(turns)) + if turns == [] then [NothingYet] else []
  }

  lemma TurnsOfFirst(turns: seq<Turn>)
    ensures TurnsOf(FirstLines(turns)) == Recent(turns)
  {
    TurnsOfPush([], Header);
    assert [] + [Header] == [Header] && TurnsOf([]) == [];
    hide TurnsOf;
    TurnsOfShown([Header], Recent(turns));
    if turns == [] {
      TurnsOfPush([Header], NothingYet);
      assert FirstLines(turns) == [Header] + [NothingYet];
    } else {
      assert FirstLines(turns) == [Header] + ShownLines(Recent(turns));
    }
  }

  /** `turns.filter((t) => t.sequence > last)` */
  function Newer(ts: seq<Turn>, last: int): seq<Turn> {
    if ts == [] then []
    else Newer(ts[..|ts| - 1], last) + if ts[|ts| - 1].sequence > last then [ts[|ts| - 1]] else []
  }

  lemma {:induction false} NewerMembers(ts: seq<Turn>, last: int, t: Turn)
    ensures t in Newer(ts, last) <==> t in ts && t.sequence > last
  {
    if ts != [] {
      NewerMembers(ts[..|ts| - 1], last, t);
      assert ts == ts[..|ts| - 1] + [ts[|ts| - 1]];
    }
  }

  lemma {:induction false} NewerOrdered(ts: seq<Turn>, last: int)
    requires BySequence(ts)
    ensures BySequence(Newer(ts, last))
  {
    if ts != [] {
      var (init, t) := (ts[..|ts| - 1], ts[|ts| - 1]);
      NewerOrdered(init, last);
      forall i | 0 <= i < |Newer(init, last)| ensures Newer(init, last)[i].sequence < t.sequence {
        NewerMembers(init, last, Newer(init, last)[i]);
        assert Newer(init, last)[i] in init;
      }
    }
  }

  function LastSequence(ts: seq<Turn>): int {
    if ts == [] then 0 else ts[|ts| - 1].sequence
  }

  /** `turns.slice(-RECENT_TURNS)` */
  function Recent(ts: seq<Turn>): seq<Turn> {
    if |ts| <= RECENT_TURNS then ts else ts[|ts| - RECENT_TURNS..]
  }

  /** The timestamp of the last human turn, or `otherwise`. */
  function LastHuman(ts: seq<Turn>, otherwise: int): int {
    if ts == [] then otherwise
    else if ts[|ts| - 1].human then ts[|ts| - 1].timestamp
    else LastHuman(ts[..|ts| - 1], otherwise)
  }

  /** Every turn seen was shown, waived at the first look, or came too late: exactly one of the three. */
  ghost predicate Accounted(seen: seq<Turn>, shown: seq<Turn>, waived: set<Turn>, late: set<Turn>) {
    && SetOf(seen) == SetOf(shown) + waived + late
    && SetOf(shown) !! waived && SetOf(shown) !! late && waived !! late
  }

  /** The turns a later look sees first but that sort below what it saw before. */
  ghost function Late(seen: seq<Turn>, now: seq<Turn>): set<Turn> {
    set t | t in now && t !in seen && t.sequence <= LastSequence(seen)
  }

  lemma LastIsMost(ts: seq<Turn>, t: Turn)
    requires BySequence(ts) && t in ts
    ensures t.sequence <= LastSequence(ts)
  {
  }

  ghost function Waived(turns: seq<Turn>): set<Turn> {
    SetOf(turns) - SetOf(Recent(turns))
  }

  lemma FirstLook(turns: seq<Turn>)
    requires BySequence(turns)
    ensures BySequence(TurnsOf(FirstLines(turns)))
    ensures Accounted(turns, TurnsOf(FirstLines(turns)), Waived(turns), {})
  {
    TurnsOfFirst(turns);
    forall t | t in Recent(turns) ensures t in turns {
    }
  }

  lemma LaterLook(seen: seq<Turn>, now: seq<Turn>, shown: seq<Turn>, waived: set<Turn>, late: set<Turn>)
    requires BySequence(seen) && Grown(seen, now) && Accounted(seen, shown, waived, late)
    ensures Accounted(now, shown + Newer(now, LastSequence(seen)), waived, late + Late(seen, now))
  {
    var more := Newer(now, LastSequence(seen));
    forall t ensures t in more <==> t in now && t.sequence > LastSequence(seen) {
      NewerMembers(now, LastSequence(seen), t);
    }
    forall t | t in seen ensures t !in more {
      LastIsMost(seen, t);
    }
    AccountedMore(seen, now, shown, more, waived, late, Late(seen, now));
  }

  lemma AccountedMore(seen: seq<Turn>, now: seq<Turn>, shown: seq<Turn>, more: seq<Turn>, waived: set<Turn>,
                      late: set<Turn>, later: set<Turn>)
    requires Accounted(seen, shown, waived, late)
    requires forall t :: t in now <==> t in seen || t in more || t in later
    requires forall t :: t in more ==> t !in seen && t !in later
    requires forall t :: t in later ==> t !in seen
    ensures Accounted(now, shown + more, waived, late + later)
  {
    assert SetOf(shown + more) == SetOf(shown) + SetOf(more);
    assert SetOf(shown) + waived + late == SetOf(seen);
    assert SetOf(now) == SetOf(seen) + SetOf(more) + later;
  }

  lemma NewerAfterShown(seen: seq<Turn>, now: seq<Turn>, shown: seq<Turn>, waived: set<Turn>, late: set<Turn>)
    requires BySequence(seen) && BySequence(now) && BySequence(shown) && Accounted(seen, shown, waived, late)
    ensures BySequence(shown + Newer(now, LastSequence(seen)))
  {
    var (last, more) := (LastSequence(seen), Newer(now, LastSequence(seen)));
    NewerOrdered(now, last);
    forall t | t in shown ensures t.sequence <= last {
      assert t in SetOf(seen);
      LastIsMost(seen, t);
    }
    forall t | t in more ensures t.sequence > last {
      NewerMembers(now, last, t);
    }
    ShownOrdered(shown, more, last);
  }

  lemma LaterLines(seen: seq<Turn>, now: seq<Turn>, lines: seq<Line>, waived: set<Turn>, late: set<Turn>)
    requires BySequence(seen) && Grown(seen, now) && BySequence(TurnsOf(lines))
    requires Accounted(seen, TurnsOf(lines), waived, late)
    ensures var shown := TurnsOf(lines + ShownLines(Newer(now, LastSequence(seen))));
      BySequence(shown) && Accounted(now, shown, waived, late + Late(seen, now))
  {
    TurnsOfShown(lines, Newer(now, LastSequence(seen)));
    LaterLook(seen, now, TurnsOf(lines), waived, late);
    NewerAfterShown(seen, now, TurnsOf(lines), waived, late);
  }

  lemma ShownOrdered(shown: seq<Turn>, more: seq<Turn>, last: int)
    requires BySequence(shown) && BySequence(more)
    requires forall t :: t in shown ==> t.sequence <= last
    requires forall t :: t in more ==> t.sequence > last
    ensures BySequence(shown + more)
  {
  }

  /** Logs with the same number of turns, one within the other, are equal. */
  lemma SameCountSame(a: seq<Turn>, b: seq<Turn>)
    requires BySequence(a) && Grown(a, b) && |b| <= |a|
    ensures SetOf(a) == SetOf(b)
  {
    DistinctCount(a);
    DistinctCount(b);
    if SetOf(a) != SetOf(b) {
      var t :| t in SetOf(b) && t !in SetOf(a);
      SubsetSmaller(SetOf(a), SetOf(b) - {t});
    }
  }

  lemma {:induction false} DistinctCount(ts: seq<Turn>)
    requires BySequence(ts)
    ensures |SetOf(ts)| == |ts|
  {
    if ts != [] {
      var (init, t) := (ts[..|ts| - 1], ts[|ts| - 1]);
      DistinctCount(init);
      assert ts == init + [t];
      assert SetOf(ts) == SetOf(init) + {t} && t !in init;
    }
  }

  // ---- All the looks of a run

  ghost predicate Growing(looks: seq<seq<Turn>>) {
    if looks == [] then true
    else
      var (init, last) := (looks[..|looks| - 1], looks[|looks| - 1]);
      Growing(init) && BySequence(last) && (init != [] ==> Grown(init[|init| - 1], last))
  }

  /** The turns shown over the looks. */
  ghost function ShownOver(looks: seq<seq<Turn>>): seq<Turn> {
    if looks == [] then []
    else
      var (init, last) := (looks[..|looks| - 1], looks[|looks| - 1]);
      if init == [] then Recent(last) else ShownOver(init) + Newer(last, LastSequence(init[|init| - 1]))
  }

  /** The turn is there at look `k` and not at the one before. */
  ghost predicate LandsAt(looks: seq<seq<Turn>>, k: int, t: Turn) {
    1 <= k < |looks| && t in looks[k] && t !in looks[k - 1]
  }

  /** It sorts above everything the look before saw. */
  ghost predicate OnTop(looks: seq<seq<Turn>>, k: int, t: Turn) {
    1 <= k < |looks| && t.sequence > LastSequence(looks[k - 1])
  }

  lemma {:induction false} GrowingPrefix(looks: seq<seq<Turn>>, k: nat)
    requires Growing(looks) && k <= |looks|
    ensures Growing(looks[..k])
  {
    if k < |looks| {
      GrowingPrefix(looks[..|looks| - 1], k);
      assert looks[..|looks| - 1][..k] == looks[..k];
    } else {
      assert looks[..k] == looks;
    }
  }

  /** What a look has seen, every later look sees. */
  lemma {:induction false} SeenLater(looks: seq<seq<Turn>>, i: nat, t: Turn)
    requires Growing(looks) && i < |looks| && t in looks[i]
    ensures t in looks[|looks| - 1] && BySequence(looks[|looks| - 1])
  {
    if i < |looks| - 1 {
      SeenLater(looks[..|looks| - 1], i, t);
    }
  }

  /** Over a whole run a turn is shown exactly when the first look showed it or it landed on top. */
  lemma {:induction false} ShownIff(looks: seq<seq<Turn>>, t: Turn)
    requires looks != [] && Growing(looks)
    ensures t in ShownOver(looks) <==> t in Recent(looks[0]) || exists k :: LandsAt(looks, k, t) && OnTop(looks, k, t)
  {
    var (init, n) := (looks[..|looks| - 1], |looks| - 1);
    if init != [] {
      ShownIff(init, t);
      NewerMembers(looks[n], LastSequence(looks[n - 1]), t);
      if k :| LandsAt(init, k, t) && OnTop(init, k, t) {
        assert LandsAt(looks, k, t) && OnTop(looks, k, t);
      }
      if k :| LandsAt(looks, k, t) && OnTop(looks, k, t) {
        assert k < n ==> LandsAt(init, k, t) && OnTop(init, k, t);
      }
      if t in looks[n - 1] {
        LastIsMost(looks[n - 1], t);
      } else if t in Newer(looks[n], LastSequence(looks[n - 1])) {
        assert LandsAt(looks, n, t) && OnTop(looks, n, t);
      }
    }
  }

  /** A turn lands at most once. */
  lemma LandsOnce(looks: seq<seq<Turn>>, j: int, k: int, t: Turn)
    requires Growing(looks) && LandsAt(looks, j, t) && LandsAt(looks, k, t)
    ensures j == k
  {
    var (a, b) := (if j < k then j else k, if j < k then k else j);
    if a < b {
      GrowingPrefix(looks, b);
      SeenLater(looks[..b], a, t);
    }
  }

  /** A turn filled in below one already seen, as a reserved one may be, is never shown, whatever is looked at later. */
  lemma ReservedTurnLost(looks: seq<seq<Turn>>, k: int, t: Turn)
    requires Growing(looks) && LandsAt(looks, k, t) && !OnTop(looks, k, t)
    ensures t !in ShownOver(looks)
  {
    hide ShownOver, Growing;
    ShownIff(looks, t);
    if t in Recent(looks[0]) {
      GrowingPrefix(looks, k);
      SeenLater(looks[..k], 0, t);
    } else if j :| LandsAt(looks, j, t) && OnTop(looks, j, t) {
      LandsOnce(looks, j, k, t);
    }
  }

  lemma FirstShown(turns: seq<Turn>)
    requires BySequence(turns)
    ensures Growing([turns]) && TurnsOf(FirstLines(turns)) == ShownOver([turns])
  {
    LookAdded([], turns);
    assert [] + [turns] == [turns];
    TurnsOfFirst(turns);
  }

  lemma LookAdded(looks: seq<seq<Turn>>, turns: seq<Turn>)
    requires Growing(looks) && BySequence(turns) && (looks != [] ==> Grown(looks[|looks| - 1], turns))
    ensures Growing(looks + [turns])
    ensures ShownOver(looks + [turns]) ==
            if looks == [] then Recent(turns) else ShownOver(looks) + Newer(turns, LastSequence(looks[|looks| - 1]))
  {
    assert (looks + [turns])[..|looks|] == looks;
  }

  class WatchTurnTracker {
    var count: int
    var lastSequence: int
    var lastHumanTimestamp: int
    var emitted: seq<Line>
    /** The turns of the last look that was taken in. */
    ghost var seen: seq<Turn>
    /** The turns before the recent ones at the first look. */
    ghost var waived: set<Turn>
    ghost var late: set<Turn>
    /** What each look taken in saw. */
    ghost var looks: seq<seq<Turn>>

    constructor (now: int)
      ensures count == -1 && emitted == [] && lastHumanTimestamp == now && seen == [] && looks == []
    {
      count, lastSequence, lastHumanTimestamp, emitted := -1, 0, now, [];
      seen, waived, late, looks := [], {}, {}, [];
    }

    ghost predicate Consistent()
      reads this
    {
      && BySequence(seen)
      && (count == -1 ==> emitted == [] && seen == [] && looks == [])
      && (count != -1 ==>
        && looks != [] && looks[|looks| - 1] == seen && Growing(looks) && TurnsOf(emitted) == ShownOver(looks)
        && 0 <= count <= |seen|
        && lastSequence == LastSequence(seen)
        && BySequence(TurnsOf(emitted))
        && Accounted(seen, TurnsOf(emitted), waived, late))
    }

    ghost predicate Valid(storage: Storage)
      reads this, storage
    {
      Consistent() && Grown(seen, storage.turns)
    }

    method EmitTurns(turns: seq<Turn>)
      modifies `emitted
      ensures emitted == old(emitted) + ShownLines(turns)
    {
      for i := 0 to |turns|
        invariant emitted == old(emitted) + ShownLines(turns[..i])
      {
        assert turns[..i + 1][..i] == turns[..i];
        emitted := emitted + [Shown(turns[i])];
      }
      assert turns[..|turns|] == turns;
    }

    method EmitRecent(turns: seq<Turn>)
      requires emitted == []
      modifies `emitted
      ensures emitted == FirstLines(turns)
    {
      emitted := emitted + [Header];
      EmitTurns(Recent(turns));
      if turns == [] {
        emitted := emitted + [NothingYet];
      }
    }

    /** The first look shows the recent turns. */
    method ShowRecent(turns: seq<Turn>, now: int)
      requires Consistent() && count == -1 && BySequence(turns) && 0 <= now <= |turns|
      modifies this
      ensures Consistent() && seen == turns && count == now
      ensures looks == [turns] && emitted == FirstLines(turns) && late == {} && lastHumanTimestamp == old(lastHumanTimestamp)
    {
      hide TurnsOf, FirstLines, Recent, Waived, ShownOver, Growing, Accounted;
      EmitRecent(turns);
      FirstLook(turns);
      FirstShown(turns);
      waived, late := Waived(turns), {};
      lastSequence, count, seen, looks := LastSequence(turns), now, turns, [turns];
    }

    /** A later look shows what sorts after everything seen. */
    method ShowNewer(turns: seq<Turn>, now: int)
      requires Consistent() && count != -1 && Grown(seen, turns) && 0 <= now <= |turns|
      modifies this
      ensures Consistent() && seen == turns && count == now
      ensures emitted == old(emitted) + ShownLines(Newer(turns, LastSequence(old(seen))))
      ensures waived == old(waived) && late == old(late) + Late(old(seen), turns) && looks == old(looks) + [turns]
      ensures lastHumanTimestamp == old(lastHumanTimestamp)
    {
      hide TurnsOf, ShownLines, Newer, Late, ShownOver, Growing, Accounted;
      LaterLines(seen, turns, emitted, waived, late);
      TurnsOfShown(emitted, Newer(turns, lastSequence));
      LookAdded(looks, turns);
      late := late + Late(seen, turns);
      EmitTurns(Newer(turns, lastSequence));
      lastSequence, count, seen, looks := LastSequence(turns), now, turns, looks + [turns];
    }

    /** Every turn there was when the refresh began is taken in by its end. */
    method Refresh(storage: Storage)
      requires Valid(storage)
      modifies this, storage
      ensures Valid(storage)
      ensures Grown(old(storage.turns), storage.turns)
      ensures old(storage.session) ==> |old(storage.turns)| <= count && SetOf(old(storage.turns)) <= SetOf(seen)
      ensures old(count) != -1 ==> waived == old(waived) && late == old(late) + Late(old(seen), seen)
      ensures old(count) != -1 ==> count != -1 && emitted == old(emitted) + ShownLines(Newer(seen, LastSequence(old(seen))))
      ensures old(count) == -1 && count != -1 ==> late == {} && emitted == FirstLines(seen)
      ensures count == -1 ==> emitted == []
      ensures looks == old(looks) || looks == old(looks) + [seen]
      ensures lastHumanTimestamp ==
        if looks == old(looks) then old(lastHumanTimestamp) else LastHuman(seen, old(lastHumanTimestamp))
    {
      hide TurnsOf, ShownLines, Newer, Late, ShownOver, Growing, Accounted, FirstLines, LastHuman;
      storage.Elapse();
      ghost var counted := storage.turns;
      var now := |storage.turns|;
      if now == count {
        GrownCount(old(storage.turns), counted);
        SameCountSame(seen, counted);
        NothingNewer(seen);
        return;
      }
      storage.Elapse();
      if !storage.session {
        NothingNewer(seen);
        return;
      }
      storage.Elapse();
      var turns := storage.turns;
      GrownCount(counted, turns);
      GrownCount(old(storage.turns), counted);
      lastHumanTimestamp := LastHuman(turns, lastHumanTimestamp);
      if count == -1 {
        ShowRecent(turns, now);
      } else {
        ShowNewer(turns, now);
      }
    }
  }

  lemma GrownCount(a: seq<Turn>, b: seq<Turn>)
    requires BySequence(a) && Grown(a, b)
    ensures |a| <= |b|
  {
    DistinctCount(a);
    DistinctCount(b);
    SubsetSmaller(SetOf(a), SetOf(b));
  }

  lemma NothingNewer(seen: seq<Turn>)
    requires BySequence(seen)
    ensures Newer(seen, LastSequence(seen)) == [] && ShownLines([]) == [] && Late(seen, seen) == {}
  {
    var more := Newer(seen, LastSequence(seen));
    if more != [] {
      NewerMembers(seen, LastSequence(seen), more[0]);
      LastIsMost(seen, more[0]);
    }
  }

  // ---- When nothing is late

  /** Turns that land in sequence order are never late. */
  lemma InOrderNeverLate(seen: seq<Turn>, now: seq<Turn>)
    requires BySequence(now) && seen <= now
    requires forall t :: t in now ==> t.sequence > 0
    ensures Late(seen, now) == {}
  {
    forall t | t in now && t !in seen ensures t.sequence > LastSequence(seen) {
      var i :| 0 <= i < |now| && now[i] == t;
      assert i >= |seen|;
    }
  }

  /** What a later look sees lands at some look, unless the first saw it. */
  lemma {:induction false} LandsSomewhere(looks: seq<seq<Turn>>, t: Turn) returns (k: int)
    requires looks != [] && t in looks[|looks| - 1] && t !in looks[0]
    ensures LandsAt(looks, k, t)
  {
    k := |looks| - 1;
    if t in looks[k - 1] {
      k := LandsSomewhere(looks[..k], t);
    }
  }

  /** Over a whole run nothing after the first look is lost exactly when every turn lands on top. */
  lemma NothingLostIff(looks: seq<seq<Turn>>)
    requires looks != [] && Growing(looks)
    ensures (forall t :: t in looks[|looks| - 1] && t !in looks[0] ==> t in ShownOver(looks))
            <==> forall k, t :: LandsAt(looks, k, t) ==> OnTop(looks, k, t)
  {
    hide ShownOver, Growing, OnTop;
    forall k, t | LandsAt(looks, k, t) && !OnTop(looks, k, t)
      ensures t in looks[|looks| - 1] && t !in looks[0] && t !in ShownOver(looks)
    {
      SeenLater(looks, k, t);
      ReservedTurnLost(looks, k, t);
      if t in looks[0] {
        GrowingPrefix(looks, k);
        SeenLater(looks[..k], 0, t);
      }
    }
    forall t | t in looks[|looks| - 1] && t !in looks[0]
      ensures exists k :: LandsAt(looks, k, t) && (OnTop(looks, k, t) ==> t in ShownOver(looks))
    {
      var k := LandsSomewhere(looks, t);
      ShownIff(looks, t);
    }
  }

  /** Turns are only appended, and numbered from one. */
  predicate InOrder(looks: seq<seq<Turn>>) {
    && (forall i {:trigger looks[i]} :: 0 < i < |looks| ==> looks[i - 1] <= looks[i])
    && forall i, t :: 0 <= i < |looks| && t in looks[i] ==> t.sequence > 0
  }

  /** So over a whole run of turns in sequence order each that the first look did not see is shown. */
  lemma InOrderAllShown(looks: seq<seq<Turn>>, t: Turn)
    requires looks != [] && Growing(looks) && InOrder(looks)
    requires t in looks[|looks| - 1] && t !in looks[0]
    ensures t in ShownOver(looks)
  {
    hide ShownOver;
    forall k, u | LandsAt(looks, k, u) ensures OnTop(looks, k, u) {
      GrowingPrefix(looks, k + 1);
      SeenLater(looks[..k + 1], k, u);
      InOrderNeverLate(looks[k - 1], looks[k]);
      assert u !in Late(looks[k - 1], looks[k]);
    }
    NothingLostIff(looks);
  }

  /** A turn is late, and so never shown, exactly when it lands below one already seen. */
  lemma LateIff(seen: seq<Turn>, now: seq<Turn>, t: Turn)
    requires seen != [] && t in now && t !in seen
    ensures t in Late(seen, now) <==> t.sequence <= seen[|seen| - 1].sequence
    ensures t in Late(seen, now) <==> t !in Newer(now, LastSequence(seen))
  {
    NewerMembers(now, LastSequence(seen), t);
  }

  // ---- What a look prints

  /** The recent turns are the last five. */
  lemma RecentIs(ts: seq<Turn>, i: nat)
    requires BySequence(ts) && i < |ts|
    ensures ts[i] in Recent(ts) <==> |ts| - i <= 5
    ensures |Recent(ts)| == if |ts| <= 5 then |ts| else 5
  {
    var d := |ts| - |Recent(ts)|;
    if ts[i] in Recent(ts) {
      var k :| 0 <= k < |Recent(ts)| && Recent(ts)[k] == ts[i];
      assert Recent(ts)[k] == ts[d + k];
    }
    if i >= d {
      assert Recent(ts)[i - d] == ts[i];
    }
  }

  lemma {:induction false} NewerPicked(ts: seq<Turn>, last: int)
    ensures Picks(ts, (set i: nat | i < |ts| && ts[i].sequence > last), Newer(ts, last))
  {
    var keep := set i: nat | i < |ts| && ts[i].sequence > last;
    if ts == [] {
      assert keep == {};
      PicksNone(ts);
    } else {
      var (init, t) := (ts[..|ts| - 1], ts[|ts| - 1]);
      NewerPicked(init, last);
      hide Picks;
      PicksStep(ts, keep, (set i: nat | i < |init| && init[i].sequence > last), Newer(init, last), t.sequence > last);
      assert Newer(init, last) + [] == Newer(init, last);
    }
  }

  /** A first look prints the header, the last five turns, and the notice exactly if there is none; nothing else. */
  lemma FirstLinesAre(turns: seq<Turn>)
    ensures FirstLines(turns)[0] == Header && TurnsOf(FirstLines(turns)) == Recent(turns)
    ensures NothingYet in FirstLines(turns) <==> turns == []
    ensures |FirstLines(turns)| == 1 + (if turns == [] then 1 else |Recent(turns)|)
  {
    TurnsOfFirst(turns);
    ShownAll(Recent(turns));
    if turns == [] {
      assert FirstLines(turns)[1] == NothingYet;
    }
  }

  lemma {:induction false} ShownAll(turns: seq<Turn>)
    ensures |ShownLines(turns)| == |turns| && NothingYet !in ShownLines(turns)
  {
    if turns != [] {
      ShownAll(turns[..|turns| - 1]);
    }
  }

  predicate IsLastHuman(ts: seq<Turn>, i: nat) {
    i < |ts| && ts[i].human && forall j :: i < j < |ts| ==> !ts[j].human
  }

  /** A turn starts with the last human one, or stays as it was if there is none. */
  lemma {:induction false} LastHumanIs(ts: seq<Turn>, otherwise: int)
    ensures (forall i :: 0 <= i < |ts| ==> !ts[i].human) ==> LastHuman(ts, otherwise) == otherwise
    ensures forall i: nat :: IsLastHuman(ts, i) ==> LastHuman(ts, otherwise) == ts[i].timestamp
  {
    if ts != [] && !ts[|ts| - 1].human {
      var init := ts[..|ts| - 1];
      LastHumanIs(init, otherwise);
      forall i: nat | IsLastHuman(ts, i) ensures IsLastHuman(init, i) {
      }
    }
  }
}
