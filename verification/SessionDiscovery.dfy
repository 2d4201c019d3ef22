/**
 * Which session file is the active one. Housekeeping one-shots write session files
 * too; a cache of verdicts keeps a poll from reading every head again while the
 * files grow underneath it.
 */
module SessionDiscovery {
  import opened Prelude
  import opened Text

  // ---- The marker

  const ONESHOT_HEAD_BYTES := 4096
  const ONESHOT_MARKER :=
    "<!-- lazy-machine-oneshot/v1/8f2c1d: machine-generated lazy housekeeping run; not captured as a conversation -->"

  predicate HeadHasOneshotMarker(head: string) {
    Contains(head, "\"content\":\"" + ONESHOT_MARKER) || Contains(head, "\"text\":\"" + ONESHOT_MARKER)
  }

  function Head(content: string): string {
    if |content| <= ONESHOT_HEAD_BYTES then content else content[..ONESHOT_HEAD_BYTES]
  }

  /** What a fresh read of the head says. */
  predicate Marked(content: string) {
    HeadHasOneshotMarker(Head(content))
  }

  /** The file has the needle at `i`, all of it in the head. */
  predicate HasAt(content: string, needle: string, i: nat) {
    i + |needle| <= |content| && i + |needle| <= 4096 && content[i..i + |needle|] == needle
  }

  /** A file is marked by either form of the marker among its first 4096 characters. */
  lemma MarkedIff(content: string)
    ensures Marked(content) <==> exists i: nat ::
      HasAt(content, "\"content\":\"" + ONESHOT_MARKER, i) || HasAt(content, "\"text\":\"" + ONESHOT_MARKER, i)
  {
    InHead(content, "\"content\":\"" + ONESHOT_MARKER);
    InHead(content, "\"text\":\"" + ONESHOT_MARKER);
  }

  lemma InHead(content: string, needle: string)
    ensures Contains(Head(content), needle) <==> exists i: nat :: HasAt(content, needle, i)
  {
    var head := Head(content);
    forall i: nat | i + |needle| <= |head| ensures IsAt(head, needle, i) <==> HasAt(content, needle, i) {
      assert head[i..i + |needle|] == content[i..i + |needle|];
    }
    if Contains(head, needle) {
      var i :| 0 <= i <= |head| - |needle| && IsAt(head, needle, i);
      assert HasAt(content, needle, i);
    }
    if i: nat :| HasAt(content, needle, i) {
      assert IsAt(head, needle, i);
    }
  }

  lemma ContainsGrows(a: string, b: string, part: string)
    requires a <= b && Contains(a, part)
    ensures Contains(b, part)
  {
    var i :| 0 <= i <= |a| - |part| && IsAt(a, part, i);
    assert a[i..i + |part|] == b[i..i + |part|];
    assert IsAt(b, part, i);
  }

  /** Appending never removes a marker. */
  lemma MarkedGrows(a: string, b: string)
    requires a <= b && Marked(a)
    ensures Marked(b)
  {
    assert Head(a) <= Head(b);
    if Contains(Head(a), "\"content\":\"" + ONESHOT_MARKER) {
      ContainsGrows(Head(a), Head(b), "\"content\":\"" + ONESHOT_MARKER);
    } else {
      ContainsGrows(Head(a), Head(b), "\"text\":\"" + ONESHOT_MARKER);
    }
  }

  /** Once the head is complete, appending changes nothing. */
  lemma HeadFinal(a: string, b: string)
    requires a <= b && |a| >= ONESHOT_HEAD_BYTES
    ensures Marked(a) == Marked(b)
  {
    assert Head(a) == Head(b);
  }

  // ---- The verdict of one file

  datatype Verdict = Verdict(isOneshot: bool, size: nat, mtime: int)

  predicate VerdictStillValid(cached: Verdict, size: nat, mtime: int) {
    if cached.isOneshot then size >= cached.size
    else if cached.size >= ONESHOT_HEAD_BYTES then true
    else cached.size == size && cached.mtime == mtime
  }

  /** The verdict agrees with the file as it is now; `heard`: it does not come from a failed read. */
  ghost predicate Fits(v: Verdict, content: string, heard: bool) {
    && v.size <= |content|
    && (v.isOneshot ==> Marked(content))
    && (heard && !v.isOneshot ==> !Marked(content[..v.size]))
  }

  lemma FitsGrows(v: Verdict, a: string, b: string, heard: bool)
    requires Fits(v, a, heard) && a <= b
    ensures Fits(v, b, heard)
  {
    if v.isOneshot {
      MarkedGrows(a, b);
    }
    assert a[..v.size] == b[..v.size];
  }

  /** A verdict still valid for the size seen answers as a read of the file at that size would. */
  lemma ValidVerdictAgrees(v: Verdict, content: string, size: nat, mtime: int, heard: bool)
    requires Fits(v, content, heard) && size <= |content| && VerdictStillValid(v, size, mtime)
    ensures v.isOneshot ==> Marked(content)
    ensures heard && Marked(content[..size]) ==> v.isOneshot
  {
    if !v.isOneshot && heard && v.size >= ONESHOT_HEAD_BYTES {
      HeadFinal(content[..v.size], content);
      if Marked(content[..size]) {
        MarkedGrows(content[..size], content);
      }
    }
  }

  /** What a lookup answers that finds `cached`, and would read `now`. */
  function Answer(cached: Verdict, size: nat, mtime: int, now: bool): bool {
    if VerdictStillValid(cached, size, mtime) then cached.isOneshot else now
  }

  /**
   * A lookup reads again exactly when the file has become smaller than a one-shot
   * was, or has changed since a partial head showed no marker.
   */
  lemma ReadsAgainIff(cached: Verdict, size: nat, mtime: int, now: bool)
    ensures Answer(cached, size, mtime, now) ==
      if cached.isOneshot && size >= cached.size then true
      else if !cached.isOneshot && (cached.size >= 4096 || (size == cached.size && mtime == cached.mtime)) then false
      else now
  {
  }

  /** So for a one-shot with a complete head a single failed read is believed for as long as it is cached. */
  lemma FailedReadSticks(content: string, more: string, mtime: int, mtime': int)
    requires |content| >= ONESHOT_HEAD_BYTES && Marked(content)
    ensures VerdictStillValid(Verdict(false, |content|, mtime), |content + more|, mtime')
    ensures Marked(content + more)
  {
    MarkedGrows(content, content + more);
  }

  // ---- The disk, which changes under the reader

  datatype File = File(content: string, mtime: int)

  /** Files appear and grow; none shrinks or is replaced. */
  predicate Grown(a: map<string, File>, b: map<string, File>) {
    forall p {:trigger p in b} {:trigger b[p]} :: p in a ==> p in b && GrownFile(a[p], b[p])
  }

  predicate GrownFile(a: File, b: File) {
    a.content <= b.content && a.mtime <= b.mtime
  }

  lemma GrownTrans(a: map<string, File>, b: map<string, File>, c: map<string, File>)
    requires Grown(a, b) && Grown(b, c)
    ensures Grown(a, c)
  {
  }

  /** What is on the disk at each moment: files only appear and grow. */
  type History = nat -> map<string, File>

  ghost predicate GrowsOnly(history: History) {
    forall i: nat, j: nat {:trigger history(i), history(j)} :: i <= j ==> Grown(history(i), history(j))
  }

  /** Some access to the path fails in the span of time. */
  ghost predicate FailsWithin(fails: (nat, string) -> bool, from: nat, to: nat, path: string) {
    exists t: nat {:trigger fails(t, path)} :: from <= t <= to && fails(t, path)
  }

  /** The disk as the reader meets it. What it holds and when it fails is given; only the time passes. */
  class Disk {
    const history: History
    const fails: (nat, string) -> bool
    var now: nat

    ghost predicate Valid() {
      GrowsOnly(history)
    }

    function Files(): map<string, File>
      reads this
    {
      history(now)
    }

    constructor (history: History, fails: (nat, string) -> bool)
      requires GrowsOnly(history)
      ensures Valid() && this.history == history && this.fails == fails && now == 0
    {
      this.history, this.fails, now := history, fails, 0;
    }

    /** Others write while the reader waits. */
    method Elapse()
      modifies this
      ensures now >= old(now)
    {
      var ticks: int := *;
      if ticks > 0 {
        now := now + ticks;
      }
    }

    /** The size and mtime of a file, unless it cannot be had. */
    method Stat(path: string) returns (st: Option<(nat, int)>)
      modifies this
      ensures now >= old(now)
      ensures st == if path in Files() && !fails(now, path) then Some((|Files()[path].content|, Files()[path].mtime)) else None
    {
      Elapse();
      if path in Files() && !fails(now, path) {
        return Some((|Files()[path].content|, Files()[path].mtime));
      }
      return None;
    }

    /** Whether a file's head carries the marker; an unreadable file does not. */
    method IsMachineOneshotSessionFile(path: string) returns (isOneshot: bool)
      modifies this
      ensures now >= old(now)
      ensures isOneshot == (path in Files() && !fails(now, path) && Marked(Files()[path].content))
    {
      Elapse();
      return path in Files() && !fails(now, path) && HeadHasOneshotMarker(Head(Files()[path].content));
    }
  }

  // ---- The cache

  const VERDICT_CACHE_MAX := 1000

  /** Every cached verdict fits the file it is about; those of `blind` come from failed reads. */
  ghost predicate AllFit(verdicts: map<string, Verdict>, files: map<string, File>, blind: set<string>) {
    forall p {:trigger verdicts[p]} :: p in verdicts ==> p in files && Fits(verdicts[p], files[p].content, p !in blind)
  }

  lemma AllFitGrows(verdicts: map<string, Verdict>, a: map<string, File>, b: map<string, File>, blind: set<string>)
    requires AllFit(verdicts, a, blind) && Grown(a, b)
    ensures AllFit(verdicts, b, blind)
  {
    forall p | p in verdicts ensures p in b && Fits(verdicts[p], b[p].content, p !in blind) {
      assert GrownFile(a[p], b[p]);
      FitsGrows(verdicts[p], a[p].content, b[p].content, p !in blind);
    }
  }

  /** What a candidate's stat said holds of a moment in the past. */
  ghost predicate Seen(files: map<string, File>, path: string, size: nat, mtime: int) {
    path in files && size <= |files[path].content| && mtime <= files[path].mtime
  }

  /** The cache after a lookup that came out as `v`: a verdict still valid stays, any other is replaced. */
  function Remembered(verdicts: map<string, Verdict>, path: string, v: Verdict): map<string, Verdict> {
    if path in verdicts && VerdictStillValid(verdicts[path], v.size, v.mtime) then verdicts
    else if |verdicts| >= VERDICT_CACHE_MAX then map[path := v]
    else verdicts[path := v]
  }

  /** A lookup that reads stores its verdict; other verdicts go only when the cache is full, and then all. */
  lemma RememberedIs(verdicts: map<string, Verdict>, path: string, v: Verdict, other: string)
    requires !(path in verdicts && VerdictStillValid(verdicts[path], v.size, v.mtime)) && other != path
    ensures var now := Remembered(verdicts, path, v);
      && path in now && now[path] == v
      && (other in now <==> other in verdicts && |verdicts| < 1000) && (other in now ==> now[other] == verdicts[other])
  {
  }

  /** The paths whose cached verdict comes from a failed read, after a lookup. */
  ghost function StillBlind(verdicts: map<string, Verdict>, blind: set<string>, path: string, v: Verdict, failed: bool): set<string> {
    if path in verdicts && VerdictStillValid(verdicts[path], v.size, v.mtime) then blind
    else (if |verdicts| >= VERDICT_CACHE_MAX then {} else blind - {path}) + if failed then {path} else {}
  }

  ghost predicate AllNegative(verdicts: map<string, Verdict>, blind: set<string>) {
    forall p {:trigger p in blind} :: p in blind ==> p in verdicts && !verdicts[p].isOneshot
  }

  /** A verdict just taken keeps the cache right. */
  lemma RememberedFits(verdicts: map<string, Verdict>, files: map<string, File>, blind: set<string>, path: string, v: Verdict,
                       failed: bool)
    requires AllFit(verdicts, files, blind) && path in files && Fits(v, files[path].content, !failed)
    ensures AllFit(Remembered(verdicts, path, v), files, StillBlind(verdicts, blind, path, v, failed))
  {
    var (now, unseen) := (Remembered(verdicts, path, v), StillBlind(verdicts, blind, path, v, failed));
    forall p | p in now ensures p in files && Fits(now[p], files[p].content, p !in unseen) {
      if p in verdicts && now[p] == verdicts[p] {
        assert Fits(verdicts[p], files[p].content, p !in blind);
      }
    }
  }

  lemma RememberedNegative(verdicts: map<string, Verdict>, blind: set<string>, path: string, v: Verdict, failed: bool)
    requires AllNegative(verdicts, blind) && |verdicts| <= VERDICT_CACHE_MAX && (failed ==> !v.isOneshot)
    ensures AllNegative(Remembered(verdicts, path, v), StillBlind(verdicts, blind, path, v, failed))
    ensures |Remembered(verdicts, path, v)| <= VERDICT_CACHE_MAX
  {
    if |verdicts| < VERDICT_CACHE_MAX {
      Store(verdicts, path, v);
    }
  }

  class OneshotVerdicts {
    var verdicts: map<string, Verdict>
    /** The paths whose cached verdict comes from a failed read. */
    ghost var blind: set<string>

    constructor ()
      ensures verdicts == map[] && blind == {}
    {
      verdicts, blind := map[], {};
    }

    ghost predicate Valid(disk: Disk)
      reads this, disk
    {
      && disk.Valid() && AllFit(verdicts, disk.Files(), blind) && |verdicts| <= VERDICT_CACHE_MAX
      && AllNegative(verdicts, blind) && AllFailed(blind, disk.fails, disk.now)
    }

    /** Time passes. */
    lemma ValidLater(disk: Disk, before: nat)
      requires disk.Valid() && before <= disk.now && |verdicts| <= VERDICT_CACHE_MAX && AllNegative(verdicts, blind)
      requires AllFit(verdicts, disk.history(before), blind) && AllFailed(blind, disk.fails, before)
      ensures Valid(disk)
    {
      AllFitGrows(verdicts, disk.history(before), disk.Files(), blind);
      hide AllFit;
      forall p | p in blind ensures FailsWithin(disk.fails, 0, disk.now, p) {
        assert FailsWithin(disk.fails, 0, before, p);
      }
    }

    /**
     * `true` only for a one-shot; `false` only for a file that was none when its
     * size was taken, or by a verdict from a failed read, of this call or cached.
     * A cached one is corrected exactly when the head was partial and the file
     * changed, if no read fails.
     */
    method IsOneshotSession(disk: Disk, path: string, size: nat, mtime: int) returns (isOneshot: bool)
      requires Valid(disk) && Seen(disk.Files(), path, size, mtime)
      modifies this, disk
      ensures Valid(disk) && disk.now >= old(disk.now) && Seen(disk.Files(), path, size, mtime)
      ensures isOneshot ==> Marked(disk.Files()[path].content)
      ensures Marked(disk.Files()[path].content[..size]) && path !in blind ==> isOneshot
      ensures path in old(blind) && !FailsWithin(disk.fails, old(disk.now), disk.now, path) ==>
                (Marked(disk.Files()[path].content[..size]) ==> (isOneshot <==> Retried(old(verdicts)[path], size, mtime)))
      ensures path in blind && path !in old(blind) ==> FailsWithin(disk.fails, old(disk.now), disk.now, path)
      ensures verdicts == Remembered(old(verdicts), path, Verdict(isOneshot, size, mtime))
      ensures blind == StillBlind(old(verdicts), old(blind), path, Verdict(isOneshot, size, mtime), path in blind)
    {
      hide Marked, AllFit, AllNegative, AllFailed, Retried, Remembered, StillBlind, VerdictStillValid, Grown, Seen;
      ghost var before := disk.now;
      if path in verdicts && VerdictStillValid(verdicts[path], size, mtime) {
        Believed(verdicts, disk.Files(), blind, path, size, mtime);
        return verdicts[path].isOneshot;
      }
      isOneshot := disk.IsMachineOneshotSessionFile(path);
      ghost var failed := disk.fails(disk.now, path);
      var v := Verdict(isOneshot, size, mtime);
      Taken(verdicts, disk.history(before), disk.Files(), blind, path, v, failed);
      FailedNow(verdicts, blind, path, v, disk.fails, before, disk.now);
      blind := StillBlind(verdicts, blind, path, v, failed);
      if |verdicts| >= VERDICT_CACHE_MAX {
        verdicts := map[];
      }
      verdicts := verdicts[path := v];
    }
  }

  /** A lookup that believes the cached verdict. */
  lemma Believed(verdicts: map<string, Verdict>, files: map<string, File>, blind: set<string>, path: string, size: nat, mtime: int)
    requires AllFit(verdicts, files, blind) && AllNegative(verdicts, blind)
    requires path in verdicts && VerdictStillValid(verdicts[path], size, mtime) && Seen(files, path, size, mtime)
    ensures path in files && size <= |files[path].content|
    ensures verdicts[path].isOneshot ==> Marked(files[path].content)
    ensures Marked(files[path].content[..size]) && path !in blind ==> verdicts[path].isOneshot
    ensures path in blind ==> !verdicts[path].isOneshot && !Retried(verdicts[path], size, mtime)
    ensures Remembered(verdicts, path, Verdict(verdicts[path].isOneshot, size, mtime)) == verdicts
    ensures forall failed :: StillBlind(verdicts, blind, path, Verdict(verdicts[path].isOneshot, size, mtime), failed) == blind
  {
    ValidVerdictAgrees(verdicts[path], files[path].content, size, mtime, path !in blind);
  }

  /** A lookup that reads the head. */
  lemma Taken(verdicts: map<string, Verdict>, a: map<string, File>, b: map<string, File>, blind: set<string>, path: string,
              v: Verdict, failed: bool)
    requires AllFit(verdicts, a, blind) && AllNegative(verdicts, blind) && |verdicts| <= VERDICT_CACHE_MAX
    requires Grown(a, b) && Seen(a, path, v.size, v.mtime)
    requires !(path in verdicts && VerdictStillValid(verdicts[path], v.size, v.mtime))
    requires v.isOneshot == (path in b && !failed && Marked(b[path].content))
    ensures Seen(b, path, v.size, v.mtime)
    ensures v.size <= |b[path].content| && (Marked(b[path].content[..v.size]) && !failed ==> v.isOneshot)
    ensures path in blind ==> path in verdicts && Retried(verdicts[path], v.size, v.mtime)
    ensures var (now, unseen) := (Remembered(verdicts, path, v), StillBlind(verdicts, blind, path, v, failed));
            && AllFit(now, b, unseen) && AllNegative(now, unseen) && |now| <= VERDICT_CACHE_MAX
            && now == (if |verdicts| >= VERDICT_CACHE_MAX then map[] else verdicts)[path := v]
            && (path in unseen <==> failed)
  {
    assert GrownFile(a[path], b[path]);
    TakenFits(v, b[path].content, failed);
    AllFitGrows(verdicts, a, b, blind);
    hide AllFit;
    RememberedFits(verdicts, b, blind, path, v, failed);
    RememberedNegative(verdicts, blind, path, v, failed);
  }

  lemma FailedNow(verdicts: map<string, Verdict>, blind: set<string>, path: string, v: Verdict,
                  fails: (nat, string) -> bool, before: nat, now: nat)
    requires AllFailed(blind, fails, before) && before <= now
    ensures AllFailed(StillBlind(verdicts, blind, path, v, fails(now, path)), fails, now)
    ensures fails(now, path) ==> FailsWithin(fails, before, now, path)
  {
    forall p | p in StillBlind(verdicts, blind, path, v, fails(now, path)) ensures FailsWithin(fails, 0, now, p) {
      if p in blind {
        var t: nat :| 0 <= t <= before && fails(t, p);
      } else {
        assert fails(now, p);
      }
    }
  }

  /** A lookup takes a negative verdict again: the head was partial and the file changed. */
  predicate Retried(cached: Verdict, size: nat, mtime: int) {
    cached.size < ONESHOT_HEAD_BYTES && (size, mtime) != (cached.size, cached.mtime)
  }

  /** Each of the paths has failed at some time. */
  ghost predicate AllFailed(paths: set<string>, fails: (nat, string) -> bool, now: nat) {
    forall p {:trigger p in paths} :: p in paths ==> FailsWithin(fails, 0, now, p)
  }

  /**
   * A one-shot already marked at the size seen is recognised by a lookup that can
   * read exactly when its cached verdict does not come from a failed read, or the
   * head was partial then and the file has changed.
   */
  lemma FailedReadRetriedIff(verdicts: map<string, Verdict>, files: map<string, File>, blind: set<string>, path: string,
                             size: nat, mtime: int)
    requires AllFit(verdicts, files, blind) && AllNegative(verdicts, blind)
    requires path in verdicts && Seen(files, path, size, mtime) && Marked(files[path].content[..size])
    ensures Answer(verdicts[path], size, mtime, Marked(files[path].content)) <==>
            path !in blind || Retried(verdicts[path], size, mtime)
  {
    var content := files[path].content;
    MarkedGrows(content[..size], content);
    if path !in blind && VerdictStillValid(verdicts[path], size, mtime) {
      ValidVerdictAgrees(verdicts[path], content, size, mtime, true);
    }
  }

  lemma TakenFits(v: Verdict, content: string, failed: bool)
    requires v.size <= |content|
    requires if failed then !v.isOneshot else v.isOneshot == Marked(content)
    ensures Fits(v, content, !failed)
    ensures Marked(content[..v.size]) ==> Marked(content)
  {
    if Marked(content[..v.size]) {
      MarkedGrows(content[..v.size], content);
    }
  }

  lemma Store(verdicts: map<string, Verdict>, path: string, v: Verdict)
    ensures |verdicts[path := v]| <= |verdicts| + 1
  {
    assert verdicts[path := v].Keys == verdicts.Keys + {path};
    if path in verdicts {
      assert verdicts[path := v].Keys == verdicts.Keys;
    }
    assert |verdicts[path := v]| == |verdicts[path := v].Keys| && |verdicts| == |verdicts.Keys|;
  }

  // ---- The newest session

  datatype SessionFileInfo = SessionFileInfo(path: string, sessionId: string, mtime: int)

  datatype Candidate = Candidate(info: SessionFileInfo, size: nat)

  const SUFFIX := ".jsonl"

  predicate IsSessionName(entry: string) {
    |entry| >= |SUFFIX| && entry[|entry| - |SUFFIX|..] == SUFFIX
  }

  /** `basename(entry, '.jsonl')` */
  function SessionIdOf(entry: string): string
    requires IsSessionName(entry)
  {
    if entry == SUFFIX then entry else entry[..|entry| - |SUFFIX|]
  }

  function PathOf(projectDir: string, entry: string): string {
    projectDir + "/" + entry
  }

  predicate RecentEnough(minMtime: Option<int>, mtime: int) {
    minMtime.None? || mtime >= minMtime.value
  }

  /** What a stat in the span of time says of the file. */
  ghost predicate Statted(h: History, from: nat, to: nat, path: string, size: nat, mtime: int) {
    exists t: nat {:trigger h(t)} :: from <= t <= to && path in h(t) && size == |h(t)[path].content| && mtime == h(t)[path].mtime
  }

  /** A candidate is what a stat during the search said about a listed session file. */
  ghost predicate IsCandidate(c: Candidate, projectDir: string, entry: string, minMtime: Option<int>,
                              h: History, from: nat, to: nat) {
    && IsSessionName(entry)
    && c.info.path == PathOf(projectDir, entry) && c.info.sessionId == SessionIdOf(entry)
    && RecentEnough(minMtime, c.info.mtime)
    && Statted(h, from, to, c.info.path, c.size, c.info.mtime)
  }

  lemma StattedSeen(h: History, from: nat, to: nat, path: string, size: nat, mtime: int)
    requires GrowsOnly(h) && Statted(h, from, to, path, size, mtime)
    ensures Seen(h(to), path, size, mtime)
  {
    var t: nat :| from <= t <= to && path in h(t) && size == |h(t)[path].content| && mtime == h(t)[path].mtime;
    assert GrownFile(h(t)[path], h(to)[path]);
  }

  /** The candidates are of listed files, in the order of the listing. */
  ghost predicate AllCandidates(cs: seq<Candidate>, projectDir: string, entries: seq<string>, minMtime: Option<int>,
                                h: History, from: nat, to: nat) {
    exists at: seq<nat> :: ListedAt(cs, at, projectDir, entries, minMtime, h, from, to)
  }

  ghost predicate ListedAt(cs: seq<Candidate>, at: seq<nat>, projectDir: string, entries: seq<string>, minMtime: Option<int>,
                           h: History, from: nat, to: nat) {
    && |at| == |cs| && Ascends(at)
    && forall k :: 0 <= k < |cs| ==>
        at[k] < |entries| && IsCandidate(cs[k], projectDir, entries[at[k]], minMtime, h, from, to)
  }

  lemma CandidatesPush(cs: seq<Candidate>, more: seq<Candidate>, projectDir: string, entries: seq<string>, i: nat,
                       minMtime: Option<int>, h: History, from: nat, to: nat)
    requires i < |entries| && |more| <= 1
    requires AllCandidates(cs, projectDir, entries[..i], minMtime, h, from, to)
    requires more != [] ==> IsCandidate(more[0], projectDir, entries[i], minMtime, h, from, to)
    ensures AllCandidates(cs + more, projectDir, entries[..i + 1], minMtime, h, from, to)
  {
    hide IsCandidate, Ascends;
    var at: seq<nat> :| ListedAt(cs, at, projectDir, entries[..i], minMtime, h, from, to);
    PrefixStep(entries, i);
    forall k | 0 <= k < |cs|
      ensures at[k] < i && IsCandidate(cs[k], projectDir, entries[..i + 1][at[k]], minMtime, h, from, to)
    {
      assert entries[..i][at[k]] == entries[..i + 1][at[k]];
    }
    if more == [] {
      assert cs + more == cs;
      assert ListedAt(cs, at, projectDir, entries[..i + 1], minMtime, h, from, to);
    } else {
      AscendsPush(at, i);
      assert entries[..i + 1][i] == entries[i] && cs + more == cs + [more[0]];
      assert ListedAt(cs + [more[0]], at + [i], projectDir, entries[..i + 1], minMtime, h, from, to);
    }
  }

  lemma AscendsPush(at: seq<nat>, i: nat)
    requires Ascends(at) && forall k :: 0 <= k < |at| ==> at[k] < i
    ensures Ascends(at + [i])
  {
  }

  /** The listed file is among the candidates, if it was recent enough from the start and its stat did not fail. */
  ghost predicate Covered(cs: seq<Candidate>, path: string, minMtime: Option<int>, before: map<string, File>,
                          missed: set<string>) {
    path in before && RecentEnough(minMtime, before[path].mtime) && path !in missed ==>
      exists k :: 0 <= k < |cs| && cs[k].info.path == path
  }

  ghost predicate AllCovered(cs: seq<Candidate>, projectDir: string, entries: seq<string>, minMtime: Option<int>,
                             before: map<string, File>, missed: set<string>) {
    forall e {:trigger entries[e]} :: 0 <= e < |entries| && IsSessionName(entries[e]) ==>
      Covered(cs, PathOf(projectDir, entries[e]), minMtime, before, missed)
  }

  lemma CoveredStays(cs: seq<Candidate>, more: seq<Candidate>, path: string, minMtime: Option<int>,
                     before: map<string, File>, missed: set<string>, missed': set<string>)
    requires Covered(cs, path, minMtime, before, missed) && missed <= missed'
    ensures Covered(cs + more, path, minMtime, before, missed')
  {
    if k :| 0 <= k < |cs| && cs[k].info.path == path {
      assert (cs + more)[k] == cs[k];
    }
  }

  lemma AllCoveredStays(cs: seq<Candidate>, more: seq<Candidate>, projectDir: string, entries: seq<string>,
                        minMtime: Option<int>, before: map<string, File>, missed: set<string>, missed': set<string>)
    requires AllCovered(cs, projectDir, entries, minMtime, before, missed) && missed <= missed'
    ensures AllCovered(cs + more, projectDir, entries, minMtime, before, missed')
  {
    forall e | 0 <= e < |entries| && IsSessionName(entries[e])
      ensures Covered(cs + more, PathOf(projectDir, entries[e]), minMtime, before, missed')
    {
      CoveredStays(cs, more, PathOf(projectDir, entries[e]), minMtime, before, missed, missed');
    }
  }

  lemma AllCoveredPush(cs: seq<Candidate>, projectDir: string, entries: seq<string>, i: nat,
                       minMtime: Option<int>, before: map<string, File>, missed: set<string>)
    requires i < |entries| && AllCovered(cs, projectDir, entries[..i], minMtime, before, missed)
    requires IsSessionName(entries[i]) ==> Covered(cs, PathOf(projectDir, entries[i]), minMtime, before, missed)
    ensures AllCovered(cs, projectDir, entries[..i + 1], minMtime, before, missed)
  {
    var (done, upTo) := (entries[..i], entries[..i + 1]);
    forall e | 0 <= e < |upTo| && IsSessionName(upTo[e])
      ensures Covered(cs, PathOf(projectDir, upTo[e]), minMtime, before, missed)
    {
      if e < i {
        assert done[e] == upTo[e];
      }
    }
  }

  lemma CandidatesStay(cs: seq<Candidate>, projectDir: string, entries: seq<string>, minMtime: Option<int>,
                       h: History, from: nat, to: nat, to': nat)
    requires AllCandidates(cs, projectDir, entries, minMtime, h, from, to) && to <= to'
    ensures AllCandidates(cs, projectDir, entries, minMtime, h, from, to')
  {
    var at: seq<nat> :| ListedAt(cs, at, projectDir, entries, minMtime, h, from, to);
    forall k | 0 <= k < |cs| ensures IsCandidate(cs[k], projectDir, entries[at[k]], minMtime, h, from, to') {
      assert IsCandidate(cs[k], projectDir, entries[at[k]], minMtime, h, from, to);
    }
    assert ListedAt(cs, at, projectDir, entries, minMtime, h, from, to');
  }

  // `candidates.sort((a, b) => b.mtimeMs - a.mtimeMs)`, which is stable
  function SortNewest(cs: seq<Candidate>): seq<Candidate> {
    if cs == [] then [] else Insert(SortNewest(cs[..|cs| - 1]), cs[|cs| - 1])
  }

  function Insert(cs: seq<Candidate>, c: Candidate): seq<Candidate> {
    if cs == [] || cs[|cs| - 1].info.mtime >= c.info.mtime then cs + [c]
    else Insert(cs[..|cs| - 1], c) + [cs[|cs| - 1]]
  }

  lemma {:induction false} InsertKeeps(cs: seq<Candidate>, c: Candidate)
    ensures multiset(Insert(cs, c)) == multiset(cs) + multiset{c}
  {
    if cs != [] && cs[|cs| - 1].info.mtime < c.info.mtime {
      InsertKeeps(cs[..|cs| - 1], c);
      assert cs == cs[..|cs| - 1] + [cs[|cs| - 1]];
    }
  }

  /** Newer, or as new and listed before. */
  predicate Precedes(cs: seq<Candidate>, i: nat, j: nat)
    requires i < |cs| && j < |cs|
  {
    cs[i].info.mtime > cs[j].info.mtime || (cs[i].info.mtime == cs[j].info.mtime && i < j)
  }

  /** `sorted` has the elements of `cs` at `at`, each of which precedes the next. */
  ghost predicate OrderedAt(cs: seq<Candidate>, at: seq<nat>, sorted: seq<Candidate>) {
    && |at| == |sorted|
    && (forall k :: 0 <= k < |at| ==> at[k] < |cs| && sorted[k] == cs[at[k]])
    && forall k, l :: 0 <= k < l < |at| ==> Precedes(cs, at[k], at[l])
  }

  lemma {:induction false} InsertOrdered(cs: seq<Candidate>, at: seq<nat>, sorted: seq<Candidate>, n: nat) returns (more: seq<nat>)
    requires OrderedAt(cs, at, sorted) && n < |cs| && forall k :: 0 <= k < |at| ==> at[k] < n
    ensures OrderedAt(cs, more, Insert(sorted, cs[n]))
    ensures forall i: nat :: i in more <==> i in at || i == n
  {
    if sorted == [] || sorted[|sorted| - 1].info.mtime >= cs[n].info.mtime {
      LastStays(cs, at, sorted, n);
      hide *;
      OrderedPush(cs, at, sorted, n);
      more := at + [n];
    } else {
      InsertBefore(sorted, cs[n]);
      OrderedInit(cs, at, sorted);
      var (init, last) := (at[..|at| - 1], at[|at| - 1]);
      var r := InsertOrdered(cs, init, sorted[..|at| - 1], n);
      AllPrecede(cs, init, r, n, last);
      hide *;
      OrderedPush(cs, r, Insert(sorted[..|at| - 1], cs[n]), last);
      more := r + [last];
      InitLast(at);
    }
  }

  lemma LastStays(cs: seq<Candidate>, at: seq<nat>, sorted: seq<Candidate>, n: nat)
    requires OrderedAt(cs, at, sorted) && n < |cs| && forall k :: 0 <= k < |at| ==> at[k] < n
    requires sorted == [] || sorted[|sorted| - 1].info.mtime >= cs[n].info.mtime
    ensures Insert(sorted, cs[n]) == sorted + [cs[n]] && forall k :: 0 <= k < |at| ==> Precedes(cs, at[k], n)
  {
    var m := |at| - 1;
    forall k | 0 <= k < |at| ensures Precedes(cs, at[k], n) {
      assert k < m ==> Precedes(cs, at[k], at[m]);
    }
  }

  lemma OrderedInit(cs: seq<Candidate>, at: seq<nat>, sorted: seq<Candidate>)
    requires OrderedAt(cs, at, sorted) && at != []
    ensures var (init, last) := (at[..|at| - 1], at[|at| - 1]);
      && OrderedAt(cs, init, sorted[..|at| - 1]) && last < |cs| && sorted[|at| - 1] == cs[last]
      && (forall k :: 0 <= k < |init| ==> init[k] < |cs| && Precedes(cs, init[k], last))
  {
  }

  lemma AllPrecede(cs: seq<Candidate>, at: seq<nat>, more: seq<nat>, n: nat, last: nat)
    requires n < |cs| && last < |cs| && cs[last].info.mtime < cs[n].info.mtime
    requires forall k :: 0 <= k < |at| ==> at[k] < |cs| && Precedes(cs, at[k], last)
    requires forall i: nat :: i in more <==> i in at || i == n
    ensures forall k :: 0 <= k < |more| ==> more[k] < |cs| && Precedes(cs, more[k], last)
  {
    forall k | 0 <= k < |more| ensures more[k] < |cs| && Precedes(cs, more[k], last) {
      assert more[k] in more;
    }
  }

  lemma InsertBefore(sorted: seq<Candidate>, c: Candidate)
    requires sorted != [] && sorted[|sorted| - 1].info.mtime < c.info.mtime
    ensures Insert(sorted, c) == Insert(sorted[..|sorted| - 1], c) + [sorted[|sorted| - 1]]
  {
  }

  lemma OrderedPush(cs: seq<Candidate>, at: seq<nat>, sorted: seq<Candidate>, n: nat)
    requires OrderedAt(cs, at, sorted) && n < |cs| && forall k :: 0 <= k < |at| ==> Precedes(cs, at[k], n)
    ensures OrderedAt(cs, at + [n], sorted + [cs[n]])
  {
  }

  /** The candidates are visited newest first, and in the order of the listing where they are as new. */
  lemma {:induction false} SortNewestStable(cs: seq<Candidate>) returns (at: seq<nat>)
    ensures OrderedAt(cs, at, SortNewest(cs)) && forall i: nat :: i in at <==> i < |cs|
  {
    if cs == [] {
      at := [];
    } else {
      var (init, n) := (cs[..|cs| - 1], |cs| - 1);
      var before := SortNewestStable(init);
      hide Insert;
      forall k | 0 <= k < |before| ensures before[k] < n {
        assert before[k] in before;
      }
      assert OrderedAt(cs, before, SortNewest(init));
      at := InsertOrdered(cs, before, SortNewest(init), n);
    }
  }

  lemma {:induction false} SortNewestKeeps(cs: seq<Candidate>)
    ensures multiset(SortNewest(cs)) == multiset(cs)
  {
    if cs != [] {
      SortNewestKeeps(cs[..|cs| - 1]);
      hide Insert;
      InsertKeeps(SortNewest(cs[..|cs| - 1]), cs[|cs| - 1]);
      InitLast(cs);
    }
  }

  lemma SortNewestMembers(cs: seq<Candidate>, c: Candidate)
    ensures c in SortNewest(cs) <==> c in cs
  {
    SortNewestKeeps(cs);
    assert c in multiset(SortNewest(cs)) <==> c in multiset(cs);
  }

  /** The file of a candidate is a one-shot by now. */
  ghost predicate IsOneshot(c: Candidate, files: map<string, File>) {
    c.info.path in files && Marked(files[c.info.path].content)
  }

  /** When its size was taken the candidate's file was no one-shot; the verdict of a failed read passes it for one that is none. */
  ghost predicate IsSession(c: Candidate, files: map<string, File>, blind: set<string>) {
    && Seen(files, c.info.path, c.size, c.info.mtime)
    && (c.info.path !in blind ==> !Marked(files[c.info.path].content[..c.size]))
  }

  /** A session, and nothing newer, or as new and listed before, is one. */
  ghost predicate IsLatest(cs: seq<Candidate>, k: int, files: map<string, File>, blind: set<string>) {
    && 0 <= k < |cs| && IsSession(cs[k], files, blind)
    && forall j :: 0 <= j < |cs| && Precedes(cs, j, k) ==> IsOneshot(cs[j], files)
  }

  /** One listed file: its candidate, if it has one. */
  method Consider(disk: Disk, projectDir: string, entry: string, minMtime: Option<int>, ghost from: nat)
    returns (candidate: seq<Candidate>, ghost missed: set<string>)
    requires disk.Valid() && from <= disk.now
    modifies disk
    ensures disk.now >= old(disk.now) && |candidate| <= 1
    ensures candidate != [] ==> IsCandidate(candidate[0], projectDir, entry, minMtime, disk.history, from, disk.now)
    ensures IsSessionName(entry) ==> Covered(candidate, PathOf(projectDir, entry), minMtime, disk.history(from), missed)
    ensures AllMissed(missed, disk.history(from), disk.fails, from, disk.now)
  {
    if !IsSessionName(entry) {
      return [], {};
    }
    var path := PathOf(projectDir, entry);
    var st := disk.Stat(path);
    missed := if st.None? then {path} else {};
    assert path in disk.history(from) ==> GrownFile(disk.history(from)[path], disk.Files()[path]);
    if st.Some? && RecentEnough(minMtime, st.value.1) {
      candidate := [Candidate(SessionFileInfo(path, SessionIdOf(entry), st.value.1), st.value.0)];
      assert candidate[0].info.path == path;
    } else {
      candidate := [];
    }
  }

  /** What is missed was not there at first, or could not be examined. */
  ghost predicate AllMissed(missed: set<string>, before: map<string, File>, fails: (nat, string) -> bool, from: nat, to: nat) {
    forall p {:trigger p in missed} :: p in missed ==> p !in before || FailsWithin(fails, from, to, p)
  }

  method CollectCandidates(disk: Disk, projectDir: string, entries: seq<string>, minMtime: Option<int>)
    returns (candidates: seq<Candidate>)
    requires disk.Valid()
    modifies disk
    ensures disk.now >= old(disk.now)
    ensures IsListing(candidates, projectDir, entries, minMtime, disk.history, disk.fails, old(disk.now), disk.now)
  {
    candidates := [];
    ghost var missed: set<string> := {};
    ghost var (h, from) := (disk.history, disk.now);
    assert ListedAt([], [], projectDir, [], minMtime, h, from, from);
    for i := 0 to |entries|
      invariant disk.now >= from
      invariant AllCandidates(candidates, projectDir, entries[..i], minMtime, h, from, disk.now)
      invariant AllCovered(candidates, projectDir, entries[..i], minMtime, h(from), missed)
      invariant AllMissed(missed, h(from), disk.fails, from, disk.now)
    {
      ghost var (to, had, was) := (disk.now, candidates, missed);
      var more;
      ghost var one;
      more, one := Consider(disk, projectDir, entries[i], minMtime, from);
      CandidatesStay(candidates, projectDir, entries[..i], minMtime, h, from, to, disk.now);
      candidates, missed := candidates + more, missed + one;
      if IsSessionName(entries[i]) {
        CoveredStays(more, [], PathOf(projectDir, entries[i]), minMtime, h(from), one, missed);
        assert more + [] == more;
      }
      Gathered(had, more, projectDir, entries, i, minMtime, h, from, disk.now, was, missed);
    }
    assert entries[..|entries|] == entries;
    ListingOf(candidates, projectDir, entries, minMtime, h, disk.fails, from, disk.now, missed);
  }

  lemma Gathered(cs: seq<Candidate>, more: seq<Candidate>, projectDir: string, entries: seq<string>, i: nat,
                 minMtime: Option<int>, h: History, from: nat, to: nat, missed: set<string>, missed': set<string>)
    requires i < |entries| && |more| <= 1 && missed <= missed'
    requires AllCandidates(cs, projectDir, entries[..i], minMtime, h, from, to)
    requires AllCovered(cs, projectDir, entries[..i], minMtime, h(from), missed)
    requires more != [] ==> IsCandidate(more[0], projectDir, entries[i], minMtime, h, from, to)
    requires IsSessionName(entries[i]) ==> Covered(more, PathOf(projectDir, entries[i]), minMtime, h(from), missed')
    ensures AllCandidates(cs + more, projectDir, entries[..i + 1], minMtime, h, from, to)
    ensures AllCovered(cs + more, projectDir, entries[..i + 1], minMtime, h(from), missed')
  {
    hide AllCandidates, Covered, IsCandidate;
    CandidatesPush(cs, more, projectDir, entries, i, minMtime, h, from, to);
    AllCoveredStays(cs, more, projectDir, entries[..i], minMtime, h(from), missed, missed');
    if IsSessionName(entries[i]) {
      CoveredAfter(cs, more, PathOf(projectDir, entries[i]), minMtime, h(from), missed');
    }
    AllCoveredPush(cs + more, projectDir, entries, i, minMtime, h(from), missed');
  }

  lemma CoveredAfter(cs: seq<Candidate>, more: seq<Candidate>, path: string, minMtime: Option<int>,
                     before: map<string, File>, missed: set<string>)
    requires Covered(more, path, minMtime, before, missed)
    ensures Covered(cs + more, path, minMtime, before, missed)
  {
    if k :| 0 <= k < |more| && more[k].info.path == path {
      assert (cs + more)[|cs| + k] == more[k];
    }
  }

  /** Every candidate before this one is a one-shot. */
  ghost predicate Skipped(sorted: seq<Candidate>, k: nat, files: map<string, File>) {
    forall j {:trigger sorted[j]} :: 0 <= j < k && j < |sorted| ==> IsOneshot(sorted[j], files)
  }

  lemma SkippedStays(sorted: seq<Candidate>, k: nat, a: map<string, File>, b: map<string, File>)
    requires Skipped(sorted, k, a) && Grown(a, b)
    ensures Skipped(sorted, k, b)
  {
    forall j | 0 <= j < k && j < |sorted| ensures IsOneshot(sorted[j], b) {
      var path := sorted[j].info.path;
      assert GrownFile(a[path], b[path]);
      MarkedGrows(a[path].content, b[path].content);
    }
  }

  lemma AllSkipped(cs: seq<Candidate>, files: map<string, File>)
    requires Skipped(SortNewest(cs), |SortNewest(cs)|, files)
    ensures Skipped(cs, |cs|, files)
  {
    forall j | 0 <= j < |cs| ensures IsOneshot(cs[j], files) {
      SortNewestMembers(cs, cs[j]);
    }
  }

  /** The first that is not skipped is the latest. */
  lemma FirstIsLatest(cs: seq<Candidate>, k: nat, files: map<string, File>, blind: set<string>)
    requires k < |SortNewest(cs)| && Skipped(SortNewest(cs), k, files) && IsSession(SortNewest(cs)[k], files, blind)
    ensures exists m :: IsLatest(cs, m, files, blind) && cs[m] == SortNewest(cs)[k]
  {
    var at := SortNewestStable(cs);
    var m := at[k];
    forall j: nat | j < |cs| && Precedes(cs, j, m) ensures IsOneshot(cs[j], files) {
      assert j in at;
      var l :| 0 <= l < |at| && at[l] == j;
      assert l < k;
      assert SortNewest(cs)[l] == cs[j];
    }
    assert IsLatest(cs, m, files, blind);
  }

  /** A listed file that was there and recent from the start is a candidate unless some access to it fails meanwhile. */
  ghost predicate NoneLeftOut(cs: seq<Candidate>, projectDir: string, entries: seq<string>, minMtime: Option<int>,
                              before: map<string, File>, fails: (nat, string) -> bool, from: nat, to: nat) {
    forall e {:trigger entries[e]} :: 0 <= e < |entries| && IsSessionName(entries[e]) ==>
      var path := PathOf(projectDir, entries[e]);
      path in before && RecentEnough(minMtime, before[path].mtime) && !FailsWithin(fails, from, to, path) ==>
        exists k :: 0 <= k < |cs| && cs[k].info.path == path
  }

  /** Exactly what the stats found: nothing else, and nothing left out. */
  ghost predicate IsListing(cs: seq<Candidate>, projectDir: string, entries: seq<string>, minMtime: Option<int>,
                            h: History, fails: (nat, string) -> bool, from: nat, to: nat) {
    && AllCandidates(cs, projectDir, entries, minMtime, h, from, to)
    && NoneLeftOut(cs, projectDir, entries, minMtime, h(from), fails, from, to)
  }

  lemma ListingOf(cs: seq<Candidate>, projectDir: string, entries: seq<string>, minMtime: Option<int>,
                  h: History, fails: (nat, string) -> bool, from: nat, to: nat, missed: set<string>)
    requires AllCandidates(cs, projectDir, entries, minMtime, h, from, to)
    requires AllCovered(cs, projectDir, entries, minMtime, h(from), missed) && AllMissed(missed, h(from), fails, from, to)
    ensures IsListing(cs, projectDir, entries, minMtime, h, fails, from, to)
  {
    forall e | 0 <= e < |entries| && IsSessionName(entries[e]) && PathOf(projectDir, entries[e]) in h(from) &&
               !FailsWithin(fails, from, to, PathOf(projectDir, entries[e]))
      ensures PathOf(projectDir, entries[e]) !in missed
    {
    }
  }

  /** The candidate is of this file, and its session is named by the file's name without `.jsonl`. */
  predicate IsFileOf(c: Candidate, projectDir: string, entry: string) {
    && c.info.path == projectDir + "/" + entry
    && (entry == c.info.sessionId + ".jsonl" || (entry == c.info.sessionId && entry == ".jsonl"))
  }

  predicate NotOlder(minMtime: Option<int>, mtime: int) {
    minMtime.Some? ==> mtime >= minMtime.value
  }

  /** A listing, by file names and times: no candidate is older than asked for, and each is of a listed `.jsonl` file. */
  lemma ListingTells(cs: seq<Candidate>, projectDir: string, entries: seq<string>, minMtime: Option<int>,
                     h: History, fails: (nat, string) -> bool, from: nat, to: nat, k: nat)
    requires IsListing(cs, projectDir, entries, minMtime, h, fails, from, to) && k < |cs|
    ensures NotOlder(minMtime, cs[k].info.mtime)
    ensures exists e :: 0 <= e < |entries| && IsFileOf(cs[k], projectDir, entries[e])
  {
    var at: seq<nat> :| ListedAt(cs, at, projectDir, entries, minMtime, h, from, to);
    assert IsCandidate(cs[k], projectDir, entries[at[k]], minMtime, h, from, to);
    var e := at[k];
    assert IsFileOf(cs[k], projectDir, entries[e]);
  }

  /** And each listed file that ends in `.jsonl` is there, unless it is too old or cannot be examined. */
  lemma ListingHas(cs: seq<Candidate>, projectDir: string, entries: seq<string>, minMtime: Option<int>,
                   h: History, fails: (nat, string) -> bool, from: nat, to: nat, e: nat, name: string)
    requires IsListing(cs, projectDir, entries, minMtime, h, fails, from, to)
    requires e < |entries| && entries[e] == name + ".jsonl"
    ensures var path := projectDir + "/" + name + ".jsonl";
      path in h(from) && NotOlder(minMtime, h(from)[path].mtime) && !FailsWithin(fails, from, to, path) ==>
        exists k :: 0 <= k < |cs| && cs[k].info.path == path
  {
    assert IsSessionName(entries[e]);
    assert projectDir + "/" + name + ".jsonl" == PathOf(projectDir, entries[e]);
  }

  lemma ListingStays(cs: seq<Candidate>, projectDir: string, entries: seq<string>, minMtime: Option<int>,
                     h: History, fails: (nat, string) -> bool, from: nat, to: nat, to': nat)
    requires IsListing(cs, projectDir, entries, minMtime, h, fails, from, to) && to <= to'
    ensures IsListing(cs, projectDir, entries, minMtime, h, fails, from, to')
  {
    CandidatesStay(cs, projectDir, entries, minMtime, h, from, to, to');
  }

  ghost predicate AllSeen(cs: seq<Candidate>, files: map<string, File>) {
    forall k {:trigger cs[k]} :: 0 <= k < |cs| ==> Seen(files, cs[k].info.path, cs[k].size, cs[k].info.mtime)
  }

  lemma SeenStays(cs: seq<Candidate>, a: map<string, File>, b: map<string, File>)
    requires AllSeen(cs, a) && Grown(a, b)
    ensures AllSeen(cs, b)
  {
    forall k | 0 <= k < |cs| ensures Seen(b, cs[k].info.path, cs[k].size, cs[k].info.mtime) {
      assert GrownFile(a[cs[k].info.path], b[cs[k].info.path]);
    }
  }

  /** Walks down past the one-shots. */
  method FirstSession(disk: Disk, verdicts: OneshotVerdicts, sorted: seq<Candidate>) returns (k: nat)
    requires verdicts.Valid(disk) && AllSeen(sorted, disk.Files())
    modifies disk, verdicts
    ensures verdicts.Valid(disk) && disk.now >= old(disk.now)
    ensures k <= |sorted| && Skipped(sorted, k, disk.Files())
    ensures k < |sorted| ==> IsSession(sorted[k], disk.Files(), verdicts.blind)
    ensures NewlyFailed(verdicts.blind, old(verdicts.blind), disk.fails, old(disk.now), disk.now)
  {
    hide AllFit, AllNegative, AllFailed, Retried, Remembered, VerdictStillValid, Marked, FailsWithin;
    k := 0;
    while k < |sorted|
      invariant k <= |sorted| && AllSeen(sorted, disk.Files()) && Skipped(sorted, k, disk.Files())
      invariant verdicts.Valid(disk) && disk.now >= old(disk.now)
      invariant NewlyFailed(verdicts.blind, old(verdicts.blind), disk.fails, old(disk.now), disk.now)
    {
      var c := sorted[k];
      ghost var (to, blind) := (disk.now, verdicts.blind);
      var isOneshot := verdicts.IsOneshotSession(disk, c.info.path, c.size, c.info.mtime);
      SeenStays(sorted, disk.history(to), disk.Files());
      SkippedStays(sorted, k, disk.history(to), disk.Files());
      NewlyFailedStep(verdicts.blind, blind, old(verdicts.blind), disk.fails, old(disk.now), to, disk.now, c.info.path);
      if !isOneshot {
        return k;
      }
      k := k + 1;
    }
  }

  /** A verdict that newly comes from a failed read is blamed on a file some access to which failed meanwhile. */
  ghost predicate NewlyFailed(blind: set<string>, was: set<string>, fails: (nat, string) -> bool, from: nat, to: nat) {
    forall p {:trigger p in blind} :: p in blind && p !in was ==> FailsWithin(fails, from, to, p)
  }

  lemma NewlyFailedStep(blind: set<string>, mid: set<string>, was: set<string>, fails: (nat, string) -> bool,
                        from: nat, to: nat, to': nat, path: string)
    requires NewlyFailed(mid, was, fails, from, to) && from <= to <= to'
    requires blind <= mid + {path} && (path in blind && path !in mid ==> FailsWithin(fails, to, to', path))
    ensures NewlyFailed(blind, was, fails, from, to')
  {
  }

  /**
   * `None` only when every listed file that could be examined is a one-shot;
   * otherwise a newest one that was none when its size was taken, up to failed reads.
   */
  method FindLatestSessionFile(disk: Disk, verdicts: OneshotVerdicts, projectDir: string, entries: Option<seq<string>>,
                               minMtime: Option<int>)
    returns (found: Option<SessionFileInfo>, ghost candidates: seq<Candidate>)
    requires verdicts.Valid(disk)
    modifies disk, verdicts
    ensures verdicts.Valid(disk) && disk.now >= old(disk.now)
    ensures entries.None? ==> candidates == []
    ensures entries.Some? ==>
      IsListing(candidates, projectDir, entries.value, minMtime, disk.history, disk.fails, old(disk.now), disk.now)
    ensures found.None? ==> Skipped(candidates, |candidates|, disk.Files())
    ensures found.Some? ==>
      exists k :: IsLatest(candidates, k, disk.Files(), verdicts.blind) && candidates[k].info == found.value
    ensures NewlyFailed(verdicts.blind, old(verdicts.blind), disk.fails, old(disk.now), disk.now)
  {
    if entries.None? {
      return None, [];
    }
    ghost var from := disk.now;
    var listed := CollectCandidates(disk, projectDir, entries.value, minMtime);
    ghost var to := disk.now;
    verdicts.ValidLater(disk, from);
    var sorted := SortNewest(listed);
    SortedSeen(listed, projectDir, entries.value, minMtime, disk.history, from, to);
    var k := FirstSession(disk, verdicts, sorted);
    ListingStays(listed, projectDir, entries.value, minMtime, disk.history, disk.fails, from, to, disk.now);
    if k < |sorted| {
      FirstIsLatest(listed, k, disk.Files(), verdicts.blind);
      return Some(sorted[k].info), listed;
    }
    AllSkipped(listed, disk.Files());
    return None, listed;
  }

  lemma SortedSeen(cs: seq<Candidate>, projectDir: string, entries: seq<string>, minMtime: Option<int>,
                   h: History, from: nat, to: nat)
    requires GrowsOnly(h) && AllCandidates(cs, projectDir, entries, minMtime, h, from, to)
    ensures AllSeen(SortNewest(cs), h(to))
  {
    var sorted := SortNewest(cs);
    forall k | 0 <= k < |sorted| ensures Seen(h(to), sorted[k].info.path, sorted[k].size, sorted[k].info.mtime) {
      SortNewestMembers(cs, sorted[k]);
      var i :| 0 <= i < |cs| && cs[i] == sorted[k];
      var at: seq<nat> :| ListedAt(cs, at, projectDir, entries, minMtime, h, from, to);
      assert IsCandidate(cs[i], projectDir, entries[at[i]], minMtime, h, from, to);
      StattedSeen(h, from, to, cs[i].info.path, cs[i].size, cs[i].info.mtime);
    }
  }

  // ---- Replaying the end of a session

  const REPLAY_BYTES := 256 * 1024

  /** Where to start reading so that only whole records are read; the file may have grown past `size`. */
  function ReplayStart(content: string, size: nat): nat
    requires size <= |content|
  {
    if size <= REPLAY_BYTES then 0
    else
      var start := size - REPLAY_BYTES;
      var tail := content[start..size];
      var newline := NewlineAt(tail);
      if newline == |tail| then size else start + newline + 1
  }

  /** The replay starts at the first record of the window: no line break is skipped but the one before it. */
  lemma ReplaySkipsNoLine(content: string, size: nat, i: nat)
    requires REPLAY_BYTES < size <= |content|
    requires size - REPLAY_BYTES <= i < ReplayStart(content, size) - 1
    ensures content[i] != '\n'
  {
    var start := size - REPLAY_BYTES;
    NewlineFirst(content[start..size], i - start);
  }

  /** What is replayed are the last lines of the file as it was, or nothing when the window holds no line break. */
  lemma ReplaysWholeLines(content: string, size: nat)
    requires size <= |content|
    ensures ReplayStart(content, size) <= size <= ReplayStart(content, size) + REPLAY_BYTES
    ensures size <= REPLAY_BYTES ==> ReplayStart(content, size) == 0
    ensures ReplayStart(content, size) == size || size <= REPLAY_BYTES
      || Lines(content[..size]) == Ended(content[..ReplayStart(content, size)]) + Lines(content[ReplayStart(content, size)..size])
  {
    var at := ReplayStart(content, size);
    if at < size && size > REPLAY_BYTES {
      var (before, after) := (content[..at], content[at..size]);
      assert content[..size] == before + after;
      LinesAppend(before, after);
      assert before[..at - 1] + ['\n'] == before;
      LinesPush(before[..at - 1], '\n');
      assert Tail(before) + after == after;
    }
  }
}
