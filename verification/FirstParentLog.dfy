/** Reading the commits back out of one `git log --name-only` with a NUL between SHA and subject. */
module FirstParentLog {
  import opened Prelude
  import opened Text
  import opened HubDiff

  const NUL: char := 0 as char

  /** `raw.indexOf('\0')`, or the length if there is none. */
  function NulAt(s: string): (i: nat)
    ensures i <= |s|
  {
    if s == "" || s[0] == NUL then 0 else NulAt(s[1..]) + 1
  }

  datatype Reading = Reading(commits: seq<Commit>, current: Option<Commit>)

  function Closed(r: Reading): seq<Commit> {
    if r.current.Some? then r.commits + [r.current.value] else r.commits
  }

  /** What one line does to the commits read so far. */
  function Fed(r: Reading, raw: string): Reading {
    var nul := NulAt(raw);
    if nul < |raw| then Reading(Closed(r), Some(Commit(Trim(raw[..nul]), raw[nul + 1..], [])))
    else
      var path := Trim(raw);
      if path != "" && r.current.Some? then
        r.(current := Some(r.current.value.(paths := r.current.value.paths + [path])))
      else r
  }

  function FedAll(r: Reading, lines: seq<string>): Reading {
    if lines == [] then r else Fed(FedAll(r, lines[..|lines| - 1]), lines[|lines| - 1])
  }

  function ParseLog(stdout: string): seq<Commit> {
    Closed(FedAll(Reading([], None), Lines(stdout)))
  }

  method ParseFirstParentLog(stdout: string) returns (commits: seq<Commit>)
    ensures commits == ParseLog(stdout)
  {
    var lines := Lines(stdout);
    commits := [];
    var current: Option<Commit> := None;
    for i := 0 to |lines|
      invariant Reading(commits, current) == FedAll(Reading([], None), lines[..i])
    {
      assert lines[..i + 1][..i] == lines[..i];
      var raw := lines[i];
      var nul := NulAt(raw);
      if nul < |raw| {
        if current.Some? {
          commits := commits + [current.value];
        }
        current := Some(Commit(Trim(raw[..nul]), raw[nul + 1..], []));
        continue;
      }
      var path := Trim(raw);
      if path != "" && current.Some? {
        current := Some(current.value.(paths := current.value.paths + [path]));
      }
    }
    assert lines[..|lines|] == lines;
    if current.Some? {
      commits := commits + [current.value];
    }
  }

  // ---- Round trip with the log as git prints it

  /** A commit in the log: its header and, if it has any paths, a blank line and its paths one to a line. */
  function Printed(c: Commit): seq<string> {
    [c.sha + [NUL] + c.subject] + if c.paths == [] then [] else [""] + c.paths
  }

  function Log(cs: seq<Commit>): seq<string> {
    if cs == [] then [] else Log(cs[..|cs| - 1]) + Printed(cs[|cs| - 1])
  }

  /** A SHA or path that the log can carry. */
  predicate Inline(s: string) {
    NUL !in s && '\n' !in s
  }

  predicate Printable(c: Commit) {
    Inline(c.sha) && '\n' !in c.subject && forall i {:trigger Inline(c.paths[i])} :: 0 <= i < |c.paths| ==> Inline(c.paths[i])
  }

  /** A commit as it is read back: trimmed, without blank paths. */
  function ReadBack(c: Commit): Commit {
    Commit(Trim(c.sha), c.subject, NonBlank(c.paths))
  }

  function NonBlank(paths: seq<string>): seq<string> {
    if paths == [] then []
    else
      var p := Trim(paths[|paths| - 1]);
      NonBlank(paths[..|paths| - 1]) + if p != "" then [p] else []
  }

  function AllReadBack(cs: seq<Commit>): seq<Commit> {
    if cs == [] then [] else AllReadBack(cs[..|cs| - 1]) + [ReadBack(cs[|cs| - 1])]
  }

  lemma {:induction false} FedAllAppend(r: Reading, a: seq<string>, b: seq<string>)
    ensures FedAll(r, a + b) == FedAll(FedAll(r, a), b)
  {
    if b == [] {
      assert a + b == a;
    } else {
      assert (a + b)[..|a + b| - 1] == a + b[..|b| - 1];
      FedAllAppend(r, a, b[..|b| - 1]);
    }
  }

  lemma {:induction false} NulAfter(a: string, b: string)
    requires NUL !in a
    ensures NulAt(a) == |a| && NulAt(a + [NUL] + b) == |a|
  {
    if a == "" {
      assert ([NUL] + b)[0] == NUL;
      assert a + [NUL] + b == [NUL] + b;
    } else {
      assert (a + [NUL] + b)[1..] == a[1..] + [NUL] + b;
      NulAfter(a[1..], b);
    }
  }

  lemma FedHeader(r: Reading, c: Commit)
    requires NUL !in c.sha
    ensures Fed(r, c.sha + [NUL] + c.subject) == Reading(Closed(r), Some(Commit(Trim(c.sha), c.subject, [])))
  {
    NulAfter(c.sha, c.subject);
    var raw := c.sha + [NUL] + c.subject;
    assert raw[..|c.sha|] == c.sha && raw[|c.sha| + 1..] == c.subject;
  }

  lemma {:induction false} FedPaths(r: Reading, paths: seq<string>)
    requires r.current.Some? && forall i {:trigger Inline(paths[i])} :: 0 <= i < |paths| ==> Inline(paths[i])
    ensures FedAll(r, paths) == r.(current := Some(r.current.value.(paths := r.current.value.paths + NonBlank(paths))))
  {
    if paths == [] {
      assert r.current.value.paths + [] == r.current.value.paths;
    } else {
      var (init, last) := (paths[..|paths| - 1], paths[|paths| - 1]);
      FedPaths(r, init);
      assert Inline(paths[|paths| - 1]);
      NulAfter(last, "");
      assert NonBlank(init) + [] == NonBlank(init);
      var had := r.current.value.paths;
      assert had + NonBlank(init) + [Trim(last)] == had + (NonBlank(init) + [Trim(last)]);
    }
  }

  lemma FedPrinted(r: Reading, c: Commit)
    requires Printable(c)
    ensures FedAll(r, Printed(c)) == Reading(Closed(r), Some(ReadBack(c)))
  {
    var header := [c.sha + [NUL] + c.subject];
    var rest := if c.paths == [] then [] else [""] + c.paths;
    FedHeader(r, c);
    FedAllAppend(r, header, rest);
    assert header[..0] == [];
    var started := Reading(Closed(r), Some(Commit(Trim(c.sha), c.subject, [])));
    assert FedAll(r, header) == started;
    if c.paths != [] {
      FedAllAppend(started, [""], c.paths);
      assert [""][..0] == [];
      NulAfter("", "");
      assert FedAll(started, [""]) == started;
      FedPaths(started, c.paths);
    }
    assert [] + NonBlank(c.paths) == NonBlank(c.paths);
  }

  lemma {:induction false} FedLog(cs: seq<Commit>)
    requires forall i :: 0 <= i < |cs| ==> Printable(cs[i])
    ensures Closed(FedAll(Reading([], None), Log(cs))) == AllReadBack(cs)
  {
    if cs != [] {
      var (init, c) := (cs[..|cs| - 1], cs[|cs| - 1]);
      FedLog(init);
      FedAllAppend(Reading([], None), Log(init), Printed(c));
      FedPrinted(FedAll(Reading([], None), Log(init)), c);
    }
  }

  lemma {:induction false} LogLines(cs: seq<Commit>)
    requires forall i :: 0 <= i < |cs| ==> Printable(cs[i])
    ensures AllInline(Log(cs))
  {
    if cs != [] {
      LogLines(cs[..|cs| - 1]);
      PrintedLines(cs[|cs| - 1]);
    }
  }

  predicate AllInline(lines: seq<string>) {
    forall i :: 0 <= i < |lines| ==> '\n' !in lines[i]
  }

  lemma PrintedLines(c: Commit)
    requires Printable(c)
    ensures AllInline(Printed(c))
  {
    forall i | 0 <= i < |c.paths| ensures '\n' !in c.paths[i] {
      assert Inline(c.paths[i]);
    }
  }

  /** Reading the printed log gives every commit back, in order, trimmed and without blank paths. */
  lemma ParseOfLog(cs: seq<Commit>)
    requires forall i :: 0 <= i < |cs| ==> Printable(cs[i])
    ensures ParseLog(Unlines(Log(cs))) == AllReadBack(cs)
  {
    LogLines(cs);
    LinesOfUnlines(Log(cs));
    FedLog(cs);
    FedAllAppend(Reading([], None), Log(cs), [""]);
    assert [""][..0] == [];
    NulAfter("", "");
  }

  predicate UnpaddedText(s: string) {
    Trim(s) == s && s != ""
  }

  predicate Unpadded(c: Commit) {
    Trim(c.sha) == c.sha && forall i {:trigger UnpaddedText(c.paths[i])} :: 0 <= i < |c.paths| ==> UnpaddedText(c.paths[i])
  }

  lemma {:induction false} UnpaddedPaths(paths: seq<string>)
    requires forall i {:trigger UnpaddedText(paths[i])} :: 0 <= i < |paths| ==> UnpaddedText(paths[i])
    ensures NonBlank(paths) == paths
  {
    if paths != [] {
      hide Trim;
      UnpaddedPaths(paths[..|paths| - 1]);
      assert UnpaddedText(paths[|paths| - 1]);
      InitLast(paths);
    }
  }

  lemma UnpaddedReadBack(c: Commit)
    requires Unpadded(c)
    ensures ReadBack(c) == c
  {
    UnpaddedPaths(c.paths);
  }

  /** For SHAs and paths that carry no padding, reading inverts printing. */
  lemma ParseInvertsLog(cs: seq<Commit>)
    requires forall i :: 0 <= i < |cs| ==> Printable(cs[i]) && Unpadded(cs[i])
    ensures ParseLog(Unlines(Log(cs))) == cs
  {
    ParseOfLog(cs);
    AllUnpadded(cs);
  }

  lemma {:induction false} AllUnpadded(cs: seq<Commit>)
    requires forall i :: 0 <= i < |cs| ==> Unpadded(cs[i])
    ensures AllReadBack(cs) == cs
  {
    if cs != [] {
      hide Unpadded, ReadBack;
      AllUnpadded(cs[..|cs| - 1]);
      UnpaddedReadBack(cs[|cs| - 1]);
      InitLast(cs);
    }
  }

  function TrimmedAll(paths: seq<string>): seq<string> {
    Map(Trim, paths)
  }

  function NonBlankAt(paths: seq<string>): set<nat> {
    set i: nat | i < |paths| && Trim(paths[i]) != ""
  }

  /** The paths read back are those not blank, trimmed, in order. */
  lemma {:induction false} NonBlankPicked(paths: seq<string>)
    ensures Picks(TrimmedAll(paths), NonBlankAt(paths), NonBlank(paths))
  {
    if paths == [] {
      assert NonBlankAt(paths) == {};
      PicksNone(TrimmedAll(paths));
    } else {
      var (init, p) := (paths[..|paths| - 1], paths[|paths| - 1]);
      NonBlankPicked(init);
      hide Picks, Trim;
      assert TrimmedAll(paths)[..|init|] == TrimmedAll(init) && TrimmedAll(paths)[|init|] == Trim(p);
      PicksStep(TrimmedAll(paths), NonBlankAt(paths), NonBlankAt(init), NonBlank(init), Trim(p) != "");
      assert NonBlank(init) + [] == NonBlank(init);
    }
  }
}
