/** Signing a commit message: appending the co-author trailer so that git still reads the last paragraph as trailers. */
module CommitTrailer {
  import opened Prelude
  import opened Text

  const LAZY_COAUTHOR_TRAILER := "Co-Authored-By: Lazy <noreply@getlazy.dev>"

  // ---- `/^[A-Za-z][A-Za-z0-9-]*: \S.*$/`

  predicate IsLetter(ch: char) {
    'A' <= ch <= 'Z' || 'a' <= ch <= 'z'
  }

  predicate IsKeyChar(ch: char) {
    IsLetter(ch) || '0' <= ch <= '9' || ch == '-'
  }

  /** What `.` does not match. */
  predicate IsLineTerminator(ch: char) {
    ch == '\n' || ch == '\r' || ch as int == 0x2028 || ch as int == 0x2029
  }

  /** A trailer whose key is the first `k` characters. */
  predicate TrailerWithKey(line: string, k: int) {
    && 1 <= k && k + 2 < |line|
    && IsLetter(line[0]) && (forall i :: 0 < i < k ==> IsKeyChar(line[i]))
    && line[k] == ':' && line[k + 1] == ' ' && !IsSpace(line[k + 2])
    && (forall i :: k + 2 < i < |line| ==> !IsLineTerminator(line[i]))
  }

  predicate IsTrailerLine(line: string) {
    exists k {:trigger TrailerWithKey(line, k)} :: 0 <= k < |line| && TrailerWithKey(line, k)
  }

  lemma LazyKey(i: nat)
    requires 0 < i < 14
    ensures IsKeyChar(LAZY_COAUTHOR_TRAILER[i])
  {
    assert LAZY_COAUTHOR_TRAILER[..14] == "Co-Authored-By";
    assert LAZY_COAUTHOR_TRAILER[i] == "Co-Authored-By"[i];
  }

  lemma LazyIsOneLine()
    ensures forall i :: 0 <= i < |LAZY_COAUTHOR_TRAILER| ==> !IsLineTerminator(LAZY_COAUTHOR_TRAILER[i])
    ensures EndsVisibly(LAZY_COAUTHOR_TRAILER) && !IsSpace(LAZY_COAUTHOR_TRAILER[0])
  {
  }

  lemma LazyIsTrailer()
    ensures IsTrailerLine(LAZY_COAUTHOR_TRAILER)
  {
    forall i | 0 < i < 14 ensures IsKeyChar(LAZY_COAUTHOR_TRAILER[i]) {
      LazyKey(i);
    }
    LazyIsOneLine();
    assert TrailerWithKey(LAZY_COAUTHOR_TRAILER, 14);
  }

  // ---- `split(/\n\s*\n/)`

  /** The most characters of white space in front that end in a newline. */
  function LastBreak(s: string): (n: nat)
    ensures n <= |s|
  {
    if s == "" || !IsSpace(s[0]) then 0
    else
      var n := LastBreak(s[1..]);
      if n > 0 then n + 1 else if s[0] == '\n' then 1 else 0
  }

  /** How much of the front the separator matches; 0 if it does not. */
  function Separator(s: string): (n: nat)
    ensures n <= |s|
  {
    if s == "" || s[0] != '\n' then 0
    else
      var n := LastBreak(s[1..]);
      if n == 0 then 0 else n + 1
  }

  function Paragraphs(s: string): (ps: seq<string>)
    ensures ps != []
    decreases |s|
  {
    if s == "" then [""]
    else if Separator(s) > 0 then [""] + Paragraphs(s[Separator(s)..])
    else Preceded(s[0], Paragraphs(s[1..]))
  }

  function Preceded(ch: char, ps: seq<string>): (r: seq<string>)
    requires ps != []
    ensures r != []
  {
    [[ch] + ps[0]] + ps[1..]
  }

  function LastParagraph(s: string): string {
    Paragraphs(s)[|Paragraphs(s)| - 1]
  }

  predicate EndsInTrailers(s: string) {
    |Paragraphs(s)| > 1 && forall i :: 0 <= i < |Lines(LastParagraph(s))| ==> IsTrailerLine(Lines(LastParagraph(s))[i])
  }

  /** The final block already carries the trailer. */
  predicate IsSigned(s: string) {
    EndsInTrailers(s) && LAZY_COAUTHOR_TRAILER in Lines(LastParagraph(s))
  }

  function WithLazyCoauthorTrailer(message: string, enabled: bool): string {
    if !enabled then message
    else
      var trimmed := TrimEnd(message);
      if trimmed == "" then LAZY_COAUTHOR_TRAILER
      else if IsSigned(trimmed) then trimmed
      else trimmed + (if EndsInTrailers(trimmed) then "\n" else "\n\n") + LAZY_COAUTHOR_TRAILER
  }

  // ---- More text behind a text that ends in a visible character

  predicate EndsVisibly(s: string) {
    s != "" && !IsSpace(s[|s| - 1])
  }

  lemma {:induction false} BreakStays(s: string, more: string)
    requires EndsVisibly(s)
    ensures LastBreak(s + more) == LastBreak(s) < |s|
  {
    assert (s + more)[0] == s[0] && (s + more)[1..] == s[1..] + more;
    if |s| > 1 {
      BreakStays(s[1..], more);
    }
  }

  lemma SeparatorStays(s: string, more: string)
    requires EndsVisibly(s)
    ensures Separator(s + more) == Separator(s) < |s|
  {
    assert (s + more)[0] == s[0] && (s + more)[1..] == s[1..] + more;
    if |s| > 1 {
      BreakStays(s[1..], more);
    }
  }

  /** Paragraphs of `s + more`: those of `s`, the last running on into the first of `more`, then the rest of `more`. */
  function Joined(a: seq<string>, b: seq<string>): seq<string>
    requires a != [] && b != []
  {
    a[..|a| - 1] + [a[|a| - 1] + b[0]] + b[1..]
  }

  lemma {:induction false} ParagraphsAppend(s: string, more: string)
    requires EndsVisibly(s)
    ensures Paragraphs(s + more) == Joined(Paragraphs(s), Paragraphs(more))
    decreases |s|
  {
    SeparatorStays(s, more);
    var n := Separator(s);
    if n > 0 {
      assert (s + more)[n..] == s[n..] + more;
      ParagraphsAppend(s[n..], more);
      JoinedPush("", Paragraphs(s[n..]), Paragraphs(more));
    } else {
      assert (s + more)[0] == s[0] && (s + more)[1..] == s[1..] + more;
      if |s| == 1 {
        assert s[1..] + more == more && s[1..] == "";
        JoinedEmpty(Paragraphs(more));
      } else {
        ParagraphsAppend(s[1..], more);
      }
      JoinedPreceded(s[0], Paragraphs(s[1..]), Paragraphs(more));
    }
  }

  lemma JoinedPush(p: string, a: seq<string>, b: seq<string>)
    requires a != [] && b != []
    ensures Joined([p] + a, b) == [p] + Joined(a, b)
  {
    assert ([p] + a)[..|a|] == [p] + a[..|a| - 1];
  }

  lemma JoinedPreceded(ch: char, a: seq<string>, b: seq<string>)
    requires a != [] && b != []
    ensures Preceded(ch, Joined(a, b)) == Joined(Preceded(ch, a), b)
  {
    if |a| == 1 {
      assert Preceded(ch, a) == [[ch] + a[0]];
      assert [ch] + (a[0] + b[0]) == [ch] + a[0] + b[0];
    } else {
      assert a[..|a| - 1][1..] == a[1..][..|a| - 2];
    }
  }

  lemma JoinedEmpty(b: seq<string>)
    requires b != []
    ensures Joined([""], b) == b
  {
    assert "" + b[0] == b[0];
  }

  // ---- The two ways of appending

  lemma {:induction false} OneParagraph(s: string)
    requires '\n' !in s
    ensures Paragraphs(s) == [s]
  {
    if s != "" {
      OneParagraph(s[1..]);
      assert [s[0]] + s[1..] == s;
    }
  }

  lemma LazyParagraph()
    ensures '\n' !in LAZY_COAUTHOR_TRAILER
    ensures Paragraphs(LAZY_COAUTHOR_TRAILER) == [LAZY_COAUTHOR_TRAILER]
  {
    LazyIsOneLine();
    OneParagraph(LAZY_COAUTHOR_TRAILER);
  }

  /** A line to append: visible at both ends. */
  predicate IsLine(t: string) {
    EndsVisibly(t) && !IsSpace(t[0]) && '\n' !in t
  }

  lemma LazyIsLine()
    ensures IsLine(LAZY_COAUTHOR_TRAILER)
  {
    LazyIsOneLine();
    LazyParagraph();
  }

  lemma NewlineBefore(t: string)
    requires IsLine(t)
    ensures LastBreak(['\n'] + t) == 1
    ensures Paragraphs(['\n'] + t) == [['\n'] + t]
  {
    var s := ['\n'] + t;
    assert s[1..] == t;
    assert LastBreak(t) == 0;
    assert Separator(s) == 0;
    OneParagraph(t);
  }

  lemma BlankLineBefore(t: string)
    requires IsLine(t)
    ensures Paragraphs(['\n', '\n'] + t) == ["", t]
  {
    var s := ['\n', '\n'] + t;
    assert s[1..] == ['\n'] + t && s[2..] == t;
    NewlineBefore(t);
    assert Separator(s) == 2;
    OneParagraph(t);
  }

  lemma TrimEndVisible(s: string)
    requires EndsVisibly(s)
    ensures TrimEnd(s) == s
  {
  }

  lemma LinesOfTwo(a: string, b: string)
    ensures Lines(a + "\n" + b) == Lines(a) + Lines(b)
  {
    var line := a + "\n";
    LinesPush(a, '\n');
    assert Lines(line) == Lines(a) + [""];
    LinesAppend(line, b);
    assert "" + b == b;
  }

  /** After text that ends in a trailer block a line joins the block. */
  lemma JoinsBlock(s: string, t: string)
    requires EndsVisibly(s) && IsLine(t)
    ensures Paragraphs(s + "\n" + t) == Paragraphs(s)[..|Paragraphs(s)| - 1] + [LastParagraph(s) + "\n" + t]
  {
    hide Paragraphs;
    NewlineBefore(t);
    ParagraphsAppend(s, ['\n'] + t);
    Associates(s, "\n", t);
    Associates(LastParagraph(s), "\n", t);
  }

  lemma BlockLines(s: string, t: string)
    requires EndsVisibly(s) && IsLine(t)
    ensures Lines(LastParagraph(s + "\n" + t)) == Lines(LastParagraph(s)) + [t]
    ensures |Paragraphs(s + "\n" + t)| == |Paragraphs(s)|
  {
    JoinsBlock(s, t);
    LinesOfTwo(LastParagraph(s), t);
    OneLine(t);
  }

  /** After other text it opens a block of its own. */
  lemma OpensBlock(s: string, t: string)
    requires EndsVisibly(s) && IsLine(t)
    ensures Paragraphs(s + "\n\n" + t) == Paragraphs(s) + [t]
  {
    BlankLineBefore(t);
    ParagraphsAppend(s, ['\n', '\n'] + t);
    assert s + "\n\n" + t == s + (['\n', '\n'] + t);
    JoinedBlank(Paragraphs(s), t);
  }

  lemma JoinedBlank(a: seq<string>, t: string)
    requires a != []
    ensures Joined(a, ["", t]) == a + [t]
  {
    assert a[|a| - 1] + "" == a[|a| - 1];
  }

  // ---- What the result is

  /** The final block of a signed message: all trailers, the program's own among them. */
  lemma SignsFinalBlock(message: string)
    requires !IsBlank(message)
    ensures var ps := Paragraphs(WithLazyCoauthorTrailer(message, true));
      var block := Lines(ps[|ps| - 1]);
      |ps| > 1 && LAZY_COAUTHOR_TRAILER in block && forall line :: line in block ==> IsTrailerLine(line)
  {
    hide WithLazyCoauthorTrailer, IsSigned, Paragraphs, Lines, IsTrailerLine, EndsInTrailers, LAZY_COAUTHOR_TRAILER, IsBlank;
    SignedAfter(message);
    SignedBlock(WithLazyCoauthorTrailer(message, true));
  }

  lemma SignedBlock(s: string)
    requires IsSigned(s)
    ensures var block := Lines(LastParagraph(s));
      |Paragraphs(s)| > 1 && LAZY_COAUTHOR_TRAILER in block && forall line :: line in block ==> IsTrailerLine(line)
  {
  }

  lemma SignedAfter(message: string)
    requires !IsBlank(message)
    ensures IsSigned(WithLazyCoauthorTrailer(message, true))
    ensures EndsVisibly(WithLazyCoauthorTrailer(message, true))
  {
    TrimEndBlank(message);
    var trimmed := TrimEnd(message);
    LazyIsTrailer();
    LazyIsLine();
    if !IsSigned(trimmed) {
      if EndsInTrailers(trimmed) {
        BlockSigned(trimmed, LAZY_COAUTHOR_TRAILER);
      } else {
        NewBlockSigned(trimmed, LAZY_COAUTHOR_TRAILER);
      }
    }
  }

  lemma BlockSigned(s: string, t: string)
    requires EndsVisibly(s) && EndsInTrailers(s) && IsLine(t) && IsTrailerLine(t)
    ensures EndsInTrailers(s + "\n" + t) && t in Lines(LastParagraph(s + "\n" + t)) && EndsVisibly(s + "\n" + t)
  {
    hide Paragraphs, Lines, IsTrailerLine;
    BlockLines(s, t);
  }

  lemma NewBlockSigned(s: string, t: string)
    requires EndsVisibly(s) && IsLine(t) && IsTrailerLine(t)
    ensures EndsInTrailers(s + "\n\n" + t) && t in Lines(LastParagraph(s + "\n\n" + t)) && EndsVisibly(s + "\n\n" + t)
  {
    OpensBlock(s, t);
    OneLine(t);
  }

  /** Nothing of the message but trailing white space is lost. */
  lemma ExtendsMessage(message: string)
    ensures TrimEnd(message) <= WithLazyCoauthorTrailer(message, true)
  {
  }

  /** Trailers the message already had stay in the final block; any other last paragraph stays a paragraph. */
  lemma KeepsFinalBlock(message: string)
    requires !IsBlank(message)
    ensures var (s, r) := (TrimEnd(message), WithLazyCoauthorTrailer(message, true));
      if EndsInTrailers(s) then
        && |Paragraphs(r)| == |Paragraphs(s)| && Paragraphs(r)[..|Paragraphs(s)| - 1] == Paragraphs(s)[..|Paragraphs(s)| - 1]
        && var had := Lines(LastParagraph(s));
          Lines(LastParagraph(r)) == had + if LAZY_COAUTHOR_TRAILER in had then [] else [LAZY_COAUTHOR_TRAILER]
      else
        Paragraphs(r) == Paragraphs(s) + [LAZY_COAUTHOR_TRAILER]
  {
    TrimEndBlank(message);
    LazyIsLine();
    if EndsInTrailers(TrimEnd(message)) {
      BlockLines(TrimEnd(message), LAZY_COAUTHOR_TRAILER);
      JoinsBlock(TrimEnd(message), LAZY_COAUTHOR_TRAILER);
    } else {
      OpensBlock(TrimEnd(message), LAZY_COAUTHOR_TRAILER);
    }
  }

  /** Signing twice is signing once exactly when there was something to sign. */
  lemma FixpointIff(message: string, enabled: bool)
    ensures (WithLazyCoauthorTrailer(WithLazyCoauthorTrailer(message, enabled), enabled)
             == WithLazyCoauthorTrailer(message, enabled))
            <==> !enabled || !IsBlank(message)
  {
    if enabled {
      if IsBlank(message) {
        BlankSignsTwice(message);
      } else {
        SignedAfter(message);
        TrimEndVisible(WithLazyCoauthorTrailer(message, true));
      }
    }
  }

  /** A blank message becomes the bare trailer, which is no trailer block, so a second call appends another. */
  lemma BlankSignsTwice(message: string)
    requires IsBlank(message)
    ensures WithLazyCoauthorTrailer(message, true) == LAZY_COAUTHOR_TRAILER
    ensures WithLazyCoauthorTrailer(LAZY_COAUTHOR_TRAILER, true) == LAZY_COAUTHOR_TRAILER + "\n\n" + LAZY_COAUTHOR_TRAILER
  {
    TrimEndBlank(message);
    LazyIsOneLine();
    TrimEndVisible(LAZY_COAUTHOR_TRAILER);
    LazyParagraph();
  }

  /** A message is left alone when signing is off, and but for trailing white space when it is signed. */
  lemma LeftAlone(message: string, enabled: bool)
    requires !enabled || IsSigned(TrimEnd(message))
    ensures WithLazyCoauthorTrailer(message, enabled) == if enabled then TrimEnd(message) else message
  {
    TrimEndIs(message);
  }

  // ---- What the two patterns match

  lemma FirstColon(line: string, k: int)
    requires 0 <= k < |line| && TrailerWithKey(line, k)
    ensures line[k] == ':' && forall i :: 0 <= i < k ==> line[i] != ':'
  {
    assert !IsKeyChar(':') && !IsLetter(':');
  }

  /** A trailer line is a key, a colon, a space and a visible value on the same line. */
  lemma TrailerLineOf(key: string, value: string)
    requires key != "" && value != "" && ':' !in key
    ensures IsTrailerLine(key + ": " + value) <==>
      && IsLetter(key[0]) && (forall i :: 0 <= i < |key| ==> IsKeyChar(key[i]))
      && !IsSpace(value[0]) && forall i :: 0 < i < |value| ==> !IsLineTerminator(value[i])
  {
    var line := key + ": " + value;
    assert line[|key|] == ':' && line[|key| + 1] == ' ' && line[|key| + 2] == value[0];
    forall i | 0 <= i < |key| ensures line[i] == key[i] {
    }
    forall i | 0 <= i < |value| ensures line[|key| + 2 + i] == value[i] {
    }
    forall k | 0 <= k < |line| && TrailerWithKey(line, k) ensures k == |key| {
      FirstColon(line, k);
    }
    if && IsLetter(key[0]) && (forall i :: 0 <= i < |key| ==> IsKeyChar(key[i]))
       && !IsSpace(value[0]) && forall i :: 0 < i < |value| ==> !IsLineTerminator(value[i]) {
      forall i | |key| + 2 < i < |line| ensures !IsLineTerminator(line[i]) {
        assert line[i] == value[i - |key| - 2];
      }
      assert TrailerWithKey(line, |key|);
    }
  }

  /** A blank stretch at the front from one newline to another. */
  predicate IsBreak(s: string, n: nat) {
    2 <= n <= |s| && s[0] == '\n' && s[n - 1] == '\n' && IsBlank(s[..n])
  }

  predicate IsLongestBreak(s: string, n: nat) {
    IsBreak(s, n) && forall m :: n < m <= |s| ==> !IsBreak(s, m)
  }

  predicate NoBreak(s: string) {
    forall m :: 0 <= m <= |s| ==> !IsBreak(s, m)
  }

  lemma {:induction false} LastBreakIs(s: string)
    ensures IsBlank(s[..LastBreak(s)]) && (LastBreak(s) > 0 ==> s[LastBreak(s) - 1] == '\n')
    ensures forall m :: LastBreak(s) < m <= |s| && IsBlank(s[..m]) ==> s[m - 1] != '\n'
  {
    if s != "" && IsSpace(s[0]) {
      var (n, rest) := (LastBreak(s[1..]), s[1..]);
      LastBreakIs(rest);
      forall i | 0 <= i < LastBreak(s) ensures IsSpace(s[i]) {
        assert i > 0 ==> rest[..n][i - 1] == s[i];
      }
      forall m | LastBreak(s) < m <= |s| && IsBlank(s[..m]) ensures s[m - 1] != '\n' {
        assert rest[..m - 1] == s[..m][1..];
        assert IsBlank(rest[..m - 1]);
        assert m > 1 ==> rest[m - 2] == s[m - 1];
      }
    } else if s != "" {
      forall m | 0 < m <= |s| ensures !IsBlank(s[..m]) {
        assert s[..m][0] == s[0];
      }
    }
  }

  /** The separator is the longest such stretch. */
  lemma SeparatorIs(s: string)
    ensures Separator(s) > 0 ==> IsLongestBreak(s, Separator(s))
    ensures Separator(s) == 0 ==> NoBreak(s)
  {
    if s != "" && s[0] == '\n' {
      var (rest, n) := (s[1..], LastBreak(s[1..]));
      LastBreakIs(rest);
      forall m | 2 <= m <= |s| ensures IsBlank(s[..m]) <==> IsBlank(rest[..m - 1]) {
        assert s[..m] == ['\n'] + rest[..m - 1];
        assert s[..m][1..] == rest[..m - 1];
        BlankCons('\n', rest[..m - 1]);
      }
      forall k | 0 <= k < |rest| ensures s[k + 1] == rest[k] {
      }
    }
  }

  lemma BlankCons(ch: char, s: string)
    requires IsSpace(ch)
    ensures IsBlank([ch] + s) <==> IsBlank(s)
  {
    if IsBlank([ch] + s) {
      forall i | 0 <= i < |s| ensures IsSpace(s[i]) {
        assert ([ch] + s)[i + 1] == s[i];
      }
    }
  }

  /** No break begins in the first `i` characters. */
  predicate NoBreakBefore(s: string, i: nat)
    requires i <= |s|
  {
    forall j {:trigger s[j..]} :: 0 <= j < i ==> NoBreak(s[j..])
  }

  lemma BreakBehind(s: string, i: nat)
    requires 0 < i <= |s| && NoBreakBefore(s, i)
    ensures NoBreak(s) && s[1..][i - 1..] == s[i..] && NoBreakBefore(s[1..], i - 1)
    ensures [s[0]] + s[1..][..i - 1] == s[..i]
  {
    assert s[0..] == s;
    forall j | 0 <= j < i - 1 ensures NoBreak(s[1..][j..]) {
      assert s[1..][j..] == s[j + 1..];
    }
  }

  lemma NoSeparator(s: string)
    requires NoBreak(s)
    ensures Separator(s) == 0
  {
    SeparatorIs(s);
  }

  lemma ParagraphsOn(s: string)
    requires s != "" && Separator(s) == 0
    ensures Paragraphs(s) == Preceded(s[0], Paragraphs(s[1..]))
  {
  }

  lemma LongestIs(s: string, n: nat)
    requires IsLongestBreak(s, n)
    ensures Separator(s) == n && 2 <= n <= |s|
  {
    SeparatorIs(s);
  }

  /** The text up to the first break is the first paragraph, and the rest follows it. */
  lemma {:induction false} ParagraphsSplit(s: string, i: nat, n: nat)
    requires i <= |s| && IsLongestBreak(s[i..], n) && NoBreakBefore(s, i)
    ensures i + n <= |s| && Paragraphs(s) == [s[..i]] + Paragraphs(s[i + n..])
    decreases i
  {
    hide *;
    LongestIs(s[i..], n);
    if i == 0 {
      ParagraphsAtBreak(s);
    } else {
      BreakBehind(s, i);
      NoSeparator(s);
      ParagraphsSplit(s[1..], i - 1, n);
      ParagraphBehind(s, i, n);
    }
  }

  /** One more character in front of the first paragraph. */
  lemma ParagraphBehind(s: string, i: nat, n: nat)
    requires 0 < i && i + n <= |s| && Separator(s) == 0
    requires Paragraphs(s[1..]) == [s[1..][..i - 1]] + Paragraphs(s[1..][i - 1 + n..])
    ensures Paragraphs(s) == [s[..i]] + Paragraphs(s[i + n..])
  {
    DropBoth(s, i, n);
    ParagraphsOn(s);
    hide *;
    PrecededCons(s[0], s[1..][..i - 1], Paragraphs(s[i + n..]));
    OneMore(s, i);
  }

  lemma OneMore(s: string, i: nat)
    requires 0 < i <= |s|
    ensures [s[0]] + s[1..][..i - 1] == s[..i]
  {
  }

  lemma DropBoth(s: string, i: nat, n: nat)
    requires 0 < i && i + n <= |s|
    ensures s[1..][i - 1 + n..] == s[i + n..]
  {
  }

  lemma ParagraphsAtBreak(s: string)
    requires Separator(s[0..]) > 0
    ensures Paragraphs(s) == [s[..0]] + Paragraphs(s[Separator(s[0..])..])
  {
    assert s[0..] == s && s[..0] == "";
  }

  lemma PrecededCons(ch: char, p: string, ps: seq<string>)
    ensures Preceded(ch, [p] + ps) == [[ch] + p] + ps
  {
  }

  /** Text without a break is one paragraph. */
  lemma {:induction false} ParagraphsWhole(s: string)
    requires NoBreakBefore(s, |s|)
    ensures Paragraphs(s) == [s]
  {
    if s != "" {
      hide NoBreak, NoBreakBefore, Separator;
      BreakBehind(s, |s|);
      NoSeparator(s);
      ParagraphsWhole(s[1..]);
      assert [s[0]] + s[1..] == s;
    }
  }
}
