/** Strings as the program's runtime treats them. */
module Text {
  import opened Prelude

  /** `\s`: the characters that `trim` removes. */
  predicate IsSpace(ch: char) {
    var n := ch as int;
    || 9 <= n <= 13 || n == 0x20 || n == 0xA0 || n == 0x1680 || 0x2000 <= n <= 0x200A
    || n == 0x2028 || n == 0x2029 || n == 0x202F || n == 0x205F || n == 0x3000 || n == 0xFEFF
  }

  predicate IsBlank(s: string) {
    forall i :: 0 <= i < |s| ==> IsSpace(s[i])
  }

  function TrimEnd(s: string): (t: string)
    ensures t <= s && (t == "" || !IsSpace(t[|t| - 1]))
  {
    if s != "" && IsSpace(s[|s| - 1]) then TrimEnd(s[..|s| - 1]) else s
  }

  function TrimStart(s: string): string {
    if s != "" && IsSpace(s[0]) then TrimStart(s[1..]) else s
  }

  function Trim(s: string): string { TrimStart(TrimEnd(s)) }

  lemma {:induction false} TrimEndBlank(s: string)
    ensures TrimEnd(s) == "" <==> IsBlank(s)
  {
    if s != "" && IsSpace(s[|s| - 1]) {
      TrimEndBlank(s[..|s| - 1]);
      assert IsBlank(s[..|s| - 1]) ==> IsBlank(s);
    }
  }

  /** `parts.join(sep)` */
  function Join(parts: seq<string>, sep: string): string {
    if parts == [] then ""
    else if |parts| == 1 then parts[0]
    else Join(parts[..|parts| - 1], sep) + sep + parts[|parts| - 1]
  }

  /** Joining puts the separator between the parts, and nowhere else. */
  lemma {:induction false} JoinAppend(a: seq<string>, b: seq<string>, sep: string)
    requires a != [] && b != []
    ensures Join(a + b, sep) == Join(a, sep) + sep + Join(b, sep)
    ensures |b| == 1 ==> Join(b, sep) == b[0]
  {
    if |b| == 1 {
      JoinPush(a, b[0], sep);
      assert [b[0]] == b;
    } else {
      var (init, last) := (b[..|b| - 1], b[|b| - 1]);
      hide Join;
      JoinAppend(a, init, sep);
      JoinPush(a + init, last, sep);
      JoinPush(init, last, sep);
      InitLast(b);
      Associates(a, init, [last]);
      Associates(Join(a, sep) + sep, Join(init, sep), sep + last);
      Associates(Join(init, sep), sep, last);
      Associates(Join(a, sep) + sep + Join(init, sep), sep, last);
    }
  }

  lemma JoinPush(a: seq<string>, part: string, sep: string)
    requires a != []
    ensures Join(a + [part], sep) == Join(a, sep) + sep + part && Join([part], sep) == part
  {
    assert (a + [part])[..|a|] == a;
  }

  /** Joining more nonempty parts gives a longer string. */
  lemma {:induction false} JoinLonger(a: seq<string>, b: seq<string>, sep: string)
    requires b != [] && forall i :: 0 <= i < |b| ==> b[i] != ""
    ensures |Join(a + b, sep)| > |Join(a, sep)|
  {
    var (init, last) := (b[..|b| - 1], b[|b| - 1]);
    assert (a + b)[..|a + b| - 1] == a + init;
    if init != [] {
      JoinLonger(a, init, sep);
    } else {
      assert a + init == a;
    }
  }

  // ---- Searching and splitting

  predicate IsAt(text: string, part: string, i: nat)
    requires i + |part| <= |text|
  {
    text[i..i + |part|] == part
  }

  /** `text.includes(part)` */
  predicate Contains(text: string, part: string) {
    exists i :: 0 <= i <= |text| - |part| && IsAt(text, part, i)
  }

  /** `s.split('\n')` */
  function Lines(s: string): (ls: seq<string>)
    ensures ls != []
  {
    if s == "" then [""] else Put(Lines(s[..|s| - 1]), s[|s| - 1])
  }

  /** One more character after the last line so far. */
  function Put(ls: seq<string>, ch: char): (r: seq<string>)
    requires ls != []
    ensures r != []
  {
    if ch == '\n' then ls + [""] else ls[..|ls| - 1] + [ls[|ls| - 1] + [ch]]
  }

  /** The text after the last newline. */
  function Tail(s: string): string {
    Lines(s)[|Lines(s)| - 1]
  }

  /** The lines that a newline ends. */
  function Ended(s: string): seq<string> {
    Lines(s)[..|Lines(s)| - 1]
  }

  lemma {:induction false} OneLine(s: string)
    requires '\n' !in s
    ensures Lines(s) == [s]
  {
    hide Lines;
    LinesUnfold(s);
    if s != "" {
      NotInInit(s, '\n');
      InitLast(s);
      OneLine(s[..|s| - 1]);
    }
  }

  lemma LinesUnfold(s: string)
    ensures Lines(s) == if s == "" then [""] else Put(Lines(s[..|s| - 1]), s[|s| - 1])
  {
  }

  lemma {:induction false} NoNewline(s: string, i: nat)
    requires i < |Lines(s)|
    ensures '\n' !in Lines(s)[i]
  {
    if s != "" && i < |Lines(s[..|s| - 1])| {
      NoNewline(s[..|s| - 1], i);
    }
  }

  lemma LinesPush(s: string, ch: char)
    ensures Lines(s + [ch]) == Put(Lines(s), ch)
  {
    assert (s + [ch])[..|s|] == s;
  }

  lemma LinesInit(a: string, b: string)
    requires b != ""
    ensures Lines(a + b) == Put(Lines(a + b[..|b| - 1]), b[|b| - 1])
  {
    InitOfAppend(a, b);
  }

  /** Text that arrives in two pieces splits into the same lines. */
  lemma {:induction false} LinesAppend(a: string, b: string)
    ensures Lines(a + b) == Ended(a) + Lines(Tail(a) + b)
  {
    if b == "" {
      NoNewline(a, |Lines(a)| - 1);
      OneLine(Tail(a));
      assert a + b == a && Tail(a) + b == Tail(a);
    } else {
      var (init, ch) := (b[..|b| - 1], b[|b| - 1]);
      LinesAppend(a, init);
      LinesInit(a, b);
      LinesInit(Tail(a), b);
      PutAfter(Ended(a), Lines(Tail(a) + init), ch);
    }
  }

  lemma PutAfter(before: seq<string>, ls: seq<string>, ch: char)
    requires ls != []
    ensures Put(before + ls, ch) == before + Put(ls, ch)
  {
  }

  /** A line ended by a newline, in front of more text. */
  lemma LineThen(line: string, more: string)
    requires '\n' !in line
    ensures Lines(line + ['\n'] + more) == [line] + Lines(more)
  {
    OneLine(line);
    var all := line + ['\n'];
    LinesPush(line, '\n');
    assert Lines(all) == [line, ""];
    LinesAppend(all, more);
    assert "" + more == more;
  }

  /** `indexOf('\n')`, or the length if there is none. */
  function NewlineAt(s: string): (i: nat)
    ensures i <= |s| && (i < |s| ==> s[i] == '\n')
  {
    if s == "" || s[0] == '\n' then 0 else NewlineAt(s[1..]) + 1
  }

  lemma {:induction false} NewlineFirst(s: string, i: nat)
    requires i < NewlineAt(s)
    ensures s[i] != '\n'
  {
    if i > 0 {
      NewlineFirst(s[1..], i - 1);
    }
  }

  lemma NewlineOrNone(s: string)
    ensures NewlineAt(s) == |s| <==> '\n' !in s
  {
    if NewlineAt(s) == |s| {
      forall i | 0 <= i < |s| ensures s[i] != '\n' {
        NewlineFirst(s, i);
      }
    }
  }

  lemma FirstLineWhole(s: string)
    requires NewlineAt(s) < |s|
    ensures '\n' !in s[..NewlineAt(s)]
    ensures s[..NewlineAt(s)] + ['\n'] + s[NewlineAt(s) + 1..] == s
  {
    NoNewlineBefore(s);
    CutOut(s, NewlineAt(s));
  }

  lemma NoNewlineBefore(s: string)
    ensures '\n' !in s[..NewlineAt(s)]
  {
    forall k | 0 <= k < NewlineAt(s) ensures s[k] != '\n' {
      NewlineFirst(s, k);
    }
  }

  lemma CutOut(s: string, i: nat)
    requires i < |s|
    ensures s[..i] + [s[i]] + s[i + 1..] == s
  {
  }

  /** Taking the first line off leaves the rest. */
  lemma FirstLine(s: string)
    requires NewlineAt(s) < |s|
    ensures Lines(s) == [s[..NewlineAt(s)]] + Lines(s[NewlineAt(s) + 1..])
  {
    FirstLineWhole(s);
    LineThen(s[..NewlineAt(s)], s[NewlineAt(s) + 1..]);
  }

  /** The lines written out, each ended by a newline. */
  function Unlines(lines: seq<string>): string {
    if lines == [] then "" else lines[0] + ['\n'] + Unlines(lines[1..])
  }

  lemma {:induction false} LinesOfUnlines(lines: seq<string>)
    requires forall i :: 0 <= i < |lines| ==> '\n' !in lines[i]
    ensures Lines(Unlines(lines)) == lines + [""]
  {
    if lines != [] {
      LinesOfUnlines(lines[1..]);
      LineThen(lines[0], Unlines(lines[1..]));
    }
  }

  // ---- Trimming and splitting take nothing else away

  lemma {:induction false} TrimEndIs(s: string)
    ensures TrimEnd(s) <= s && IsBlank(s[|TrimEnd(s)|..])
  {
    if s != "" && IsSpace(s[|s| - 1]) {
      var init := s[..|s| - 1];
      TrimEndIs(init);
      forall i | 0 <= i < |s| - |TrimEnd(s)| ensures IsSpace(s[|TrimEnd(s)|..][i]) {
        if i < |init| - |TrimEnd(s)| {
          assert init[|TrimEnd(s)|..][i] == s[|TrimEnd(s)|..][i];
        }
      }
    }
  }

  lemma {:induction false} TrimStartIs(s: string) returns (front: string)
    ensures s == front + TrimStart(s) && IsBlank(front)
    ensures TrimStart(s) == "" || !IsSpace(TrimStart(s)[0])
  {
    front := "";
    if s != "" && IsSpace(s[0]) {
      front := TrimStartIs(s[1..]);
      front := [s[0]] + front;
      assert s == [s[0]] + s[1..];
    }
  }

  /** Only white space is trimmed, and all of it at both ends. */
  lemma TrimIs(s: string) returns (front: string, back: string)
    ensures s == front + Trim(s) + back && IsBlank(front) && IsBlank(back)
    ensures Trim(s) == "" || (!IsSpace(Trim(s)[0]) && !IsSpace(Trim(s)[|Trim(s)| - 1]))
  {
    TrimEndIs(s);
    var t := TrimEnd(s);
    back := s[|t|..];
    front := TrimStartIs(t);
  }

  lemma JoinPut(ls: seq<string>, ch: char)
    requires ls != []
    ensures Join(Put(ls, ch), "\n") == Join(ls, "\n") + [ch]
  {
    var (init, last) := (ls[..|ls| - 1], ls[|ls| - 1]);
    InitLast(ls);
    if ch == '\n' {
      JoinPush(ls, "", "\n");
      assert Join(ls, "\n") + "\n" + "" == Join(ls, "\n") + [ch];
    } else if init == [] {
      JoinPush([""], "", "\n");
      assert Put(ls, ch) == [last + [ch]];
    } else {
      JoinPush(init, last, "\n");
      JoinPush(init, last + [ch], "\n");
      Associates(Join(init, "\n") + "\n", last, [ch]);
    }
  }

  /** Lines hold no newline, and joined by newlines they are the text again. */
  lemma {:induction false} LinesJoined(s: string)
    ensures Join(Lines(s), "\n") == s && forall i :: 0 <= i < |Lines(s)| ==> '\n' !in Lines(s)[i]
  {
    forall i | 0 <= i < |Lines(s)| ensures '\n' !in Lines(s)[i] {
      NoNewline(s, i);
    }
    if s != "" {
      LinesJoined(s[..|s| - 1]);
      JoinPut(Lines(s[..|s| - 1]), s[|s| - 1]);
      InitLast(s);
    }
  }
}
