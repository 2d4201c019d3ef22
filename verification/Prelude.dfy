/** Types shared by every module of the model. */
module Prelude {

  /** A value that may be missing: `null` or `undefined` in the program. */
  datatype Option<+T> = None | Some(value: T)

  /** `text ?? ''` */
  function OrEmpty(text: Option<string>): string {
    if text.Some? then text.value else ""
  }

  /** A `Set.add` on a set kept as its insertion-ordered list of members. */
  function Added<T(==)>(s: seq<T>, x: T): seq<T> {
    if x in s then s else s + [x]
  }

  /** The elements of `s` in order of first occurrence: a `Set` filled from `s`. */
  function Distinct<T(==)>(s: seq<T>): seq<T> {
    if s == [] then [] else Added(Distinct(s[..|s| - 1]), s[|s| - 1])
  }

  lemma DistinctAppend<T>(s: seq<T>, x: T)
    ensures Distinct(s + [x]) == Added(Distinct(s), x)
  {
    assert (s + [x])[..|s|] == s;
  }

  lemma {:induction false} DistinctMembers<T(!new)>(s: seq<T>)
    ensures forall x :: x in Distinct(s) <==> x in s
    ensures forall i, j :: 0 <= i < j < |Distinct(s)| ==> Distinct(s)[i] != Distinct(s)[j]
  {
    if s != [] {
      DistinctMembers(s[..|s| - 1]);
      assert s == s[..|s| - 1] + [s[|s| - 1]];
    }
  }

  /** `s.map(f)` */
  function Map<A, B>(f: A -> B, s: seq<A>): (r: seq<B>)
    ensures |r| == |s|
  {
    if s == [] then [] else Map(f, s[..|s| - 1]) + [f(s[|s| - 1])]
  }

  lemma {:induction false} MapAt<A, B>(f: A -> B, s: seq<A>, i: nat)
    requires i < |s|
    ensures Map(f, s)[i] == f(s[i])
  {
    if i < |s| - 1 {
      MapAt(f, s[..|s| - 1], i);
    }
  }

  lemma MapPush<A, B>(f: A -> B, s: seq<A>, x: A)
    ensures Map(f, s + [x]) == Map(f, s) + [f(x)]
  {
    assert (s + [x])[..|s|] == s;
  }

  lemma {:induction false} MapCons<A, B>(f: A -> B, x: A, s: seq<A>)
    ensures Map(f, [x] + s) == [f(x)] + Map(f, s)
  {
    forall i | 0 <= i < |s| + 1 ensures Map(f, [x] + s)[i] == ([f(x)] + Map(f, s))[i] {
      MapAt(f, [x] + s, i);
      if i > 0 {
        MapAt(f, s, i - 1);
      }
    }
  }

  // ---- Sequences

  lemma InitLast<T>(s: seq<T>)
    requires s != []
    ensures s[..|s| - 1] + [s[|s| - 1]] == s
  {
  }

  lemma Associates<T>(a: seq<T>, b: seq<T>, c: seq<T>)
    ensures a + b + c == a + (b + c)
  {
  }

  /** What is not in a sequence is not in the sequence without its last element. */
  lemma NotInInit<T>(s: seq<T>, x: T)
    requires s != [] && x !in s
    ensures x !in s[..|s| - 1] && s[|s| - 1] != x
  {
  }

  lemma InitOfAppend<T>(a: seq<T>, b: seq<T>)
    requires b != []
    ensures (a + b)[..|a + b| - 1] == a + b[..|b| - 1] && (a + b)[|a + b| - 1] == b[|b| - 1]
  {
  }

  lemma PrefixStep<T>(s: seq<T>, i: nat)
    requires i < |s|
    ensures s[..i + 1] == s[..i] + [s[i]] && s[..i + 1][..i] == s[..i]
  {
  }

  lemma {:induction false} SubsetSmaller<T>(a: set<T>, b: set<T>)
    requires a <= b
    ensures |a| <= |b|
  {
    if a != {} {
      var x :| x in a;
      SubsetSmaller(a - {x}, b - {x});
    }
  }

  // ---- Selections

  predicate Ascends(at: seq<nat>) {
    forall i, j :: 0 <= i < j < |at| ==> at[i] < at[j]
  }

  /** `r` lists the elements of `s` at the positions in `keep`, in the order of `s`. */
  ghost predicate Picks<T(!new)>(s: seq<T>, keep: set<nat>, r: seq<T>) {
    exists at: seq<nat> :: PicksAt(s, keep, r, at)
  }

  ghost predicate PicksAt<T(!new)>(s: seq<T>, keep: set<nat>, r: seq<T>, at: seq<nat>) {
    && |at| == |r| && Ascends(at)
    && (forall i: nat :: i in at <==> i in keep)
    && forall k :: 0 <= k < |r| ==> at[k] < |s| && r[k] == s[at[k]]
  }

  lemma PicksNone<T(!new)>(s: seq<T>)
    ensures Picks(s, {}, [])
  {
    assert PicksAt(s, {}, [], []);
  }

  /** One more element, picked or not. */
  lemma PicksPush<T(!new)>(s: seq<T>, keep: set<nat>, r: seq<T>, x: T)
    requires Picks(s, keep, r)
    ensures Picks(s + [x], keep, r) && Picks(s + [x], keep + {|s|}, r + [x])
  {
    var at :| PicksAt(s, keep, r, at);
    assert PicksAt(s + [x], keep, r, at);
    var end: nat := |s|;
    var more: seq<nat> := at + [end];
    forall i: nat ensures i in more <==> i in keep + {|s|} {
    }
    assert PicksAt(s + [x], keep + {|s|}, r + [x], more);
  }

  /** The selection from all but the last element, and what becomes of the last. */
  lemma PicksStep<T(!new)>(s: seq<T>, keep: set<nat>, before: set<nat>, r: seq<T>, picked: bool)
    requires s != [] && Picks(s[..|s| - 1], before, r)
    requires forall i: nat :: i in keep <==> i in before || (i == |s| - 1 && picked)
    ensures Picks(s, keep, if picked then r + [s[|s| - 1]] else r)
  {
    var init := s[..|s| - 1];
    PicksPush(init, before, r, s[|s| - 1]);
    InitLast(s);
    if picked {
      assert keep == before + {|init|};
    } else {
      assert keep == before;
    }
  }

  lemma PicksMembers<T(!new)>(s: seq<T>, keep: set<nat>, r: seq<T>)
    requires Picks(s, keep, r)
    ensures forall i :: i in keep ==> i < |s|
    ensures forall x :: x in r <==> exists i :: i in keep && i < |s| && s[i] == x
  {
    var at :| PicksAt(s, keep, r, at);
    forall i | i in keep ensures i < |s| && s[i] in r {
      var k :| 0 <= k < |at| && at[k] == i;
      assert r[k] == s[i];
    }
    forall x | x in r ensures exists i :: i in keep && i < |s| && s[i] == x {
      var k :| 0 <= k < |r| && r[k] == x;
      assert at[k] in keep;
    }
  }

  /** Positions and elements say all there is to say about a selection. */
  lemma PicksUnique<T(!new)>(s: seq<T>, keep: set<nat>, r: seq<T>, r': seq<T>)
    requires Picks(s, keep, r) && Picks(s, keep, r')
    ensures r == r'
  {
    var at :| PicksAt(s, keep, r, at);
    var at' :| PicksAt(s, keep, r', at');
    AscendingSame(at, at');
  }

  lemma {:induction false} AscendingSame(a: seq<nat>, b: seq<nat>)
    requires Ascends(a) && Ascends(b) && forall i: nat :: i in a <==> i in b
    ensures a == b
  {
    if a == [] {
      FirstIn(b);
    } else {
      var (m, n) := (|a| - 1, |b| - 1);
      assert a[m] in b;
      var k :| 0 <= k < |b| && b[k] == a[m];
      assert b[n] in a;
      assert a[m] == b[n];
      forall i: nat ensures i in a[..m] <==> i in b[..n] {
        InitWithoutLast(a, i);
        InitWithoutLast(b, i);
      }
      AscendingSame(a[..m], b[..n]);
      InitLast(a);
      InitLast(b);
    }
  }

  lemma FirstIn(a: seq<nat>)
    ensures a == [] || a[0] in a
  {
  }

  lemma InitWithoutLast(a: seq<nat>, i: nat)
    requires Ascends(a) && a != []
    ensures i in a[..|a| - 1] <==> i in a && i != a[|a| - 1]
  {
    if i in a && i != a[|a| - 1] {
      var k :| 0 <= k < |a| && a[k] == i;
      assert a[..|a| - 1][k] == i;
    }
  }

  /** The positions of first occurrences. */
  function FirstAt<T(==)>(s: seq<T>): set<nat> {
    set i: nat | i < |s| && s[i] !in s[..i]
  }

  /** `Distinct` lists the first occurrences in order. */
  lemma {:induction false} DistinctPicks<T(!new)>(s: seq<T>)
    ensures Picks(s, FirstAt(s), Distinct(s))
  {
    if s == [] {
      assert FirstAt(s) == {};
      PicksNone(s);
    } else {
      var (init, last) := (s[..|s| - 1], s[|s| - 1]);
      DistinctPicks(init);
      DistinctMembers(init);
      FirstAtStep(s);
      hide Picks, FirstAt;
      PicksStep(s, FirstAt(s), FirstAt(init), Distinct(init), last !in init);
    }
  }

  lemma FirstAtStep<T>(s: seq<T>)
    requires s != []
    ensures var (init, last) := (s[..|s| - 1], |s| - 1);
      forall i: nat :: i in FirstAt(s) <==> i in FirstAt(init) || (i == last && s[last] !in init)
  {
    var init := s[..|s| - 1];
    forall i: nat | i < |init| ensures s[..i] == init[..i] {
    }
  }
}
