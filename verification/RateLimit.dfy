/** The fixed-window limiter in front of link creation: whole wall-clock seconds. */
module RateLimit {

  /** The window open now, and the requests counted in it. */
  datatype Window = Window(second: int, count: int)

  const CLOSED := Window(-1, 0)

  /** `Math.floor(now / 1000)` */
  function SecondOf(now: int): int { now / 1000 }

  function Counted(w: Window, now: int): Window {
    if SecondOf(now) == w.second then Window(w.second, w.count + 1) else Window(SecondOf(now), 1)
  }

  // ---- Whole runs

  function After(times: seq<int>): Window {
    if times == [] then CLOSED else Counted(After(times[..|times| - 1]), times[|times| - 1])
  }

  /** The answer to the last request of a run. */
  predicate LastAllowed(times: seq<int>, perSecond: int) {
    After(times).count <= perSecond
  }

  /** How many requests of the run fall in `[from, to)`. */
  function Requests(times: seq<int>, from: int, to: int): nat {
    if times == [] then 0
    else
      var now := times[|times| - 1];
      Requests(times[..|times| - 1], from, to) + if from <= now < to then 1 else 0
  }

  /** How many of those are admitted. */
  function Admitted(times: seq<int>, perSecond: int, from: int, to: int): nat {
    if times == [] then 0
    else
      var now := times[|times| - 1];
      Admitted(times[..|times| - 1], perSecond, from, to) + if from <= now < to && LastAllowed(times, perSecond) then 1 else 0
  }

  predicate ClockForward(times: seq<int>) {
    forall i, j :: 0 <= i < j < |times| ==> times[i] <= times[j]
  }

  function Least(a: int, b: int): nat {
    if a <= 0 || b <= 0 then 0 else if a < b then a else b
  }

  lemma SecondMonotone(a: int, b: int)
    requires a <= b
    ensures SecondOf(a) <= SecondOf(b)
  {
  }

  lemma InSecond(now: int, second: int)
    ensures 1000 * second <= now < 1000 * second + 1000 <==> SecondOf(now) == second
  {
  }

  // ---- Each second, for any clock

  function RequestsIn(times: seq<int>, second: int): nat {
    Requests(times, 1000 * second, 1000 * second + 1000)
  }

  function AdmittedIn(times: seq<int>, perSecond: int, second: int): nat {
    Admitted(times, perSecond, 1000 * second, 1000 * second + 1000)
  }

  /** Between two requests of the second comes one of another second. */
  predicate Interrupted(times: seq<int>, second: int) {
    exists i, j, k :: 0 <= i < j < k < |times| && Returns(times, second, i, j, k)
  }

  predicate Returns(times: seq<int>, second: int, i: int, j: int, k: int)
    requires 0 <= i < j < k < |times|
  {
    SecondOf(times[i]) == second && SecondOf(times[j]) != second && SecondOf(times[k]) == second
  }

  /** The last request opened or used the window of the second. */
  predicate IsOpen(times: seq<int>, second: int) {
    times != [] && SecondOf(times[|times| - 1]) == second
  }

  /** How many requests the window of the second counts, if it is the one open. */
  function InWindow(times: seq<int>, second: int): int {
    if IsOpen(times, second) then After(times).count else 0
  }

  lemma {:induction false} WindowIsLast(times: seq<int>)
    requires times != []
    ensures After(times).second == SecondOf(times[|times| - 1]) && After(times).count >= 1
  {
    if |times| > 1 {
      WindowIsLast(times[..|times| - 1]);
    }
  }

  lemma {:induction false} SomeRequest(times: seq<int>, second: int) returns (i: nat)
    requires RequestsIn(times, second) > 0
    ensures i < |times| && SecondOf(times[i]) == second
  {
    InSecond(times[|times| - 1], second);
    if SecondOf(times[|times| - 1]) == second {
      i := |times| - 1;
    } else {
      i := SomeRequest(times[..|times| - 1], second);
    }
  }

  lemma {:induction false} RequestThere(times: seq<int>, second: int, i: nat)
    requires i < |times| && SecondOf(times[i]) == second
    ensures RequestsIn(times, second) > 0
  {
    InSecond(times[|times| - 1], second);
    if i < |times| - 1 {
      RequestThere(times[..|times| - 1], second, i);
    }
  }

  /** A run that ends in the second is interrupted if it was, or if the second comes back just now. */
  lemma InterruptedStep(times: seq<int>, second: int)
    requires times != []
    ensures var init := times[..|times| - 1];
      Interrupted(times, second) <==>
        Interrupted(init, second) || (IsOpen(times, second) && !IsOpen(init, second) && RequestsIn(init, second) > 0)
  {
    var (init, n) := (times[..|times| - 1], |times| - 1);
    if Interrupted(times, second) {
      var i, j, k :| 0 <= i < j < k < |times| && Returns(times, second, i, j, k);
      RequestThere(init, second, i);
      if k < n {
        assert Returns(init, second, i, j, k);
      } else if IsOpen(init, second) {
        assert Returns(init, second, i, j, n - 1);
      }
    }
    if Interrupted(init, second) {
      var i, j, k :| 0 <= i < j < k < |init| && Returns(init, second, i, j, k);
      assert Returns(times, second, i, j, k);
    } else if IsOpen(times, second) && !IsOpen(init, second) && RequestsIn(init, second) > 0 {
      var i := SomeRequest(init, second);
      assert Returns(times, second, i, n - 1, n);
    }
  }

  /** No more are admitted than come. */
  lemma {:induction false} AdmittedAtMost(times: seq<int>, perSecond: int, from: int, to: int)
    ensures Admitted(times, perSecond, from, to) <= Requests(times, from, to)
  {
    if times != [] {
      AdmittedAtMost(times[..|times| - 1], perSecond, from, to);
    }
  }

  /** What the requests before the open window of the second were admitted, and what those in it were. */
  ghost predicate Balanced(times: seq<int>, perSecond: int, second: int) {
    var (r, a, c) := (RequestsIn(times, second), AdmittedIn(times, perSecond, second), InWindow(times, second));
    && 0 <= c <= r
    && a >= Least(r - c, perSecond) + Least(c, perSecond)
    && (!Interrupted(times, second) ==> a == Least(r, perSecond) && (c > 0 ==> c == r))
    && (Interrupted(times, second) ==> a >= Least(r, perSecond + 1) && r > c)
  }

  lemma {:induction false} AlwaysBalanced(times: seq<int>, perSecond: int, second: int)
    requires perSecond > 0
    ensures Balanced(times, perSecond, second)
  {
    if times != [] {
      var (init, now) := (times[..|times| - 1], times[|times| - 1]);
      AlwaysBalanced(init, perSecond, second);
      InterruptedStep(times, second);
      InSecond(now, second);
      WindowIsLast(times);
      if init != [] {
        WindowIsLast(init);
      }
    }
  }

  /**
   * A second admits exactly the smaller of its requests and `perSecond`, unless
   * it is interrupted while it has more requests than that.
   */
  lemma SecondAdmitsIff(times: seq<int>, perSecond: int, second: int)
    ensures AdmittedIn(times, perSecond, second) == Least(RequestsIn(times, second), perSecond) <==>
            perSecond <= 0 || RequestsIn(times, second) <= perSecond || !Interrupted(times, second)
  {
    if perSecond > 0 {
      AlwaysBalanced(times, perSecond, second);
      AdmittedAtMost(times, perSecond, 1000 * second, 1000 * second + 1000);
    } else {
      NoneAllowed(times, perSecond, 1000 * second, 1000 * second + 1000);
    }
  }

  lemma {:induction false} NoneAllowed(times: seq<int>, perSecond: int, from: int, to: int)
    requires perSecond <= 0
    ensures Admitted(times, perSecond, from, to) == 0
  {
    if times != [] {
      NoneAllowed(times[..|times| - 1], perSecond, from, to);
      WindowIsLast(times);
    }
  }

  // ---- The limiter

  class RateLimiter {
    const perSecond: int
    var window: int
    var count: int
    /** When the requests so far came. */
    ghost var times: seq<int>

    ghost predicate Valid()
      reads this
    {
      Window(window, count) == After(times)
    }

    constructor (perSecond: int)
      ensures Valid() && this.perSecond == perSecond && times == []
    {
      this.perSecond, window, count, times := perSecond, -1, 0, [];
    }

    /** Admits a request while its second has had at most `perSecond`, this one included, and nothing came between. */
    method Allow(now: int) returns (allowed: bool)
      requires Valid()
      modifies this
      ensures Valid() && times == old(times) + [now] && allowed == LastAllowed(times, perSecond)
      ensures !Interrupted(times, SecondOf(now)) ==> (allowed <==> RequestsIn(times, SecondOf(now)) <= perSecond)
    {
      var second := SecondOf(now);
      if second != window {
        window := second;
        count := 0;
      }
      count := count + 1;
      times := times + [now];
      assert times[..|times| - 1] == old(times);
      WindowIsLast(times);
      AlwaysBalanced(times, 1, second);
      return count <= perSecond;
    }
  }

  // ---- Bounds

  /** A clock that comes back to a second lets it admit more than `perSecond`, once more than that many come. */
  lemma ClockBackAdmitsMore(times: seq<int>, perSecond: int, second: int)
    requires 0 < perSecond < RequestsIn(times, second) && Interrupted(times, second)
    ensures AdmittedIn(times, perSecond, second) > perSecond
  {
    AlwaysBalanced(times, perSecond, second);
  }

  lemma ForwardUninterrupted(times: seq<int>, second: int)
    requires ClockForward(times)
    ensures !Interrupted(times, second)
  {
    if i, j, k :| 0 <= i < j < k < |times| && Returns(times, second, i, j, k) {
      SecondMonotone(times[i], times[j]);
      SecondMonotone(times[j], times[k]);
    }
  }

  /** Each whole second admits exactly the smaller of its requests and `perSecond`, if the clock never steps back. */
  lemma SecondAdmits(times: seq<int>, perSecond: int, second: int)
    requires ClockForward(times)
    ensures AdmittedIn(times, perSecond, second) == Least(RequestsIn(times, second), perSecond)
  {
    ForwardUninterrupted(times, second);
    SecondAdmitsIff(times, perSecond, second);
  }

  lemma {:induction false} AdmittedSplits(times: seq<int>, perSecond: int, from: int, mid: int, to: int)
    requires from <= mid <= to
    ensures Admitted(times, perSecond, from, to) == Admitted(times, perSecond, from, mid) + Admitted(times, perSecond, mid, to)
  {
    if times != [] {
      AdmittedSplits(times[..|times| - 1], perSecond, from, mid, to);
    }
  }

  /** Any 1000 ms admit at most twice `perSecond`. */
  lemma AnySecondAdmits(times: seq<int>, perSecond: int, from: int)
    requires ClockForward(times)
    ensures Admitted(times, perSecond, from, from + 1000) <= 2 * Least(perSecond, perSecond)
  {
    var second := SecondOf(from);
    var (start, mid, end) := (1000 * second, 1000 * second + 1000, 1000 * second + 2000);
    InSecond(from, second);
    AdmittedSplits(times, perSecond, start, mid, end);
    AdmittedSplits(times, perSecond, start, from, end);
    AdmittedSplits(times, perSecond, from, from + 1000, end);
    SecondAdmits(times, perSecond, second);
    SecondAdmits(times, perSecond, second + 1);
  }

  /** The bound is reached: as many at the end of one second as at the start of the next. */
  lemma TwiceIsReached(perSecond: nat, times: seq<int>)
    requires times == seq(perSecond, i => 999) + seq(perSecond, i => 1000)
    ensures Admitted(times, perSecond, 999, 1999) == 2 * perSecond
  {
    assert ClockForward(times);
    SecondAdmits(times, perSecond, 0);
    SecondAdmits(times, perSecond, 1);
    var (a, b) := (seq(perSecond, i => 999), seq(perSecond, i => 1000));
    AdmittedSplits(times, perSecond, 0, 999, 2000);
    AdmittedSplits(times, perSecond, 0, 1000, 2000);
    AdmittedSplits(times, perSecond, 999, 1999, 2000);
    RequestsAppend(a, b, 0, 1000);
    RequestsAppend(a, b, 1000, 2000);
    AllRequests(a, 0, 1000);
    AllRequests(b, 1000, 2000);
    NoRequests(a, 1000, 2000);
    NoRequests(b, 0, 1000);
    NoneAdmitted(times, perSecond, 0, 999);
    NoneAdmitted(times, perSecond, 1999, 2000);
  }

  lemma {:induction false} RequestsAppend(a: seq<int>, b: seq<int>, from: int, to: int)
    ensures Requests(a + b, from, to) == Requests(a, from, to) + Requests(b, from, to)
  {
    if b == [] {
      assert a + b == a;
    } else {
      assert (a + b)[..|a + b| - 1] == a + b[..|b| - 1];
      RequestsAppend(a, b[..|b| - 1], from, to);
    }
  }

  lemma {:induction false} AllRequests(times: seq<int>, from: int, to: int)
    requires forall i :: 0 <= i < |times| ==> from <= times[i] < to
    ensures Requests(times, from, to) == |times|
  {
    if times != [] {
      AllRequests(times[..|times| - 1], from, to);
    }
  }

  lemma {:induction false} NoRequests(times: seq<int>, from: int, to: int)
    requires forall i :: 0 <= i < |times| ==> !(from <= times[i] < to)
    ensures Requests(times, from, to) == 0
  {
    if times != [] {
      NoRequests(times[..|times| - 1], from, to);
    }
  }

  lemma {:induction false} NoneAdmitted(times: seq<int>, perSecond: int, from: int, to: int)
    requires forall i :: 0 <= i < |times| ==> !(from <= times[i] < to)
    ensures Admitted(times, perSecond, from, to) == 0
  {
    if times != [] {
      NoneAdmitted(times[..|times| - 1], perSecond, from, to);
    }
  }

  /** So with one request a second, a request a second later lets the first second admit two. */
  lemma ReopenedSecond()
    ensures AdmittedIn([0, 1000, 0], 1, 0) == 2
  {
    var times := [0, 1000, 0];
    assert Returns(times, 0, 0, 1, 2);
    assert times[..2] == [0, 1000] && [0, 1000][..1] == [0] && [0][..0] == [];
    assert Requests([0], 0, 1000) == 1 && Requests([0, 1000], 0, 1000) == 1 && RequestsIn(times, 0) == 2;
    ClockBackAdmitsMore(times, 1, 0);
    AdmittedAtMost(times, 1, 0, 1000);
  }
}
