/** When a call that installed nothing leaves the pointer alone, among other processes. */
module BinaryPointer {
  import opened Prelude
  import opened BinaryIdentity
  import opened BinaryInstall
  import opened BinarySafety

  /** The step lets a pointer that does not resolve resolve: it links to an install, or fills in what is linked to. */
  predicate Heals(s: State, step: Step) {
    match step
    case PointerMove(pid) =>
      var p := ProcOf(s, pid);
      p.Repointing? && Versioned(p.id) in s.dir && s.dir[Versioned(p.id)].File?
    case Rename(pid) =>
      var p := ProcOf(s, pid);
      (p.Writing? || p.Moving?) && Pointer in s.dir && s.dir[Pointer] == Symlink(Versioned(p.id))
    case _ => false
  }

  lemma ResolvesAfterIff(s: State, step: Step)
    requires Inv(s) && Apply(s, step).Some? && Resolved(s.dir).None?
    ensures Resolved(Apply(s, step).value.dir).Some? <==> Heals(s, step)
  {
    if step.Rename? {
      assert ProcOk(s.dir, MountedPaths(s.mounts), s.clock, s.temps, ProcOf(s, step.pid));
    }
  }

  /** The pointer resolves at no point of the run. */
  ghost predicate Unresolved(s: State, steps: seq<Step>)
    requires Run(s, steps).Some?
  {
    Resolved(Run(s, steps).value.dir).None? && (steps == [] || Unresolved(s, steps[..|steps| - 1]))
  }

  /** No step of the run heals the pointer. */
  ghost predicate Quiet(s: State, steps: seq<Step>)
    requires Run(s, steps).Some?
  {
    steps == [] ||
    (Quiet(s, steps[..|steps| - 1]) && !Heals(Run(s, steps[..|steps| - 1]).value, steps[|steps| - 1]))
  }

  /** A pointer that does not resolve stays so exactly while no step heals it. */
  lemma {:induction false} UnresolvedIffQuiet(s: State, steps: seq<Step>)
    requires Inv(s) && TimelyRun(s, steps) && Run(s, steps).Some? && Resolved(s.dir).None?
    ensures Unresolved(s, steps) <==> Quiet(s, steps)
  {
    if steps != [] {
      var init := steps[..|steps| - 1];
      UnresolvedIffQuiet(s, init);
      RunKeepsInv(s, init);
      if Unresolved(s, init) {
        UnresolvedHere(s, init);
        ResolvesAfterIff(Run(s, init).value, steps[|steps| - 1]);
      }
    }
  }

  lemma UnresolvedHere(s: State, steps: seq<Step>)
    requires Run(s, steps).Some? && Unresolved(s, steps)
    ensures Resolved(Run(s, steps).value.dir).None?
  {
  }

  /** What a caller can see to with a lock: nobody moves the pointer or finishes an install. */
  predicate Locked(steps: seq<Step>) {
    forall i :: 0 <= i < |steps| ==> !steps[i].PointerMove? && !steps[i].Rename?
  }

  lemma {:induction false} LockedQuiet(s: State, steps: seq<Step>)
    requires Run(s, steps).Some? && Locked(steps)
    ensures Quiet(s, steps)
  {
    if steps != [] {
      LockedQuiet(s, steps[..|steps| - 1]);
    }
  }

  /** The process has decided to move the pointer although it installed nothing. */
  predicate DecidesIdly(s: State, pid: nat) {
    && ProcOf(s, pid).Ready? && !ProcOf(s, pid).installed
    && MovesPointer(s.dir, Versioned(ProcOf(s, pid).id), false)
  }

  lemma OtherStepsKeepPointer(s: State, step: Step)
    requires Inv(s) && Apply(s, step).Some? && !step.PointerMove? && !step.Rename?
    ensures var dir := Apply(s, step).value.dir;
      (Pointer in dir <==> Pointer in s.dir) && (Pointer in dir ==> dir[Pointer] == s.dir[Pointer])
  {
    if step.SweepRemove? {
      assert ProcOk(s.dir, MountedPaths(s.mounts), s.clock, s.temps, ProcOf(s, step.pid));
    }
  }

  lemma {:induction false} LockedKeepsPointer(s: State, steps: seq<Step>)
    requires Inv(s) && TimelyRun(s, steps) && Run(s, steps).Some? && Locked(steps)
    ensures var dir := Run(s, steps).value.dir;
      (Pointer in dir <==> Pointer in s.dir) && (Pointer in dir ==> dir[Pointer] == s.dir[Pointer])
  {
    if steps != [] {
      var init := steps[..|steps| - 1];
      LockedKeepsPointer(s, init);
      RunKeepsInv(s, init);
      OtherStepsKeepPointer(Run(s, init).value, steps[|steps| - 1]);
    }
  }

  /**
   * A call that installed nothing never moves a pointer that resolves, unless it
   * is itself a regular file, if the others are locked out between its decision
   * and its move.
   */
  lemma FoundInstallLeavesPointer(s: State, pid: nat, gap: seq<Step>)
    requires Inv(s) && DecidesIdly(s, pid)
    requires var t := Apply(s, PointerCheck(pid)).value; TimelyRun(t, gap) && Run(t, gap).Some? && Locked(gap)
    ensures Resolved(Run(Apply(s, PointerCheck(pid)).value, gap).value.dir).Some? <==> Pointer in s.dir && s.dir[Pointer].File?
  {
    var t := Apply(s, PointerCheck(pid)).value;
    StepKeepsInv(s, PointerCheck(pid));
    if Pointer in s.dir && s.dir[Pointer].File? {
      LockedKeepsPointer(t, gap);
    } else {
      UnresolvedIffQuiet(t, gap);
      LockedQuiet(t, gap);
      UnresolvedHere(t, gap);
    }
  }

  /** Without the lock: one healing step of another process, and the move takes away a pointer that resolves. */
  lemma HealedGapMoves(s: State, pid: nat, step: Step)
    requires Inv(s) && ProcOf(s, pid).Repointing? && Resolved(s.dir).None?
    requires Apply(s, step).Some? && Heals(s, step) && step.pid != pid
    ensures var t := Apply(s, step).value;
      && Resolved(t.dir).Some? && Apply(t, PointerMove(pid)).Some?
      && Apply(t, PointerMove(pid)).value.dir[Pointer] == Symlink(Versioned(ProcOf(s, pid).id))
  {
    ResolvesAfterIff(s, step);
  }

  /** The race from its beginning: the pointer is missing, dangling or a regular file when both processes look. */
  lemma PointerRace(s: State, a: nat, b: nat)
    requires a != b && DecidesIdly(s, a) && ProcOf(s, b).Ready?
    requires ProcOf(s, a).id != ProcOf(s, b).id
    requires Versioned(ProcOf(s, b).id) in s.dir && s.dir[Versioned(ProcOf(s, b).id)].File?
    ensures var t := Run(s, [PointerCheck(a), PointerCheck(b), PointerMove(b)]);
      && t.Some? && Resolved(t.value.dir) == Some(Versioned(ProcOf(s, b).id))
      && Apply(t.value, PointerMove(a)).Some?
      && Apply(t.value, PointerMove(a)).value.dir[Pointer] == Symlink(Versioned(ProcOf(s, a).id))
  {
    var (x, y) := (ProcOf(s, a), ProcOf(s, b));
    var s1 := SetProc(s, a, Repointing(x.id, false));
    var s2 := SetProc(s1, b, Repointing(y.id, y.installed));
    assert Apply(s, PointerCheck(a)) == Some(s1);
    assert Apply(s1, PointerCheck(b)) == Some(s2);
    RunThree(s, PointerCheck(a), PointerCheck(b), PointerMove(b));
    var s3 := Apply(s2, PointerMove(b)).value;
    assert ProcOf(s3, a) == Repointing(x.id, false);
  }
}
