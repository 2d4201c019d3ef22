/** No interleaving of the install protocol changes a file a running container mounts. */
module BinarySafety {
  import opened Prelude
  import opened BinaryIdentity
  import opened BinaryInstall

  /** A file that may be mounted under the id `id`: it verified, or holds the bytes of that id. */
  ghost predicate Trusted(id: Bytes, bytes: Bytes) {
    VerifyBytes(bytes).Accepted? || bytes == id
  }

  /** An install path a rename may land on: absent, not verifying, or already right. */
  ghost predicate Open(dir: Dir, id: Bytes) {
    Versioned(id) in dir ==>
      dir[Versioned(id)].File? && (VerifyBytes(dir[Versioned(id)].bytes).Accepted? ==> dir[Versioned(id)].bytes == id)
  }

  ghost predicate Usable(dir: Dir, id: Bytes) {
    Versioned(id) in dir ==> dir[Versioned(id)].File? && Trusted(id, dir[Versioned(id)].bytes)
  }

  ghost predicate LegacyIs(dir: Dir, id: Bytes) {
    Legacy in dir ==> dir[Legacy].File? && dir[Legacy].bytes == id
  }

  ghost predicate Holds(dir: Dir, temp: nat, bytes: Bytes) {
    Temp(temp) in dir && dir[Temp(temp)].File? && dir[Temp(temp)].bytes == bytes
  }

  ghost predicate SweepOk(dir: Dir, paths: set<Path>, clock: int, q: Sweep) {
    && q.now <= clock
    && (q.target.Some? ==>
          && (q.target.value.Versioned? || q.target.value.Legacy?)
          && q.target.value !in q.keep + q.referenced)
    && forall p :: p in paths ==> Spares(q, dir, p)
  }

  /** What one process relies on, while the others run. */
  ghost predicate ProcOk(dir: Dir, paths: set<Path>, clock: int, temps: nat, p: Proc) {
    && (TempOf(p).Some? ==> TempOf(p).value < temps)
    && match p
       case Idle => true
       case Writing(id, bytes, t, w) =>
         bytes == id && Open(dir, id) && w <= |bytes| && (Temp(t) in dir ==> Holds(dir, t, bytes[..w]))
       case Compiled(bytes, t) => Holds(dir, t, bytes)
       case Moving(id, t) => Open(dir, id) && Holds(dir, t, id)
       case LegacySeen(id) => LegacyIs(dir, id)
       case LegacyCopying(id) => LegacyIs(dir, id) && Open(dir, id)
       case Ready(id, _) => Usable(dir, id)
       case Repointing(id, _) => Usable(dir, id)
       case Sweeping(q) => SweepOk(dir, paths, clock, q)
  }

  ghost predicate MountOk(dir: Dir, m: Mount) {
    && (m.path.Legacy? || (m.path.Versioned? && Trusted(m.path.id, m.bytes)))
    && m.path in dir && dir[m.path].File? && dir[m.path].bytes == m.bytes
  }

  /** Install paths hold regular files, `lazy-agent-current` links to one, and temp names are not reused. */
  ghost predicate DirOk(dir: Dir, temps: nat) {
    && (forall n: nat {:trigger Temp(n)} :: Temp(n) in dir ==> n < temps)
    && (forall id {:trigger Versioned(id)} :: Versioned(id) in dir ==> dir[Versioned(id)].File?)
    && (Pointer in dir && dir[Pointer].Symlink? ==> dir[Pointer].target.Versioned?)
  }

  ghost predicate ProcsOk(s: State) {
    forall pid {:trigger ProcOf(s, pid)} ::
      ProcOk(s.dir, MountedPaths(s.mounts), s.clock, s.temps, ProcOf(s, pid))
  }

  ghost predicate TempsDistinct(s: State) {
    forall a, b {:trigger ProcOf(s, a), ProcOf(s, b)} ::
      a != b && TempOf(ProcOf(s, a)).Some? ==> TempOf(ProcOf(s, a)) != TempOf(ProcOf(s, b))
  }

  ghost predicate MountsOk(dir: Dir, mounts: map<nat, Mount>) {
    forall c {:trigger mounts[c]} :: c in mounts ==> MountOk(dir, mounts[c])
  }

  ghost predicate Inv(s: State) {
    DirOk(s.dir, s.temps) && ProcsOk(s) && TempsDistinct(s) && MountsOk(s.dir, s.mounts)
  }

  // ---- What a process relies on survives the steps of the others

  lemma KeptOnTemp(dir: Dir, dir': Dir, t: nat, paths: set<Path>, clock: int, temps: nat, temps': nat, p: Proc)
    requires ProcOk(dir, paths, clock, temps, p) && temps <= temps'
    requires TempOf(p) != Some(t) && Temp(t) !in paths
    requires dir' - {Temp(t)} == dir - {Temp(t)}
    ensures ProcOk(dir', paths, clock, temps', p)
  {
    SameElsewhere(dir, dir', Temp(t));
  }

  lemma SameElsewhere(dir: Dir, dir': Dir, p: Path)
    requires dir' - {p} == dir - {p}
    ensures forall q :: q != p ==> (q in dir' <==> q in dir) && (q in dir ==> dir'[q] == dir[q])
  {
    forall q | q != p ensures (q in dir' <==> q in dir) && (q in dir ==> dir'[q] == dir[q]) {
      assert q in dir' <==> q in dir' - {p};
      assert q in dir <==> q in dir - {p};
      if q in dir && q in dir' {
        assert (dir' - {p})[q] == dir'[q] && (dir - {p})[q] == dir[q];
      }
    }
  }

  lemma KeptOnPointer(dir: Dir, n: Node, paths: set<Path>, clock: int, temps: nat, p: Proc)
    requires ProcOk(dir, paths, clock, temps, p) && forall q :: q in paths ==> q != Pointer
    ensures ProcOk(dir[Pointer := n], paths, clock, temps, p)
  {
  }

  /** An install landing on an open path, spared by the collections under way if the path is mounted. */
  lemma KeptOnInstall(dir: Dir, dir': Dir, id: Bytes, paths: set<Path>, clock: int, temps: nat, p: Proc)
    requires ProcOk(dir, paths, clock, temps, p)
    requires Versioned(id) in dir' && dir'[Versioned(id)].File? && dir'[Versioned(id)].bytes == id
    requires p.Sweeping? && Versioned(id) in paths ==> SparesAs(p.sweep, dir', Versioned(id), Versioned(id))
    requires dir' - {Versioned(id)} == dir - {Versioned(id)}
    ensures ProcOk(dir', paths, clock, temps, p)
  {
    SameElsewhere(dir, dir', Versioned(id));
  }

  lemma KeptOnRemove(dir: Dir, gone: Path, paths: set<Path>, clock: int, temps: nat, p: Proc)
    requires ProcOk(dir, paths, clock, temps, p)
    requires gone !in paths && !gone.Temp?
    ensures ProcOk(dir - {gone}, paths, clock, temps, p)
  {
    SameElsewhere(dir, dir - {gone}, gone);
  }

  lemma KeptLater(dir: Dir, paths: set<Path>, clock: int, clock': int, temps: nat, temps': nat, p: Proc)
    requires ProcOk(dir, paths, clock, temps, p) && clock <= clock' && temps <= temps'
    ensures ProcOk(dir, paths, clock', temps', p)
  {
  }

  // ---- Each step keeps the invariant

  /** Only `pid` moved, and the others still have what they rely on. */
  lemma Assemble(s: State, s': State, pid: nat)
    requires Inv(s) && DirOk(s'.dir, s'.temps) && MountsOk(s'.dir, s'.mounts)
    requires forall r {:trigger ProcOf(s, r)} {:trigger ProcOf(s', r)} :: r != pid ==> ProcOf(s', r) == ProcOf(s, r)
    requires ProcOk(s'.dir, MountedPaths(s'.mounts), s'.clock, s'.temps, ProcOf(s', pid))
    requires forall r {:trigger ProcOf(s, r)} :: r != pid ==>
      ProcOk(s'.dir, MountedPaths(s'.mounts), s'.clock, s'.temps, ProcOf(s, r))
    requires TempOf(ProcOf(s', pid)).Some? ==>
      TempOf(ProcOf(s', pid)) == TempOf(ProcOf(s, pid)) || TempOf(ProcOf(s', pid)).value >= s.temps
    ensures Inv(s')
  {
    forall a, b | a != b && TempOf(ProcOf(s', a)).Some? ensures TempOf(ProcOf(s', a)) != TempOf(ProcOf(s', b)) {
      assert ProcOk(s.dir, MountedPaths(s.mounts), s.clock, s.temps, ProcOf(s, a));
      assert ProcOk(s.dir, MountedPaths(s.mounts), s.clock, s.temps, ProcOf(s, b));
    }
  }

  lemma MountKinds(s: State)
    requires Inv(s)
    ensures forall p :: p in MountedPaths(s.mounts) ==> p.Versioned? || p.Legacy?
  {
    forall c | c in s.mounts ensures s.mounts[c].path.Versioned? || s.mounts[c].path.Legacy? {
      assert MountOk(s.dir, s.mounts[c]);
    }
  }

  /** A process moves on without touching the directory. */
  lemma LocalStep(s: State, pid: nat, p: Proc, temps: nat)
    requires Inv(s) && temps >= s.temps
    requires ProcOk(s.dir, MountedPaths(s.mounts), s.clock, temps, p)
    requires TempOf(p).Some? ==> TempOf(p) == TempOf(ProcOf(s, pid)) || TempOf(p).value >= s.temps
    ensures Inv(SetProc(s, pid, p).(temps := temps))
  {
    var s' := SetProc(s, pid, p).(temps := temps);
    forall r | r != pid ensures ProcOk(s'.dir, MountedPaths(s'.mounts), s'.clock, s'.temps, ProcOf(s, r)) {
      KeptLater(s.dir, MountedPaths(s.mounts), s.clock, s.clock, s.temps, temps, ProcOf(s, r));
    }
    Assemble(s, s', pid);
  }

  /** A process writes or drops a temp file that only it can own. */
  lemma TempStep(s: State, pid: nat, p: Proc, t: nat, dir: Dir, temps: nat)
    requires Inv(s) && temps >= s.temps
    requires TempOf(ProcOf(s, pid)) == Some(t) || t >= s.temps
    requires t < temps
    requires dir - {Temp(t)} == s.dir - {Temp(t)}
    requires TempOf(p).Some? ==> TempOf(p) == Some(t)
    requires ProcOk(dir, MountedPaths(s.mounts), s.clock, temps, p)
    ensures Inv(SetProc(s, pid, p).(dir := dir, temps := temps))
  {
    var s' := SetProc(s, pid, p).(dir := dir, temps := temps);
    SameElsewhere(s.dir, dir, Temp(t));
    MountKinds(s);
    forall r | r != pid ensures ProcOk(dir, MountedPaths(s.mounts), s.clock, temps, ProcOf(s, r)) {
      assert ProcOf(s, pid) == ProcOf(s, pid);
      KeptOnTemp(s.dir, dir, t, MountedPaths(s.mounts), s.clock, s.temps, temps, ProcOf(s, r));
    }
    forall c | c in s.mounts ensures MountOk(dir, s.mounts[c]) {
      assert MountOk(s.dir, s.mounts[c]);
    }
    Assemble(s, s', pid);
  }

  /** The rename of a finished temp file onto its install path. */
  lemma InstallStep(s: State, pid: nat, id: Bytes, t: nat)
    requires Inv(s) && TempOf(ProcOf(s, pid)) == Some(t) && Holds(s.dir, t, id) && Open(s.dir, id)
    requires forall r {:trigger ProcOf(s, r)} :: ProcOf(s, r).Sweeping? && Versioned(id) in MountedPaths(s.mounts) ==>
      SparesAs(ProcOf(s, r).sweep, s.dir, Temp(t), Versioned(id))
    ensures Inv(SetProc(s, pid, Ready(id, true)).(dir := Renamed(s.dir, t, Versioned(id))))
  {
    var (mid, dir) := (s.dir - {Temp(t)}, Renamed(s.dir, t, Versioned(id)));
    var paths := MountedPaths(s.mounts);
    SameElsewhere(s.dir, mid, Temp(t));
    MountKinds(s);
    assert dir - {Versioned(id)} == mid - {Versioned(id)};
    forall r | r != pid ensures ProcOk(dir, paths, s.clock, s.temps, ProcOf(s, r)) {
      assert ProcOf(s, pid) == ProcOf(s, pid);
      KeptOnTemp(s.dir, mid, t, paths, s.clock, s.temps, s.temps, ProcOf(s, r));
      KeptOnInstall(mid, dir, id, paths, s.clock, s.temps, ProcOf(s, r));
    }
    forall c | c in s.mounts ensures MountOk(dir, s.mounts[c]) {
      assert MountOk(s.dir, s.mounts[c]);
    }
    Assemble(s, SetProc(s, pid, Ready(id, true)).(dir := dir), pid);
  }

  /** The removal of a file that no container mounts. */
  lemma RemoveStep(s: State, pid: nat, gone: Path, p: Proc)
    requires Inv(s) && gone !in MountedPaths(s.mounts) && (gone.Versioned? || gone.Legacy?)
    requires TempOf(p).None? && ProcOk(s.dir, MountedPaths(s.mounts), s.clock, s.temps, p)
    ensures Inv(SetProc(s, pid, p).(dir := s.dir - {gone}))
  {
    var dir := s.dir - {gone};
    SameElsewhere(s.dir, dir, gone);
    forall r | r != pid ensures ProcOk(dir, MountedPaths(s.mounts), s.clock, s.temps, ProcOf(s, r)) {
      KeptOnRemove(s.dir, gone, MountedPaths(s.mounts), s.clock, s.temps, ProcOf(s, r));
    }
    KeptOnRemove(s.dir, gone, MountedPaths(s.mounts), s.clock, s.temps, p);
    forall c | c in s.mounts ensures MountOk(dir, s.mounts[c]) {
      assert MountOk(s.dir, s.mounts[c]) && s.mounts[c].path in MountedPaths(s.mounts);
    }
    Assemble(s, SetProc(s, pid, p).(dir := dir), pid);
  }

  lemma PointerStep(s: State, pid: nat, id: Bytes, p: Proc)
    requires Inv(s) && TempOf(p).None? && ProcOk(s.dir, MountedPaths(s.mounts), s.clock, s.temps, p)
    ensures Inv(SetProc(s, pid, p).(dir := s.dir[Pointer := Symlink(Versioned(id))]))
  {
    var dir := s.dir[Pointer := Symlink(Versioned(id))];
    MountKinds(s);
    forall r | r != pid ensures ProcOk(dir, MountedPaths(s.mounts), s.clock, s.temps, ProcOf(s, r)) {
      KeptOnPointer(s.dir, Symlink(Versioned(id)), MountedPaths(s.mounts), s.clock, s.temps, ProcOf(s, r));
    }
    KeptOnPointer(s.dir, Symlink(Versioned(id)), MountedPaths(s.mounts), s.clock, s.temps, p);
    forall c | c in s.mounts ensures MountOk(dir, s.mounts[c]) {
      assert MountOk(s.dir, s.mounts[c]);
    }
    Assemble(s, SetProc(s, pid, p).(dir := dir), pid);
  }

  /** A container starts on a file that every collection under way spares, or stops. */
  lemma MountStep(s: State, mounts: map<nat, Mount>)
    requires Inv(s) && MountsOk(s.dir, mounts)
    requires forall r :: r in s.procs && s.procs[r].Sweeping? ==>
      forall p :: p in MountedPaths(mounts) ==> p in MountedPaths(s.mounts) || Spares(s.procs[r].sweep, s.dir, p)
    ensures Inv(s.(mounts := mounts))
  {
    var s' := s.(mounts := mounts);
    forall r ensures ProcOk(s.dir, MountedPaths(mounts), s.clock, s.temps, ProcOf(s, r)) {
      assert ProcOk(s.dir, MountedPaths(s.mounts), s.clock, s.temps, ProcOf(s, r));
    }
    assert forall r :: ProcOf(s', r) == ProcOf(s, r);
    Assemble(s, s', 0);
  }

  lemma LaunchStep(s: State, pid: nat, c: nat)
    requires Inv(s) && Timely(s, Launch(pid, c)) && Apply(s, Launch(pid, c)).Some?
    ensures Inv(Apply(s, Launch(pid, c)).value)
  {
    var id := ProcOf(s, pid).id;
    var m := Mount(Versioned(id), s.dir[Versioned(id)].bytes);
    var mounts := s.mounts[c := m];
    assert ProcOk(s.dir, MountedPaths(s.mounts), s.clock, s.temps, ProcOf(s, pid));
    forall d | d in mounts ensures MountOk(s.dir, mounts[d]) {
      assert d != c ==> mounts[d] == s.mounts[d] && MountOk(s.dir, s.mounts[d]);
    }
    assert MountedPaths(mounts) == MountedPaths(s.mounts) + {Versioned(id)} by {
      assert mounts[c].path == Versioned(id);
      assert forall d :: d in s.mounts ==> d in mounts && mounts[d] == s.mounts[d];
    }
    MountStep(s, mounts);
  }

  lemma StopStep(s: State, c: nat)
    requires Inv(s)
    ensures Inv(s.(mounts := s.mounts - {c}))
  {
    var mounts := s.mounts - {c};
    forall d | d in mounts ensures MountOk(s.dir, mounts[d]) {
      assert mounts[d] == s.mounts[d] && MountOk(s.dir, s.mounts[d]);
    }
    assert MountedPaths(mounts) <= MountedPaths(s.mounts) by {
      assert forall d :: d in mounts ==> d in s.mounts && s.mounts[d] == mounts[d];
    }
    MountStep(s, mounts);
  }

  lemma TickStep(s: State, ms: nat)
    requires Inv(s)
    ensures Inv(s.(clock := s.clock + ms))
  {
    var s' := s.(clock := s.clock + ms);
    forall r ensures ProcOk(s.dir, MountedPaths(s.mounts), s'.clock, s.temps, ProcOf(s, r)) {
      KeptLater(s.dir, MountedPaths(s.mounts), s.clock, s'.clock, s.temps, s.temps, ProcOf(s, r));
    }
    assert forall r :: ProcOf(s', r) == ProcOf(s, r);
    Assemble(s, s', 0);
  }

  /** A file at an install path that verifies is never rewritten, only removed. */
  ghost predicate InstallsUnwritten(before: Dir, now: Dir) {
    forall id {:trigger Versioned(id)} :: Verified(before, Versioned(id)) && Versioned(id) in now ==>
      now[Versioned(id)].File? && now[Versioned(id)].bytes == before[Versioned(id)].bytes
  }

  lemma WriteStep(s: State, pid: nat, upTo: nat)
    requires Inv(s) && Apply(s, Write(pid, upTo)).Some?
    ensures Inv(Apply(s, Write(pid, upTo)).value)
  {
    var p := ProcOf(s, pid);
    var dir := s.dir[Temp(p.temp) := File(p.bytes[..upTo], s.clock)];
    assert ProcOk(s.dir, MountedPaths(s.mounts), s.clock, s.temps, p);
    TempStep(s, pid, p.(written := upTo), p.temp, dir, s.temps);
  }

  lemma RenameStep(s: State, pid: nat)
    requires Inv(s) && Timely(s, Rename(pid)) && Apply(s, Rename(pid)).Some?
    ensures Inv(Apply(s, Rename(pid)).value)
    ensures InstallsUnwritten(s.dir, Apply(s, Rename(pid)).value.dir)
  {
    var p := ProcOf(s, pid);
    assert ProcOk(s.dir, MountedPaths(s.mounts), s.clock, s.temps, p);
    assert p.Writing? ==> p.bytes[..|p.bytes|] == p.bytes;
    InstallStep(s, pid, p.id, p.temp);
  }

  lemma CompileStep(s: State, pid: nat, bytes: Bytes)
    requires Inv(s) && Apply(s, Compile(pid, bytes)).Some?
    ensures Inv(Apply(s, Compile(pid, bytes)).value)
  {
    TempStep(s, pid, Compiled(bytes, s.temps), s.temps, s.dir[Temp(s.temps) := File(bytes, s.clock)], s.temps + 1);
  }

  lemma AdoptStep(s: State, pid: nat)
    requires Inv(s) && Apply(s, Adopt(pid)).Some?
    ensures Inv(Apply(s, Adopt(pid)).value)
  {
    var p := ProcOf(s, pid);
    assert ProcOk(s.dir, MountedPaths(s.mounts), s.clock, s.temps, p);
    if Verified(s.dir, Versioned(p.bytes)) {
      TempStep(s, pid, Ready(p.bytes, false), p.temp, s.dir - {Temp(p.temp)}, s.temps);
    } else {
      assert Versioned(p.bytes) in s.dir ==> s.dir[Versioned(p.bytes)].File?;
      LocalStep(s, pid, Moving(p.bytes, p.temp), s.temps);
    }
  }

  /** The steps that only read the directory. */
  predicate OnlyReads(step: Step) {
    step.Install? || step.LegacyLook? || step.LegacyCheck? || step.LegacyRead? || step.UsePointer? || step.PointerCheck?
  }

  lemma ReadStep(s: State, step: Step)
    requires Inv(s) && OnlyReads(step) && Apply(s, step).Some?
    ensures Inv(Apply(s, step).value)
  {
    var (pid, s') := (step.pid, Apply(s, step).value);
    assert ProcOk(s.dir, MountedPaths(s.mounts), s.clock, s.temps, ProcOf(s, pid));
    assert forall id :: Versioned(id) in s.dir ==> s.dir[Versioned(id)].File?;
    assert Temp(s.temps) !in s.dir;
    if s' != s {
      LocalStep(s, pid, ProcOf(s', pid), s'.temps);
    }
  }

  lemma SweepStep(s: State, step: Step)
    requires Inv(s) && Timely(s, step) && Apply(s, step).Some?
    requires step.SweepStart? || step.SweepStat? || step.SweepRemove? || step.SweepEnd?
    ensures Inv(Apply(s, step).value)
  {
    var (pid, s') := (step.pid, Apply(s, step).value);
    assert ProcOk(s.dir, MountedPaths(s.mounts), s.clock, s.temps, ProcOf(s, pid));
    if step.SweepRemove? {
      var gone := ProcOf(s, pid).sweep.target.value;
      assert gone !in MountedPaths(s.mounts);
      RemoveStep(s, pid, gone, ProcOf(s', pid));
    } else {
      LocalStep(s, pid, ProcOf(s', pid), s.temps);
    }
  }

  lemma StepKeepsInv(s: State, step: Step)
    requires Inv(s) && Timely(s, step) && Apply(s, step).Some?
    ensures Inv(Apply(s, step).value)
  {
    match step
    case Tick(ms) => TickStep(s, ms);
    case Write(pid, upTo) => WriteStep(s, pid, upTo);
    case Rename(pid) => RenameStep(s, pid);
    case Compile(pid, bytes) => CompileStep(s, pid, bytes);
    case Adopt(pid) => AdoptStep(s, pid);
    case PointerMove(pid) =>
      var p := ProcOf(s, pid);
      assert ProcOk(s.dir, MountedPaths(s.mounts), s.clock, s.temps, p);
      PointerStep(s, pid, p.id, Ready(p.id, p.installed));
    case Launch(pid, c) => LaunchStep(s, pid, c);
    case Stop(c) => StopStep(s, c);
    case Crash(pid) => LocalStep(s, pid, Idle, s.temps);
    case _ =>
      if OnlyReads(step) {
        ReadStep(s, step);
      } else {
        SweepStep(s, step);
      }
  }

  /** No step writes the legacy file or a verified install. */
  lemma StepWritesNothing(s: State, step: Step)
    requires Inv(s) && Timely(s, step) && Apply(s, step).Some?
    ensures LegacyUnwritten(s.dir, Apply(s, step).value.dir)
    ensures InstallsUnwritten(s.dir, Apply(s, step).value.dir)
  {
    if step.Rename? {
      RenameStep(s, step.pid);
    }
  }

  // ---- Whole runs

  /** Nothing under way; containers mount the legacy file or a trusted install. */
  ghost predicate Start(s: State) {
    s.procs == map[] && DirOk(s.dir, s.temps) && MountsOk(s.dir, s.mounts)
  }

  lemma StartInv(s: State)
    requires Start(s)
    ensures Inv(s)
  {
    assert forall pid :: ProcOf(s, pid) == Idle;
  }

  lemma {:induction false} RunKeepsInv(s: State, steps: seq<Step>)
    requires Inv(s) && TimelyRun(s, steps) && Run(s, steps).Some?
    ensures Inv(Run(s, steps).value)
    ensures LegacyUnwritten(s.dir, Run(s, steps).value.dir)
  {
    if steps != [] {
      var (init, last) := (steps[..|steps| - 1], steps[|steps| - 1]);
      RunKeepsInv(s, init);
      StepKeepsInv(Run(s, init).value, last);
      StepWritesNothing(Run(s, init).value, last);
    }
  }

  /**
   * In every interleaving, a running container keeps finding at its mounted
   * path the bytes it was launched with, and the legacy path is never written.
   */
  lemma MountedFilesNeverChange(s: State, steps: seq<Step>)
    requires Start(s) && TimelyRun(s, steps) && Run(s, steps).Some?
    ensures MountsIntact(Run(s, steps).value)
    ensures LegacyUnwritten(s.dir, Run(s, steps).value.dir)
  {
    StartInv(s);
    RunKeepsInv(s, steps);
    InvIntact(Run(s, steps).value);
  }

  // ---- What is relied on cannot be relaxed

  /** Whatever the processes do next, as long as each step is timely, no mounted file changes. */
  ghost predicate Safe(s: State) {
    forall steps {:trigger Run(s, steps)} :: TimelyRun(s, steps) && Run(s, steps).Some? ==> MountsIntact(Run(s, steps).value)
  }

  lemma InvIntact(s: State)
    requires Inv(s)
    ensures MountsIntact(s)
  {
    forall c | c in s.mounts
      ensures var m := s.mounts[c]; m.path in s.dir && s.dir[m.path].File? && s.dir[m.path].bytes == m.bytes
    {
      assert MountOk(s.dir, s.mounts[c]);
    }
  }

  lemma InvSafe(s: State)
    requires Inv(s)
    ensures Safe(s)
  {
    forall steps | TimelyRun(s, steps) && Run(s, steps).Some? ensures MountsIntact(Run(s, steps).value) {
      RunKeepsInv(s, steps);
      InvIntact(Run(s, steps).value);
    }
  }

  lemma SafeOnward(s: State, step: Step)
    requires Safe(s) && Timely(s, step) && Apply(s, step).Some?
    ensures MountsIntact(Apply(s, step).value)
  {
    var steps := [step];
    assert steps[..0] == [];
    assert Run(s, steps[..0]) == Some(s) && TimelyRun(s, steps[..0]);
    assert Run(s, steps) == Apply(s, step);
    assert TimelyRun(s, steps);
  }

  /** Putting one timely step in front. */
  lemma {:induction false} RunAfter(s: State, step: Step, steps: seq<Step>)
    requires Timely(s, step) && Apply(s, step).Some?
    ensures Run(s, [step] + steps) == Run(Apply(s, step).value, steps)
    ensures TimelyRun(s, [step] + steps) == TimelyRun(Apply(s, step).value, steps)
  {
    var all := [step] + steps;
    if steps == [] {
      assert all == [step] && all[..0] == [];
      assert TimelyRun(s, all[..0]) && Run(s, all[..0]) == Some(s);
    } else {
      assert all[..|all| - 1] == [step] + steps[..|steps| - 1];
      RunAfter(s, step, steps[..|steps| - 1]);
    }
  }

  lemma SafeStep(s: State, step: Step)
    requires Safe(s) && Timely(s, step) && Apply(s, step).Some?
    ensures Safe(Apply(s, step).value)
  {
    var t := Apply(s, step).value;
    forall steps | TimelyRun(t, steps) && Run(t, steps).Some? ensures MountsIntact(Run(t, steps).value) {
      RunAfter(s, step, steps);
      assert Run(s, [step] + steps).Some?;
    }
  }

  /** The removal a collection has decided on takes the file away, whoever mounts it. */
  lemma TargetIsLost(s: State, sweeper: nat, c: nat)
    requires ProcOf(s, sweeper).Sweeping? && c in s.mounts
    requires ProcOf(s, sweeper).sweep.target == Some(s.mounts[c].path)
    ensures !Safe(s)
  {
    if Safe(s) {
      SafeOnward(s, SweepRemove(sweeper));
    }
  }

  lemma CollectableIsLost(s: State, sweeper: nat, c: nat)
    requires ProcOf(s, sweeper).Sweeping? && ProcOf(s, sweeper).sweep.target.None? && c in s.mounts
    requires Collectable(ProcOf(s, sweeper).sweep, s.dir, s.mounts[c].path)
    ensures !Safe(s)
  {
    var path := s.mounts[c].path;
    var step := SweepStat(sweeper, path);
    assert Apply(s, step).Some?;
    TargetIsLost(Apply(s, step).value, sweeper, c);
    if Safe(s) {
      SafeStep(s, step);
    }
  }

  /**
   * A mounted file that some collection does not spare can be lost by steps of
   * that collection alone, whether it has chosen no file, this one or another.
   */
  lemma UnsparedIsLost(s: State, sweeper: nat, c: nat)
    requires ProcOf(s, sweeper).Sweeping? && c in s.mounts
    requires var path := s.mounts[c].path; (path.Versioned? || path.Legacy?) && path in s.dir && s.dir[path].File?
    requires !Spares(ProcOf(s, sweeper).sweep, s.dir, s.mounts[c].path)
    ensures !Safe(s)
  {
    var (q, path) := (ProcOf(s, sweeper).sweep, s.mounts[c].path);
    if q.target == Some(path) {
      TargetIsLost(s, sweeper, c);
    } else if q.target.None? {
      CollectableIsLost(s, sweeper, c);
    } else {
      var t := Apply(s, SweepRemove(sweeper)).value;
      assert Collectable(ProcOf(t, sweeper).sweep, t.dir, path);
      CollectableIsLost(t, sweeper, c);
      if Safe(s) {
        SafeStep(s, SweepRemove(sweeper));
      }
    }
  }

  lemma UntimelySweepIsLost(s: State, step: Step)
    requires Inv(s) && step.SweepStart? && Apply(s, step).Some? && !Timely(s, step)
    ensures !Safe(Apply(s, step).value)
  {
    var q := Sweep(step.keep, step.referenced, s.clock, None);
    var p :| p in MountedPaths(s.mounts) && !Spares(q, s.dir, p);
    var c :| c in s.mounts && s.mounts[c].path == p;
    assert MountOk(s.dir, s.mounts[c]);
    UnsparedIsLost(Apply(s, step).value, step.pid, c);
  }

  /** A launch on a file that some collection under way does not spare. */
  lemma UnsparedLaunchIsLost(s: State, pid: nat, c: nat)
    requires Apply(s, Launch(pid, c)).Some? && !Timely(s, Launch(pid, c))
    ensures !Safe(Apply(s, Launch(pid, c)).value)
  {
    var path := Versioned(ProcOf(s, pid).id);
    var r :| r in s.procs && s.procs[r].Sweeping? && !Spares(s.procs[r].sweep, s.dir, path);
    var t := Apply(s, Launch(pid, c)).value;
    assert ProcOf(t, r) == s.procs[r];
    UnsparedIsLost(t, r, c);
  }

  /** A rename over a mounted file, of a temp file that some collection under way finds old enough. */
  lemma StaleRenameIsLost(s: State, pid: nat)
    requires Inv(s) && Apply(s, BinaryInstall.Rename(pid)).Some? && !Timely(s, BinaryInstall.Rename(pid))
    ensures !Safe(Apply(s, BinaryInstall.Rename(pid)).value)
  {
    var p := ProcOf(s, pid);
    assert ProcOk(s.dir, MountedPaths(s.mounts), s.clock, s.temps, p);
    var path := Versioned(p.id);
    var r :| r in s.procs && s.procs[r].Sweeping? && path in MountedPaths(s.mounts) &&
      !SparesAs(s.procs[r].sweep, s.dir, Temp(p.temp), path);
    var c :| c in s.mounts && s.mounts[c].path == path;
    var t := Apply(s, BinaryInstall.Rename(pid)).value;
    assert ProcOf(t, r) == s.procs[r] && t.dir[path] == s.dir[Temp(p.temp)];
    UnsparedIsLost(t, r, c);
  }

  /** Such a launch happens: between a collection's look at an old install and its removal, by a process that found it. */
  lemma LostFromStart(s: State, bytes: Bytes, keep: set<Path>)
    requires Start(s) && s.mounts == map[] && Verified(s.dir, Versioned(bytes)) && Versioned(bytes) !in keep
    requires s.clock - s.dir[Versioned(bytes)].mtime >= GC_GRACE_MS
    ensures var path := Versioned(bytes);
      var r := Run(s, [SweepStart(0, keep, {}), SweepStat(0, path), Install(1, bytes)] + [Launch(1, 0), SweepRemove(0)]);
      r.Some? && !MountsIntact(r.value)
  {
    var (path, q) := (Versioned(bytes), Sweep(keep, {}, s.clock, None));
    var s1 := SetProc(s, 0, Sweeping(q));
    var s2 := SetProc(s1, 0, Sweeping(q.(target := Some(path))));
    var s3 := SetProc(s2, 1, Ready(bytes, false));
    assert Apply(s, SweepStart(0, keep, {})) == Some(s1);
    assert Apply(s1, SweepStat(0, path)) == Some(s2);
    assert Apply(s2, Install(1, bytes)) == Some(s3);
    RunThree(s, SweepStart(0, keep, {}), SweepStat(0, path), Install(1, bytes));
    LostAfterLaunch(s3, bytes);
    RunTwoMore(s, [SweepStart(0, keep, {}), SweepStat(0, path), Install(1, bytes)], Launch(1, 0), SweepRemove(0));
  }

  lemma LostAfterLaunch(s: State, bytes: Bytes)
    requires ProcOf(s, 1).Ready? && ProcOf(s, 1).id == bytes && 0 !in s.mounts
    requires Versioned(bytes) in s.dir && s.dir[Versioned(bytes)].File?
    requires ProcOf(s, 0).Sweeping? && ProcOf(s, 0).sweep.target == Some(Versioned(bytes))
    ensures var t := Apply(s, Launch(1, 0));
      t.Some? && Apply(t.value, SweepRemove(0)).Some? && !MountsIntact(Apply(t.value, SweepRemove(0)).value)
  {
    var t := Apply(s, Launch(1, 0)).value;
    assert ProcOf(t, 0) == ProcOf(s, 0) && t.mounts[0].path == Versioned(bytes);
    var u := Apply(t, SweepRemove(0)).value;
    assert 0 in u.mounts && u.mounts[0].path !in u.dir;
  }

  /**
   * In every state the protocol can be in, a step is timely exactly when no
   * timely continuation of it changes a mounted file.
   */
  lemma StepSafeIff(s: State, step: Step)
    requires Inv(s) && Apply(s, step).Some?
    ensures Timely(s, step) <==> Safe(Apply(s, step).value)
  {
    if Timely(s, step) {
      StepKeepsInv(s, step);
      InvSafe(Apply(s, step).value);
    } else {
      match step
      case SweepStart(_, _, _) => UntimelySweepIsLost(s, step);
      case Launch(pid, c) => UnsparedLaunchIsLost(s, pid, c);
      case Rename(pid) => StaleRenameIsLost(s, pid);
    }
  }
}
