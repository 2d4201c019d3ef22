/**
 * The directory the agent binary is installed in, shared by processes that
 * install, adopt, repoint and collect, and by the containers that mount it.
 * Every step is one file-system call of one process, so a run of steps is an
 * interleaving.
 */
module BinaryInstall {
  import opened Prelude
  import opened BinaryIdentity

  /**
   * A name in the directory. The content id in `lazy-agent-<id>` identifies the
   * bytes it was computed from, so the bytes stand for it here.
   */
  datatype Path =
    | Versioned(id: Bytes)
    | Pointer
    | Legacy
    | Temp(n: nat)
    | Other(name: string)

  datatype Node = File(bytes: Bytes, mtime: int) | Symlink(target: Path)

  type Dir = map<Path, Node>

  const GC_GRACE_MS: int := 60 * 60 * 1000

  /** `verifyAgentBinary(path)` accepts. */
  predicate Verified(dir: Dir, p: Path) {
    p in dir && dir[p].File? && VerifyBytes(dir[p].bytes).Accepted?
  }

  /** `resolveInstalledAgentBinary`: the regular file that `lazy-agent-current` links to, or is. */
  function Resolved(dir: Dir): Option<Path> {
    if Pointer in dir && dir[Pointer].File? then Some(Pointer)
    else if Pointer in dir && dir[Pointer].Symlink? && dir[Pointer].target in dir && dir[dir[Pointer].target].File?
    then Some(dir[Pointer].target) else None
  }

  /** `updateAgentBinaryPointer` decides to move the pointer. */
  predicate MovesPointer(dir: Dir, target: Path, force: bool) {
    var current := if Pointer in dir && dir[Pointer].Symlink? then Some(dir[Pointer].target) else None;
    current != Some(target) && (force || current.None? || Resolved(dir).None?)
  }

  /** A collection under way: what it spares, and the file it has decided to remove. */
  datatype Sweep = Sweep(keep: set<Path>, referenced: set<Path>, now: int, target: Option<Path>)

  /** Younger than the grace period at the time the collection started. */
  predicate Young(q: Sweep, dir: Dir, p: Path) {
    p in dir && dir[p].File? && q.now - dir[p].mtime < GC_GRACE_MS
  }

  predicate Collectable(q: Sweep, dir: Dir, p: Path) {
    && (p.Versioned? || p.Legacy?) && p in dir && dir[p].File?
    && p !in q.keep && p !in q.referenced && !Young(q, dir, p)
  }

  /** The collection `q` would not choose `file` for removal if it were at `p`. */
  predicate SparesAs(q: Sweep, dir: Dir, file: Path, p: Path) {
    p in q.keep || p in q.referenced || Young(q, dir, file)
  }

  /** The collection `q` will not remove `p` as things stand. */
  predicate Spares(q: Sweep, dir: Dir, p: Path) {
    p in q.keep || p in q.referenced || (Young(q, dir, p) && q.target != Some(p))
  }

  /** Where one process is in its current operation. */
  datatype Proc =
    | Idle
    | Writing(id: Bytes, bytes: Bytes, temp: nat, written: nat)
    | Compiled(bytes: Bytes, temp: nat)
    | Moving(id: Bytes, temp: nat)
    | LegacySeen(id: Bytes)
    | LegacyCopying(id: Bytes)
    | Ready(id: Bytes, installed: bool)
    | Repointing(id: Bytes, installed: bool)
    | Sweeping(sweep: Sweep)

  /** What a running container mounts, and the bytes it had at launch. */
  datatype Mount = Mount(path: Path, bytes: Bytes)

  datatype State = State(
    dir: Dir,
    procs: map<nat, Proc>,
    mounts: map<nat, Mount>,
    clock: int,
    temps: nat)

  datatype Step =
    | Tick(ms: nat)
    | Install(pid: nat, bytes: Bytes)
    | Write(pid: nat, upTo: nat)
    | Rename(pid: nat)
    | Compile(pid: nat, bytes: Bytes)
    | Adopt(pid: nat)
    | LegacyLook(pid: nat)
    | LegacyCheck(pid: nat)
    | LegacyRead(pid: nat)
    | UsePointer(pid: nat)
    | PointerCheck(pid: nat)
    | PointerMove(pid: nat)
    | SweepStart(pid: nat, keep: set<Path>, referenced: set<Path>)
    | SweepStat(pid: nat, path: Path)
    | SweepRemove(pid: nat)
    | SweepEnd(pid: nat)
    | Launch(pid: nat, container: nat)
    | Stop(container: nat)
    | Crash(pid: nat)

  function ProcOf(s: State, pid: nat): Proc {
    if pid in s.procs then s.procs[pid] else Idle
  }

  function MountedPaths(mounts: map<nat, Mount>): set<Path> {
    set c | c in mounts :: mounts[c].path
  }

  /** The temp file a process owns. */
  function TempOf(p: Proc): Option<nat> {
    match p
    case Writing(_, _, t, _) => Some(t)
    case Compiled(_, t) => Some(t)
    case Moving(_, t) => Some(t)
    case _ => None
  }

  function SetProc(s: State, pid: nat, p: Proc): State {
    s.(procs := s.procs[pid := p])
  }

  /** The state after a step, or `None` where the step cannot be taken. */
  function Apply(s: State, step: Step): Option<State> {
    match step
    case Tick(ms) => Some(s.(clock := s.clock + ms))
    case Install(pid, bytes) =>
      if !ProcOf(s, pid).Idle? then None
      else if Verified(s.dir, Versioned(bytes)) then Some(SetProc(s, pid, Ready(bytes, false)))
      else Some(SetProc(s, pid, Writing(bytes, bytes, s.temps, 0)).(temps := s.temps + 1))
    case Write(pid, upTo) =>
      var p := ProcOf(s, pid);
      if !p.Writing? || !(p.written <= upTo <= |p.bytes|) then None
      else Some(SetProc(s, pid, p.(written := upTo)).(dir := s.dir[Temp(p.temp) := File(p.bytes[..upTo], s.clock)]))
    case Rename(pid) =>
      var p := ProcOf(s, pid);
      if !(p.Moving? || (p.Writing? && p.written == |p.bytes|)) || Temp(p.temp) !in s.dir then None
      else Some(SetProc(s, pid, Ready(p.id, true)).(dir := Renamed(s.dir, p.temp, Versioned(p.id))))
    case Compile(pid, bytes) =>
      if !ProcOf(s, pid).Idle? then None
      else Some(SetProc(s, pid, Compiled(bytes, s.temps)).(dir := s.dir[Temp(s.temps) := File(bytes, s.clock)], temps := s.temps + 1))
    case Adopt(pid) =>
      var p := ProcOf(s, pid);
      if !p.Compiled? then None
      else if Verified(s.dir, Versioned(p.bytes)) then
        Some(SetProc(s, pid, Ready(p.bytes, false)).(dir := s.dir - {Temp(p.temp)}))
      else Some(SetProc(s, pid, Moving(p.bytes, p.temp)))
    case LegacyLook(pid) =>
      if !ProcOf(s, pid).Idle? || !Verified(s.dir, Legacy) then None
      else Some(SetProc(s, pid, LegacySeen(s.dir[Legacy].bytes)))
    case LegacyCheck(pid) =>
      var p := ProcOf(s, pid);
      if !p.LegacySeen? then None
      else if Verified(s.dir, Versioned(p.id)) then Some(SetProc(s, pid, Ready(p.id, false)))
      else Some(SetProc(s, pid, LegacyCopying(p.id)))
    case LegacyRead(pid) =>
      var p := ProcOf(s, pid);
      if !p.LegacyCopying? || Legacy !in s.dir || !s.dir[Legacy].File? then None
      else Some(SetProc(s, pid, Writing(p.id, s.dir[Legacy].bytes, s.temps, 0)).(temps := s.temps + 1))
    case UsePointer(pid) =>
      var r := Resolved(s.dir);
      if !ProcOf(s, pid).Idle? || r.None? || !r.value.Versioned? || !Verified(s.dir, r.value) then None
      else Some(SetProc(s, pid, Ready(r.value.id, false)))
    case PointerCheck(pid) =>
      var p := ProcOf(s, pid);
      if !p.Ready? then None
      else if MovesPointer(s.dir, Versioned(p.id), p.installed) then Some(SetProc(s, pid, Repointing(p.id, p.installed)))
      else Some(s)
    case PointerMove(pid) =>
      var p := ProcOf(s, pid);
      if !p.Repointing? then None
      else Some(SetProc(s, pid, Ready(p.id, p.installed)).(dir := s.dir[Pointer := Symlink(Versioned(p.id))]))
    case SweepStart(pid, keep, referenced) =>
      if !(ProcOf(s, pid).Idle? || ProcOf(s, pid).Ready?) then None
      else Some(SetProc(s, pid, Sweeping(Sweep(keep, referenced, s.clock, None))))
    case SweepStat(pid, path) =>
      var p := ProcOf(s, pid);
      if !p.Sweeping? || p.sweep.target.Some? || !Collectable(p.sweep, s.dir, path) then None
      else Some(SetProc(s, pid, Sweeping(p.sweep.(target := Some(path)))))
    case SweepRemove(pid) =>
      var p := ProcOf(s, pid);
      if !p.Sweeping? || p.sweep.target.None? then None
      else Some(SetProc(s, pid, Sweeping(p.sweep.(target := None))).(dir := s.dir - {p.sweep.target.value}))
    case SweepEnd(pid) =>
      if !ProcOf(s, pid).Sweeping? then None else Some(SetProc(s, pid, Idle))
    case Launch(pid, c) =>
      var p := ProcOf(s, pid);
      if !p.Ready? || c in s.mounts || Versioned(p.id) !in s.dir || !s.dir[Versioned(p.id)].File? then None
      else Some(s.(mounts := s.mounts[c := Mount(Versioned(p.id), s.dir[Versioned(p.id)].bytes)]))
    case Stop(c) => Some(s.(mounts := s.mounts - {c}))
    case Crash(pid) => Some(SetProc(s, pid, Idle))
  }

  /** `rename(temp, dest)`: one atomic step; the file keeps its modification time. */
  function Renamed(dir: Dir, temp: nat, dest: Path): Dir
    requires Temp(temp) in dir
  {
    (dir - {Temp(temp)})[dest := dir[Temp(temp)]]
  }

  function Run(s: State, steps: seq<Step>): Option<State> {
    if steps == [] then Some(s)
    else
      var t := Run(s, steps[..|steps| - 1]);
      if t.None? then None else Apply(t.value, steps[|steps| - 1])
  }

  lemma RunPush(s: State, steps: seq<Step>, step: Step)
    requires Run(s, steps).Some?
    ensures Run(s, steps + [step]) == Apply(Run(s, steps).value, step)
  {
    assert (steps + [step])[..|steps|] == steps;
  }

  lemma {:induction false} RunJoined(s: State, a: seq<Step>, b: seq<Step>)
    requires Run(s, a).Some?
    ensures Run(s, a + b) == Run(Run(s, a).value, b)
  {
    if b == [] {
      assert a + b == a;
    } else {
      RunJoined(s, a, b[..|b| - 1]);
      assert (a + b)[..|a + b| - 1] == a + b[..|b| - 1];
    }
  }

  lemma RunOne(s: State, one: Step)
    ensures Run(s, [one]) == Apply(s, one)
  {
    assert [one][..0] == [];
  }

  lemma RunTwo(s: State, one: Step, two: Step)
    requires Apply(s, one).Some?
    ensures Run(s, [one, two]) == Apply(Apply(s, one).value, two)
  {
    RunOne(s, one);
    RunPush(s, [one], two);
    assert [one] + [two] == [one, two];
  }

  lemma RunThree(s: State, one: Step, two: Step, three: Step)
    requires Apply(s, one).Some? && Apply(Apply(s, one).value, two).Some?
    ensures Run(s, [one, two, three]) == Apply(Apply(Apply(s, one).value, two).value, three)
  {
    RunTwo(s, one, two);
    RunPush(s, [one, two], three);
    assert [one, two] + [three] == [one, two, three];
  }

  lemma RunTwoMore(s: State, steps: seq<Step>, one: Step, two: Step)
    requires Run(s, steps).Some? && Apply(Run(s, steps).value, one).Some?
    ensures Run(s, steps + [one, two]) == Apply(Apply(Run(s, steps).value, one).value, two)
  {
    RunJoined(s, steps, [one, two]);
    RunTwo(Run(s, steps).value, one, two);
  }

  /**
   * What the program relies on. A collection's list of mounted files was taken
   * earlier, so it starts only if it spares every file mounted by now: listed,
   * kept or under the grace age. A container is only launched on a file that
   * every collection under way spares. And a temp file is only renamed over a
   * mounted file if no collection under way finds the new file old enough.
   */
  ghost predicate Timely(s: State, step: Step) {
    match step
    case SweepStart(_, keep, referenced) =>
      forall p :: p in MountedPaths(s.mounts) ==> Spares(Sweep(keep, referenced, s.clock, None), s.dir, p)
    case Launch(pid, _) =>
      forall r :: r in s.procs && s.procs[r].Sweeping? && ProcOf(s, pid).Ready? ==>
        Spares(s.procs[r].sweep, s.dir, Versioned(ProcOf(s, pid).id))
    case Rename(pid) =>
      var p := ProcOf(s, pid);
      p.Writing? || p.Moving? ==>
        forall r :: r in s.procs && s.procs[r].Sweeping? && Versioned(p.id) in MountedPaths(s.mounts) ==>
          SparesAs(s.procs[r].sweep, s.dir, Temp(p.temp), Versioned(p.id))
    case _ => true
  }

  ghost predicate TimelyRun(s: State, steps: seq<Step>) {
    steps == [] ||
    (TimelyRun(s, steps[..|steps| - 1]) &&
     var t := Run(s, steps[..|steps| - 1]);
     t.Some? ==> Timely(t.value, steps[|steps| - 1]))
  }

  // ---- Safety

  /** Every running container still finds, at the path it mounts, the bytes it was launched with. */
  ghost predicate MountsIntact(s: State) {
    forall c :: c in s.mounts ==>
      var m := s.mounts[c];
      m.path in s.dir && s.dir[m.path].File? && s.dir[m.path].bytes == m.bytes
  }

  /** The legacy file is the one that was there, or gone. */
  ghost predicate LegacyUnwritten(before: Dir, now: Dir) {
    Legacy in now ==> Legacy in before && now[Legacy] == before[Legacy]
  }
}
