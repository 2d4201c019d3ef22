/** The operations on the install directory, each run from start to end by one process. */
module BinaryOperations {
  import opened Prelude
  import opened BinaryIdentity
  import opened BinaryInstall
  import opened BinarySafety

  /** The directory after an install of `bytes`, found or made. */
  function Installed(dir: Dir, bytes: Bytes, now: int): Dir {
    if Verified(dir, Versioned(bytes)) then dir else dir[Versioned(bytes) := File(bytes, now)]
  }

  /** The directory after the pointer is asked to name the install `id`. */
  function Pointed(dir: Dir, id: Bytes, force: bool): Dir {
    if MovesPointer(dir, Versioned(id), force) then dir[Pointer := Symlink(Versioned(id))] else dir
  }

  /** `readdir`, filtered to the installs, and the legacy file if it is a regular one. */
  ghost predicate Lists(candidates: seq<Path>, dir: Dir) {
    && (forall i, j :: 0 <= i < j < |candidates| ==> candidates[i] != candidates[j])
    && forall p :: p in candidates <==> p in dir && (p.Versioned? || (p.Legacy? && dir[p].File?))
  }

  /** A candidate that the collection must remove. */
  predicate Stale(dir: Dir, keep: set<Path>, referenced: set<Path>, graceMs: int, now: int, p: Path) {
    && p in dir && dir[p].File? && (p.Versioned? || p.Legacy?)
    && p !in keep && p !in referenced && now - dir[p].mtime >= graceMs
  }

  /** What the operation removes with the usual grace is what a collection of the transition system may choose. */
  lemma StaleIffCollectable(s: State, keep: set<Path>, referenced: set<Path>, p: Path)
    ensures Stale(s.dir, keep, referenced, GC_GRACE_MS, s.clock, p) <==>
            Collectable(Sweep(keep, referenced, s.clock, None), s.dir, p)
  {
  }

  class AgentBinDir {
    var dir: Dir
    var clock: int
    var temps: nat

    /** Temp names are never reused, and install paths are not links. */
    ghost predicate Valid()
      reads this
    {
      && (forall n: nat {:trigger Temp(n)} :: n >= temps ==> Temp(n) !in dir)
      && (forall id {:trigger Versioned(id)} :: Versioned(id) in dir ==> dir[Versioned(id)].File?)
    }

    method AtomicInstall(dest: Path, bytes: Bytes)
      requires Valid() && dest.Versioned?
      modifies this
      ensures Valid() && clock == old(clock)
      ensures dir == old(dir)[dest := File(bytes, clock)]
    {
      var temp := temps;
      temps := temps + 1;
      dir := dir[Temp(temp) := File(bytes, clock)];
      dir := Renamed(dir, temp, dest);
    }

    method InstallVersioned(bytes: Bytes) returns (installed: bool)
      requires Valid()
      modifies this
      ensures Valid() && clock == old(clock)
      ensures installed <==> !Verified(old(dir), Versioned(bytes))
      ensures dir == Installed(old(dir), bytes, clock)
    {
      if Verified(dir, Versioned(bytes)) {
        return false;
      }
      AtomicInstall(Versioned(bytes), bytes);
      return true;
    }

    /** Moves a built temp file into place, or drops it when the same content is already there. */
    method AdoptVersioned(temp: nat, id: Bytes) returns (installed: bool)
      requires Valid() && Temp(temp) in dir && dir[Temp(temp)].File? && dir[Temp(temp)].bytes == id
      modifies this
      ensures Valid()
      ensures installed <==> !Verified(old(dir), Versioned(id))
      ensures dir == Installed(old(dir) - {Temp(temp)}, id, old(dir)[Temp(temp)].mtime)
    {
      if Verified(dir, Versioned(id)) {
        dir := dir - {Temp(temp)};
        return false;
      }
      dir := Renamed(dir, temp, Versioned(id));
      return true;
    }

    method UpdatePointer(id: Bytes, force: bool)
      requires Valid()
      modifies this
      ensures Valid() && clock == old(clock)
      ensures dir == Pointed(old(dir), id, force)
    {
      var current := if Pointer in dir && dir[Pointer].Symlink? then Some(dir[Pointer].target) else None;
      if current == Some(Versioned(id)) {
        return;
      }
      if !force && current.Some? && Resolved(dir).Some? {
        return;
      }
      var temp := temps;
      temps := temps + 1;
      dir := dir[Temp(temp) := Symlink(Versioned(id))];
      dir := Renamed(dir, temp, Pointer);
    }

    /** Copies a verified legacy file into an install; the legacy file itself is only read. */
    method AdoptLegacy() returns (adopted: Option<(Bytes, bool)>)
      requires Valid()
      modifies this
      ensures Valid()
      ensures adopted.None? <==> !Verified(old(dir), Legacy)
      ensures adopted.None? ==> dir == old(dir)
      ensures adopted.Some? ==>
        && adopted.value.0 == old(dir)[Legacy].bytes
        && (adopted.value.1 <==> !Verified(old(dir), Versioned(adopted.value.0)))
        && dir == Installed(old(dir), adopted.value.0, clock)
        && Legacy in dir && dir[Legacy] == old(dir)[Legacy]
    {
      if Legacy !in dir || !dir[Legacy].File? || !VerifyBytes(dir[Legacy].bytes).Accepted? {
        return None;
      }
      var id := dir[Legacy].bytes;
      var existing := Verified(dir, Versioned(id));
      if !existing {
        AtomicInstall(Versioned(id), dir[Legacy].bytes);
      }
      return Some((id, !existing));
    }

    /**
     * Removes the stale candidates and nothing else; an unknown set of mounts
     * removes nothing. Every install and legacy file then left is in use or young.
     */
    method Prune(candidates: seq<Path>, keep: set<Path>, referenced: Option<set<Path>>, graceMs: int, now: int)
      returns (removed: seq<Path>)
      requires Valid() && Lists(candidates, dir)
      modifies this
      ensures Valid()
      ensures referenced.None? ==> removed == [] && dir == old(dir)
      ensures referenced.Some? ==>
        && dir == old(dir) - (set p | p in removed)
        && forall p :: p in removed <==> Stale(old(dir), keep, referenced.value, graceMs, now, p)
      ensures referenced.Some? ==> forall p :: p in dir && dir[p].File? && (p.Versioned? || p.Legacy?) ==>
        p in keep || p in referenced.value || now - dir[p].mtime < graceMs
      ensures forall p :: p in old(dir) && p !in dir ==>
        && old(dir)[p].File? && (p.Versioned? || p.Legacy?) && now - old(dir)[p].mtime >= graceMs
        && p !in keep && referenced.Some? && p !in referenced.value
    {
      removed := [];
      if referenced.None? {
        return;
      }
      for i := 0 to |candidates|
        invariant Valid()
        invariant dir == old(dir) - (set p | p in removed)
        invariant forall p :: p in removed ==> p in candidates[..i]
        invariant forall p :: p in candidates[..i] ==>
          (p in removed <==> Stale(old(dir), keep, referenced.value, graceMs, now, p))
      {
        var path := candidates[i];
        assert path in candidates && path in old(dir) && path !in candidates[..i];
        assert candidates[..i + 1] == candidates[..i] + [path];
        if path !in keep && path !in referenced.value {
          if dir[path].File? && now - dir[path].mtime >= graceMs {
            dir := dir - {path};
            removed := removed + [path];
          }
        }
      }
      assert candidates[..|candidates|] == candidates;
    }

    /**
     * An install followed by the pointer update, as every producer of the binary
     * runs them. If it installed nothing it leaves a pointer that resolves, unless
     * that is itself a regular file.
     */
    method InstallAndPoint(bytes: Bytes) returns (installed: bool)
      requires Valid()
      modifies this
      ensures Valid()
      ensures dir == Pointed(Installed(old(dir), bytes, clock), bytes, installed)
      ensures !installed && Resolved(old(dir)).Some? ==> (dir == old(dir) <==> old(dir)[Pointer].Symlink?)
      ensures installed || Resolved(old(dir)).None? || old(dir)[Pointer].File? ==> Resolved(dir) == Some(Versioned(bytes))
      ensures Pointer in dir && dir[Pointer].Symlink? && dir[Pointer].target in dir && dir[dir[Pointer].target].File?
    {
      installed := InstallVersioned(bytes);
      UpdatePointer(bytes, installed);
    }
  }

  /** Run alone, the steps of an install do what `InstallVersioned` does. */
  lemma InstallAlone(s: State, pid: nat, bytes: Bytes)
    requires ProcOf(s, pid) == Idle && Temp(s.temps) !in s.dir
    ensures var steps := if Verified(s.dir, Versioned(bytes)) then [Install(pid, bytes)]
                         else [Install(pid, bytes), Write(pid, |bytes|), BinaryInstall.Rename(pid)];
      var t := Run(s, steps);
      && t.Some? && t.value.dir == Installed(s.dir, bytes, s.clock)
      && ProcOf(t.value, pid) == Ready(bytes, !Verified(s.dir, Versioned(bytes)))
  {
    RunOne(s, Install(pid, bytes));
    if !Verified(s.dir, Versioned(bytes)) {
      var s1 := SetProc(s, pid, Writing(bytes, bytes, s.temps, 0)).(temps := s.temps + 1);
      assert Apply(s, Install(pid, bytes)) == Some(s1);
      WriteOut(s1, pid);
      RunThree(s, Install(pid, bytes), Write(pid, |bytes|), BinaryInstall.Rename(pid));
    }
  }

  /** Run alone, the steps that move a compiled file into place do what `AdoptVersioned` does. */
  lemma AdoptAlone(s: State, pid: nat)
    requires ProcOf(s, pid).Compiled?
    requires var temp := Temp(ProcOf(s, pid).temp); temp in s.dir && s.dir[temp].File? && s.dir[temp].bytes == ProcOf(s, pid).bytes
    ensures var (bytes, temp) := (ProcOf(s, pid).bytes, Temp(ProcOf(s, pid).temp));
      var found := Verified(s.dir, Versioned(bytes));
      var t := Run(s, if found then [Adopt(pid)] else [Adopt(pid), BinaryInstall.Rename(pid)]);
      && t.Some? && t.value.dir == Installed(s.dir - {temp}, bytes, s.dir[temp].mtime)
      && ProcOf(t.value, pid) == Ready(bytes, !found)
  {
    RunOne(s, Adopt(pid));
    RunTwo(s, Adopt(pid), BinaryInstall.Rename(pid));
  }

  /** Run alone, the steps that copy the legacy file do what `AdoptLegacy` does. */
  lemma AdoptLegacyAlone(s: State, pid: nat)
    requires ProcOf(s, pid) == Idle && Temp(s.temps) !in s.dir && Verified(s.dir, Legacy)
    ensures var bytes := s.dir[Legacy].bytes;
      var found := Verified(s.dir, Versioned(bytes));
      var copying := if found then [] else [LegacyRead(pid), Write(pid, |bytes|), BinaryInstall.Rename(pid)];
      var t := Run(s, [LegacyLook(pid), LegacyCheck(pid)] + copying);
      && t.Some? && t.value.dir == Installed(s.dir, bytes, s.clock)
      && ProcOf(t.value, pid) == Ready(bytes, !found)
  {
    var bytes := s.dir[Legacy].bytes;
    var two := [LegacyLook(pid), LegacyCheck(pid)];
    var s1 := SetProc(s, pid, LegacySeen(bytes));
    assert Apply(s, LegacyLook(pid)) == Some(s1);
    RunTwo(s, LegacyLook(pid), LegacyCheck(pid));
    if Verified(s.dir, Versioned(bytes)) {
      assert two + [] == two;
    } else {
      var s2 := SetProc(s1, pid, LegacyCopying(bytes));
      assert Run(s, two) == Some(s2);
      RunJoined(s, two, [LegacyRead(pid), Write(pid, |bytes|), BinaryInstall.Rename(pid)]);
      CopyAlone(s2, pid);
    }
  }

  lemma CopyAlone(s: State, pid: nat)
    requires ProcOf(s, pid).LegacyCopying? && Legacy in s.dir && s.dir[Legacy].File? && Temp(s.temps) !in s.dir
    ensures var bytes := s.dir[Legacy].bytes;
      var t := Run(s, [LegacyRead(pid), Write(pid, |bytes|), BinaryInstall.Rename(pid)]);
      && t.Some? && t.value.dir == s.dir[Versioned(ProcOf(s, pid).id) := File(bytes, s.clock)]
      && ProcOf(t.value, pid) == Ready(ProcOf(s, pid).id, true)
  {
    var (id, bytes) := (ProcOf(s, pid).id, s.dir[Legacy].bytes);
    var (two, three) := (Write(pid, |bytes|), BinaryInstall.Rename(pid));
    var s1 := SetProc(s, pid, Writing(id, bytes, s.temps, 0)).(temps := s.temps + 1);
    assert Apply(s, LegacyRead(pid)) == Some(s1);
    WriteOut(s1, pid);
    RunThree(s, LegacyRead(pid), two, three);
  }

  /** Writing all the bytes and renaming puts them at the install path. */
  lemma WriteOut(s: State, pid: nat)
    requires ProcOf(s, pid).Writing? && ProcOf(s, pid).written == 0 && Temp(ProcOf(s, pid).temp) !in s.dir
    ensures var p := ProcOf(s, pid);
      var t := Apply(s, Write(pid, |p.bytes|));
      && t.Some? && Apply(t.value, BinaryInstall.Rename(pid)).Some?
      && var u := Apply(t.value, BinaryInstall.Rename(pid)).value;
      u.dir == s.dir[Versioned(p.id) := File(p.bytes, s.clock)] && ProcOf(u, pid) == Ready(p.id, true)
  {
    var p := ProcOf(s, pid);
    assert p.bytes[..|p.bytes|] == p.bytes;
    var dir := s.dir[Temp(p.temp) := File(p.bytes, s.clock)];
    var t := SetProc(s, pid, p.(written := |p.bytes|)).(dir := dir);
    assert Apply(s, Write(pid, |p.bytes|)) == Some(t);
    assert dir - {Temp(p.temp)} == s.dir;
    assert Apply(t, BinaryInstall.Rename(pid)) == Some(SetProc(t, pid, Ready(p.id, true)).(dir := Renamed(dir, p.temp, Versioned(p.id))));
  }

  /** Run alone, deciding and moving do what `UpdatePointer` does. */
  lemma UpdatePointerAlone(s: State, pid: nat)
    requires ProcOf(s, pid).Ready?
    ensures var p := ProcOf(s, pid);
      var moves := MovesPointer(s.dir, Versioned(p.id), p.installed);
      var t := Run(s, if moves then [PointerCheck(pid), PointerMove(pid)] else [PointerCheck(pid)]);
      t.Some? && t.value.dir == Pointed(s.dir, p.id, p.installed) && ProcOf(t.value, pid) == p
  {
    RunOne(s, PointerCheck(pid));
    RunTwo(s, PointerCheck(pid), PointerMove(pid));
  }

  /** A collection that looks at and removes the files of `removed`, one after the other. */
  function Removals(pid: nat, removed: seq<Path>): seq<Step> {
    if removed == [] then []
    else Removals(pid, removed[..|removed| - 1]) + [SweepStat(pid, removed[|removed| - 1]), SweepRemove(pid)]
  }

  function PathSet(ps: seq<Path>): set<Path> {
    if ps == [] then {} else PathSet(ps[..|ps| - 1]) + {ps[|ps| - 1]}
  }

  lemma {:induction false} NotInPathSet(ps: seq<Path>, p: Path)
    requires p !in ps
    ensures p !in PathSet(ps)
  {
    if ps != [] {
      NotInPathSet(ps[..|ps| - 1], p);
    }
  }

  /** The state of a lone collection that has removed the files of `gone`. */
  function Swept(s: State, pid: nat, keep: set<Path>, referenced: set<Path>, gone: set<Path>): State {
    SetProc(s, pid, Sweeping(Sweep(keep, referenced, s.clock, None))).(dir := s.dir - gone)
  }

  lemma RemoveOne(s: State, pid: nat, keep: set<Path>, referenced: set<Path>, gone: set<Path>, p: Path)
    requires Stale(s.dir, keep, referenced, GC_GRACE_MS, s.clock, p) && p !in gone
    ensures var t := Apply(Swept(s, pid, keep, referenced, gone), SweepStat(pid, p));
      t.Some? && Apply(t.value, SweepRemove(pid)) == Some(Swept(s, pid, keep, referenced, gone + {p}))
  {
    var (from, q) := (Swept(s, pid, keep, referenced, gone), Sweep(keep, referenced, s.clock, None));
    assert from.dir[p] == s.dir[p];
    var t := SetProc(from, pid, Sweeping(q.(target := Some(p))));
    assert Apply(from, SweepStat(pid, p)) == Some(t);
    assert t.dir - {p} == s.dir - (gone + {p});
    assert t.procs[pid := Sweeping(q)] == from.procs;
  }

  /** Run alone, a collection can remove any of the stale files one by one; all of them are what `Prune` removes. */
  lemma {:induction false} PruneAlone(s: State, pid: nat, keep: set<Path>, referenced: set<Path>, removed: seq<Path>)
    requires ProcOf(s, pid).Idle?
    requires forall i, j :: 0 <= i < j < |removed| ==> removed[i] != removed[j]
    requires forall p :: p in removed ==> Stale(s.dir, keep, referenced, GC_GRACE_MS, s.clock, p)
    ensures Run(s, [SweepStart(pid, keep, referenced)] + Removals(pid, removed)) ==
            Some(Swept(s, pid, keep, referenced, PathSet(removed)))
  {
    var start := [SweepStart(pid, keep, referenced)];
    if removed == [] {
      RunOne(s, SweepStart(pid, keep, referenced));
      assert start + [] == start && s.dir - {} == s.dir;
    } else {
      var (init, p) := (removed[..|removed| - 1], removed[|removed| - 1]);
      PruneAlone(s, pid, keep, referenced, init);
      assert start + Removals(pid, removed) == start + Removals(pid, init) + [SweepStat(pid, p), SweepRemove(pid)];
      NotInPathSet(init, p);
      RemoveOne(s, pid, keep, referenced, PathSet(init), p);
      RunTwoMore(s, start + Removals(pid, init), SweepStat(pid, p), SweepRemove(pid));
    }
  }
}
