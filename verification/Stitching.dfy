/** The program's `stitchBuilders`: a union-find over session ids, then a grouping pass. */
module Stitching {
  import opened Prelude
  import opened Lineage
  import opened Segments

  /** What the `parent` map, the roots and the heights say about one id. */
  ghost predicate Node(parent: map<string, string>, rep: map<string, string>, rank: map<string, nat>, x: string) {
    && x in parent && x in rep && x in rank
    && parent[x] in parent && parent[x] in rep && parent[x] in rank
    && rep[x] in parent && rep[x] in rep
    && rep[parent[x]] == rep[x] && rep[rep[x]] == rep[x]
    && (parent[x] == x <==> rep[x] == x)
    && (parent[x] == x || rank[parent[x]] < rank[x])
  }

  /**
   * `rep` names the root of each id, and `rank` falls along every parent step,
   * so the parent map is an acyclic forest.
   */
  ghost predicate Forest(parent: map<string, string>, rep: map<string, string>, rank: map<string, nat>) {
    && parent.Keys == rep.Keys == rank.Keys
    && forall x {:trigger Node(parent, rep, rank, x)} :: x in parent.Keys ==> Node(parent, rep, rank, x)
  }

  lemma ForestCompressed(parent: map<string, string>, rep: map<string, string>, rank: map<string, nat>,
                         x: string, r: string)
    requires Forest(parent, rep, rank) && x in parent && r == rep[x]
    requires r == x || (r in rank && rank[r] < rank[x])
    ensures Forest(parent[x := r], rep, rank)
  {
    var now := parent[x := r];
    assert Node(parent, rep, rank, x);
    forall y | y in now.Keys ensures Node(now, rep, rank, y) {
      assert Node(parent, rep, rank, y);
      assert Node(parent, rep, rank, r);
    }
  }

  /** The roots after the tree of `rb` is hung under the root `ra`. */
  function Merged(rep: map<string, string>, ra: string, rb: string): map<string, string> {
    map x | x in rep :: if rep[x] == rb then ra else rep[x]
  }

  ghost function Raised(rep: map<string, string>, rank: map<string, nat>, ra: string, rb: string): map<string, nat>
    requires rep.Keys == rank.Keys && ra in rank
  {
    map x | x in rank :: if rep[x] == rb then rank[x] + rank[ra] + 1 else rank[x]
  }

  lemma ForestMerged(parent: map<string, string>, rep: map<string, string>, rank: map<string, nat>,
                     ra: string, rb: string)
    requires Forest(parent, rep, rank) && ra in parent && rb in parent
    requires rep[ra] == ra && rep[rb] == rb && ra != rb
    ensures Forest(parent[rb := ra], Merged(rep, ra, rb), Raised(rep, rank, ra, rb))
  {
    var (p, r, h) := (parent[rb := ra], Merged(rep, ra, rb), Raised(rep, rank, ra, rb));
    assert p.Keys == parent.Keys && r.Keys == rep.Keys && h.Keys == rank.Keys;
    forall x | x in parent.Keys ensures Node(p, r, h, x) {
      assert Node(parent, rep, rank, ra) && Node(parent, rep, rank, rb) && Node(parent, rep, rank, x);
      assert Node(parent, rep, rank, parent[x]) && Node(parent, rep, rank, rep[x]);
      MergedNode(parent, rep, rank, ra, rb, x);
    }
  }

  lemma MergedNode(parent: map<string, string>, rep: map<string, string>, rank: map<string, nat>,
                   ra: string, rb: string, x: string)
    requires parent.Keys == rep.Keys == rank.Keys && {x, ra, rb} <= parent.Keys && ra != rb
    requires Node(parent, rep, rank, ra) && Node(parent, rep, rank, rb) && Node(parent, rep, rank, x)
    requires Node(parent, rep, rank, parent[x]) && Node(parent, rep, rank, rep[x])
    requires rep[ra] == ra && rep[rb] == rb
    ensures Node(parent[rb := ra], Merged(rep, ra, rb), Raised(rep, rank, ra, rb), x)
  {
    var r := Merged(rep, ra, rb);
    assert r[ra] == ra;
    if x == rb {
    } else if rep[x] == rb {
      assert r[x] == ra && r[parent[x]] == ra;
    } else {
      assert r[x] == rep[x] && r[rep[x]] == rep[x] && r[parent[x]] == rep[x];
    }
  }

  /** The `parent` map with its `find` and `union` closures. */
  class DisjointSets {
    var parent: map<string, string>
    ghost var rep: map<string, string>
    ghost var rank: map<string, nat>

    ghost predicate Valid()
      reads this
    {
      Forest(parent, rep, rank)
    }

    constructor (ids: seq<string>)
      ensures Valid() && rep.Keys == (set x | x in ids)
      ensures forall x :: x in rep ==> rep[x] == x
    {
      parent, rep, rank := map[], map[], map[];
      new;
      for i := 0 to |ids|
        invariant parent.Keys == rep.Keys == rank.Keys == (set x | x in ids[..i])
        invariant forall x :: x in parent ==> parent[x] == x
        invariant forall x :: x in rep ==> rep[x] == x
      {
        parent := parent[ids[i] := ids[i]];
        rep := rep[ids[i] := ids[i]];
        rank := rank[ids[i] := 0];
      }
      assert ids[..|ids|] == ids;
    }

    method Find(x: string) returns (r: string)
      requires Valid() && x in rep
      modifies `parent
      ensures Valid() && r == rep[x] && r in rep && rep[r] == r
      ensures parent == old(parent)[x := r]
    {
      r := x;
      assert Node(parent, rep, rank, x);
      while parent[r] != r
        invariant r in parent && rep[r] == rep[x]
        invariant r == x || rank[r] < rank[x]
        decreases rank[r]
      {
        assert Node(parent, rep, rank, r);
        r := parent[r];
      }
      assert Node(parent, rep, rank, r);
      ForestCompressed(parent, rep, rank, x, r);
      parent := parent[x := r];
    }

    method Union(a: string, b: string)
      requires Valid() && a in rep && b in rep
      modifies this
      ensures Valid()
      ensures rep == Merged(old(rep), old(rep)[a], old(rep)[b])
    {
      var ra := Find(a);
      var rb := Find(b);
      if ra != rb {
        ForestMerged(parent, rep, rank, ra, rb);
        parent := parent[rb := ra];
        rank := Raised(rep, rank, ra, rb);
        rep := Merged(rep, ra, rb);
      } else {
        assert rep == Merged(rep, ra, rb);
      }
    }
  }

  // ---- What the map of roots says about the segments

  /** The two ids have the same root. */
  ghost predicate SameRoot(rep: map<string, string>, x: string, y: string) {
    x in rep && y in rep && rep[x] == rep[y]
  }

  /** `now` merges classes of `was` and never splits one. */
  ghost predicate Coarsens(was: map<string, string>, now: map<string, string>) {
    && now.Keys == was.Keys
    && forall x, y {:trigger SameRoot(was, x, y)} :: SameRoot(was, x, y) ==> SameRoot(now, x, y)
  }

  ghost predicate Covers(S: set<SegmentInput>, rep: map<string, string>) {
    rep.Keys == set s | s in S :: s.sessionId
  }

  /** Ids with the same root belong to connected segments. */
  ghost predicate Sound(S: set<SegmentInput>, rep: map<string, string>) {
    && Covers(S, rep)
    && forall a, b {:trigger SameRoot(rep, a.sessionId, b.sessionId)} ::
        a in S && b in S && SameRoot(rep, a.sessionId, b.sessionId) ==> Connected(S, a, b)
  }

  /** Having the same root is being connected. */
  ghost predicate Exact(S: set<SegmentInput>, rep: map<string, string>) {
    && Covers(S, rep)
    && forall a, b {:trigger SameRoot(rep, a.sessionId, b.sessionId)} {:trigger Connected(S, a, b)} ::
        a in S && b in S ==> (SameRoot(rep, a.sessionId, b.sessionId) <==> Connected(S, a, b))
  }

  lemma MergedSound(S: set<SegmentInput>, rep: map<string, string>, a: SegmentInput, b: SegmentInput)
    requires Sound(S, rep) && a in S && b in S && Linked(a, b)
    requires a.sessionId in rep && b.sessionId in rep
    ensures var now := Merged(rep, rep[a.sessionId], rep[b.sessionId]);
      Sound(S, now) && Coarsens(rep, now) && SameRoot(now, a.sessionId, b.sessionId)
  {
    var now := Merged(rep, rep[a.sessionId], rep[b.sessionId]);
    ConnectedLink(S, a, b);
    ConnectedSymmetric(S, a, b);
    forall x, y | x in S && y in S && SameRoot(now, x.sessionId, y.sessionId)
      ensures Connected(S, x, y)
    {
      if SameRoot(rep, x.sessionId, y.sessionId) {
      } else if rep[x.sessionId] == rep[b.sessionId] {
        assert SameRoot(rep, x.sessionId, b.sessionId) && SameRoot(rep, a.sessionId, y.sessionId);
        ConnectedTransitive(S, x, b, a);
        ConnectedTransitive(S, x, a, y);
      } else {
        assert SameRoot(rep, x.sessionId, a.sessionId) && SameRoot(rep, b.sessionId, y.sessionId);
        ConnectedTransitive(S, x, a, b);
        ConnectedTransitive(S, x, b, y);
      }
    }
  }

  /** `owner` is the id of a segment that has `u` as an anchor. */
  ghost predicate Owns(S: set<SegmentInput>, owner: string, u: string) {
    exists t :: t in S && t.sessionId == owner && u in Own(t)
  }

  ghost predicate Owned(S: set<SegmentInput>, anchors: map<string, string>) {
    forall u {:trigger Owns(S, anchors[u], u)} :: u in anchors ==> Owns(S, anchors[u], u)
  }

  /** The segment that owns an anchor of `s`, or a uuid `s` refers to, is linked to `s`. */
  lemma OwnerLinked(S: set<SegmentInput>, anchors: map<string, string>, u: string, s: SegmentInput)
    returns (t: SegmentInput)
    requires Owned(S, anchors) && u in anchors && (u in Own(s) || u in s.lineage.externalRefs)
    ensures t in S && t.sessionId == anchors[u] && Linked(t, s)
  {
    assert Owns(S, anchors[u], u);
    t :| t in S && t.sessionId == anchors[u] && u in Own(t);
    assert SharesAnchor(t, s) || RefersTo(s, t);
  }

  lemma OwnedExtended(S: set<SegmentInput>, anchors: map<string, string>, u: string, s: SegmentInput)
    requires Owned(S, anchors) && s in S && u in Own(s)
    ensures Owned(S, anchors[u := s.sessionId])
  {
    var now := anchors[u := s.sessionId];
    forall v | v in now ensures Owns(S, now[v], v) {
      if v != u {
        assert Owns(S, anchors[v], v);
      }
    }
  }

  /** Each of the first `n` anchors of `s` has an owner, in the class of `s`. */
  ghost predicate AnchoredTo(rep: map<string, string>, anchors: map<string, string>, s: SegmentInput, n: nat)
    requires n <= |Own(s)|
  {
    forall k :: 0 <= k < n ==> Own(s)[k] in anchors && SameRoot(rep, anchors[Own(s)[k]], s.sessionId)
  }

  /** Each of the first `n` references of `s` that has an owner has it in the class of `s`. */
  ghost predicate ResolvedTo(rep: map<string, string>, anchors: map<string, string>, s: SegmentInput, n: nat)
    requires n <= |s.lineage.externalRefs|
  {
    var refs := s.lineage.externalRefs;
    forall k :: 0 <= k < n && refs[k] in anchors ==> SameRoot(rep, anchors[refs[k]], s.sessionId)
  }

  /** Each of the first `n` fork origins of `s` that is a segment is in the class of `s`. */
  ghost predicate ForkedTo(rep: map<string, string>, s: SegmentInput, n: nat)
    requires n <= |s.lineage.forkedFromSessionIds|
  {
    var sids := s.lineage.forkedFromSessionIds;
    forall k :: 0 <= k < n && sids[k] in rep ==> SameRoot(rep, sids[k], s.sessionId)
  }

  ghost predicate Anchored(rep: map<string, string>, anchors: map<string, string>, s: SegmentInput) {
    AnchoredTo(rep, anchors, s, |Own(s)|)
  }

  ghost predicate Referred(rep: map<string, string>, anchors: map<string, string>, s: SegmentInput) {
    && ResolvedTo(rep, anchors, s, |s.lineage.externalRefs|)
    && ForkedTo(rep, s, |s.lineage.forkedFromSessionIds|)
  }

  method Join(ghost S: set<SegmentInput>, ds: DisjointSets, owner: string, id: string,
              ghost a: SegmentInput, ghost b: SegmentInput)
    requires ds.Valid() && Sound(S, ds.rep)
    requires a in S && b in S && Linked(a, b) && a.sessionId == owner && b.sessionId == id
    modifies ds
    ensures ds.Valid() && Sound(S, ds.rep) && Coarsens(old(ds.rep), ds.rep)
    ensures SameRoot(ds.rep, owner, id)
  {
    MergedSound(S, ds.rep, a, b);
    ds.Union(owner, id);
  }

  lemma SoundRep(S: set<SegmentInput>, rep: map<string, string>, s: SegmentInput)
    requires Sound(S, rep) && s in S
    ensures s.sessionId in rep
  {
    InRep(S, rep, s);
  }

  lemma CoarsensSelf(rep: map<string, string>)
    ensures Coarsens(rep, rep)
  {
  }

  lemma CoarsensTrans(a: map<string, string>, b: map<string, string>, c: map<string, string>)
    requires Coarsens(a, b) && Coarsens(b, c)
    ensures Coarsens(a, c)
  {
  }

  lemma ReferredCoarser(was: map<string, string>, now: map<string, string>, anchors: map<string, string>, s: SegmentInput)
    requires Coarsens(was, now) && Referred(was, anchors, s)
    ensures Referred(now, anchors, s)
  {
  }

  lemma ResolvedNone(rep: map<string, string>, anchors: map<string, string>, s: SegmentInput)
    ensures ResolvedTo(rep, anchors, s, 0)
  {
  }

  lemma ResolvedStep(was: map<string, string>, now: map<string, string>, anchors: map<string, string>, s: SegmentInput, j: nat)
    requires j < |s.lineage.externalRefs| && Coarsens(was, now) && ResolvedTo(was, anchors, s, j)
    requires s.lineage.externalRefs[j] in anchors ==> SameRoot(now, anchors[s.lineage.externalRefs[j]], s.sessionId)
    ensures ResolvedTo(now, anchors, s, j + 1)
  {
  }

  /** A uuid that several segments keep as an anchor puts them in one class. */
  method LinkAnchors(ordered: seq<SegmentInput>, ds: DisjointSets) returns (anchors: map<string, string>)
    requires ds.Valid() && Sound(SetOf(ordered), ds.rep)
    modifies ds
    ensures ds.Valid() && Sound(SetOf(ordered), ds.rep)
    ensures Owned(SetOf(ordered), anchors)
    ensures forall k :: 0 <= k < |ordered| ==> Anchored(ds.rep, anchors, ordered[k])
  {
    anchors := map[];
    for i := 0 to |ordered|
      invariant ds.Valid() && Sound(SetOf(ordered), ds.rep)
      invariant Owned(SetOf(ordered), anchors)
      invariant forall k :: 0 <= k < i ==> Anchored(ds.rep, anchors, ordered[k])
    {
      anchors := LinkOwn(SetOf(ordered), ordered[i], anchors, ds);
    }
  }

  method LinkOwn(ghost S: set<SegmentInput>, s: SegmentInput, known: map<string, string>, ds: DisjointSets)
    returns (anchors: map<string, string>)
    requires ds.Valid() && Sound(S, ds.rep) && Owned(S, known) && s in S
    modifies ds
    ensures ds.Valid() && Sound(S, ds.rep) && Coarsens(old(ds.rep), ds.rep)
    ensures Owned(S, anchors) && known.Keys <= anchors.Keys
    ensures forall u :: u in known ==> anchors[u] == known[u]
    ensures Anchored(ds.rep, anchors, s)
  {
    anchors := known;
    var own := Own(s);
    for j := 0 to |own|
      invariant ds.Valid() && Sound(S, ds.rep) && Coarsens(old(ds.rep), ds.rep)
      invariant Owned(S, anchors) && known.Keys <= anchors.Keys
      invariant forall u :: u in known ==> anchors[u] == known[u]
      invariant AnchoredTo(ds.rep, anchors, s, j)
    {
      var u := own[j];
      if u !in anchors {
        OwnedExtended(S, anchors, u, s);
        anchors := anchors[u := s.sessionId];
      } else if anchors[u] != s.sessionId {
        ghost var t := OwnerLinked(S, anchors, u, s);
        Join(S, ds, anchors[u], s.sessionId, t, s);
      }
    }
  }

  /** References and forks put the referring segment in the class of the one it names. */
  method LinkReferences(ordered: seq<SegmentInput>, anchors: map<string, string>, ds: DisjointSets)
    requires ds.Valid() && Sound(SetOf(ordered), ds.rep) && Owned(SetOf(ordered), anchors)
    requires forall t :: t in SetOf(ordered) ==> t.sessionId != ""
    modifies ds
    ensures ds.Valid() && Sound(SetOf(ordered), ds.rep) && Coarsens(old(ds.rep), ds.rep)
    ensures forall k :: 0 <= k < |ordered| ==> Referred(ds.rep, anchors, ordered[k])
  {
    hide Referred, Coarsens, Sound, Owned;
    var ids := set s | s in SetOf(ordered) :: s.sessionId;
    CoarsensSelf(ds.rep);
    for i := 0 to |ordered|
      invariant ds.Valid() && Sound(SetOf(ordered), ds.rep) && Coarsens(old(ds.rep), ds.rep)
      invariant forall k :: 0 <= k < i ==> Referred(ds.rep, anchors, ordered[k])
    {
      ghost var was := ds.rep;
      LinkOne(SetOf(ordered), anchors, ids, ordered[i], ds);
      CoarsensTrans(old(ds.rep), was, ds.rep);
      forall k | 0 <= k < i ensures Referred(ds.rep, anchors, ordered[k]) {
        ReferredCoarser(was, ds.rep, anchors, ordered[k]);
      }
    }
  }

  method LinkOne(ghost S: set<SegmentInput>, anchors: map<string, string>, ids: set<string>, s: SegmentInput,
                 ds: DisjointSets)
    requires ds.Valid() && Sound(S, ds.rep) && Owned(S, anchors) && s in S
    requires ids == set t | t in S :: t.sessionId
    requires forall t :: t in S ==> t.sessionId != ""
    modifies ds
    ensures ds.Valid() && Sound(S, ds.rep) && Coarsens(old(ds.rep), ds.rep)
    ensures Referred(ds.rep, anchors, s)
  {
    LinkRefs(S, anchors, s, ds);
    LinkForks(S, ids, s, ds);
  }

  method LinkRefs(ghost S: set<SegmentInput>, anchors: map<string, string>, s: SegmentInput, ds: DisjointSets)
    requires ds.Valid() && Sound(S, ds.rep) && Owned(S, anchors) && s in S
    requires forall t :: t in S ==> t.sessionId != ""
    modifies ds
    ensures ds.Valid() && Sound(S, ds.rep) && Coarsens(old(ds.rep), ds.rep)
    ensures ResolvedTo(ds.rep, anchors, s, |s.lineage.externalRefs|)
  {
    hide Linked, Connected, Coarsens, ResolvedTo, Sound;
    var refs := s.lineage.externalRefs;
    CoarsensSelf(ds.rep);
    ResolvedNone(ds.rep, anchors, s);
    for j := 0 to |refs|
      invariant ds.Valid() && Sound(S, ds.rep) && Coarsens(old(ds.rep), ds.rep)
      invariant ResolvedTo(ds.rep, anchors, s, j)
    {
      ghost var was := ds.rep;
      CoarsensSelf(was);
      SoundRep(S, was, s);
      if refs[j] in anchors {
        var owner := anchors[refs[j]];
        ghost var t := OwnerLinked(S, anchors, refs[j], s);
        if owner != "" && owner != s.sessionId {
          Join(S, ds, owner, s.sessionId, t, s);
        }
      }
      CoarsensTrans(old(ds.rep), was, ds.rep);
      ResolvedStep(was, ds.rep, anchors, s, j);
    }
  }

  method LinkForks(ghost S: set<SegmentInput>, ids: set<string>, s: SegmentInput, ds: DisjointSets)
    requires ds.Valid() && Sound(S, ds.rep) && s in S && ids == set s | s in S :: s.sessionId
    modifies ds
    ensures ds.Valid() && Sound(S, ds.rep) && Coarsens(old(ds.rep), ds.rep)
    ensures ForkedTo(ds.rep, s, |s.lineage.forkedFromSessionIds|)
  {
    var sids := s.lineage.forkedFromSessionIds;
    for j := 0 to |sids|
      invariant ds.Valid() && Sound(S, ds.rep) && Coarsens(old(ds.rep), ds.rep)
      invariant ForkedTo(ds.rep, s, j)
    {
      if sids[j] in ids && sids[j] != s.sessionId {
        ghost var t :| t in S && t.sessionId == sids[j];
        assert ForkOf(s, t);
        Join(S, ds, sids[j], s.sessionId, t, s);
      }
    }
  }

  /** The evidence in one segment is reflected in the roots. */
  ghost predicate Reflected(rep: map<string, string>, anchors: map<string, string>, s: SegmentInput) {
    s.sessionId in rep && Anchored(rep, anchors, s) && Referred(rep, anchors, s)
  }

  lemma LinkedSameRoot(rep: map<string, string>, anchors: map<string, string>, a: SegmentInput, b: SegmentInput)
    requires Linked(a, b) && Reflected(rep, anchors, a) && Reflected(rep, anchors, b)
    ensures SameRoot(rep, a.sessionId, b.sessionId)
  {
    if ForkOf(a, b) || ForkOf(b, a) {
    } else if SharesAnchor(a, b) {
      var u :| u in Own(a) && u in Own(b);
    } else if RefersTo(a, b) {
      var u :| u in a.lineage.externalRefs && u in Own(b);
    } else {
      var u :| u in b.lineage.externalRefs && u in Own(a);
    }
  }

  lemma {:induction false} ChainSameRoot(S: set<SegmentInput>, rep: map<string, string>, anchors: map<string, string>,
                                         p: seq<SegmentInput>)
    requires Chain(S, p) && forall s :: s in S ==> Reflected(rep, anchors, s)
    ensures SameRoot(rep, p[0].sessionId, p[|p| - 1].sessionId)
  {
    assert Reflected(rep, anchors, p[|p| - 1]);
    if |p| > 1 {
      var q := p[..|p| - 1];
      forall i | 0 < i < |q| ensures Step(q, i) {
        assert Step(p, i);
      }
      ChainSameRoot(S, rep, anchors, q);
      assert Step(p, |p| - 1);
      LinkedSameRoot(rep, anchors, p[|p| - 2], p[|p| - 1]);
    }
  }

  lemma RootsExact(S: set<SegmentInput>, rep: map<string, string>, anchors: map<string, string>)
    requires Sound(S, rep) && forall s :: s in S ==> Reflected(rep, anchors, s)
    ensures Exact(S, rep)
  {
    forall a, b | a in S && b in S && Connected(S, a, b)
      ensures SameRoot(rep, a.sessionId, b.sessionId)
    {
      var p :| Chain(S, p) && p[0] == a && p[|p| - 1] == b;
      ChainSameRoot(S, rep, anchors, p);
    }
  }

  // ---- The grouping pass

  /** Some segment of `xs` has the root of `s`. */
  ghost predicate Seen(rep: map<string, string>, xs: seq<SegmentInput>, s: SegmentInput) {
    exists k :: 0 <= k < |xs| && SameRoot(rep, xs[k].sessionId, s.sessionId)
  }

  lemma SeenStep(rep: map<string, string>, xs: seq<SegmentInput>, i: nat, s: SegmentInput)
    requires i < |xs|
    ensures Seen(rep, xs[..i + 1], s) <==>
            Seen(rep, xs[..i], s) || SameRoot(rep, xs[i].sessionId, s.sessionId)
  {
    if Seen(rep, xs[..i], s) {
      var k :| 0 <= k < i && SameRoot(rep, xs[..i][k].sessionId, s.sessionId);
      assert xs[..i + 1][k] == xs[..i][k];
    }
    if Seen(rep, xs[..i + 1], s) {
      var k :| 0 <= k <= i && SameRoot(rep, xs[..i + 1][k].sessionId, s.sessionId);
      assert k < i ==> xs[..i][k] == xs[..i + 1][k];
    }
    assert xs[..i + 1][i] == xs[i];
  }

  lemma NotSeen(rep: map<string, string>, xs: seq<SegmentInput>, i: nat, s: SegmentInput)
    requires i <= |xs| && !Seen(rep, xs[..i], s)
    ensures forall k :: 0 <= k < i ==> !SameRoot(rep, xs[k].sessionId, s.sessionId)
  {
    forall k | 0 <= k < i ensures !SameRoot(rep, xs[k].sessionId, s.sessionId) {
      assert xs[..i][k] == xs[k];
    }
  }

  /** In ascending order, a segment starts a new group exactly when it is a head. */
  lemma HeadStartsGroup(c: Collation, S: set<SegmentInput>, ordered: seq<SegmentInput>, rep: map<string, string>, i: nat)
    requires Identified(c, S) && Ascending(c, ordered) && SetOf(ordered) == S && Exact(S, rep) && i < |ordered|
    ensures IsHead(c, S, ordered[i]) <==> !Seen(rep, ordered[..i], ordered[i])
  {
    var s := ordered[i];
    assert forall k :: 0 <= k < |ordered| ==> ordered[k] in S;
    if Seen(rep, ordered[..i], s) {
      var k :| 0 <= k < i && SameRoot(rep, ordered[..i][k].sessionId, s.sessionId);
      ConnectedSymmetric(S, ordered[k], s);
      assert Before(c, ordered[k], s);
    } else {
      NotSeen(rep, ordered, i, s);
      forall t | Connected(S, s, t) ensures !Before(c, t, s) {
        ConnectedMembers(S, s, t);
        assert t in SetOf(ordered);
        var k :| 0 <= k < |ordered| && ordered[k] == t;
        ConnectedSymmetric(S, s, t);
        assert SameRoot(rep, t.sessionId, s.sessionId);
      }
    }
  }

  /** The group of `h` holds the members of its component among `xs`. */
  ghost predicate GroupAt(S: set<SegmentInput>, rep: map<string, string>, groups: map<string, seq<SegmentInput>>,
                          h: SegmentInput, xs: seq<SegmentInput>)
  {
    && h.sessionId in rep && rep[h.sessionId] in groups
    && groups[rep[h.sessionId]] == Select(S, h, xs)
  }

  lemma SelectStep(S: set<SegmentInput>, h: SegmentInput, xs: seq<SegmentInput>, i: nat)
    requires i < |xs|
    ensures Select(S, h, xs[..i + 1]) ==
            if Connected(S, h, xs[i]) then Select(S, h, xs[..i]) + [xs[i]] else Select(S, h, xs[..i])
  {
    assert xs[..i + 1][..i] == xs[..i];
  }

  lemma HeadsStep(c: Collation, S: set<SegmentInput>, xs: seq<SegmentInput>, i: nat)
    requires i < |xs|
    ensures HeadsIn(c, S, xs[..i + 1]) ==
            if IsHead(c, S, xs[i]) then HeadsIn(c, S, xs[..i]) + [xs[i]] else HeadsIn(c, S, xs[..i])
  {
    assert xs[..i + 1][..i] == xs[..i];
  }

  /** Adding `s` to the group of its root keeps every group right. */
  lemma GroupStep(S: set<SegmentInput>, rep: map<string, string>, groups: map<string, seq<SegmentInput>>,
                  h: SegmentInput, xs: seq<SegmentInput>, i: nat)
    requires Exact(S, rep) && i < |xs| && xs[i] in S && h in S && xs[i].sessionId in rep
    requires GroupAt(S, rep, groups, h, xs[..i])
    ensures var (s, root) := (xs[i], rep[xs[i].sessionId]);
      GroupAt(S, rep, groups[root := (if root in groups then groups[root] else []) + [s]], h, xs[..i + 1])
  {
    SelectStep(S, h, xs, i);
    assert SameRoot(rep, h.sessionId, xs[i].sessionId) <==> Connected(S, h, xs[i]);
  }

  lemma {:induction false} SelectNone(S: set<SegmentInput>, h: SegmentInput, xs: seq<SegmentInput>)
    requires forall k :: 0 <= k < |xs| ==> !Connected(S, h, xs[k])
    ensures Select(S, h, xs) == []
  {
    if xs != [] {
      SelectNone(S, h, xs[..|xs| - 1]);
    }
  }

  lemma NewGroup(S: set<SegmentInput>, rep: map<string, string>, groups: map<string, seq<SegmentInput>>,
                 xs: seq<SegmentInput>, i: nat)
    requires Exact(S, rep) && i < |xs| && xs[i].sessionId in rep
    requires forall k :: 0 <= k <= i ==> xs[k] in S
    requires !Seen(rep, xs[..i], xs[i])
    ensures GroupAt(S, rep, groups[rep[xs[i].sessionId] := [xs[i]]], xs[i], xs[..i + 1])
  {
    var s := xs[i];
    NotSeen(rep, xs, i, s);
    assert forall k :: 0 <= k < i ==> xs[..i][k] == xs[k] && !SameRoot(rep, s.sessionId, xs[k].sessionId);
    SelectNone(S, s, xs[..i]);
    SelectStep(S, s, xs, i);
    ConnectedReflexive(S, s);
  }

  /** Every head among `xs` has its group, under its root. */
  ghost predicate HeadGroups(S: set<SegmentInput>, rep: map<string, string>, xs: seq<SegmentInput>,
                             heads: seq<SegmentInput>, roots: seq<string>, groups: map<string, seq<SegmentInput>>)
  {
    && |roots| == |heads|
    && forall j {:trigger GroupAt(S, rep, groups, heads[j], xs)} :: 0 <= j < |heads| ==>
        GroupAt(S, rep, groups, heads[j], xs) && roots[j] == rep[heads[j].sessionId]
  }

  /** The roots with a group are those of the segments of `xs`. */
  ghost predicate GroupKeys(S: set<SegmentInput>, rep: map<string, string>, xs: seq<SegmentInput>,
                            groups: map<string, seq<SegmentInput>>)
  {
    forall s {:trigger Seen(rep, xs, s)} :: s in S ==>
      s.sessionId in rep && (rep[s.sessionId] in groups <==> Seen(rep, xs, s))
  }

  /** `groups` with `s` pushed on the group of `root`. */
  function Pushed(groups: map<string, seq<SegmentInput>>, root: string, s: SegmentInput): map<string, seq<SegmentInput>> {
    groups[root := (if root in groups then groups[root] else []) + [s]]
  }

  lemma GroupKeysStep(S: set<SegmentInput>, rep: map<string, string>, xs: seq<SegmentInput>, i: nat,
                      groups: map<string, seq<SegmentInput>>)
    requires i < |xs| && xs[i].sessionId in rep && GroupKeys(S, rep, xs[..i], groups)
    ensures GroupKeys(S, rep, xs[..i + 1], Pushed(groups, rep[xs[i].sessionId], xs[i]))
  {
    forall s | s in S
      ensures s.sessionId in rep
      ensures rep[s.sessionId] in Pushed(groups, rep[xs[i].sessionId], xs[i]) <==> Seen(rep, xs[..i + 1], s)
    {
      SeenStep(rep, xs, i, s);
      assert Seen(rep, xs[..i], s) || !Seen(rep, xs[..i], s);
    }
  }

  lemma HeadGroupsStep(S: set<SegmentInput>, rep: map<string, string>, xs: seq<SegmentInput>, i: nat,
                       heads: seq<SegmentInput>, roots: seq<string>, groups: map<string, seq<SegmentInput>>)
    requires Exact(S, rep) && i < |xs| && xs[i] in S && xs[i].sessionId in rep
    requires forall h :: h in heads ==> h in S
    requires HeadGroups(S, rep, xs[..i], heads, roots, groups)
    ensures HeadGroups(S, rep, xs[..i + 1], heads, roots, Pushed(groups, rep[xs[i].sessionId], xs[i]))
  {
    var now := Pushed(groups, rep[xs[i].sessionId], xs[i]);
    forall j | 0 <= j < |heads|
      ensures GroupAt(S, rep, now, heads[j], xs[..i + 1]) && roots[j] == rep[heads[j].sessionId]
    {
      assert GroupAt(S, rep, groups, heads[j], xs[..i]) && heads[j] in heads;
      GroupStep(S, rep, groups, heads[j], xs, i);
    }
  }

  lemma GroupedStep(c: Collation, S: set<SegmentInput>, rep: map<string, string>, ordered: seq<SegmentInput>, i: nat,
                    roots: seq<string>, groups: map<string, seq<SegmentInput>>)
    requires Identified(c, S) && Ascending(c, ordered) && SetOf(ordered) == S && Exact(S, rep) && i < |ordered|
    requires ordered[i].sessionId in rep
    requires HeadGroups(S, rep, ordered[..i], HeadsIn(c, S, ordered[..i]), roots, groups)
    requires GroupKeys(S, rep, ordered[..i], groups)
    ensures var root := rep[ordered[i].sessionId];
      HeadGroups(S, rep, ordered[..i + 1], HeadsIn(c, S, ordered[..i + 1]),
        if root in groups then roots else roots + [root], Pushed(groups, root, ordered[i]))
  {
    var (s, root) := (ordered[i], rep[ordered[i].sessionId]);
    assert forall k :: 0 <= k < |ordered| ==> ordered[k] in S;
    var heads := HeadsIn(c, S, ordered[..i]);
    HeadGroupsStep(S, rep, ordered, i, heads, roots, groups);
    HeadsStep(c, S, ordered, i);
    HeadStartsGroup(c, S, ordered, rep, i);
    assert root in groups <==> Seen(rep, ordered[..i], s);
    if root !in groups {
      NewGroup(S, rep, groups, ordered, i);
      assert [] + [s] == [s];
      NewHead(S, rep, ordered[..i + 1], heads, roots, Pushed(groups, root, s), s);
    }
  }

  lemma NewHead(S: set<SegmentInput>, rep: map<string, string>, xs: seq<SegmentInput>, heads: seq<SegmentInput>,
                roots: seq<string>, groups: map<string, seq<SegmentInput>>, s: SegmentInput)
    requires HeadGroups(S, rep, xs, heads, roots, groups) && GroupAt(S, rep, groups, s, xs)
    ensures HeadGroups(S, rep, xs, heads + [s], roots + [rep[s.sessionId]], groups)
  {
    var now := heads + [s];
    forall j | 0 <= j < |now|
      ensures GroupAt(S, rep, groups, now[j], xs) && (roots + [rep[s.sessionId]])[j] == rep[now[j].sessionId]
    {
      assert j < |heads| ==> GroupAt(S, rep, groups, heads[j], xs);
    }
  }

  /** Groups the segments by root. `roots` lists the keys of `groups` in insertion order. */
  method Group(ghost c: Collation, ghost S: set<SegmentInput>, ordered: seq<SegmentInput>, ds: DisjointSets)
    returns (roots: seq<string>, groups: map<string, seq<SegmentInput>>)
    requires ds.Valid() && Identified(c, S) && Ascending(c, ordered) && SetOf(ordered) == S && Exact(S, ds.rep)
    modifies ds
    ensures ds.Valid() && ds.rep == old(ds.rep)
    ensures HeadGroups(S, ds.rep, ordered, HeadsIn(c, S, ordered), roots, groups)
  {
    hide Connected, Identified;
    roots, groups := [], map[];
    GroupKeysStart(S, ds.rep);
    for i := 0 to |ordered|
      invariant ds.Valid() && ds.rep == old(ds.rep)
      invariant HeadGroups(S, ds.rep, ordered[..i], HeadsIn(c, S, ordered[..i]), roots, groups)
      invariant GroupKeys(S, ds.rep, ordered[..i], groups)
    {
      var s := ordered[i];
      InRep(S, ds.rep, s);
      var root := ds.Find(s.sessionId);
      GroupedStep(c, S, ds.rep, ordered, i, roots, groups);
      GroupKeysStep(S, ds.rep, ordered, i, groups);
      if root !in groups {
        roots := roots + [root];
      }
      groups := Pushed(groups, root, s);
    }
    assert ordered[..|ordered|] == ordered;
  }

  lemma InRep(S: set<SegmentInput>, rep: map<string, string>, s: SegmentInput)
    requires Covers(S, rep) && s in S
    ensures s.sessionId in rep
  {
  }

  lemma GroupKeysStart(S: set<SegmentInput>, rep: map<string, string>)
    requires Covers(S, rep)
    ensures GroupKeys(S, rep, [], map[])
  {
    forall s | s in S ensures s.sessionId in rep {
      InRep(S, rep, s);
    }
  }

  /** `endedAt` of a Builder: the latest end of its members. */
  method EndedAt(c: Collation, members: seq<SegmentInput>) returns (endedAt: Option<string>)
    ensures endedAt == LatestEnd(c, members)
  {
    endedAt := None;
    for k := 0 to |members|
      invariant endedAt == LatestEnd(c, members[..k])
    {
      assert members[..k + 1][..k] == members[..k];
      var m := members[k];
      var e := if m.endedAt.Some? then m.endedAt else m.startedAt;
      if e.Some? && e.value != "" && (endedAt.None? || c.codeUnit(e.value) > c.codeUnit(endedAt.value)) {
        endedAt := e;
      }
    }
    assert members[..|members|] == members;
  }

  /**
   * The Builders of `segments`, newest first. The result is a function of the
   * set of segments: neither the input order nor the order of the unions shows.
   */
  method StitchBuilders(c: Collation, segments: seq<SegmentInput>) returns (builders: seq<StitchedBuilder>)
    requires Identified(c, SetOf(segments)) && NoRepeats(segments)
    ensures builders == Stitched(c, SetOf(segments))
  {
    ghost var S := SetOf(segments);
    SortByStartSorts(c, segments);
    var ordered := SortByStart(c, segments);
    AscendingUnique(c, ordered, Ordered(c, S));
    var ds := Classify(S, ordered);
    var roots, groups := Group(c, S, ordered, ds);
    builders := Assemble(c, S, HeadsIn(c, S, ordered), ds.rep, roots, groups);
    builders := SortNewest(c, builders);
  }

  /** The classes of the "continues" relation: both linking passes, over singletons. */
  method Classify(ghost S: set<SegmentInput>, ordered: seq<SegmentInput>) returns (ds: DisjointSets)
    requires SetOf(ordered) == S && forall s :: s in S ==> s.sessionId != ""
    requires forall a, b :: a in S && b in S && a.sessionId == b.sessionId ==> a == b
    ensures fresh(ds) && ds.Valid() && Exact(S, ds.rep)
  {
    ds := new DisjointSets(IdsOf(ordered));
    StartSound(S, ordered, ds.rep);
    var anchors := LinkAnchors(ordered, ds);
    LinkReferences(ordered, anchors, ds);
    AllReflected(ordered, ds.rep, anchors);
    RootsExact(S, ds.rep, anchors);
  }

  lemma GroupBuilds(c: Collation, S: set<SegmentInput>, rep: map<string, string>, heads: seq<SegmentInput>,
                    roots: seq<string>, groups: map<string, seq<SegmentInput>>, j: nat)
    requires Identified(c, S) && (forall h :: h in heads ==> h in S)
    requires HeadGroups(S, rep, Ordered(c, S), heads, roots, groups) && j < |roots|
    ensures j < |heads| && roots[j] in groups && groups[roots[j]] != []
    ensures BuilderAt(c, S, heads[j]) == BuilderOf(c, groups[roots[j]])
  {
    assert GroupAt(S, rep, groups, heads[j], Ordered(c, S)) && heads[j] in heads;
    assert groups[roots[j]] == Members(c, S, heads[j]);
  }

  /** One Builder per group. */
  method Assemble(c: Collation, ghost S: set<SegmentInput>, ghost heads: seq<SegmentInput>, ghost rep: map<string, string>,
                  roots: seq<string>, groups: map<string, seq<SegmentInput>>)
    returns (builders: seq<StitchedBuilder>)
    requires Identified(c, S) && forall h :: h in heads ==> h in S
    requires HeadGroups(S, rep, Ordered(c, S), heads, roots, groups)
    ensures builders == BuildersFor(c, S, heads)
  {
    builders := [];
    for j := 0 to |roots|
      invariant builders == BuildersFor(c, S, heads[..j])
    {
      GroupBuilds(c, S, rep, heads, roots, groups, j);
      var members := groups[roots[j]];
      BuildersForPush(c, S, heads[..j], heads[j]);
      PrefixStep(heads, j);
      var first := members[0];
      var endedAt := EndedAt(c, members);
      builders := builders + [StitchedBuilder(first.sessionId, first.summary, first.startedAt, endedAt, IdsOf(members))];
    }
    assert heads[..|heads|] == heads;
  }

  lemma AllReflected(ordered: seq<SegmentInput>, rep: map<string, string>, anchors: map<string, string>)
    requires Covers(SetOf(ordered), rep)
    requires forall k :: 0 <= k < |ordered| ==> Anchored(rep, anchors, ordered[k])
    requires forall k :: 0 <= k < |ordered| ==> Referred(rep, anchors, ordered[k])
    ensures forall s :: s in SetOf(ordered) ==> Reflected(rep, anchors, s)
  {
    forall s | s in SetOf(ordered) ensures Reflected(rep, anchors, s) {
      InRep(SetOf(ordered), rep, s);
      var k :| 0 <= k < |ordered| && ordered[k] == s;
      assert Anchored(rep, anchors, ordered[k]);
    }
  }

  lemma StartSound(S: set<SegmentInput>, ordered: seq<SegmentInput>, rep: map<string, string>)
    requires SetOf(ordered) == S
    requires forall a, b :: a in S && b in S && a.sessionId == b.sessionId ==> a == b
    requires rep.Keys == set x | x in IdsOf(ordered)
    requires forall x :: x in rep ==> rep[x] == x
    ensures Sound(S, rep)
  {
    assert rep.Keys == set s | s in S :: s.sessionId by {
      forall s | s in S ensures s.sessionId in IdsOf(ordered) {
        assert s in SetOf(ordered);
        var k :| 0 <= k < |ordered| && ordered[k] == s;
        assert IdsOf(ordered)[k] == s.sessionId;
      }
      forall x | x in IdsOf(ordered) ensures exists s :: s in S && s.sessionId == x {
        var k :| 0 <= k < |ordered| && IdsOf(ordered)[k] == x;
        assert ordered[k] in SetOf(ordered);
      }
    }
    forall a, b | a in S && b in S && SameRoot(rep, a.sessionId, b.sessionId) ensures Connected(S, a, b) {
      ConnectedReflexive(S, a);
    }
  }
}
