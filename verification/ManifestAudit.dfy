/**
 From candidate groups to a manifest: `confirm_groups_with_audio` of check_dataset_duplicates.py over
 all groups, then the head of `build_manifest` of build_review_pool_dedup_manifest.py, which refuses
 unresolved risks, finds each component's proof by its set of members and checks that the proof
 connects it. The last two refusals are proved never to happen.
 */
module ManifestAudit {
  import opened ComponentClassifier
  import opened DedupManifest
  import opened DuplicateGroups
  import opened DuplicateRules
  import opened Graphs
  import ManifestRebuild
  import opened Sequences
  import opened Wrappers

  /** A candidate group: the ids of its members and their files. */
  datatype Group = Group(ids: seq<int>, files: seq<int>) {
    predicate Valid() { |ids| == |files| && Distinct(ids) }

    /** The id at a position. */
    function Id(k: int): int { if 0 <= k < |ids| then ids[k] else 0 }
  }

  /** The verdict and the probability of a pair of clips. */
  datatype Ears = Ears(verdict: (int, int) -> Verdict, probable: (int, int) -> bool)

  function AudioOf(g: Group, ears: Ears): Audio {
    Audio(g.files, (i, j) => ears.verdict(g.Id(i), g.Id(j)), (i, j) => ears.probable(g.Id(i), g.Id(j)))
  }

  ghost function EdgesIn(g: Group, ears: Ears, v: Verdict): Edges {
    EdgesOf(g.files, AudioOf(g, ears).verdict, v)
  }

  /** Groups share no member. */
  ghost predicate Candidates(gs: seq<Group>) {
    && (forall k | 0 <= k < |gs| :: gs[k].Valid())
    && forall i, j, id | 0 <= i < j < |gs| && id in gs[i].ids :: id !in gs[j].ids
  }

  /** The groups of rows that the duplicate audit returns, as candidate groups. */
  function GroupOf(rows: seq<Row>, g: seq<nat>): (r: Group)
    requires forall k | k in g :: k < |rows|
    ensures |r.ids| == |r.files| == |g|
    ensures forall k | 0 <= k < |g| ::
              g[k] in g && r.ids[k] == rows[g[k]].entry.id && r.files[k] == rows[g[k]].entry.file
  {
    Group(seq(|g|, k requires 0 <= k < |g| => assert g[k] in g; rows[g[k]].entry.id),
          seq(|g|, k requires 0 <= k < |g| => assert g[k] in g; rows[g[k]].entry.file))
  }

  ghost predicate GroupsOf(rows: seq<Row>, groups: seq<seq<nat>>, gs: seq<Group>) {
    && |gs| == |groups|
    && forall n | 0 <= n < |groups| :: (forall k | k in groups[n] :: k < |rows|) && gs[n] == GroupOf(rows, groups[n])
  }

  /** What `duplicate_groups` returns are candidates: no segment is in two groups or twice in one. */
  lemma AuditGivesCandidates(relation: set<(int, int)>, rows: seq<Row>, groups: seq<seq<nat>>, gs: seq<Group>)
    requires DistinctIds(rows) && Partition(relation, rows, groups) && GroupsOf(rows, groups, gs)
    ensures Candidates(gs)
  {
    forall n | 0 <= n < |gs|
      ensures gs[n].Valid()
    {
      assert groups[n] in groups;
      IdsDistinct(rows, groups[n]);
    }
    forall i, j, id | 0 <= i < j < |gs| && id in gs[i].ids
      ensures id !in gs[j].ids
    {
      IdsApart(rows, groups[i], groups[j], id);
    }
  }

  lemma IdsDistinct(rows: seq<Row>, g: seq<nat>)
    requires DistinctIds(rows) && Distinct(g) && forall k | k in g :: k < |rows|
    ensures GroupOf(rows, g).Valid()
  {
    var ids := GroupOf(rows, g).ids;
    forall i, j | 0 <= i < j < |ids|
      ensures ids[i] != ids[j]
    {
      assert g[i] != g[j];
    }
  }

  lemma IdsApart(rows: seq<Row>, g: seq<nat>, h: seq<nat>, id: int)
    requires DistinctIds(rows) && (forall k | k in g :: k < |rows| && k !in h) && (forall k | k in h :: k < |rows|)
    requires id in GroupOf(rows, g).ids
    ensures id !in GroupOf(rows, h).ids
  {
    var gi, hi := GroupOf(rows, g).ids, GroupOf(rows, h).ids;
    var a :| 0 <= a < |gi| && gi[a] == id;
    forall b | 0 <= b < |hi|
      ensures hi[b] != id
    {
      assert g[a] in g && h[b] in h;
      assert g[a] != h[b];
    }
  }

  function Named(g: Group, c: seq<nat>): (r: seq<int>)
    ensures |r| == |c| && forall k | 0 <= k < |c| :: r[k] == g.Id(c[k])
  {
    seq(|c|, k requires 0 <= k < |c| => g.Id(c[k]))
  }

  function NamedEdges(g: Group, edges: seq<(int, int)>): (r: seq<(int, int)>)
    ensures |r| == |edges| && forall k | 0 <= k < |edges| :: r[k] == (g.Id(edges[k].0), g.Id(edges[k].1))
  {
    seq(|edges|, k requires 0 <= k < |edges| => (g.Id(edges[k].0), g.Id(edges[k].1)))
  }

  datatype Proof = Proof(members: seq<int>, edges: seq<(int, int)>)

  // ----- what is confirmed

  /** A component of the true edges of a group, by ids. */
  ghost predicate IsFamily(g: Group, ears: Ears, f: seq<int>) {
    exists c :: IsComponent(EdgesIn(g, ears, Duplicate), |g.files|, c) && f == Named(g, c)
  }

  ghost predicate InSome(fs: seq<seq<int>>, a: int, b: int) {
    exists k | 0 <= k < |fs| :: a in fs[k] && b in fs[k]
  }

  ghost predicate FromSome(gs: seq<Group>, n: nat, ears: Ears, f: seq<int>)
    requires n <= |gs|
  {
    exists i | 0 <= i < n :: IsFamily(gs[i], ears, f)
  }

  /** Every true pair of the group is in one of the families. */
  ghost predicate Covers(g: Group, ears: Ears, fs: seq<seq<int>>) {
    forall e | e in EdgesIn(g, ears, Duplicate) :: InSome(fs, g.Id(e.0), g.Id(e.1))
  }

  /** The families of the first n groups: components, with every true pair in one of them. */
  ghost predicate FamiliesOf(gs: seq<Group>, n: nat, ears: Ears, fs: seq<seq<int>>)
    requires n <= |gs|
  {
    && (forall k | 0 <= k < |fs| :: FromSome(gs, n, ears, fs[k]))
    && (forall i | 0 <= i < n :: Covers(gs[i], ears, fs))
  }

  ghost predicate Apart(fs: seq<seq<int>>) {
    && (forall k | 0 <= k < |fs| :: fs[k] != [])
    && forall i, j, id | 0 <= i < j < |fs| && id in fs[i] :: id !in fs[j]
  }

  /** The edges join members, and all of them. */
  ghost predicate Proves(f: seq<int>, edges: seq<(int, int)>) {
    && (forall k | 0 <= k < |edges| :: edges[k].0 in f && edges[k].1 in f)
    && ConnectsAll(f, SetOf(edges))
  }

  ghost predicate AllProved(fs: seq<seq<int>>, proofs: seq<Proof>) {
    |proofs| == |fs| && forall k | 0 <= k < |fs| :: proofs[k].members == fs[k] && Proves(fs[k], proofs[k].edges)
  }

  lemma ProofNamed(g: Group, trues: Edges, c: seq<nat>, edges: seq<(int, int)>)
    requires c != [] && ProvesComponent(trues, c, edges)
    ensures Proves(Named(g, c), NamedEdges(g, edges))
  {
    var f, named, id := Named(g, c), NamedEdges(g, edges), (k: int) => g.Id(k);
    forall k | 0 <= k < |edges|
      ensures named[k].0 in f && named[k].1 in f
    {
      assert edges[k] in edges;
      var i :| 0 <= i < |c| && c[i] == edges[k].0;
      var j :| 0 <= j < |c| && c[j] == edges[k].1;
      assert f[i] == named[k].0 && f[j] == named[k].1;
    }
    forall e | e in SetOf(edges)
      ensures (id(e.0), id(e.1)) in SetOf(named)
    {
      var k :| 0 <= k < |edges| && edges[k] == e;
      assert named[k] in named;
    }
    forall i, j | 0 <= i < |f| && 0 <= j < |f|
      ensures Connected(SetOf(named), f[i], f[j])
    {
      assert c[i] in c && c[j] in c;
      ConnectedImage(SetOf(edges), SetOf(named), id, c[i], c[j]);
    }
  }

  function NamedAll(g: Group, cs: seq<seq<nat>>): (r: seq<seq<int>>)
    ensures |r| == |cs| && forall k | 0 <= k < |cs| :: r[k] == Named(g, cs[k])
  {
    seq(|cs|, k requires 0 <= k < |cs| => Named(g, cs[k]))
  }

  /** The proof of each component: its members and its edges, by ids. */
  function ProofsOf(g: Group, cs: seq<seq<nat>>, proof: seq<seq<(int, int)>>): (r: seq<Proof>)
    requires |proof| == |cs|
    ensures |r| == |cs| && forall k | 0 <= k < |cs| :: r[k] == Proof(Named(g, cs[k]), NamedEdges(g, proof[k]))
  {
    seq(|cs|, k requires 0 <= k < |cs| => Proof(Named(g, cs[k]), NamedEdges(g, proof[k])))
  }

  lemma NamesDiffer(g: Group, c: seq<nat>, d: seq<nat>, id: int)
    requires g.Valid() && (forall x | x in c :: x < |g.ids| && x !in d) && (forall x | x in d :: x < |g.ids|)
    requires id in Named(g, c)
    ensures id !in Named(g, d)
  {
    var f, h := Named(g, c), Named(g, d);
    var a :| 0 <= a < |f| && f[a] == id;
    assert c[a] in c;
    forall b | 0 <= b < |h|
      ensures h[b] != id
    {
      assert d[b] in d;
      assert c[a] != d[b];
    }
  }

  lemma ComponentsApart(g: Group, cs: seq<seq<nat>>)
    requires g.Valid() && Disjoint(cs)
    requires forall k | 0 <= k < |cs| :: cs[k] != [] && forall x | x in cs[k] :: x < |g.ids|
    ensures Apart(NamedAll(g, cs))
  {
    var fs := NamedAll(g, cs);
    forall i, j, id | 0 <= i < j < |fs| && id in fs[i]
      ensures id !in fs[j]
    {
      NamesDiffer(g, cs[i], cs[j], id);
    }
  }

  lemma ComponentsProved(g: Group, trues: Edges, cs: seq<seq<nat>>, proof: seq<seq<(int, int)>>)
    requires |proof| == |cs|
    requires forall k | 0 <= k < |cs| :: cs[k] != [] && ProvesComponent(trues, cs[k], proof[k])
    ensures AllProved(NamedAll(g, cs), ProofsOf(g, cs, proof))
  {
    forall k | 0 <= k < |cs|
      ensures Proves(Named(g, cs[k]), NamedEdges(g, proof[k]))
    {
      ProofNamed(g, trues, cs[k], proof[k]);
    }
  }

  lemma ComponentsCover(g: Group, cs: seq<seq<nat>>, e: (int, int))
    requires HeldBySome(cs, e)
    ensures InSome(NamedAll(g, cs), g.Id(e.0), g.Id(e.1))
  {
    var fs := NamedAll(g, cs);
    var k :| 0 <= k < |cs| && Holds(cs[k], e);
    var i :| 0 <= i < |cs[k]| && cs[k][i] == e.0;
    var j :| 0 <= j < |cs[k]| && cs[k][j] == e.1;
    assert fs[k][i] == g.Id(e.0) && fs[k][j] == g.Id(e.1);
  }

  // ----- confirmation

  method ConfirmGroup(g: Group, ears: Ears) returns (fs: seq<seq<int>>, risky: bool, proofs: seq<Proof>)
    requires g.Valid()
    ensures Apart(fs) && AllProved(fs, proofs) && (forall k | 0 <= k < |fs| :: IsFamily(g, ears, fs[k]))
    ensures Covers(g, ears, fs)
    ensures risky <==> EdgesIn(g, ears, Undecided) != {}
  {
    var confirmed, unconfirmed, repeated, proof, probables := Classify(AudioOf(g, ears));
    ghost var trues, unknowns := EdgesIn(g, ears, Duplicate), EdgesIn(g, ears, Undecided);
    fs, proofs := NamedAll(g, confirmed), ProofsOf(g, confirmed, proof);
    risky := unconfirmed != [];
    GroupConfirmed(g, trues, unknowns, confirmed, unconfirmed, proof);
  }

  lemma GroupConfirmed(g: Group, trues: Edges, unknowns: Edges, confirmed: seq<seq<nat>>, unconfirmed: seq<seq<nat>>,
                       proof: seq<seq<(int, int)>>)
    requires g.Valid() && Classified(g.files, trues, unknowns, confirmed, unconfirmed, proof)
    ensures Apart(NamedAll(g, confirmed)) && AllProved(NamedAll(g, confirmed), ProofsOf(g, confirmed, proof))
    ensures forall e | e in trues :: InSome(NamedAll(g, confirmed), g.Id(e.0), g.Id(e.1))
    ensures unconfirmed != [] <==> unknowns != {}
  {
    ComponentsApart(g, confirmed);
    ComponentsProved(g, trues, confirmed, proof);
    RiskyMeans(trues, unknowns, |g.files|, unconfirmed);
    forall e | e in trues
      ensures InSome(NamedAll(g, confirmed), g.Id(e.0), g.Id(e.1))
    {
      ComponentsCover(g, confirmed, e);
    }
  }

  lemma RiskyMeans(trues: Edges, unknowns: Edges, n: nat, unconfirmed: seq<seq<nat>>)
    requires CoversEdges(trues + unknowns, n, unknowns, unconfirmed)
    ensures unconfirmed != [] <==> unknowns != {}
  {
    if unknowns != {} {
      var e :| e in unknowns;
      assert HeldBySome(unconfirmed, e);
    }
    if unconfirmed != [] {
      assert HoldsSome(unknowns, unconfirmed[0]);
    }
  }

  /** Some pair of the first n groups is unresolved. */
  ghost predicate SomeUndecided(gs: seq<Group>, n: nat, ears: Ears)
    requires n <= |gs|
  {
    exists i | 0 <= i < n :: EdgesIn(gs[i], ears, Undecided) != {}
  }

  /** Every member of these lists belongs to one of the first n groups. */
  ghost predicate Within(gs: seq<Group>, n: nat, fs: seq<seq<int>>)
    requires n <= |gs|
  {
    forall k, id | 0 <= k < |fs| && id in fs[k] :: exists i | 0 <= i < n :: id in gs[i].ids
  }

  lemma FamilyWithin(g: Group, ears: Ears, f: seq<int>, id: int)
    requires g.Valid() && IsFamily(g, ears, f) && id in f
    ensures id in g.ids
  {
    var c :| IsComponent(EdgesIn(g, ears, Duplicate), |g.files|, c) && f == Named(g, c);
    var k :| 0 <= k < |f| && f[k] == id;
    assert c[k] in c;
  }

  lemma ApartJoin(gs: seq<Group>, n: nat, ears: Ears, fs: seq<seq<int>>, more: seq<seq<int>>)
    requires Candidates(gs) && n < |gs| && Apart(fs) && Apart(more) && Within(gs, n, fs)
    requires forall k | 0 <= k < |more| :: IsFamily(gs[n], ears, more[k])
    ensures Apart(fs + more) && Within(gs, n + 1, fs + more)
  {
    var all := fs + more;
    forall k, id | 0 <= k < |more| && id in more[k]
      ensures id in gs[n].ids
    {
      FamilyWithin(gs[n], ears, more[k], id);
    }
    forall i, j, id | 0 <= i < j < |all| && id in all[i]
      ensures id !in all[j]
    {
      if i < |fs| <= j {
        assert id in fs[i];
        assert all[j] == more[j - |fs|];
      } else if |fs| <= i {
        assert all[i] == more[i - |fs|] && all[j] == more[j - |fs|];
      }
    }
  }

  lemma CoversMore(g: Group, ears: Ears, fs: seq<seq<int>>, more: seq<seq<int>>)
    requires Covers(g, ears, fs) || Covers(g, ears, more)
    ensures Covers(g, ears, fs + more)
  {
    var all := fs + more;
    forall e | e in EdgesIn(g, ears, Duplicate)
      ensures InSome(all, g.Id(e.0), g.Id(e.1))
    {
      var a, b := g.Id(e.0), g.Id(e.1);
      if Covers(g, ears, fs) {
        assert InSome(fs, a, b);
        var k :| 0 <= k < |fs| && a in fs[k] && b in fs[k];
        assert all[k] == fs[k];
      } else {
        assert InSome(more, a, b);
        var k :| 0 <= k < |more| && a in more[k] && b in more[k];
        assert all[|fs| + k] == more[k];
      }
    }
  }

  lemma FamiliesJoin(gs: seq<Group>, n: nat, ears: Ears, fs: seq<seq<int>>, more: seq<seq<int>>)
    requires n < |gs| && FamiliesOf(gs, n, ears, fs) && Covers(gs[n], ears, more)
    requires forall k | 0 <= k < |more| :: IsFamily(gs[n], ears, more[k])
    ensures FamiliesOf(gs, n + 1, ears, fs + more)
  {
    var all, m := fs + more, n + 1;
    forall i | 0 <= i < m
      ensures Covers(gs[i], ears, all)
    {
      CoversMore(gs[i], ears, fs, more);
    }
    forall k | 0 <= k < |all|
      ensures FromSome(gs, m, ears, all[k])
    {
      if k < |fs| {
        assert FromSome(gs, n, ears, fs[k]);
      } else {
        assert all[k] == more[k - |fs|];
      }
    }
  }

  lemma ProvedJoin(fs: seq<seq<int>>, proofs: seq<Proof>, more: seq<seq<int>>, evidence: seq<Proof>)
    requires AllProved(fs, proofs) && AllProved(more, evidence)
    ensures AllProved(fs + more, proofs + evidence)
  {
  }

  /** `confirm_groups_with_audio` over all candidate groups. */
  method Confirm(gs: seq<Group>, ears: Ears) returns (fs: seq<seq<int>>, risky: bool, proofs: seq<Proof>)
    requires Candidates(gs)
    ensures FamiliesOf(gs, |gs|, ears, fs) && Apart(fs) && AllProved(fs, proofs)
    ensures risky <==> SomeUndecided(gs, |gs|, ears)
  {
    fs, risky, proofs := [], false, [];
    for n := 0 to |gs|
      invariant FamiliesOf(gs, n, ears, fs) && Apart(fs) && AllProved(fs, proofs) && Within(gs, n, fs)
      invariant risky <==> SomeUndecided(gs, n, ears)
    {
      var more, unresolved, evidence := ConfirmGroup(gs[n], ears);
      FamiliesJoin(gs, n, ears, fs, more);
      ApartJoin(gs, n, ears, fs, more);
      ProvedJoin(fs, proofs, more, evidence);
      fs, risky, proofs := fs + more, risky || unresolved, proofs + evidence;
    }
  }

  // ----- the proof of each component

  function IdSet(f: seq<int>): set<int> { set id | id in f }

  lemma SetsDiffer(fs: seq<seq<int>>, i: nat, j: nat)
    requires Apart(fs) && i < |fs| && j < |fs| && IdSet(fs[i]) == IdSet(fs[j])
    ensures i == j
  {
    var id := fs[i][0];
    assert id in fs[i];
    assert id in IdSet(fs[j]);
    assert id in fs[j];
  }

  /** `proof_by_members`. */
  method ProofByMembers(fs: seq<seq<int>>, proofs: seq<Proof>) returns (edges: map<set<int>, seq<(int, int)>>)
    requires Apart(fs) && AllProved(fs, proofs)
    ensures forall k | 0 <= k < |fs| :: IdSet(fs[k]) in edges && edges[IdSet(fs[k])] == proofs[k].edges
  {
    edges := map[];
    for n := 0 to |proofs|
      invariant forall k | 0 <= k < n :: IdSet(fs[k]) in edges && edges[IdSet(fs[k])] == proofs[k].edges
    {
      forall k | 0 <= k < n
        ensures IdSet(fs[k]) != IdSet(fs[n])
      {
        if IdSet(fs[k]) == IdSet(fs[n]) { SetsDiffer(fs, k, n); }
      }
      edges := edges[IdSet(proofs[n].members) := proofs[n].edges];
    }
  }

  /** Every component finds its proof by its members and passes `_connected`. */
  method AllWaveformConnected(fs: seq<seq<int>>, proofs: seq<Proof>, oneVoice: seq<bool>) returns (ok: bool)
    requires Apart(fs) && AllProved(fs, proofs) && |oneVoice| == |fs|
    ensures ok
  {
    var edges := ProofByMembers(fs, proofs);
    ok := true;
    for n := 0 to |fs|
      invariant ok
    {
      if oneVoice[n] {
        var found := edges[IdSet(fs[n])];
        assert Proves(fs[n], proofs[n].edges);
        var connected := AllConnected(fs[n], found);
        ok := ok && connected;
      }
    }
  }

  // ----- the manifest

  /** What the database says of a segment. */
  datatype Pool = Pool(member: int -> Member, voice: int -> string)

  ghost predicate Keyed(pool: Pool) { forall id :: pool.member(id).id == id }

  predicate OneVoice(f: seq<int>, pool: Pool) {
    forall k | 0 <= k < |f| :: pool.voice(f[k]) == pool.voice(f[0])
  }

  function MembersOf(f: seq<int>, pool: Pool): (ms: seq<Member>)
    ensures |ms| == |f| && forall k | 0 <= k < |f| :: ms[k] == pool.member(f[k])
  {
    seq(|f|, k requires 0 <= k < |f| => pool.member(f[k]))
  }

  function ComponentsIn(fs: seq<seq<int>>, pool: Pool): (cs: seq<Component>)
    ensures |cs| == |fs|
    ensures forall k | 0 <= k < |fs| :: cs[k] == Component(MembersOf(fs[k], pool), OneVoice(fs[k], pool))
  {
    seq(|fs|, k requires 0 <= k < |fs| => Component(MembersOf(fs[k], pool), OneVoice(fs[k], pool)))
  }

  function Voices(fs: seq<seq<int>>, pool: Pool): (r: seq<bool>)
    ensures |r| == |fs|
  {
    seq(|fs|, k requires 0 <= k < |fs| => OneVoice(fs[k], pool))
  }

  lemma HasIffIn(f: seq<int>, pool: Pool, id: int)
    requires Keyed(pool)
    ensures Has(MembersOf(f, pool), id) <==> id in f
  {
    var ms := MembersOf(f, pool);
    if Has(ms, id) {
      var m :| m in ms && m.id == id;
      var k :| 0 <= k < |ms| && ms[k] == m;
      assert f[k] == id;
    }
    if id in f {
      var k :| 0 <= k < |f| && f[k] == id;
      assert ms[k] in ms;
    }
  }

  lemma FamiliesAreSeparate(fs: seq<seq<int>>, pool: Pool)
    requires Keyed(pool) && Apart(fs)
    ensures Separate(ComponentsIn(fs, pool))
  {
    var cs := ComponentsIn(fs, pool);
    forall i, j, id | 0 <= i < j < |cs| && Has(cs[i].members, id)
      ensures !Has(cs[j].members, id)
    {
      HasIffIn(fs[i], pool, id);
      HasIffIn(fs[j], pool, id);
    }
  }

  ghost predicate SameVoice(f: seq<int>, pool: Pool) {
    forall x, y | x in f && y in f :: pool.voice(x) == pool.voice(y)
  }

  /** The family holds the pool's record of each segment of the component. */
  ghost predicate Carries(family: Family, f: seq<int>, pool: Pool) {
    |family.members| == |f| && forall k | 0 <= k < |f| :: family.members[k] == pool.member(f[k])
  }

  lemma OneVoiceIff(f: seq<int>, pool: Pool)
    ensures OneVoice(f, pool) <==> SameVoice(f, pool)
  {
    if OneVoice(f, pool) {
      forall x, y | x in f && y in f
        ensures pool.voice(x) == pool.voice(y)
      {
        var i, j :| 0 <= i < |f| && 0 <= j < |f| && f[i] == x && f[j] == y;
      }
    }
    if SameVoice(f, pool) {
      forall k | 0 <= k < |f|
        ensures pool.voice(f[k]) == pool.voice(f[0])
      {
        var x, y := f[k], f[0];
        assert x in f && y in f;
        assert pool.voice(x) == pool.voice(y);
      }
    }
  }

  /** A component under two voice names never becomes a family: every family carries one of a single voice. */
  lemma FamilyCarries(fs: seq<seq<int>>, pool: Pool, applied: map<int, int>, k: nat) returns (i: nat)
    requires Separate(ComponentsIn(fs, pool)) && k < |FamiliesUpTo(ComponentsIn(fs, pool), applied, |fs|)|
    ensures i < |fs| && SameVoice(fs[i], pool)
    ensures Carries(FamiliesUpTo(ComponentsIn(fs, pool), applied, |fs|)[k], fs[i], pool)
  {
    i := FamiliesComeFrom(ComponentsIn(fs, pool), applied, |fs|, k);
    OneVoiceIff(fs[i], pool);
  }

  /** Every component of a single voice becomes a family. */
  lemma CarriedByFamily(fs: seq<seq<int>>, pool: Pool, applied: map<int, int>, i: nat) returns (k: nat)
    requires Apart(fs) && Separate(ComponentsIn(fs, pool)) && i < |fs| && SameVoice(fs[i], pool)
    ensures k < |FamiliesUpTo(ComponentsIn(fs, pool), applied, |fs|)|
    ensures Carries(FamiliesUpTo(ComponentsIn(fs, pool), applied, |fs|)[k], fs[i], pool)
  {
    OneVoiceIff(fs[i], pool);
    assert fs[i] != [] && ManifestRebuild.OneVoiced(ComponentsIn(fs, pool), i);
    k := ManifestRebuild.FamilyOf(ComponentsIn(fs, pool), applied, |fs|, i);
  }

  /** Audit and manifest together. The families are the confirmed components; a manifest is refused
      exactly for an unresolved pair, or for an applied row that it would cut off, drop or move. That a
      proof is missing or does not connect its component is never a reason. */
  method BuildFromAudit(gs: seq<Group>, ears: Ears, pool: Pool, applied: map<int, int>)
    returns (r: Result<Manifest>, fs: seq<seq<int>>)
    requires Candidates(gs) && Keyed(pool)
    ensures FamiliesOf(gs, |gs|, ears, fs) && Apart(fs) && Separate(ComponentsIn(fs, pool))
    ensures r.Ok? <==> !SomeUndecided(gs, |gs|, ears) && Buildable(ComponentsIn(fs, pool), applied)
    ensures r.Ok? ==> Supersedes(applied, r.value)
                      && r.value.families == FamiliesUpTo(ComponentsIn(fs, pool), applied, |fs|)
  {
    var risky, proofs;
    fs, risky, proofs := Confirm(gs, ears);
    FamiliesAreSeparate(fs, pool);
    if risky { return Refused, fs; }
    var connected := AllWaveformConnected(fs, proofs, Voices(fs, pool));
    var built := BuildManifest(ComponentsIn(fs, pool), applied);
    r := if connected then built else Refused;
  }
}
