/**
 The superseding dedup manifest of build_review_pool_dedup_manifest.py. A family's canonical member
 is chosen deterministically; every other member is excluded in favour of it. Applied exclusion rows
 are immutable, so later manifests only append rows, and the rows form chains of pointers.
 */
module DedupManifest {
  import opened Wrappers

  /** A frozen member. `file` stands for the case-folded file name; only its order matters. */
  datatype Member = Member(
    id: int, evidence: nat, snr: Option<int>, clipping: Option<int>, anomaly: Option<int>, confidence: Option<int>,
    file: int)

  // ----- the stable ordering

  function Descending(v: Option<int>): seq<int> {
    match v case None => [1, 0] case Some(x) => [0, -x]
  }

  function Ascending(v: Option<int>): seq<int> {
    match v case None => [1, 0] case Some(x) => [0, x]
  }

  /** `quality_key`. */
  function QualityKey(m: Member): (k: seq<int>)
    ensures |k| == 10 && k[9] == m.id
  {
    Descending(m.snr) + Ascending(m.clipping) + Ascending(m.anomaly) + Descending(m.confidence) + [m.file, m.id]
  }

  /** Tuple order on keys of one length. */
  predicate AtMost(a: seq<int>, b: seq<int>)
    requires |a| == |b|
  {
    a == [] || a[0] < b[0] || (a[0] == b[0] && AtMost(a[1..], b[1..]))
  }

  lemma {:induction false} AtMostTotal(a: seq<int>, b: seq<int>)
    requires |a| == |b|
    ensures AtMost(a, b) || AtMost(b, a)
    ensures AtMost(a, b) && AtMost(b, a) ==> a == b
  {
    if a != [] {
      AtMostTotal(a[1..], b[1..]);
    }
  }

  lemma {:induction false} AtMostTrans(a: seq<int>, b: seq<int>, c: seq<int>)
    requires |a| == |b| == |c| && AtMost(a, b) && AtMost(b, c)
    ensures AtMost(a, c)
  {
    if a != [] && a[0] == b[0] == c[0] {
      AtMostTrans(a[1..], b[1..], c[1..]);
    }
  }

  lemma AtMostSelf(a: seq<int>)
    ensures AtMost(a, a)
  {
    AtMostTotal(a, a);
  }

  // ----- the canonical member

  /** `min(members, key=quality_key)`. */
  function BestQuality(ms: seq<Member>): (m: Member)
    requires ms != []
    ensures m in ms
  {
    if |ms| == 1 then ms[0]
    else
      var rest := BestQuality(ms[1..]);
      if AtMost(QualityKey(ms[0]), QualityKey(rest)) then ms[0] else rest
  }

  lemma {:induction false} BestQualityIsLeast(ms: seq<Member>, m: Member)
    requires m in ms
    ensures AtMost(QualityKey(BestQuality(ms)), QualityKey(m))
  {
    if |ms| == 1 {
      AtMostSelf(QualityKey(m));
    } else {
      var rest := BestQuality(ms[1..]);
      AtMostTotal(QualityKey(ms[0]), QualityKey(rest));
      if m == ms[0] {
        AtMostSelf(QualityKey(m));
      } else {
        BestQualityIsLeast(ms[1..], m);
        if AtMost(QualityKey(ms[0]), QualityKey(rest)) {
          AtMostTrans(QualityKey(ms[0]), QualityKey(rest), QualityKey(m));
        }
      }
    }
  }

  function MostEvidence(ms: seq<Member>): (n: nat)
    requires ms != []
  {
    if |ms| == 1 then ms[0].evidence
    else
      var rest := MostEvidence(ms[1..]);
      if ms[0].evidence >= rest then ms[0].evidence else rest
  }

  lemma {:induction false} MostEvidenceIsMost(ms: seq<Member>) returns (top: Member)
    requires ms != []
    ensures top in ms && top.evidence == MostEvidence(ms)
    ensures forall m | m in ms :: m.evidence <= MostEvidence(ms)
  {
    if |ms| == 1 {
      top := ms[0];
    } else {
      top := MostEvidenceIsMost(ms[1..]);
      if ms[0].evidence >= MostEvidence(ms[1..]) {
        top := ms[0];
      }
    }
  }

  function WithEvidence(ms: seq<Member>, n: nat): (r: seq<Member>)
    ensures forall m :: m in r <==> m in ms && m.evidence == n
  {
    if ms == [] then []
    else
      assert ms == [ms[0]] + ms[1..];
      (if ms[0].evidence == n then [ms[0]] else []) + WithEvidence(ms[1..], n)
  }

  function Preserved(ms: seq<Member>, applied: set<int>): (r: seq<Member>)
    ensures forall m :: m in r <==> m in ms && m.id in applied
  {
    if ms == [] then []
    else
      assert ms == [ms[0]] + ms[1..];
      (if ms[0].id in applied then [ms[0]] else []) + Preserved(ms[1..], applied)
  }

  lemma TiedExists(ms: seq<Member>)
    requires ms != []
    ensures WithEvidence(ms, MostEvidence(ms)) != []
  {
    var top := MostEvidenceIsMost(ms);
    assert top in WithEvidence(ms, MostEvidence(ms));
  }

  /** The best quality among the members with the most evidence. */
  function Champion(ms: seq<Member>): (m: Member)
    requires ms != []
    ensures m in ms
  {
    TiedExists(ms);
    BestQuality(WithEvidence(ms, MostEvidence(ms)))
  }

  datatype Reason = PreserveApplied | MostReviewed | BestMeasured

  /** `canonical_member`. */
  function CanonicalMember(ms: seq<Member>, applied: set<int>): (r: (Member, Reason))
    requires ms != []
    ensures r.0 in ms
  {
    var preserved := Preserved(ms, applied);
    if preserved != [] then (Champion(preserved), PreserveApplied)
    else if MostEvidence(ms) > 0 then (Champion(ms), MostReviewed)
    else (BestQuality(ms), BestMeasured)
  }

  /** The whole preference as one tuple: applied canonicals first, then evidence, then quality. */
  function Preference(m: Member, applied: set<int>): (k: seq<int>)
    ensures |k| == 12
  {
    [if m.id in applied then 0 else 1, 0 - m.evidence] + QualityKey(m)
  }

  lemma ChampionIsLeast(ms: seq<Member>, applied: set<int>, m: Member)
    requires m in ms && forall x, y | x in ms && y in ms :: x.id in applied <==> y.id in applied
    ensures AtMost(Preference(Champion(ms), applied), Preference(m, applied))
  {
    var top := MostEvidenceIsMost(ms);
    var tied := WithEvidence(ms, MostEvidence(ms));
    TiedExists(ms);
    var c := Champion(ms);
    PreferenceTail(c, m, applied);
    if m.evidence == c.evidence {
      BestQualityIsLeast(tied, m);
    }
  }

  lemma PreferenceTail(a: Member, b: Member, applied: set<int>)
    requires a.id in applied <==> b.id in applied
    ensures AtMost(Preference(a, applied), Preference(b, applied)) <==>
            a.evidence > b.evidence || (a.evidence == b.evidence && AtMost(QualityKey(a), QualityKey(b)))
  {
    var x, y := Preference(a, applied), Preference(b, applied);
    assert x[1..] == [0 - a.evidence] + QualityKey(a) && y[1..] == [0 - b.evidence] + QualityKey(b);
    assert x[1..][1..] == QualityKey(a) && y[1..][1..] == QualityKey(b);
  }

  /** The canonical member is the least in that preference, whichever of the three rules chose it. */
  lemma CanonicalIsLeast(ms: seq<Member>, applied: set<int>, m: Member)
    requires m in ms
    ensures AtMost(Preference(CanonicalMember(ms, applied).0, applied), Preference(m, applied))
  {
    var preserved := Preserved(ms, applied);
    var c := CanonicalMember(ms, applied).0;
    if preserved != [] {
      if m.id in applied {
        ChampionIsLeast(preserved, applied, m);
      } else {
        assert Preference(c, applied)[0] < Preference(m, applied)[0];
      }
    } else {
      assert forall x | x in ms :: x.id in applied ==> x in preserved;
      if MostEvidence(ms) > 0 {
        ChampionIsLeast(ms, applied, m);
      } else {
        var top := MostEvidenceIsMost(ms);
        BestQualityIsLeast(ms, m);
        PreferenceTail(c, m, applied);
      }
    }
  }

  // ----- the choice on the members' own fields

  /** A measured value comes before a missing one, and a higher before a lower. */
  ghost predicate HigherFirst(x: Option<int>, y: Option<int>) {
    y.None? || (x.Some? && x.value >= y.value)
  }

  /** A measured value comes before a missing one, and a lower before a higher. */
  ghost predicate LowerFirst(x: Option<int>, y: Option<int>) {
    y.None? || (x.Some? && x.value <= y.value)
  }

  /** The cleaner clip: by signal-to-noise ratio, then clipping, then anomaly, then confidence, then the
      file name, then the id. */
  ghost predicate Cleaner(c: Member, m: Member) {
    && HigherFirst(c.snr, m.snr)
    && (c.snr == m.snr ==>
          && LowerFirst(c.clipping, m.clipping)
          && (c.clipping == m.clipping ==>
                && LowerFirst(c.anomaly, m.anomaly)
                && (c.anomaly == m.anomaly ==>
                      && HigherFirst(c.confidence, m.confidence)
                      && (c.confidence == m.confidence ==> c.file < m.file || (c.file == m.file && c.id <= m.id)))))
  }

  lemma {:induction false} AtMostConcat(a: seq<int>, b: seq<int>, c: seq<int>, d: seq<int>)
    requires |a| == |c| && |b| == |d|
    ensures AtMost(a + b, c + d) <==> if a == c then AtMost(b, d) else AtMost(a, c)
    decreases |a|
  {
    if a == [] {
      assert a + b == b && c + d == d;
    } else {
      AtMostConcat(a[1..], b, c[1..], d);
      assert (a + b)[1..] == a[1..] + b && (c + d)[1..] == c[1..] + d;
      assert a == [a[0]] + a[1..] && c == [c[0]] + c[1..];
    }
  }

  lemma AtMostPair(a: seq<int>, b: seq<int>)
    requires |a| == |b| == 2
    ensures AtMost(a, b) <==> a[0] < b[0] || (a[0] == b[0] && a[1] <= b[1])
  {
    assert AtMost(a[1..], b[1..]) <==> a[1] <= b[1];
  }

  lemma MeasuredOrder(x: Option<int>, y: Option<int>)
    ensures AtMost(Descending(x), Descending(y)) <==> HigherFirst(x, y)
    ensures AtMost(Ascending(x), Ascending(y)) <==> LowerFirst(x, y)
    ensures Descending(x) == Descending(y) <==> x == y
    ensures Ascending(x) == Ascending(y) <==> x == y
  {
    AtMostPair(Descending(x), Descending(y));
    AtMostPair(Ascending(x), Ascending(y));
    assert Descending(x)[1] == Descending(x)[1] && Ascending(x)[1] == Ascending(x)[1];
  }

  /** The order of the keys is the order of the fields. */
  lemma QualityOrder(c: Member, m: Member)
    ensures AtMost(QualityKey(c), QualityKey(m)) <==> Cleaner(c, m)
  {
    var c4, m4 := [c.file, c.id], [m.file, m.id];
    var c3, m3 := Descending(c.confidence) + c4, Descending(m.confidence) + m4;
    var c2, m2 := Ascending(c.anomaly) + c3, Ascending(m.anomaly) + m3;
    var c1, m1 := Ascending(c.clipping) + c2, Ascending(m.clipping) + m2;
    assert QualityKey(c) == Descending(c.snr) + c1 && QualityKey(m) == Descending(m.snr) + m1;
    AtMostConcat(Descending(c.snr), c1, Descending(m.snr), m1);
    AtMostConcat(Ascending(c.clipping), c2, Ascending(m.clipping), m2);
    AtMostConcat(Ascending(c.anomaly), c3, Ascending(m.anomaly), m3);
    AtMostConcat(Descending(c.confidence), c4, Descending(m.confidence), m4);
    AtMostPair(c4, m4);
    MeasuredOrder(c.snr, m.snr);
    MeasuredOrder(c.clipping, m.clipping);
    MeasuredOrder(c.anomaly, m.anomaly);
    MeasuredOrder(c.confidence, m.confidence);
  }

  /** Against every other member the canonical is an applied canonical if the other is; of the same status
      it has at least as much evidence; with the same evidence it is the cleaner clip. The reason says
      whether an applied canonical, review evidence or measurement decided. */
  lemma CanonicalIsBest(ms: seq<Member>, applied: set<int>, m: Member)
    requires m in ms
    ensures var (c, reason) := CanonicalMember(ms, applied);
            && (m.id in applied ==> c.id in applied)
            && ((m.id in applied <==> c.id in applied) ==> c.evidence >= m.evidence)
            && ((m.id in applied <==> c.id in applied) && c.evidence == m.evidence ==> Cleaner(c, m))
            && (reason == PreserveApplied <==> c.id in applied)
            && (reason == MostReviewed <==> c.id !in applied && c.evidence >= 1)
  {
    var c := CanonicalMember(ms, applied).0;
    CanonicalIsLeast(ms, applied, m);
    QualityOrder(c, m);
    if m.id in applied <==> c.id in applied { PreferenceTail(c, m, applied); }
    ReasonMeans(ms, applied);
  }

  lemma ReasonMeans(ms: seq<Member>, applied: set<int>)
    requires ms != []
    ensures var (c, reason) := CanonicalMember(ms, applied);
            && (reason == PreserveApplied <==> c.id in applied)
            && (reason == MostReviewed <==> c.id !in applied && c.evidence >= 1)
  {
    var preserved := Preserved(ms, applied);
    var top := MostEvidenceIsMost(ms);
    var c := CanonicalMember(ms, applied).0;
    if preserved == [] {
      assert c.id in applied ==> c in preserved;
      if MostEvidence(ms) > 0 { TiedExists(ms); }
    }
  }

  /** The choice does not depend on the order in which the members are listed. */
  lemma CanonicalOrderFree(ms: seq<Member>, ns: seq<Member>, applied: set<int>)
    requires ms != [] && ns != [] && forall m :: m in ms <==> m in ns
    requires forall m, n | m in ms && n in ms && m.id == n.id :: m == n
    ensures CanonicalMember(ms, applied).0 == CanonicalMember(ns, applied).0
  {
    var a, b := CanonicalMember(ms, applied).0, CanonicalMember(ns, applied).0;
    CanonicalIsLeast(ms, applied, b);
    CanonicalIsLeast(ns, applied, a);
    AtMostTotal(Preference(a, applied), Preference(b, applied));
    assert Preference(a, applied)[11] == a.id && Preference(b, applied)[11] == b.id;
  }

  // ----- one superseding manifest

  /** A confirmed component and whether all its members carry one voice name. */
  datatype Component = Component(members: seq<Member>, oneVoice: bool)

  datatype Family = Family(members: seq<Member>, canonical: int)

  datatype Manifest = Manifest(families: seq<Family>, excluded: map<int, int>)

  predicate Has(ms: seq<Member>, id: int) {
    exists m | m in ms :: m.id == id
  }

  /** Components are nonempty and no two share an id. */
  ghost predicate Separate(cs: seq<Component>) {
    && (forall c | c in cs :: c.members != [])
    && (forall i, j, id | 0 <= i < j < |cs| && Has(cs[i].members, id) :: !Has(cs[j].members, id))
  }

  /** No applied exclusion of this family points outside it. */
  predicate Contained(ms: seq<Member>, applied: map<int, int>) {
    forall m | m in ms && m.id in applied :: Has(ms, applied[m.id])
  }

  function Choice(ms: seq<Member>, applied: map<int, int>): (id: int)
    requires ms != []
    ensures Has(ms, id)
  {
    CanonicalMember(ms, applied.Values).0.id
  }

  function Exclusions(ms: seq<Member>, canonical: int): (r: map<int, int>)
    ensures forall id :: id in r <==> Has(ms, id) && id != canonical
    ensures forall id | id in r :: r[id] == canonical
  {
    map m | m in ms && m.id != canonical :: m.id := canonical
  }

  /** The families of the first n components. */
  ghost function FamiliesUpTo(cs: seq<Component>, applied: map<int, int>, n: nat): seq<Family>
    requires n <= |cs| && Separate(cs)
  {
    if n == 0 then []
    else FamiliesUpTo(cs, applied, n - 1) +
         if cs[n - 1].oneVoice then
           assert cs[n - 1] in cs;
           [Family(cs[n - 1].members, Choice(cs[n - 1].members, applied))]
         else []
  }

  /** The non-canonical members of a family. */
  predicate Retired(f: Family, id: int) {
    Has(f.members, id) && id != f.canonical
  }

  /** `excluded_ids`: the retired members of the families, each with its family's canonical. */
  ghost predicate Excludes(fs: seq<Family>, excluded: map<int, int>) {
    && (forall k, id | 0 <= k < |fs| && Retired(fs[k], id) :: id in excluded && excluded[id] == fs[k].canonical)
    && (forall id | id in excluded :: RetiredBySome(fs, id))
  }

  ghost predicate RetiredBySome(fs: seq<Family>, id: int) {
    exists k | 0 <= k < |fs| :: Retired(fs[k], id)
  }

  /** Families share no member, and each holds its own canonical. */
  ghost predicate Families(fs: seq<Family>) {
    && (forall k | 0 <= k < |fs| :: Has(fs[k].members, fs[k].canonical))
    && (forall i, j, id | 0 <= i < |fs| && 0 <= j < |fs| && Has(fs[i].members, id) && Has(fs[j].members, id) :: i == j)
  }

  /** What a manifest that was built guarantees against the rows applied before it. */
  ghost predicate Supersedes(applied: map<int, int>, m: Manifest) {
    && Families(m.families) && Excludes(m.families, m.excluded)
    && (forall k | 0 <= k < |m.families| :: Contained(m.families[k].members, applied))
    && (forall id | id in applied :: id in m.excluded)
  }

  lemma {:induction false} FamiliesComeFrom(cs: seq<Component>, applied: map<int, int>, n: nat, k: nat) returns (i: nat)
    requires n <= |cs| && Separate(cs) && k < |FamiliesUpTo(cs, applied, n)|
    ensures i < n && cs[i].oneVoice && cs[i].members != []
    ensures FamiliesUpTo(cs, applied, n)[k] == Family(cs[i].members, Choice(cs[i].members, applied))
    ensures k > 0 ==> n > 0
  {
    if k < |FamiliesUpTo(cs, applied, n - 1)| {
      i := FamiliesComeFrom(cs, applied, n - 1, k);
    } else {
      i := n - 1;
      assert cs[i] in cs;
    }
  }

  lemma {:induction false} FamiliesSeparate(cs: seq<Component>, applied: map<int, int>, n: nat)
    requires n <= |cs| && Separate(cs)
    ensures Families(FamiliesUpTo(cs, applied, n))
  {
    if n > 0 {
      FamiliesSeparate(cs, applied, n - 1);
      assert cs[n - 1] in cs;
      var before := FamiliesUpTo(cs, applied, n - 1);
      forall k, id | 0 <= k < |before| && Has(before[k].members, id)
        ensures !Has(cs[n - 1].members, id)
      {
        var i := FamiliesComeFrom(cs, applied, n - 1, k);
        assert Has(cs[i].members, id);
      }
      if cs[n - 1].oneVoice {
        FamiliesGrow(before, Family(cs[n - 1].members, Choice(cs[n - 1].members, applied)));
      }
    }
  }

  lemma FamiliesGrow(fs: seq<Family>, f: Family)
    requires Families(fs) && Has(f.members, f.canonical)
    requires forall k, id | 0 <= k < |fs| && Has(fs[k].members, id) :: !Has(f.members, id)
    ensures Families(fs + [f])
  {
    var next := fs + [f];
    forall i, j, id | 0 <= i < |next| && 0 <= j < |next| && Has(next[i].members, id) && Has(next[j].members, id)
      ensures i == j
    {
      if i < |fs| { assert next[i] == fs[i]; }
      if j < |fs| { assert next[j] == fs[j]; }
    }
  }

  lemma SameFamily(fs: seq<Family>, i: nat, j: nat, id: int)
    requires Families(fs) && i < |fs| && j < |fs| && Has(fs[i].members, id) && Has(fs[j].members, id)
    ensures i == j
  {
  }

  /** One family more. */
  lemma ExcludesStep(fs: seq<Family>, excluded: map<int, int>, f: Family)
    requires Excludes(fs, excluded) && Families(fs + [f])
    ensures Excludes(fs + [f], excluded + Exclusions(f.members, f.canonical))
  {
    var next, all := fs + [f], excluded + Exclusions(f.members, f.canonical);
    forall k, id | 0 <= k < |next| && Retired(next[k], id)
      ensures id in all && all[id] == next[k].canonical
    {
      if k < |fs| {
        assert next[k] == fs[k] && Retired(fs[k], id);
        assert !Has(next[|fs|].members, id);
      }
    }
    forall id | id in all
      ensures RetiredBySome(next, id)
    {
      if id in excluded {
        var k :| 0 <= k < |fs| && Retired(fs[k], id);
        assert next[k] == fs[k];
      } else {
        assert Retired(next[|fs|], id);
      }
    }
  }

  /** Every applied exclusion of a one-voice component stays inside it. */
  ghost predicate AllContained(cs: seq<Component>, applied: map<int, int>, n: nat)
    requires n <= |cs|
  {
    forall k | 0 <= k < n && cs[k].oneVoice :: Contained(cs[k].members, applied)
  }

  lemma FamilyStep(cs: seq<Component>, applied: map<int, int>, n: nat, families: seq<Family>, excluded: map<int, int>)
    requires Separate(cs) && n < |cs| && cs[n].oneVoice && cs[n].members != []
    requires families == FamiliesUpTo(cs, applied, n) && Excludes(families, excluded)
    ensures var f := Family(cs[n].members, Choice(cs[n].members, applied));
            && families + [f] == FamiliesUpTo(cs, applied, n + 1)
            && Excludes(families + [f], excluded + Exclusions(f.members, f.canonical))
  {
    FamiliesSeparate(cs, applied, n + 1);
    ExcludesStep(families, excluded, Family(cs[n].members, Choice(cs[n].members, applied)));
  }

  /** The family loop of `build_manifest`, refused at an applied exclusion cut off from its canonical. */
  method BuildFamilies(cs: seq<Component>, applied: map<int, int>)
    returns (ok: bool, families: seq<Family>, excluded: map<int, int>)
    requires Separate(cs)
    ensures ok <==> AllContained(cs, applied, |cs|)
    ensures ok ==> families == FamiliesUpTo(cs, applied, |cs|) && Excludes(families, excluded)
  {
    families, excluded := [], map[];
    for n := 0 to |cs|
      invariant families == FamiliesUpTo(cs, applied, n) && Excludes(families, excluded) && AllContained(cs, applied, n)
    {
      if cs[n].oneVoice {
        assert cs[n] in cs;
        var ms := cs[n].members;
        if !Contained(ms, applied) {
          return false, families, excluded;
        }
        var canonical := Choice(ms, applied);
        FamilyStep(cs, applied, n, families, excluded);
        excluded := excluded + Exclusions(ms, canonical);
        families := families + [Family(ms, canonical)];
      }
    }
    ok := true;
  }

  /** No refusal: no applied exclusion of a family is cut off, and every one is restated. */
  ghost predicate Buildable(cs: seq<Component>, applied: map<int, int>)
    requires Separate(cs)
  {
    && AllContained(cs, applied, |cs|)
    && forall id | id in applied :: RetiredBySome(FamiliesUpTo(cs, applied, |cs|), id)
  }

  /** `build_manifest` with its two refusals: an applied exclusion cut off from its canonical, and an
      applied exclusion that the new families would drop or move. */
  method BuildManifest(cs: seq<Component>, applied: map<int, int>) returns (r: Result<Manifest>)
    requires Separate(cs)
    ensures r.Ok? ==> Supersedes(applied, r.value) && r.value.families == FamiliesUpTo(cs, applied, |cs|)
    ensures r.Ok? <==> Buildable(cs, applied)
  {
    var ok, families, excluded := BuildFamilies(cs, applied);
    if !ok { return Refused; }
    ExcludedAreRetired(families, excluded);
    if exists id | id in applied :: id !in excluded {
      return Refused;
    }
    FamiliesSeparate(cs, applied, |cs|);
    ContainedFamilies(cs, applied);
    return Ok(Manifest(families, excluded));
  }

  lemma ExcludedAreRetired(fs: seq<Family>, excluded: map<int, int>)
    requires Excludes(fs, excluded)
    ensures forall id :: id in excluded <==> RetiredBySome(fs, id)
  {
  }

  lemma ContainedFamilies(cs: seq<Component>, applied: map<int, int>)
    requires Separate(cs) && AllContained(cs, applied, |cs|)
    ensures var fs := FamiliesUpTo(cs, applied, |cs|);
            forall k | 0 <= k < |fs| :: Contained(fs[k].members, applied)
  {
    var fs := FamiliesUpTo(cs, applied, |cs|);
    forall k | 0 <= k < |fs|
      ensures Contained(fs[k].members, applied)
    {
      var i := FamiliesComeFrom(cs, applied, |cs|, k);
    }
  }

  /** Some applied row points at the segment. */
  ghost predicate PointedAt(applied: map<int, int>, id: int) { exists from | from in applied :: applied[from] == id }

  /** The canonical of every family that is built: a member that a row points at comes before the others,
      then the most reviewed, then the cleanest clip. */
  lemma BuiltCanonicalIsBest(cs: seq<Component>, applied: map<int, int>, k: nat, m: Member) returns (c: Member)
    requires Separate(cs) && k < |FamiliesUpTo(cs, applied, |cs|)| && m in FamiliesUpTo(cs, applied, |cs|)[k].members
    ensures c in FamiliesUpTo(cs, applied, |cs|)[k].members && c.id == FamiliesUpTo(cs, applied, |cs|)[k].canonical
    ensures PointedAt(applied, m.id) ==> PointedAt(applied, c.id)
    ensures (PointedAt(applied, m.id) <==> PointedAt(applied, c.id)) ==> c.evidence >= m.evidence
    ensures (PointedAt(applied, m.id) <==> PointedAt(applied, c.id)) && c.evidence == m.evidence ==> Cleaner(c, m)
  {
    var i := FamiliesComeFrom(cs, applied, |cs|, k);
    c := CanonicalMember(cs[i].members, applied.Values).0;
    CanonicalIsBest(cs[i].members, applied.Values, m);
    PointedAtIff(applied, m.id);
    PointedAtIff(applied, c.id);
  }

  lemma PointedAtIff(applied: map<int, int>, id: int)
    ensures PointedAt(applied, id) <==> id in applied.Values
  {
    assert (forall k | k in applied :: applied[k] != id) ==> id !in applied.Values;
  }

  // ----- pointer chains over any number of supersessions

  /** The rows after a manifest is applied: the old ones, and one for each new exclusion. */
  function Append(applied: map<int, int>, m: Manifest): (r: map<int, int>)
    ensures r.Keys == applied.Keys + m.excluded.Keys
    ensures forall id | id in applied :: r[id] == applied[id]
  {
    m.excluded + applied
  }

  ghost predicate Ranked(applied: map<int, int>, rank: int -> nat) {
    forall id | id in applied :: rank(applied[id]) < rank(id)
  }

  /** No chain of pointers returns to where it was: some rank falls along every row. */
  ghost predicate Acyclic(applied: map<int, int>) {
    exists rank :: Ranked(applied, rank)
  }

  /** Follows pointers to a segment that is not excluded. */
  ghost function Follow(applied: map<int, int>, rank: int -> nat, id: int): (end: int)
    requires Ranked(applied, rank)
    ensures end !in applied
    decreases rank(id)
  {
    if id in applied then Follow(applied, rank, applied[id]) else id
  }

  /** A canonical is excluded neither before nor after: were it applied, the manifest would have had
      to retire it. */
  lemma CanonicalFree(applied: map<int, int>, m: Manifest, k: nat)
    requires Supersedes(applied, m) && k < |m.families|
    ensures m.families[k].canonical !in Append(applied, m)
  {
    var c := m.families[k].canonical;
    forall j | 0 <= j < |m.families|
      ensures !Retired(m.families[j], c)
    {
      if Has(m.families[j].members, c) { SameFamily(m.families, j, k, c); }
    }
    assert !RetiredBySome(m.families, c);
  }

  /** A new row points at a canonical, which is not excluded itself. */
  lemma NewRowPointsAtRoot(applied: map<int, int>, m: Manifest, id: int)
    requires Supersedes(applied, m) && id in m.excluded && id !in applied
    ensures Append(applied, m)[id] !in Append(applied, m)
  {
    var k :| 0 <= k < |m.families| && Retired(m.families[k], id);
    CanonicalFree(applied, m, k);
  }

  lemma AppendRanked(applied: map<int, int>, m: Manifest, rank: int -> nat) returns (next: int -> nat)
    requires Supersedes(applied, m) && Ranked(applied, rank)
    ensures Ranked(Append(applied, m), next)
  {
    var rows := Append(applied, m);
    next := RaisedOn(rows, rank);
    forall id | id in rows
      ensures next(rows[id]) < next(id)
    {
      if id !in applied {
        NewRowPointsAtRoot(applied, m, id);
      }
    }
  }

  ghost function RaisedOn(rows: map<int, int>, rank: int -> nat): int -> nat {
    id => if id in rows then rank(id) + 1 else 0
  }

  /** A retired member's pointer, old or new, stays in its family. */
  lemma PointerStays(applied: map<int, int>, m: Manifest, k: nat, id: int)
    requires Supersedes(applied, m) && k < |m.families| && Retired(m.families[k], id)
    ensures id in Append(applied, m) && Has(m.families[k].members, Append(applied, m)[id])
  {
    var f := m.families[k];
    assert id in m.excluded && m.excluded[id] == f.canonical;
    if id in applied {
      var x :| x in f.members && x.id == id;
      assert Contained(f.members, applied);
    }
  }

  /** Within a family every chain ends at the canonical, its one member that is not excluded. */
  lemma {:induction false} ChainsEndAtCanonical(applied: map<int, int>, m: Manifest, rank: int -> nat, k: nat, id: int)
    requires Supersedes(applied, m) && k < |m.families| && Has(m.families[k].members, id)
    requires Ranked(Append(applied, m), rank)
    ensures Follow(Append(applied, m), rank, id) == m.families[k].canonical
    ensures id !in Append(applied, m) <==> id == m.families[k].canonical
    decreases rank(id)
  {
    CanonicalFree(applied, m, k);
    if id != m.families[k].canonical {
      PointerStays(applied, m, k, id);
      ChainsEndAtCanonical(applied, m, rank, k, Append(applied, m)[id]);
    }
  }

  /** A run of supersessions, each built against the rows left by the one before. */
  ghost predicate Run(applied: map<int, int>, ms: seq<Manifest>)
    decreases |ms|
  {
    ms != [] ==> Supersedes(applied, ms[0]) && Run(Append(applied, ms[0]), ms[1..])
  }

  ghost function After(applied: map<int, int>, ms: seq<Manifest>): map<int, int>
    decreases |ms|
  {
    if ms == [] then applied else After(Append(applied, ms[0]), ms[1..])
  }

  /** Over any number of supersessions the rows stay acyclic and none is dropped or changed. */
  lemma {:induction false} RunStaysForest(applied: map<int, int>, ms: seq<Manifest>)
    requires Acyclic(applied) && Run(applied, ms)
    ensures Acyclic(After(applied, ms))
    ensures forall id | id in applied :: id in After(applied, ms) && After(applied, ms)[id] == applied[id]
    decreases |ms|
  {
    if ms != [] {
      var rank :| Ranked(applied, rank);
      var next := AppendRanked(applied, ms[0], rank);
      RunStaysForest(Append(applied, ms[0]), ms[1..]);
    }
  }

  /** After any run that ends with manifest m the rows are acyclic, every row lies inside one family of m,
      and its chain ends at that family's canonical. */
  lemma RunEndsInFamilies(applied: map<int, int>, ms: seq<Manifest>, m: Manifest, id: int) returns (k: nat)
    requires Acyclic(applied) && Run(applied, ms) && Supersedes(After(applied, ms), m)
    requires id in Append(After(applied, ms), m)
    ensures Acyclic(Append(After(applied, ms), m))
    ensures k < |m.families| && Retired(m.families[k], id)
            && Has(m.families[k].members, Append(After(applied, ms), m)[id])
    ensures forall rank | Ranked(Append(After(applied, ms), m), rank) ::
              Follow(Append(After(applied, ms), m), rank, id) == m.families[k].canonical
  {
    var before := After(applied, ms);
    RunStaysForest(applied, ms);
    var rank0 :| Ranked(before, rank0);
    var next := AppendRanked(before, m, rank0);
    k :| 0 <= k < |m.families| && Retired(m.families[k], id);
    PointerStays(before, m, k, id);
    forall rank | Ranked(Append(before, m), rank)
      ensures Follow(Append(before, m), rank, id) == m.families[k].canonical
    {
      ChainsEndAtCanonical(before, m, rank, k, id);
    }
  }
}
