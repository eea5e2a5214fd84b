/**
 What a superseding manifest leaves for the next one. A rebuild over the same components with the same
 evidence restates everything and adds nothing; with other evidence it is refused exactly when a
 canonical that was retired by a merge has become preferable to the one it was retired for.
 */
module ManifestRebuild {
  import opened DedupManifest
  import opened Wrappers

  /** The manifest that `build_manifest` returns for these components. */
  ghost predicate Built(cs: seq<Component>, applied: map<int, int>, m: Manifest)
    requires Separate(cs)
  {
    Supersedes(applied, m) && m.families == FamiliesUpTo(cs, applied, |cs|)
  }

  predicate OneVoiced(cs: seq<Component>, i: int) { 0 <= i < |cs| && cs[i].oneVoice && cs[i].members != [] }

  /** Some component of one voice holds the id. */
  ghost predicate Covered(cs: seq<Component>, id: int) {
    exists i :: OneVoiced(cs, i) && Has(cs[i].members, id)
  }

  lemma {:induction false} FamilyOf(cs: seq<Component>, applied: map<int, int>, n: nat, i: nat) returns (k: nat)
    requires n <= |cs| && Separate(cs) && i < n && OneVoiced(cs, i)
    ensures k < |FamiliesUpTo(cs, applied, n)|
    ensures FamiliesUpTo(cs, applied, n)[k] == Family(cs[i].members, Choice(cs[i].members, applied))
  {
    if i == n - 1 {
      k := |FamiliesUpTo(cs, applied, n - 1)|;
    } else {
      k := FamilyOf(cs, applied, n - 1, i);
    }
  }

  /** A member of a component is retired exactly when it is not the component's choice. */
  lemma RetiredUnlessChosen(cs: seq<Component>, applied: map<int, int>, i: nat, id: int)
    requires Separate(cs) && OneVoiced(cs, i) && Has(cs[i].members, id)
    ensures RetiredBySome(FamiliesUpTo(cs, applied, |cs|), id) <==> id != Choice(cs[i].members, applied)
  {
    var fs := FamiliesUpTo(cs, applied, |cs|);
    var k := FamilyOf(cs, applied, |cs|, i);
    FamiliesSeparate(cs, applied, |cs|);
    if id != Choice(cs[i].members, applied) {
      assert Retired(fs[k], id);
    } else {
      forall j | 0 <= j < |fs|
        ensures !Retired(fs[j], id)
      {
        if Has(fs[j].members, id) { SameFamily(fs, j, k, id); }
      }
    }
  }

  lemma RetiredIsCovered(cs: seq<Component>, applied: map<int, int>, id: int)
    requires Separate(cs) && RetiredBySome(FamiliesUpTo(cs, applied, |cs|), id)
    ensures Covered(cs, id)
  {
    var k :| 0 <= k < |FamiliesUpTo(cs, applied, |cs|)| && Retired(FamiliesUpTo(cs, applied, |cs|)[k], id);
    var i := FamiliesComeFrom(cs, applied, |cs|, k);
    assert OneVoiced(cs, i);
  }

  /** A manifest is built if and only if every applied exclusion lies with its canonical in a component
      of one voice and no component chooses a canonical that is itself excluded. */
  lemma BuildableIff(cs: seq<Component>, applied: map<int, int>)
    requires Separate(cs)
    ensures Buildable(cs, applied) <==>
            && AllContained(cs, applied, |cs|) && (forall id | id in applied :: Covered(cs, id))
            && forall i | OneVoiced(cs, i) :: Choice(cs[i].members, applied) !in applied
  {
    if Buildable(cs, applied) {
      forall id | id in applied
        ensures Covered(cs, id)
      {
        RetiredIsCovered(cs, applied, id);
      }
      forall i | OneVoiced(cs, i)
        ensures Choice(cs[i].members, applied) !in applied
      {
        RetiredUnlessChosen(cs, applied, i, Choice(cs[i].members, applied));
      }
    } else if AllContained(cs, applied, |cs|) && (forall id | id in applied :: Covered(cs, id)) {
      var id :| id in applied && !RetiredBySome(FamiliesUpTo(cs, applied, |cs|), id);
      var i :| OneVoiced(cs, i) && Has(cs[i].members, id);
      RetiredUnlessChosen(cs, applied, i, id);
    }
  }

  // ----- the next manifest over the same components

  /** The same segments in the same order; evidence and measurements may differ. */
  ghost predicate SameIds(ms: seq<Member>, ns: seq<Member>) {
    |ms| == |ns| && forall k | 0 <= k < |ms| :: ms[k].id == ns[k].id
  }

  ghost predicate SameComponents(cs: seq<Component>, ds: seq<Component>) {
    && |cs| == |ds|
    && forall i | 0 <= i < |cs| :: cs[i].oneVoice == ds[i].oneVoice && SameIds(cs[i].members, ds[i].members)
  }

  lemma SameHas(ms: seq<Member>, ns: seq<Member>, id: int)
    requires SameIds(ms, ns)
    ensures Has(ms, id) <==> Has(ns, id)
  {
    if Has(ms, id) {
      var k :| 0 <= k < |ms| && ms[k].id == id;
      assert ns[k] in ns;
    }
    if Has(ns, id) {
      var k :| 0 <= k < |ns| && ns[k].id == id;
      assert ms[k] in ms;
    }
  }

  lemma SameSeparate(cs: seq<Component>, ds: seq<Component>)
    requires Separate(cs) && SameComponents(cs, ds)
    ensures Separate(ds)
  {
    forall d | d in ds
      ensures d.members != []
    {
      var i :| 0 <= i < |ds| && ds[i] == d;
      assert cs[i] in cs;
    }
    forall i, j, id | 0 <= i < j < |ds| && Has(ds[i].members, id)
      ensures !Has(ds[j].members, id)
    {
      SameHas(cs[i].members, ds[i].members, id);
      SameHas(cs[j].members, ds[j].members, id);
    }
  }

  /** In a component, exactly its choice is left without a row, and rows stay inside. */
  lemma RowsOfComponent(cs: seq<Component>, applied: map<int, int>, m: Manifest, i: nat, id: int)
    requires Separate(cs) && Built(cs, applied, m) && OneVoiced(cs, i) && Has(cs[i].members, id)
    ensures id in Append(applied, m) <==> id != Choice(cs[i].members, applied)
    ensures id in Append(applied, m) ==> Has(cs[i].members, Append(applied, m)[id])
  {
    var k := FamilyOf(cs, applied, |cs|, i);
    CanonicalFree(applied, m, k);
    if id != Choice(cs[i].members, applied) {
      PointerStays(applied, m, k, id);
    }
  }

  lemma RowsCovered(cs: seq<Component>, applied: map<int, int>, m: Manifest, id: int)
    requires Separate(cs) && Built(cs, applied, m) && id in Append(applied, m)
    ensures Covered(cs, id)
  {
    assert id in m.excluded;
    RetiredIsCovered(cs, applied, id);
  }

  /** The rows a manifest leaves are contained and covered for the same components. */
  lemma RowsStayInside(cs: seq<Component>, applied: map<int, int>, m: Manifest, ds: seq<Component>)
    requires Separate(cs) && Built(cs, applied, m) && SameComponents(cs, ds) && Separate(ds)
    ensures AllContained(ds, Append(applied, m), |ds|)
    ensures forall id | id in Append(applied, m) :: Covered(ds, id)
  {
    var rows := Append(applied, m);
    forall i | 0 <= i < |ds| && ds[i].oneVoice
      ensures Contained(ds[i].members, rows)
    {
      forall x | x in ds[i].members && x.id in rows
        ensures Has(ds[i].members, rows[x.id])
      {
        SameHas(cs[i].members, ds[i].members, x.id);
        RowsOfComponent(cs, applied, m, i, x.id);
        SameHas(cs[i].members, ds[i].members, rows[x.id]);
      }
    }
    forall id | id in rows
      ensures Covered(ds, id)
    {
      RowsCovered(cs, applied, m, id);
      var i :| OneVoiced(cs, i) && Has(cs[i].members, id);
      SameHas(cs[i].members, ds[i].members, id);
      assert OneVoiced(ds, i);
    }
  }

  /** A member to which a row points although it is excluded, and which the rules now prefer to the
      member with the id `root`. */
  ghost predicate Overtaking(ms: seq<Member>, rows: map<int, int>, root: int, x: Member) {
    && x in ms && x.id in rows && x.id in rows.Values
    && forall y | y in ms && y.id == root :: !AtMost(Preference(y, rows.Values), Preference(x, rows.Values))
  }

  ghost predicate Overtaken(ms: seq<Member>, rows: map<int, int>, root: int) {
    exists x :: Overtaking(ms, rows, root, x)
  }

  /** When all members but `root` have rows that stay inside, the choice is `root` exactly when no
      retired canonical is preferred to it. */
  lemma ChoiceIsRootIff(ms: seq<Member>, rows: map<int, int>, root: int)
    requires ms != [] && Has(ms, root) && Contained(ms, rows)
    requires forall x | x in ms :: x.id in rows <==> x.id != root
    ensures Choice(ms, rows) == root <==> !Overtaken(ms, rows, root)
  {
    var c := CanonicalMember(ms, rows.Values).0;
    if c.id == root {
      forall x | x in ms
        ensures !Overtaking(ms, rows, root, x)
      {
        CanonicalIsLeast(ms, rows.Values, x);
      }
    } else {
      ExcludedChoiceOvertakes(ms, rows, root, c);
    }
  }

  lemma ExcludedChoiceOvertakes(ms: seq<Member>, rows: map<int, int>, root: int, c: Member)
    requires ms != [] && c == CanonicalMember(ms, rows.Values).0 && c.id in rows && c.id != root
    requires Contained(ms, rows)
    ensures Overtaking(ms, rows, root, c)
  {
    var t := rows[c.id];
    assert t in rows.Values;
    var x :| x in ms && x.id == t;
    assert x in Preserved(ms, rows.Values);
    forall y | y in ms && y.id == root
      ensures !AtMost(Preference(y, rows.Values), Preference(c, rows.Values))
    {
      CanonicalIsLeast(ms, rows.Values, y);
      AtMostTotal(Preference(c, rows.Values), Preference(y, rows.Values));
      assert Preference(c, rows.Values)[11] == c.id && Preference(y, rows.Values)[11] == y.id;
    }
  }

  /** After a manifest is applied, the next one over the same components, whatever the evidence and the
      measurements have become, is built if and only if no retired canonical has overtaken the canonical
      of its family. */
  lemma RebuildIff(cs: seq<Component>, applied: map<int, int>, m: Manifest, ds: seq<Component>)
    requires Separate(cs) && Built(cs, applied, m) && SameComponents(cs, ds)
    ensures Separate(ds)
    ensures Buildable(ds, Append(applied, m)) <==>
            forall i | OneVoiced(cs, i) ::
              !Overtaken(ds[i].members, Append(applied, m), Choice(cs[i].members, applied))
  {
    var rows := Append(applied, m);
    SameSeparate(cs, ds);
    RowsStayInside(cs, applied, m, ds);
    BuildableIff(ds, rows);
    forall i | OneVoiced(cs, i)
      ensures OneVoiced(ds, i)
      ensures Choice(ds[i].members, rows) !in rows
         <==> !Overtaken(ds[i].members, rows, Choice(cs[i].members, applied))
    {
      ChoiceStaysIff(cs, applied, m, ds, i);
    }
    assert forall i | OneVoiced(ds, i) :: OneVoiced(cs, i);
  }

  lemma ChoiceStaysIff(cs: seq<Component>, applied: map<int, int>, m: Manifest, ds: seq<Component>, i: nat)
    requires Separate(cs) && Built(cs, applied, m) && SameComponents(cs, ds) && OneVoiced(cs, i) && OneVoiced(ds, i)
    ensures var rows, root := Append(applied, m), Choice(cs[i].members, applied);
            && (Choice(ds[i].members, rows) !in rows <==> Choice(ds[i].members, rows) == root)
            && (Choice(ds[i].members, rows) == root <==> !Overtaken(ds[i].members, rows, root))
  {
    var rows, root := Append(applied, m), Choice(cs[i].members, applied);
    SameSeparate(cs, ds);
    RowsStayInside(cs, applied, m, ds);
    forall x | x in ds[i].members
      ensures x.id in rows <==> x.id != root
    {
      SameHas(cs[i].members, ds[i].members, x.id);
      RowsOfComponent(cs, applied, m, i, x.id);
    }
    SameHas(cs[i].members, ds[i].members, root);
    ChoiceIsRootIff(ds[i].members, rows, root);
  }

  // ----- unchanged evidence

  lemma RowTo(rows: map<int, int>, id: int) returns (from: int)
    requires id in rows.Values
    ensures from in rows && rows[from] == id
  {
    assert (forall k | k in rows :: rows[k] != id) ==> id !in rows.Values;
    from :| from in rows && rows[from] == id;
  }

  /** An id that a manifest newly points at is the canonical of its family. */
  lemma NewTargetIsRoot(cs: seq<Component>, applied: map<int, int>, m: Manifest, i: nat, id: int)
    requires Separate(cs) && Built(cs, applied, m) && OneVoiced(cs, i) && Has(cs[i].members, id)
    requires id in Append(applied, m).Values && id !in applied.Values
    ensures id == Choice(cs[i].members, applied)
  {
    var rows := Append(applied, m);
    var from := RowTo(rows, id);
    NewRowPointsAtRoot(applied, m, from);
    RowsOfComponent(cs, applied, m, i, id);
  }

  lemma NoneOvertakes(cs: seq<Component>, applied: map<int, int>, m: Manifest, i: nat, x: Member)
    requires Separate(cs) && Built(cs, applied, m) && OneVoiced(cs, i)
    ensures !Overtaking(cs[i].members, Append(applied, m), Choice(cs[i].members, applied), x)
  {
    var ms, rows := cs[i].members, Append(applied, m);
    var root := CanonicalMember(ms, applied.Values).0;
    if x in ms && x.id in rows && x.id in rows.Values {
      RowsOfComponent(cs, applied, m, i, x.id);
      if x.id !in applied.Values { NewTargetIsRoot(cs, applied, m, i, x.id); }
      CanonicalIsLeast(ms, applied.Values, x);
      assert root.id in applied.Values;
      assert root.id in rows.Values;
      assert Preference(root, applied.Values) == Preference(root, rows.Values);
      assert Preference(x, applied.Values) == Preference(x, rows.Values);
    }
  }

  lemma LastFamily(cs: seq<Component>, applied: map<int, int>, n: nat)
    requires 0 < n <= |cs| && Separate(cs)
    ensures cs[n - 1].members != []
    ensures FamiliesUpTo(cs, applied, n)
         == FamiliesUpTo(cs, applied, n - 1)
            + if OneVoiced(cs, n - 1) then [Family(cs[n - 1].members, Choice(cs[n - 1].members, applied))] else []
  {
    assert cs[n - 1] in cs;
  }

  lemma {:induction false} SameFamilies(cs: seq<Component>, applied: map<int, int>, rows: map<int, int>, n: nat)
    requires n <= |cs| && Separate(cs)
    requires forall i | OneVoiced(cs, i) :: Choice(cs[i].members, rows) == Choice(cs[i].members, applied)
    ensures FamiliesUpTo(cs, rows, n) == FamiliesUpTo(cs, applied, n)
  {
    if n > 0 {
      SameFamilies(cs, applied, rows, n - 1);
      LastFamily(cs, applied, n);
      LastFamily(cs, rows, n);
      assert cs[n - 1].oneVoice ==> OneVoiced(cs, n - 1);
    }
  }

  /** Rebuilding over the same components with unchanged evidence is never refused, gives the same
      families and the same exclusions, and leaves the rows as they are. */
  lemma RebuildUnchanged(cs: seq<Component>, applied: map<int, int>, m: Manifest)
    requires Separate(cs) && Built(cs, applied, m)
    ensures Buildable(cs, Append(applied, m)) && Built(cs, Append(applied, m), m)
    ensures Append(Append(applied, m), m) == Append(applied, m)
  {
    var rows := Append(applied, m);
    assert SameComponents(cs, cs);
    forall i | OneVoiced(cs, i)
      ensures !Overtaken(cs[i].members, rows, Choice(cs[i].members, applied))
      ensures Choice(cs[i].members, rows) == Choice(cs[i].members, applied)
    {
      forall x
        ensures !Overtaking(cs[i].members, rows, Choice(cs[i].members, applied), x)
      {
        NoneOvertakes(cs, applied, m, i, x);
      }
      ChoiceStaysIff(cs, applied, m, cs, i);
    }
    RebuildIff(cs, applied, m, cs);
    SameFamilies(cs, applied, rows, |cs|);
    ContainedFamilies(cs, rows);
  }

  // ----- two merged families

  function Plain(id: int, evidence: nat): Member { Member(id, evidence, None, None, None, None, 0) }

  /** Two applied families, 1 -> 10 and 2 -> 20, proved to be one recording; `e` is the evidence of 20. */
  function Merging(e: nat): seq<Component> {
    [Component([Plain(1, 0), Plain(2, 0), Plain(10, 2), Plain(20, e)], true)]
  }

  const TWO_FAMILIES := map[1 := 10, 2 := 20]

  function Merged(e: nat): Manifest {
    Manifest([Family(Merging(e)[0].members, 10)], Exclusions(Merging(e)[0].members, 10))
  }

  lemma MergingMembers(e: nat)
    ensures Separate(Merging(e)) && OneVoiced(Merging(e), 0)
    ensures var ms := Merging(e)[0].members;
            && Plain(1, 0) in ms && Plain(2, 0) in ms && Plain(10, 2) in ms && Plain(20, e) in ms
            && forall m | m in ms :: m in {Plain(1, 0), Plain(2, 0), Plain(10, 2), Plain(20, e)}
  {
    var ms := Merging(e)[0].members;
    assert ms[0] in ms && ms[1] in ms && ms[2] in ms && ms[3] in ms;
  }

  /** With less evidence for 20, the canonical is 10. */
  lemma MergingChoosesTen(e: nat)
    requires e < 2
    ensures Choice(Merging(e)[0].members, TWO_FAMILIES) == 10
  {
    var ms, targets := Merging(e)[0].members, TWO_FAMILIES.Values;
    var c := CanonicalMember(ms, targets).0;
    MergingMembers(e);
    assert TWO_FAMILIES[1] in targets && TWO_FAMILIES[2] in targets;
    CanonicalIsLeast(ms, targets, Plain(10, 2));
    if c.id in targets { PreferenceTail(c, Plain(10, 2), targets); }
  }

  lemma OneExcludes(f: Family)
    requires Has(f.members, f.canonical)
    ensures Families([f]) && Excludes([f], Exclusions(f.members, f.canonical))
  {
    assert [] + [f] == [f];
    FamiliesGrow([], f);
    ExcludesStep([], map[], f);
    assert map[] + Exclusions(f.members, f.canonical) == Exclusions(f.members, f.canonical);
  }

  /** One component of one voice that holds all rows and whose choice has none gives one family. */
  lemma OneBuilt(cs: seq<Component>, applied: map<int, int>, canonical: int)
    requires |cs| == 1 && OneVoiced(cs, 0) && Separate(cs) && canonical == Choice(cs[0].members, applied)
    requires Contained(cs[0].members, applied) && canonical !in applied
    requires forall id | id in applied :: Has(cs[0].members, id)
    ensures Built(cs, applied, Manifest([Family(cs[0].members, canonical)], Exclusions(cs[0].members, canonical)))
  {
    assert FamiliesUpTo(cs, applied, 0) == [];
    OneExcludes(Family(cs[0].members, canonical));
  }

  lemma OneRefused(cs: seq<Component>, applied: map<int, int>, m: Manifest, ds: seq<Component>, x: Member)
    requires Separate(cs) && Built(cs, applied, m) && SameComponents(cs, ds) && OneVoiced(cs, 0)
    requires Overtaking(ds[0].members, Append(applied, m), Choice(cs[0].members, applied), x)
    ensures Separate(ds) && !Buildable(ds, Append(applied, m))
  {
    RebuildIff(cs, applied, m, ds);
  }

  lemma MergedBuilt(e: nat)
    requires e < 2
    ensures Separate(Merging(e)) && Built(Merging(e), TWO_FAMILIES, Merged(e))
  {
    MergingMembers(e);
    MergingChoosesTen(e);
    var ms := Merging(e)[0].members;
    assert Has(ms, 1) && Has(ms, 2) && Has(ms, 10) && Has(ms, 20);
    OneBuilt(Merging(e), TWO_FAMILIES, 10);
  }

  lemma MergingSame(d: nat, e: nat)
    ensures SameComponents(Merging(d), Merging(e))
  {
    assert SameIds(Merging(d)[0].members, Merging(e)[0].members);
  }

  lemma MergedRows(e: nat)
    ensures var rows := Append(TWO_FAMILIES, Merged(e));
            20 in rows && 10 in rows.Values && 20 in rows.Values
  {
    MergingMembers(e);
    assert Has(Merging(e)[0].members, 20);
    var rows := Append(TWO_FAMILIES, Merged(e));
    assert rows[1] == 10 && rows[2] == 20;
  }

  lemma TwentyPreferred(e: nat, rows: map<int, int>)
    requires e > 2 && 20 in rows && 10 in rows.Values && 20 in rows.Values
    ensures Overtaking(Merging(e)[0].members, rows, 10, Plain(20, e))
  {
    MergingMembers(e);
    PreferenceTail(Plain(10, 2), Plain(20, e), rows.Values);
  }

  /** Built while 20 has less evidence than 10 (1, say), the merge retires 20 under 10; once 20 has more
      (3, say), every further manifest is refused: the rules choose 20, whose row must be restated. */
  lemma MergedThenRefused(less: nat, more: nat)
    requires less < 2 < more
    ensures Separate(Merging(less)) && Built(Merging(less), TWO_FAMILIES, Merged(less))
    ensures Separate(Merging(more)) && !Buildable(Merging(more), Append(TWO_FAMILIES, Merged(less)))
  {
    MergedBuilt(less);
    MergingMembers(less);
    MergedRows(less);
    MergingSame(less, more);
    TwentyPreferred(more, Append(TWO_FAMILIES, Merged(less)));
    MergingChoosesTen(less);
    OneRefused(Merging(less), TWO_FAMILIES, Merged(less), Merging(more), Plain(20, more));
  }
}
