/**
 `duplicate_groups` of check_dataset_duplicates.py: the groups it returns are exactly the classes of
 more than one row of the equivalence closure of rules A, A' and B, stated over all pairs of rows.
 */
module DuplicateGroups {
  import opened DuplicateRules
  import opened Graphs
  import opened MatchingBlocks
  import opened OffsetRule
  import opened RuleB
  import opened Sequences
  import opened TrigramRule
  import opened UnionFinds
  import opened Wrappers

  /** Rule B as documented: within 500 ms in source-clock order, different files, ratio at least
      0.90. Unlike the program it does not leave out equal texts. */
  ghost predicate RuleOffset(m: (Text, Text) -> seq<Block>, x: Row, y: Row) {
    && 0 <= x.entry.offset && Before(x.entry, y.entry)
    && y.entry.offset - x.entry.offset <= OFFSET_BUCKET_MS
    && x.entry.file != y.entry.file
    && Similar(m, x.entry.text, y.entry.text)
  }

  ghost predicate Related(m: (Text, Text) -> seq<Block>, near: (Text, Text) -> bool, rows: seq<Row>, x: Row, y: Row) {
    RuleA(x, y) || RuleNear(near, rows, x, y) || RuleOffset(m, x, y)
  }

  ghost function Relation(m: (Text, Text) -> seq<Block>, near: (Text, Text) -> bool, rows: seq<Row>): set<(int, int)> {
    set x, y | x in rows && y in rows && Related(m, near, rows, x, y) :: (x.entry.id, y.entry.id)
  }

  // ----- what is united has the closure of the relation

  lemma OffsetPairUnited(m: (Text, Text) -> seq<Block>, rows: seq<Row>, x: Row, y: Row)
    requires DistinctIds(rows) && x in rows && y in rows && RuleOffset(m, x, y) && x.entry.text != y.entry.text
    ensures (x.entry.id, y.entry.id) in EdgesB(m, WithOffset(rows))
  {
    var s := WithOffset(rows);
    WithOffsetOrdered(rows);
    var i :| 0 <= i < |s| && s[i] == x.entry;
    var j :| 0 <= j < |s| && s[j] == y.entry;
    PositionsFollow(s, i, j);
    assert Exact(m, s[i], s[j]);
  }

  lemma PositionsFollow(s: seq<Entry>, i: nat, j: nat)
    requires Ordered(s) && i < |s| && j < |s| && Before(s[i], s[j])
    ensures i < j
  {
  }

  lemma RelatedIn(m: (Text, Text) -> seq<Block>, near: (Text, Text) -> bool, rows: seq<Row>, x: Row, y: Row)
    requires x in rows && y in rows && Related(m, near, rows, x, y)
    ensures (x.entry.id, y.entry.id) in Relation(m, near, rows)
  {
  }

  lemma EntryRow(rows: seq<Row>, e: Entry) returns (r: Row)
    requires e in WithOffset(rows)
    ensures r in rows && r.entry == e && 0 <= e.offset
  {
    r :| r in rows && r.entry == e && 0 <= e.offset;
  }

  lemma PositionsRelated(m: (Text, Text) -> seq<Block>, near: (Text, Text) -> bool, rows: seq<Row>, i: nat, j: nat)
    requires DistinctIds(rows) && i < j < |WithOffset(rows)| && Exact(m, WithOffset(rows)[i], WithOffset(rows)[j])
    ensures (WithOffset(rows)[i].id, WithOffset(rows)[j].id) in Relation(m, near, rows)
  {
    var s := WithOffset(rows);
    WithOffsetOrdered(rows);
    var x := EntryRow(rows, s[i]);
    var y := EntryRow(rows, s[j]);
    assert RuleOffset(m, x, y);
    RelatedIn(m, near, rows, x, y);
  }

  lemma OffsetWithin(m: (Text, Text) -> seq<Block>, near: (Text, Text) -> bool, rows: seq<Row>)
    requires DistinctIds(rows)
    ensures EdgesB(m, WithOffset(rows)) <= Relation(m, near, rows)
  {
    var s := WithOffset(rows);
    forall i, j | 0 <= i < |s| && 0 <= j < |s| && i < j && Exact(m, s[i], s[j])
      ensures (s[i].id, s[j].id) in Relation(m, near, rows)
    {
      PositionsRelated(m, near, rows, i, j);
    }
  }

  lemma NearWithin(m: (Text, Text) -> seq<Block>, near: (Text, Text) -> bool, rows: seq<Row>)
    ensures EdgesNear(near, rows) <= Relation(m, near, rows)
    ensures EdgesA(rows) <= Relation(m, near, rows)
  {
  }

  /** Three parts, each inside the closure of a relation that they connect in turn. */
  lemma PartsClosure(a: set<(int, int)>, b: set<(int, int)>, c: set<(int, int)>, ra: set<(int, int)>,
                     relation: set<(int, int)>)
    requires (forall e | e in a :: Connected(ra, e.0, e.1)) && ra <= relation && b <= relation && c <= relation
    requires forall e | e in relation :: Connected(a + b + c, e.0, e.1)
    ensures SameClosure(a + b + c, relation)
  {
    forall e | e in a + b + c
      ensures Connected(relation, e.0, e.1)
    {
      if e in a {
        ConnectedMore(ra, relation, e.0, e.1);
      } else {
        ConnectedEdge(relation, e.0, e.1);
      }
    }
    SameClosureIf(a + b + c, relation);
  }

  /** `a` is what rule A united. Skipping equal texts in rule B changes nothing: rule A has them. */
  lemma UnitedClosure(m: (Text, Text) -> seq<Block>, near: (Text, Text) -> bool, rows: seq<Row>, a: set<(int, int)>)
    requires DistinctIds(rows) && Unites({}, a, EdgesA(rows))
    ensures SameClosure(a + EdgesNear(near, rows) + EdgesB(m, WithOffset(rows)), Relation(m, near, rows))
  {
    var b, c, relation := EdgesNear(near, rows), EdgesB(m, WithOffset(rows)), Relation(m, near, rows);
    forall e | e in a
      ensures Connected(EdgesA(rows), e.0, e.1)
    {
      assert e in a - {};
    }
    RelationConnected(m, near, rows, a);
    OffsetWithin(m, near, rows);
    NearWithin(m, near, rows);
    PartsClosure(a, b, c, EdgesA(rows), relation);
  }

  lemma RelationConnected(m: (Text, Text) -> seq<Block>, near: (Text, Text) -> bool, rows: seq<Row>, a: set<(int, int)>)
    requires DistinctIds(rows) && Unites({}, a, EdgesA(rows))
    ensures forall e | e in Relation(m, near, rows) ::
              Connected(a + EdgesNear(near, rows) + EdgesB(m, WithOffset(rows)), e.0, e.1)
  {
    forall x, y | x in rows && y in rows && Related(m, near, rows, x, y)
      ensures Connected(a + EdgesNear(near, rows) + EdgesB(m, WithOffset(rows)), x.entry.id, y.entry.id)
    {
      RelatedConnected(m, near, rows, a, x, y);
    }
  }

  lemma RelatedConnected(m: (Text, Text) -> seq<Block>, near: (Text, Text) -> bool, rows: seq<Row>, a: set<(int, int)>,
                         x: Row, y: Row)
    requires DistinctIds(rows) && Unites({}, a, EdgesA(rows))
    requires x in rows && y in rows && Related(m, near, rows, x, y)
    ensures Connected(a + EdgesNear(near, rows) + EdgesB(m, WithOffset(rows)), x.entry.id, y.entry.id)
  {
    var united := a + EdgesNear(near, rows) + EdgesB(m, WithOffset(rows));
    var e := (x.entry.id, y.entry.id);
    if x.entry.text == y.entry.text && x.entry.file != y.entry.file {
      assert e in EdgesA(rows);
      ConnectedMore(a, united, e.0, e.1);
    } else {
      if RuleNear(near, rows, x, y) {
        assert e in EdgesNear(near, rows);
      } else {
        OffsetPairUnited(m, rows, x, y);
      }
      ConnectedEdge(united, e.0, e.1);
    }
  }

  /** Every pair of the relation crosses files, so a class of several rows spans several files. */
  lemma ClassSpansFiles(m: (Text, Text) -> seq<Block>, near: (Text, Text) -> bool, rows: seq<Row>, g: seq<nat>, a: nat,
                        b: nat)
    requires DistinctIds(rows) && a in g && b in g && a != b && forall k | k in g :: k < |rows|
    requires forall k: nat | k < |rows| ::
               k in g <==> Connected(Relation(m, near, rows), rows[a].entry.id, rows[k].entry.id)
    ensures ManyFiles(rows, g)
  {
    var relation := Relation(m, near, rows);
    var id := rows[a].entry.id;
    assert rows[a].entry.id != rows[b].entry.id;
    var z := FirstEdge(relation, id, rows[b].entry.id);
    var x, y :| x in rows && y in rows && Related(m, near, rows, x, y) &&
                ((id, z) == (x.entry.id, y.entry.id) || (z, id) == (x.entry.id, y.entry.id));
    ConnectedEdge(relation, id, z);
    var other := if x.entry.id == id then y else x;
    var self := if x.entry.id == id then x else y;
    SameIdSameRow(rows, self, rows[a]);
    var k :| 0 <= k < |rows| && rows[k] == other;
    assert k in g && rows[k].entry.file != rows[a].entry.file;
  }

  // ----- reading the classes off the union-find

  /** The positions before n with a given root, in order. */
  ghost function ClassUpTo(roots: seq<int>, r: int, n: nat): (c: seq<nat>)
    requires n <= |roots|
  {
    if n == 0 then []
    else ClassUpTo(roots, r, n - 1) + if roots[n - 1] == r then [n - 1] else []
  }

  ghost function Class(roots: seq<int>, r: int): seq<nat> {
    ClassUpTo(roots, r, |roots|)
  }

  lemma {:induction false} ClassMembers(roots: seq<int>, r: int, n: nat)
    requires n <= |roots|
    ensures forall k: nat :: k in ClassUpTo(roots, r, n) <==> k < n && roots[k] == r
    ensures Distinct(ClassUpTo(roots, r, n))
  {
    if n > 0 {
      ClassMembers(roots, r, n - 1);
      var c := ClassUpTo(roots, r, n - 1);
      if roots[n - 1] == r {
        DistinctAppend<nat>(c, n - 1);
      } else {
        assert ClassUpTo(roots, r, n) == c;
      }
    }
  }

  /** `find` of every row. */
  method FindRoots(rows: seq<Row>, uf: UnionFind<int>) returns (roots: seq<int>)
    requires uf.Valid() && uf.parent.Keys == Ids(rows)
    modifies uf`parent
    ensures uf.Valid() && |roots| == |rows|
    ensures forall k | 0 <= k < |rows| :: rows[k].entry.id in uf.root && roots[k] == uf.root[rows[k].entry.id]
  {
    roots := [];
    for n := 0 to |rows|
      invariant uf.Valid() && uf.parent.Keys == Ids(rows) && |roots| == n
      invariant forall k | 0 <= k < n :: rows[k].entry.id in uf.root && roots[k] == uf.root[rows[k].entry.id]
    {
      assert rows[n] in rows;
      var r := uf.Find(rows[n].entry.id);
      roots := roots + [r];
    }
  }

  function MembersOf(groups: map<int, seq<nat>>, r: int): seq<nat> {
    if r in groups then groups[r] else []
  }

  ghost predicate Grouped(roots: seq<int>, groups: map<int, seq<nat>>, n: nat)
    requires n <= |roots|
  {
    forall r {:trigger MembersOf(groups, r)} :: MembersOf(groups, r) == ClassUpTo(roots, r, n)
  }

  lemma GroupedStep(roots: seq<int>, groups: map<int, seq<nat>>, n: nat)
    requires n < |roots| && Grouped(roots, groups, n)
    ensures Grouped(roots, groups[roots[n] := MembersOf(groups, roots[n]) + [n]], n + 1)
  {
    var next := groups[roots[n] := MembersOf(groups, roots[n]) + [n]];
    forall x
      ensures MembersOf(next, x) == ClassUpTo(roots, x, n + 1)
    {
      assert MembersOf(groups, x) == ClassUpTo(roots, x, n);
      assert ClassUpTo(roots, x, n) + [] == ClassUpTo(roots, x, n);
    }
  }

  /** The order in which the dictionary holds its keys: that of first insertion. */
  function KeyOrder(roots: seq<int>): (keys: seq<int>)
    ensures Distinct(keys) && forall r :: r in keys <==> r in roots
  {
    if roots == [] then []
    else
      var last := roots[|roots| - 1];
      var keys := KeyOrder(roots[..|roots| - 1]);
      assert roots == roots[..|roots| - 1] + [last];
      if last in keys then keys
      else
        DistinctAppend(keys, last);
        keys + [last]
  }

  /** The dictionary of classes by root. */
  method Collect(roots: seq<int>) returns (groups: map<int, seq<nat>>)
    ensures Grouped(roots, groups, |roots|)
  {
    groups := map[];
    var n: nat := 0;
    while n < |roots|
      invariant n <= |roots| && Grouped(roots, groups, n)
    {
      GroupedStep(roots, groups, n);
      groups := groups[roots[n] := MembersOf(groups, roots[n]) + [n]];
      n := n + 1;
    }
  }

  /** The classes of several rows among the first n keys. */
  ghost function Large(roots: seq<int>, keys: seq<int>, n: nat): seq<seq<nat>>
    requires n <= |keys|
  {
    if n == 0 then []
    else Large(roots, keys, n - 1) + if 1 < |Class(roots, keys[n - 1])| then [Class(roots, keys[n - 1])] else []
  }

  /** The final comprehension; its two-file test removes no class of several rows. */
  method Select(rows: seq<Row>, roots: seq<int>, keys: seq<int>, groups: map<int, seq<nat>>)
    returns (result: seq<seq<nat>>)
    requires |roots| == |rows| && Grouped(roots, groups, |roots|)
    requires forall r :: forall k | k in Class(roots, r) :: k < |rows|
    requires forall r | 1 < |Class(roots, r)| :: ManyFiles(rows, Class(roots, r))
    ensures result == Large(roots, keys, |keys|)
  {
    result := [];
    for n := 0 to |keys|
      invariant result == Large(roots, keys, n)
    {
      var g := MembersOf(groups, keys[n]);
      assert g == Class(roots, keys[n]);
      if 1 < |g| && ManyFiles(rows, g) {
        result := result + [g];
      }
    }
  }

  lemma {:induction false} LargeMembers(roots: seq<int>, keys: seq<int>, n: nat)
    requires n <= |keys|
    ensures forall k | 0 <= k < n && 1 < |Class(roots, keys[k])| :: Class(roots, keys[k]) in Large(roots, keys, n)
    ensures forall g | g in Large(roots, keys, n) :: exists k | 0 <= k < n :: g == Class(roots, keys[k]) && 1 < |g|
  {
    if n > 0 {
      LargeMembers(roots, keys, n - 1);
    }
  }

  /** The keys of those classes. */
  ghost function LargeKeys(roots: seq<int>, keys: seq<int>, n: nat): seq<int>
    requires n <= |keys|
  {
    if n == 0 then []
    else LargeKeys(roots, keys, n - 1) + if 1 < |Class(roots, keys[n - 1])| then [keys[n - 1]] else []
  }

  lemma {:induction false} LargeKeysMatch(roots: seq<int>, keys: seq<int>, n: nat)
    requires n <= |keys|
    ensures |LargeKeys(roots, keys, n)| == |Large(roots, keys, n)|
    ensures forall i | 0 <= i < |Large(roots, keys, n)| ::
              Large(roots, keys, n)[i] == Class(roots, LargeKeys(roots, keys, n)[i])
  {
    if n > 0 {
      LargeKeysMatch(roots, keys, n - 1);
    }
  }

  lemma {:induction false} LargeKeysDistinct(roots: seq<int>, keys: seq<int>, n: nat)
    requires n <= |keys| && Distinct(keys)
    ensures Distinct(LargeKeys(roots, keys, n))
    ensures forall r | r in LargeKeys(roots, keys, n) :: r in keys[..n]
  {
    if n > 0 {
      var m := n - 1;
      var before, key := LargeKeys(roots, keys, m), keys[m];
      LargeKeysDistinct(roots, keys, m);
      assert keys[..n] == keys[..m] + [key];
      if 1 < |Class(roots, key)| {
        KeyFresh(keys, m);
        DistinctAppend(before, key);
      } else {
        assert LargeKeys(roots, keys, n) == before;
      }
    }
  }

  lemma KeyFresh<K(!new)>(keys: seq<K>, n: nat)
    requires Distinct(keys) && n < |keys|
    ensures keys[n] !in keys[..n]
  {
  }

  lemma LargeDisjoint(roots: seq<int>, keys: seq<int>, i: nat, j: nat)
    requires Distinct(keys) && i < j < |Large(roots, keys, |keys|)|
    ensures forall k | k in Large(roots, keys, |keys|)[i] :: k !in Large(roots, keys, |keys|)[j]
  {
    LargeKeysMatch(roots, keys, |keys|);
    LargeKeysDistinct(roots, keys, |keys|);
    var owners := LargeKeys(roots, keys, |keys|);
    DistinctMeans(owners, i, j);
    ClassMembers(roots, owners[i], |roots|);
    ClassMembers(roots, owners[j], |roots|);
  }

  // ----- the classes are those of the relation

  /** A list of rows that is one whole class of the relation. */
  ghost predicate IsClass(relation: set<(int, int)>, rows: seq<Row>, g: seq<nat>) {
    && Distinct(g) && 1 < |g| && (forall k | k in g :: k < |rows|)
    && forall a: nat, b: nat | a in g && b < |rows| ::
         b in g <==> Connected(relation, rows[a].entry.id, rows[b].entry.id)
  }

  /** Equal roots are connections of the relation. */
  ghost predicate RootsAreClasses(relation: set<(int, int)>, rows: seq<Row>, roots: seq<int>) {
    && |roots| == |rows|
    && forall a: nat, b: nat | a < |rows| && b < |rows| ::
         roots[a] == roots[b] <==> Connected(relation, rows[a].entry.id, rows[b].entry.id)
  }

  lemma RootsAreClassesIf(relation: set<(int, int)>, rows: seq<Row>, root: map<int, int>, edges: set<(int, int)>,
                          roots: seq<int>)
    requires Represents(root, edges) && SameClosure(edges, relation) && |roots| == |rows|
    requires forall k | 0 <= k < |rows| :: rows[k].entry.id in root && roots[k] == root[rows[k].entry.id]
    ensures RootsAreClasses(relation, rows, roots)
  {
    forall a: nat, b: nat | a < |rows| && b < |rows|
      ensures roots[a] == roots[b] <==> Connected(relation, rows[a].entry.id, rows[b].entry.id)
    {
      RootsDecide(root, edges, rows[a].entry.id, rows[b].entry.id);
      assert Connected(edges, rows[a].entry.id, rows[b].entry.id) <==>
             Connected(relation, rows[a].entry.id, rows[b].entry.id);
    }
  }

  lemma ClassIsClass(relation: set<(int, int)>, rows: seq<Row>, roots: seq<int>, r: int)
    requires RootsAreClasses(relation, rows, roots) && 1 < |Class(roots, r)|
    ensures IsClass(relation, rows, Class(roots, r))
  {
    ClassMembers(roots, r, |roots|);
  }

  lemma ClassesSpanFiles(m: (Text, Text) -> seq<Block>, near: (Text, Text) -> bool, rows: seq<Row>, roots: seq<int>)
    requires DistinctIds(rows) && RootsAreClasses(Relation(m, near, rows), rows, roots)
    ensures forall r :: forall k | k in Class(roots, r) :: k < |rows|
    ensures forall r | 1 < |Class(roots, r)| :: ManyFiles(rows, Class(roots, r))
  {
    forall r
      ensures forall k | k in Class(roots, r) :: k < |rows|
      ensures 1 < |Class(roots, r)| ==> ManyFiles(rows, Class(roots, r))
    {
      ClassMembers(roots, r, |roots|);
      var g := Class(roots, r);
      if 1 < |g| {
        ClassIsClass(Relation(m, near, rows), rows, roots, r);
        DistinctMeans(g, 0, 1);
        assert g[0] in g && g[1] in g;
        ClassSpansFiles(m, near, rows, g, g[0], g[1]);
      }
    }
  }

  lemma PartnersTogether(relation: set<(int, int)>, rows: seq<Row>, roots: seq<int>, keys: seq<int>, a: nat, b: nat)
    requires RootsAreClasses(relation, rows, roots) && keys == KeyOrder(roots)
    requires a < |rows| && b < |rows| && a != b && Connected(relation, rows[a].entry.id, rows[b].entry.id)
    ensures exists g | g in Large(roots, keys, |keys|) :: a in g && b in g
  {
    var g := Class(roots, roots[a]);
    ClassMembers(roots, roots[a], |roots|);
    var i :| 0 <= i < |g| && g[i] == a;
    var j :| 0 <= j < |g| && g[j] == b;
    assert roots[a] in keys;
    var k :| 0 <= k < |keys| && keys[k] == roots[a];
    LargeMembers(roots, keys, |keys|);
  }

  /** The three properties of the result, from the roots alone. */
  lemma LargeIsExact(relation: set<(int, int)>, rows: seq<Row>, roots: seq<int>, keys: seq<int>)
    requires RootsAreClasses(relation, rows, roots) && keys == KeyOrder(roots)
    ensures Partition(relation, rows, Large(roots, keys, |keys|))
  {
    var result := Large(roots, keys, |keys|);
    LargeMembers(roots, keys, |keys|);
    forall g | g in result
      ensures IsClass(relation, rows, g)
    {
      var k :| 0 <= k < |keys| && g == Class(roots, keys[k]) && 1 < |g|;
      ClassIsClass(relation, rows, roots, keys[k]);
    }
    forall a: nat, b: nat | a < |rows| && b < |rows| && a != b
                            && Connected(relation, rows[a].entry.id, rows[b].entry.id)
      ensures exists g | g in result :: a in g && b in g
    {
      PartnersTogether(relation, rows, roots, keys, a, b);
    }
    forall i, j | 0 <= i < j < |result|
      ensures forall k | k in result[i] :: k !in result[j]
    {
      LargeDisjoint(roots, keys, i, j);
    }
  }

  /** The groups are whole classes of the closure, two different rows that the closure relates are in
      one group, and no two groups share a row. */
  ghost predicate Partition(relation: set<(int, int)>, rows: seq<Row>, groups: seq<seq<nat>>) {
    && (forall g | g in groups :: IsClass(relation, rows, g))
    && (forall a: nat, b: nat | a < |rows| && b < |rows| && a != b
                                && Connected(relation, rows[a].entry.id, rows[b].entry.id) ::
          exists g | g in groups :: a in g && b in g)
    && (forall i, j | 0 <= i < j < |groups| :: forall k | k in groups[i] :: k !in groups[j])
  }

  /** The whole audit. It refuses exactly when some cluster is unsafe for the prefilter; otherwise it returns
      exactly the classes of more than one row of the closure of rules A, A' and B. */
  method FindDuplicateGroups(m: (Text, Text) -> seq<Block>, near: (Text, Text) -> bool, rows: seq<Row>)
    returns (r: Result<seq<seq<nat>>>)
    requires IsMatcher(m) && DistinctIds(rows)
    ensures r.Refused? <==> SomeUnsafe(WithOffset(rows))
    ensures r.Ok? ==> Partition(Relation(m, near, rows), rows, r.value)
  {
    var uf, ok := UniteAll(m, near, rows);
    if !ok {
      return Refused;
    }
    var roots := FindRoots(rows, uf);
    RootsAreClassesIf(Relation(m, near, rows), rows, uf.root, uf.edges, roots);
    var groups := Collect(roots);
    var keys := KeyOrder(roots);
    ClassesSpanFiles(m, near, rows, roots);
    var result := Select(rows, roots, keys, groups);
    LargeIsExact(Relation(m, near, rows), rows, roots, keys);
    return Ok(result);
  }

  /** The three rule loops over one union-find. */
  method UniteAll(m: (Text, Text) -> seq<Block>, near: (Text, Text) -> bool, rows: seq<Row>)
    returns (uf: UnionFind<int>, ok: bool)
    requires IsMatcher(m) && DistinctIds(rows)
    ensures fresh(uf) && uf.Valid() && uf.parent.Keys == Ids(rows)
    ensures ok ==> SameClosure(uf.edges, Relation(m, near, rows))
    ensures ok <==> !SomeUnsafe(WithOffset(rows))
  {
    uf := new UnionFind<int>(set x | x in rows :: x.entry.id);
    UniteA(rows, uf);
    ghost var a := uf.edges;
    UniteNear(near, rows, uf);
    var s := WithOffset(rows);
    WithOffsetOrdered(rows);
    ok := UniteB(m, s, uf);
    if ok {
      UnitedClosure(m, near, rows, a);
    }
  }
}
