/**
 `classify` in `confirm_groups_with_audio` of check_dataset_duplicates.py. The audio verdict of a
 cross-file pair is true, false or unknown; the classifier splits a candidate group into confirmed
 components, unconfirmed components and proof edges. Members are the positions of the group.
 */
module ComponentClassifier {
  import opened DuplicateGroups
  import opened Graphs
  import opened Sequences
  import opened UnionFinds

  datatype Verdict = Duplicate | Different | Undecided

  type Edges = set<(int, int)>

  /** The pairs with a given verdict; only cross-file pairs are compared. */
  ghost function EdgesOf(files: seq<int>, verdict: (int, int) -> Verdict, v: Verdict): (edges: Edges)
    ensures forall e | e in edges :: 0 <= e.0 < e.1 < |files|
  {
    set i, j | 0 <= i < |files| && 0 <= j < |files| && i < j && files[i] != files[j] && verdict(i, j) == v :: (i, j)
  }

  /** The cross-file pairs, and those among them whose correlation is only probable. */
  ghost function Crossings(files: seq<int>): Edges {
    set i, j | 0 <= i < |files| && 0 <= j < |files| && i < j && files[i] != files[j] :: (i, j)
  }

  ghost function Probables(files: seq<int>, probable: (int, int) -> bool): Edges {
    set i, j | 0 <= i < |files| && 0 <= j < |files| && i < j && files[i] != files[j] && probable(i, j) :: (i, j)
  }

  lemma EdgeMembership(files: seq<int>, verdict: (int, int) -> Verdict, v: Verdict, i: nat, j: nat)
    requires i < j < |files|
    ensures (i, j) in EdgesOf(files, verdict, v) <==> files[i] != files[j] && verdict(i, j) == v
  {
  }

  predicate InRange(k: int, n: nat) { 0 <= k < n }

  /** `range(n)`. */
  function Range(n: nat): set<int> {
    set k | 0 <= k < n && InRange(k, n)
  }

  ghost function SetOf(s: seq<(int, int)>): Edges {
    set e | e in s
  }

  // ----- the pair loop

  predicate Passed(e: (int, int), i: int, j: int) {
    e.0 < i || (e.0 == i && e.1 < j)
  }

  /** The list holds exactly the wanted pairs before position (i, j) of the loop. */
  ghost predicate Recorded(wanted: Edges, list: seq<(int, int)>, i: int, j: int) {
    forall e :: e in list <==> e in wanted && Passed(e, i, j)
  }

  lemma RecordedStep(wanted: Edges, list: seq<(int, int)>, i: int, j: int)
    requires Recorded(wanted, list, i, j)
    ensures Recorded(wanted, if (i, j) in wanted then list + [(i, j)] else list, i, j + 1)
  {
  }

  lemma RecordedNextRow(wanted: Edges, list: seq<(int, int)>, i: int, n: int)
    requires Recorded(wanted, list, i, n) && forall e | e in wanted :: e.0 < e.1 < n
    ensures Recorded(wanted, list, i + 1, i + 2)
  {
  }

  /** The lists of the pair loop and its count of comparisons. */
  datatype Scan = Scan(compared: nat, trues: seq<(int, int)>, unknowns: seq<(int, int)>, probables: seq<(int, int)>)

  /** What the loop looks at: the files, the audio verdict and whether the correlation is probable. */
  datatype Audio = Audio(files: seq<int>, verdict: (int, int) -> Verdict, probable: (int, int) -> bool)

  /** The loop body's effect on the lists. */
  function Visit(a: Audio, s: Scan, i: nat, j: nat): Scan
    requires i < j < |a.files|
  {
    if a.files[i] == a.files[j] then s
    else
      var e := (i, j);
      Scan(s.compared + 1,
           if a.verdict(i, j).Duplicate? then s.trues + [e] else s.trues,
           if a.verdict(i, j).Undecided? then s.unknowns + [e] else s.unknowns,
           if a.probable(i, j) then s.probables + [e] else s.probables)
  }

  /** Each list holds exactly its pairs before position (i, j); `all` are the pairs compared. */
  ghost predicate Tracked(a: Audio, s: Scan, all: seq<(int, int)>, i: int, j: int) {
    && s.compared == |all| && Recorded(Crossings(a.files), all, i, j)
    && Recorded(EdgesOf(a.files, a.verdict, Duplicate), s.trues, i, j)
    && Recorded(EdgesOf(a.files, a.verdict, Undecided), s.unknowns, i, j)
    && Recorded(Probables(a.files, a.probable), s.probables, i, j)
  }

  lemma TrackedStep(a: Audio, s: Scan, all: seq<(int, int)>, i: nat, j: nat)
    requires i < j < |a.files| && Tracked(a, s, all, i, j)
    ensures Tracked(a, Visit(a, s, i, j), if a.files[i] != a.files[j] then all + [(i, j)] else all, i, j + 1)
  {
    RecordedStep(Crossings(a.files), all, i, j);
    RecordedStep(EdgesOf(a.files, a.verdict, Duplicate), s.trues, i, j);
    RecordedStep(EdgesOf(a.files, a.verdict, Undecided), s.unknowns, i, j);
    RecordedStep(Probables(a.files, a.probable), s.probables, i, j);
    EdgeMembership(a.files, a.verdict, Duplicate, i, j);
    EdgeMembership(a.files, a.verdict, Undecided, i, j);
  }

  lemma TrackedNextRow(a: Audio, s: Scan, all: seq<(int, int)>, i: nat)
    requires Tracked(a, s, all, i, |a.files|)
    ensures Tracked(a, s, all, i + 1, i + 2)
  {
    RecordedNextRow(Crossings(a.files), all, i, |a.files|);
    RecordedNextRow(EdgesOf(a.files, a.verdict, Duplicate), s.trues, i, |a.files|);
    RecordedNextRow(EdgesOf(a.files, a.verdict, Undecided), s.unknowns, i, |a.files|);
    RecordedNextRow(Probables(a.files, a.probable), s.probables, i, |a.files|);
  }

  /** The lists are complete. */
  ghost predicate Scanned(a: Audio, s: Scan) {
    && SetOf(s.trues) == EdgesOf(a.files, a.verdict, Duplicate)
    && SetOf(s.unknowns) == EdgesOf(a.files, a.verdict, Undecided)
    && SetOf(s.probables) == Probables(a.files, a.probable)
    && (s.compared == 0 <==> Crossings(a.files) == {})
  }

  lemma TrackedAll(a: Audio, s: Scan, all: seq<(int, int)>)
    requires Tracked(a, s, all, |a.files|, |a.files| + 1)
    ensures Scanned(a, s)
  {
    assert SetOf(s.trues) == EdgesOf(a.files, a.verdict, Duplicate);
    assert SetOf(s.unknowns) == EdgesOf(a.files, a.verdict, Undecided);
    assert SetOf(s.probables) == Probables(a.files, a.probable);
    assert SetOf(all) == Crossings(a.files);
    assert all == [] <==> SetOf(all) == {} by {
      if all != [] { assert all[0] in SetOf(all); }
    }
  }

  /** Compares every cross-file pair, lists the true, unknown and probable ones and unites the true ones. */
  method ScanPairs(a: Audio, uf: UnionFind<int>) returns (s: Scan)
    requires uf.Valid() && uf.parent.Keys == Range(|a.files|) && uf.edges == {}
    modifies uf
    ensures uf.Valid() && uf.parent.Keys == old(uf.parent.Keys) && uf.edges == SetOf(s.trues) && Scanned(a, s)
  {
    s := Scan(0, [], [], []);
    ghost var all: seq<(int, int)> := [];
    for i := 0 to |a.files|
      invariant uf.Valid() && uf.parent.Keys == old(uf.parent.Keys) && uf.edges == SetOf(s.trues)
      invariant Tracked(a, s, all, i, i + 1)
    {
      s, all := ScanFrom(a, uf, s, all, i);
      TrackedNextRow(a, s, all, i);
    }
    TrackedAll(a, s, all);
  }

  method ScanFrom(a: Audio, uf: UnionFind<int>, before: Scan, ghost seen: seq<(int, int)>, i: nat)
    returns (s: Scan, ghost all: seq<(int, int)>)
    requires uf.Valid() && uf.parent.Keys == Range(|a.files|) && uf.edges == SetOf(before.trues) && i < |a.files|
    requires Tracked(a, before, seen, i, i + 1)
    modifies uf
    ensures uf.Valid() && uf.parent.Keys == old(uf.parent.Keys) && uf.edges == SetOf(s.trues)
    ensures Tracked(a, s, all, i, |a.files|)
  {
    s, all := before, seen;
    for j := i + 1 to |a.files|
      invariant uf.Valid() && uf.parent.Keys == old(uf.parent.Keys) && uf.edges == SetOf(s.trues)
      invariant Tracked(a, s, all, i, j)
    {
      TrackedStep(a, s, all, i, j);
      SetOfAppend(s.trues, (i, j));
      if a.files[i] != a.files[j] {
        all := all + [(i, j)];
        if a.verdict(i, j).Duplicate? { uf.Union(i, j); }
      }
      s := Visit(a, s, i, j);
    }
  }

  lemma SetOfAppend(s: seq<(int, int)>, e: (int, int))
    ensures SetOf(s + [e]) == SetOf(s) + {e}
  {
  }

  // ----- components

  /** `[find(index) for index in range(n)]`. */
  method FindAll(n: nat, uf: UnionFind<int>) returns (roots: seq<int>)
    requires uf.Valid() && uf.parent.Keys == Range(n)
    modifies uf`parent
    ensures uf.Valid() && |roots| == n
    ensures forall k | 0 <= k < n :: k in uf.root && roots[k] == uf.root[k]
  {
    roots := [];
    for k := 0 to n
      invariant uf.Valid() && uf.parent.Keys == Range(n) && |roots| == k
      invariant forall i | 0 <= i < k :: i in uf.root && roots[i] == uf.root[i]
    {
      var r := uf.Find(k);
      roots := roots + [r];
    }
  }

  /** Equal roots are connections. */
  ghost predicate Decides(roots: seq<int>, edges: Edges) {
    forall a, b {:trigger Connected(edges, a, b)} | 0 <= a < |roots| && 0 <= b < |roots| ::
      roots[a] == roots[b] <==> Connected(edges, a, b)
  }

  lemma DecidesIf(roots: seq<int>, root: map<int, int>, edges: Edges)
    requires Represents(root, edges) && forall k | 0 <= k < |roots| :: k in root && roots[k] == root[k]
    ensures Decides(roots, edges)
  {
    forall a, b | 0 <= a < |roots| && 0 <= b < |roots|
      ensures roots[a] == roots[b] <==> Connected(edges, a, b)
    {
      RootsDecide(root, edges, a, b);
    }
  }

  /** One connected component, as the ascending list of its members. */
  ghost predicate IsComponent(edges: Edges, n: nat, c: seq<nat>) {
    && Distinct(c) && 1 < |c| && (forall k | k in c :: k < n)
    && forall a: nat, b: nat {:trigger Connected(edges, a, b)} | a in c && b < n :: b in c <==> Connected(edges, a, b)
  }

  lemma ClassIsComponent(roots: seq<int>, edges: Edges, r: int)
    requires Decides(roots, edges) && 1 < |Class(roots, r)|
    ensures IsComponent(edges, |roots|, Class(roots, r))
  {
    ClassMembers(roots, r, |roots|);
    var c := Class(roots, r);
    forall a: nat, b: nat | a in c && b < |roots|
      ensures b in c <==> Connected(edges, a, b)
    {
      assert Connected(edges, a, b) <==> roots[a] == roots[b];
    }
  }

  predicate SeveralFiles(files: seq<int>, c: seq<nat>)
    requires forall k | k in c :: k < |files|
  {
    exists i, j | i in c && j in c :: files[i] != files[j]
  }

  /** Several members, from several files. */
  ghost predicate SpansFiles(files: seq<int>, c: seq<nat>) {
    1 < |c| && (forall k | k in c :: k < |files|) && SeveralFiles(files, c)
  }

  /** The roots of the members that an edge touches, each member of each edge in turn. */
  function TouchedRoots(roots: seq<int>, edges: seq<(int, int)>): (t: seq<int>)
    requires forall k | 0 <= k < |edges| :: 0 <= edges[k].0 < |roots| && 0 <= edges[k].1 < |roots|
  {
    if edges == [] then []
    else [roots[edges[0].0], roots[edges[0].1]] + TouchedRoots(roots, edges[1..])
  }

  lemma {:induction false} TouchedBy(roots: seq<int>, edges: seq<(int, int)>, r: int) returns (k: nat)
    requires forall k | 0 <= k < |edges| :: 0 <= edges[k].0 < |roots| && 0 <= edges[k].1 < |roots|
    requires r in TouchedRoots(roots, edges)
    ensures k < |edges| && (r == roots[edges[k].0] || r == roots[edges[k].1])
  {
    if r == roots[edges[0].0] || r == roots[edges[0].1] {
      k := 0;
    } else {
      k := TouchedBy(roots, edges[1..], r);
      k := k + 1;
    }
  }

  lemma {:induction false} TouchedIncludes(roots: seq<int>, edges: seq<(int, int)>, k: nat)
    requires forall k | 0 <= k < |edges| :: 0 <= edges[k].0 < |roots| && 0 <= edges[k].1 < |roots|
    requires k < |edges|
    ensures roots[edges[k].0] in TouchedRoots(roots, edges)
  {
    if k > 0 {
      TouchedIncludes(roots, edges[1..], k - 1);
    }
  }

  /** An edge of a graph lies inside the class of either end, which thus has several members and,
      as edges cross files, several files. */
  lemma TouchedClass(files: seq<int>, roots: seq<int>, edges: Edges, e: (int, int), r: int)
    requires Decides(roots, edges) && |roots| == |files| && e in edges && 0 <= e.0 < e.1 < |files|
             && files[e.0] != files[e.1]
    requires r == roots[e.0] || r == roots[e.1]
    ensures var c := Class(roots, r);
            e.0 in c && e.1 in c && SpansFiles(files, c)
  {
    ConnectedEdge(edges, e.0, e.1);
    ClassMembers(roots, r, |roots|);
    var c := Class(roots, r);
    var x: nat, y: nat := e.0, e.1;
    assert x in c && y in c;
    var i :| 0 <= i < |c| && c[i] == x;
    var j :| 0 <= j < |c| && c[j] == y;
  }

  /** The components of the touched roots that span several files. */
  method Components(files: seq<int>, roots: seq<int>, keys: seq<int>) returns (result: seq<seq<nat>>)
    requires |roots| == |files|
    requires forall r | r in keys :: SpansFiles(files, Class(roots, r))
    ensures |result| == |keys| && forall k | 0 <= k < |keys| :: result[k] == Class(roots, keys[k])
  {
    var groups := Collect(roots);
    result := [];
    for n := 0 to |keys|
      invariant |result| == n && forall k | 0 <= k < n :: result[k] == Class(roots, keys[k])
    {
      var c := MembersOf(groups, keys[n]);
      assert c == Class(roots, keys[n]) && keys[n] in keys;
      if SeveralFiles(files, c) {
        result := result + [c];
      }
    }
  }

  /** The components that contain a listed edge: whole, distinct, and one for each such edge. */
  ghost predicate CoversEdges(edges: Edges, n: nat, listed: Edges, result: seq<seq<nat>>) {
    && (forall i | 0 <= i < |result| :: IsComponent(edges, n, result[i]) && HoldsSome(listed, result[i]))
    && (forall e | e in listed :: HeldBySome(result, e))
    && Disjoint(result)
  }

  ghost predicate Holds(c: seq<nat>, e: (int, int)) { e.0 in c && e.1 in c }

  ghost predicate HoldsSome(listed: Edges, c: seq<nat>) { exists e | e in listed :: Holds(c, e) }

  ghost predicate HeldBySome(result: seq<seq<nat>>, e: (int, int)) {
    exists i | 0 <= i < |result| :: Holds(result[i], e)
  }

  /** No member is in two lists. */
  ghost predicate Disjoint(result: seq<seq<nat>>) {
    forall i, j, k | 0 <= i < j < |result| && k in result[i] :: k !in result[j]
  }

  /** Each listed pair crosses files and is an edge of the graph. */
  ghost predicate Listed(files: seq<int>, edges: Edges, list: seq<(int, int)>) {
    forall k | 0 <= k < |list| ::
      0 <= list[k].0 < list[k].1 < |files| && files[list[k].0] != files[list[k].1] && list[k] in edges
  }

  method ComponentsOf(files: seq<int>, roots: seq<int>, list: seq<(int, int)>, ghost edges: Edges)
    returns (result: seq<seq<nat>>)
    requires |roots| == |files| && Decides(roots, edges) && Listed(files, edges, list)
    ensures CoversEdges(edges, |files|, SetOf(list), result)
  {
    var keys := KeyOrder(TouchedRoots(roots, list));
    forall r | r in keys
      ensures SpansFiles(files, Class(roots, r))
    {
      var k := TouchedBy(roots, list, r);
      TouchedClass(files, roots, edges, list[k], r);
    }
    result := Components(files, roots, keys);
    ComponentsWhole(files, roots, list, edges, keys, result);
    ComponentsComplete(files, roots, list, edges, keys, result);
    ComponentsDisjoint(roots, keys, result);
  }

  lemma ComponentsWhole(files: seq<int>, roots: seq<int>, list: seq<(int, int)>, edges: Edges, keys: seq<int>,
                        result: seq<seq<nat>>)
    requires |roots| == |files| && Decides(roots, edges) && Listed(files, edges, list)
    requires keys == KeyOrder(TouchedRoots(roots, list))
    requires |result| == |keys| && forall k | 0 <= k < |keys| :: result[k] == Class(roots, keys[k])
    ensures forall n | 0 <= n < |result| :: IsComponent(edges, |files|, result[n]) && HoldsSome(SetOf(list), result[n])
  {
    forall n | 0 <= n < |result|
      ensures IsComponent(edges, |files|, result[n]) && HoldsSome(SetOf(list), result[n])
    {
      assert keys[n] in keys;
      var k := TouchedBy(roots, list, keys[n]);
      TouchedClass(files, roots, edges, list[k], keys[n]);
      ClassIsComponent(roots, edges, keys[n]);
      assert list[k] in SetOf(list) && Holds(result[n], list[k]);
    }
  }

  lemma ComponentsComplete(files: seq<int>, roots: seq<int>, list: seq<(int, int)>, edges: Edges, keys: seq<int>,
                           result: seq<seq<nat>>)
    requires |roots| == |files| && Decides(roots, edges) && Listed(files, edges, list)
    requires keys == KeyOrder(TouchedRoots(roots, list))
    requires |result| == |keys| && forall k | 0 <= k < |keys| :: result[k] == Class(roots, keys[k])
    ensures forall e | e in SetOf(list) :: HeldBySome(result, e)
  {
    forall e | e in SetOf(list)
      ensures HeldBySome(result, e)
    {
      var k :| 0 <= k < |list| && list[k] == e;
      TouchedIncludes(roots, list, k);
      assert roots[e.0] in keys;
      var n :| 0 <= n < |keys| && keys[n] == roots[e.0];
      TouchedClass(files, roots, edges, e, keys[n]);
      assert Holds(result[n], e);
    }
  }

  lemma ComponentsDisjoint(roots: seq<int>, keys: seq<int>, result: seq<seq<nat>>)
    requires Distinct(keys) && |result| == |keys| && forall k | 0 <= k < |keys| :: result[k] == Class(roots, keys[k])
    ensures Disjoint(result)
  {
    forall i, j, k | 0 <= i < j < |result| && k in result[i]
      ensures k !in result[j]
    {
      DistinctMeans(keys, i, j);
      ClassMembers(roots, keys[i], |roots|);
      ClassMembers(roots, keys[j], |roots|);
    }
  }

  // ----- proof edges

  /** `[edge for edge in true_edges if both ends in member_ids]`. */
  function Within(edges: seq<(int, int)>, c: seq<nat>): (r: seq<(int, int)>)
    ensures forall e :: e in r <==> e in edges && e.0 in c && e.1 in c
  {
    if edges == [] then []
    else
      var e := edges[0];
      assert edges == [e] + edges[1..];
      var rest := Within(edges[1..], c);
      if e.0 in c && e.1 in c then [e] + rest else rest
  }

  /** A path that starts in a component never leaves it, so the edges inside connect it. */
  lemma {:induction false} PathInside(edges: Edges, inside: Edges, n: nat, c: seq<nat>, p: seq<int>, a: int, b: int)
    requires IsComponent(edges, n, c) && IsPath(edges, p, a, b) && 0 <= a && a in c
    requires forall e | e in edges :: 0 <= e.0 < n && 0 <= e.1 < n
    requires forall e | e in edges && e.0 in c && e.1 in c :: e in inside
    ensures Connected(inside, a, b)
    decreases |p|
  {
    if |p| == 1 {
      ConnectedSelf(inside, a);
    } else {
      assert Linked(edges, p[0], p[1]);
      var x: nat, y: nat := a, p[1];
      ConnectedEdge(edges, x, y);
      assert y in c;
      assert Linked(inside, a, p[1]);
      ConnectedEdge(inside, a, p[1]);
      PathInside(edges, inside, n, c, p[1..], p[1], b);
      ConnectedJoin(inside, a, p[1], b);
    }
  }

  /** The emitted proof edges connect their component. */
  lemma ProofConnects(edges: seq<(int, int)>, n: nat, c: seq<nat>, a: nat, b: nat)
    requires IsComponent(SetOf(edges), n, c) && a in c && b in c
    requires forall e | e in edges :: 0 <= e.0 < n && 0 <= e.1 < n
    ensures Connected(SetOf(Within(edges, c)), a, b)
  {
    var x: int, y: int := a, b;
    assert Connected(SetOf(edges), a, b);
    var p :| IsPath(SetOf(edges), p, x, y);
    PathInside(SetOf(edges), SetOf(Within(edges, c)), n, c, p, x, y);
  }

  // ----- the classifier

  /** The full verdict on a group. */
  ghost predicate Classified(files: seq<int>, trues: Edges, unknowns: Edges,
                             confirmed: seq<seq<nat>>, unconfirmed: seq<seq<nat>>, proof: seq<seq<(int, int)>>) {
    && CoversEdges(trues, |files|, trues, confirmed)
    && CoversEdges(trues + unknowns, |files|, unknowns, unconfirmed)
    && |proof| == |confirmed|
    && forall i | 0 <= i < |confirmed| :: ProvesComponent(trues, confirmed[i], proof[i])
  }

  /** The proof edges are the true edges inside the component, and they connect it. */
  ghost predicate ProvesComponent(trues: Edges, c: seq<nat>, edges: seq<(int, int)>) {
    && (forall e :: e in edges <==> e in trues && e.0 in c && e.1 in c)
    && forall a: nat, b: nat | a in c && b in c :: Connected(SetOf(edges), a, b)
  }

  /** `classify`: confirmed components are exactly the connected components of the true edges, every
      unknown edge lies in exactly one unconfirmed component, and each confirmed component has its
      proof. The group is a repeat when it was compared and every comparison said different. */
  method Classify(a: Audio)
    returns (confirmed: seq<seq<nat>>, unconfirmed: seq<seq<nat>>, repeated: bool,
             proof: seq<seq<(int, int)>>, probables: seq<(int, int)>)
    ensures Classified(a.files, EdgesOf(a.files, a.verdict, Duplicate), EdgesOf(a.files, a.verdict, Undecided),
                       confirmed, unconfirmed, proof)
    ensures repeated <==> Crossings(a.files) != {} && EdgesOf(a.files, a.verdict, Different) == Crossings(a.files)
    ensures SetOf(probables) == Probables(a.files, a.probable)
  {
    var uf := new UnionFind<int>(Range(|a.files|));
    var s := ScanPairs(a, uf);
    var roots := FindAll(|a.files|, uf);
    DecidesIf(roots, uf.root, uf.edges);
    ListedIf(a.files, a.verdict, Duplicate, s.trues, uf.edges);
    confirmed := ComponentsOf(a.files, roots, s.trues, uf.edges);
    unconfirmed := Unconfirmed(a.files, a.verdict, s.trues, s.unknowns);
    repeated := s.compared > 0 && s.trues == [] && s.unknowns == [];
    RepeatMeans(a, s);
    proof := Proofs(a.files, s.trues, confirmed);
    probables := s.probables;
  }

  lemma OneVerdict(a: Audio, e: (int, int), v: Verdict)
    requires e in EdgesOf(a.files, a.verdict, v) && !v.Different?
    ensures e in Crossings(a.files) && e !in EdgesOf(a.files, a.verdict, Different)
  {
  }

  lemma RepeatMeans(a: Audio, s: Scan)
    requires Scanned(a, s)
    ensures s.trues == [] && s.unknowns == [] <==> EdgesOf(a.files, a.verdict, Different) == Crossings(a.files)
  {
    if s.trues != [] {
      assert s.trues[0] in SetOf(s.trues);
      OneVerdict(a, s.trues[0], Duplicate);
    } else if s.unknowns != [] {
      assert s.unknowns[0] in SetOf(s.unknowns);
      OneVerdict(a, s.unknowns[0], Undecided);
    }
    if s.trues == [] && s.unknowns == [] {
      forall e | e in Crossings(a.files)
        ensures e in EdgesOf(a.files, a.verdict, Different)
      {
        assert e !in SetOf(s.trues) && e !in SetOf(s.unknowns);
      }
    }
  }

  lemma ListedIf(files: seq<int>, verdict: (int, int) -> Verdict, v: Verdict, list: seq<(int, int)>, edges: Edges)
    requires SetOf(list) == EdgesOf(files, verdict, v) && SetOf(list) <= edges
    ensures Listed(files, edges, list)
  {
    forall k | 0 <= k < |list|
      ensures 0 <= list[k].0 < list[k].1 < |files| && files[list[k].0] != files[list[k].1] && list[k] in edges
    {
      assert list[k] in SetOf(list);
    }
  }

  /** The second union-find: true and unknown edges together. */
  method Unconfirmed(files: seq<int>, verdict: (int, int) -> Verdict, trues: seq<(int, int)>, unknowns: seq<(int, int)>)
    returns (unconfirmed: seq<seq<nat>>)
    requires SetOf(trues) == EdgesOf(files, verdict, Duplicate) && SetOf(unknowns) == EdgesOf(files, verdict, Undecided)
    ensures CoversEdges(SetOf(trues) + SetOf(unknowns), |files|, SetOf(unknowns), unconfirmed)
  {
    var uf := new UnionFind<int>(Range(|files|));
    ListedIf(files, verdict, Duplicate, trues, SetOf(trues));
    ListedIf(files, verdict, Undecided, unknowns, SetOf(unknowns));
    UniteList(trues, uf, |files|);
    UniteList(unknowns, uf, |files|);
    assert uf.edges == SetOf(trues) + SetOf(unknowns);
    var roots := FindAll(|files|, uf);
    DecidesIf(roots, uf.root, uf.edges);
    ListedIf(files, verdict, Undecided, unknowns, uf.edges);
    unconfirmed := ComponentsOf(files, roots, unknowns, uf.edges);
  }

  method UniteList(list: seq<(int, int)>, uf: UnionFind<int>, n: nat)
    requires uf.Valid() && uf.parent.Keys == Range(n)
    requires forall k | 0 <= k < |list| :: 0 <= list[k].0 < n && 0 <= list[k].1 < n
    modifies uf
    ensures uf.Valid() && uf.parent.Keys == Range(n) && uf.edges == old(uf.edges) + SetOf(list)
  {
    for k := 0 to |list|
      invariant uf.Valid() && uf.parent.Keys == Range(n) && uf.edges == old(uf.edges) + SetOf(list[..k])
    {
      assert list[..k + 1] == list[..k] + [list[k]];
      SetOfAppend(list[..k], list[k]);
      uf.Union(list[k].0, list[k].1);
    }
    assert list[..|list|] == list;
  }

  method Proofs(files: seq<int>, trues: seq<(int, int)>, confirmed: seq<seq<nat>>) returns (proof: seq<seq<(int, int)>>)
    requires Listed(files, SetOf(trues), trues) && CoversEdges(SetOf(trues), |files|, SetOf(trues), confirmed)
    ensures |proof| == |confirmed|
    ensures forall i | 0 <= i < |confirmed| :: ProvesComponent(SetOf(trues), confirmed[i], proof[i])
  {
    proof := ProofLists(trues, confirmed);
    forall i | 0 <= i < |confirmed|
      ensures ProvesComponent(SetOf(trues), confirmed[i], proof[i])
    {
      ProofIsProof(files, trues, confirmed[i]);
    }
  }

  method ProofLists(trues: seq<(int, int)>, confirmed: seq<seq<nat>>) returns (proof: seq<seq<(int, int)>>)
    ensures |proof| == |confirmed| && forall i | 0 <= i < |confirmed| :: proof[i] == Within(trues, confirmed[i])
  {
    proof := [];
    for i := 0 to |confirmed|
      invariant |proof| == i && forall k | 0 <= k < i :: proof[k] == Within(trues, confirmed[k])
    {
      proof := proof + [Within(trues, confirmed[i])];
    }
  }

  lemma ProofIsProof(files: seq<int>, trues: seq<(int, int)>, c: seq<nat>)
    requires Listed(files, SetOf(trues), trues) && IsComponent(SetOf(trues), |files|, c)
    ensures ProvesComponent(SetOf(trues), c, Within(trues, c))
  {
    forall a: nat, b: nat | a in c && b in c
      ensures Connected(SetOf(Within(trues, c)), a, b)
    {
      ProofConnects(trues, |files|, c, a, b);
    }
  }

  /** No unconfirmed component splits a confirmed one. */
  lemma ConfirmedNotSplit(trues: Edges, unknowns: Edges, n: nat, c: seq<nat>, u: seq<nat>, a: nat, b: nat)
    requires IsComponent(trues, n, c) && IsComponent(trues + unknowns, n, u) && a in c && b in c
    ensures a in u <==> b in u
  {
    var x: int, y: int := a, b;
    assert Connected(trues, a, b);
    ConnectedMore(trues, trues + unknowns, x, y);
    ConnectedBack(trues + unknowns, x, y);
    assert Connected(trues + unknowns, a, b) && Connected(trues + unknowns, b, a);
  }

  // ----- the manifest's own check

  /** The edges connect all listed ids, of which there is at least one. */
  ghost predicate ConnectsAll(ids: seq<int>, edges: Edges) {
    ids != [] && forall i, j | 0 <= i < |ids| && 0 <= j < |ids| :: Connected(edges, ids[i], ids[j])
  }

  /** `_connected` of build_review_pool_dedup_manifest.py: true exactly when the edges connect all ids. */
  method AllConnected(ids: seq<int>, edges: seq<(int, int)>) returns (ok: bool)
    requires forall k | 0 <= k < |edges| :: edges[k].0 in ids && edges[k].1 in ids
    ensures ok <==> ConnectsAll(ids, SetOf(edges))
  {
    var uf := new UnionFind<int>(set x | x in ids);
    for k := 0 to |edges|
      invariant uf.Valid() && uf.parent.Keys == (set x | x in ids) && uf.edges == SetOf(edges[..k])
    {
      assert edges[..k + 1] == edges[..k] + [edges[k]];
      SetOfAppend(edges[..k], edges[k]);
      uf.Union(edges[k].0, edges[k].1);
    }
    assert edges[..|edges|] == edges;
    ok := OneRoot(ids, uf);
  }

  method OneRoot(ids: seq<int>, uf: UnionFind<int>) returns (ok: bool)
    requires uf.Valid() && forall k | 0 <= k < |ids| :: ids[k] in uf.parent
    modifies uf`parent
    ensures ok <==> ConnectsAll(ids, uf.edges)
  {
    if ids == [] {
      return false;
    }
    var first := uf.Find(ids[0]);
    ok := true;
    for k := 0 to |ids|
      invariant uf.Valid() && (forall i | 0 <= i < |ids| :: ids[i] in uf.parent)
      invariant ok <==> forall i | 0 <= i < k :: ids[i] in uf.root && uf.root[ids[i]] == first
    {
      var r := uf.Find(ids[k]);
      ok := ok && r == first;
    }
    OneRootMeans(ids, uf.root, uf.edges);
  }

  lemma OneRootMeans(ids: seq<int>, root: map<int, int>, edges: Edges)
    requires Represents(root, edges) && ids != [] && forall i | 0 <= i < |ids| :: ids[i] in root
    ensures ConnectsAll(ids, edges) <==> forall i | 0 <= i < |ids| :: root[ids[i]] == root[ids[0]]
  {
    forall i, j | 0 <= i < |ids| && 0 <= j < |ids|
      ensures root[ids[i]] == root[ids[j]] <==> Connected(edges, ids[i], ids[j])
    {
      RootsDecide(root, edges, ids[i], ids[j]);
    }
  }
}
