/**
 Rule B of `duplicate_groups`: entries in source-clock order, cut into clusters wherever the gap
 exceeds 500 ms; small clusters are scanned pair by pair with an early break, large ones through the
 vectorised prefilter. The whole is proved to unite exactly the accepted pairs of the sorted list.
 */
module OffsetRule {
  import opened DuplicateRules
  import opened MatchingBlocks
  import opened RuleB
  import opened UnionFinds

  // ----- sorting

  /** Tuple order; ids are distinct, so nothing after the id decides. */
  predicate Before(x: Entry, y: Entry) {
    x.offset < y.offset || (x.offset == y.offset && x.id < y.id)
  }

  ghost predicate Ordered(s: seq<Entry>) {
    forall i, j | 0 <= i < j < |s| :: Before(s[i], s[j])
  }

  function Insert(e: Entry, s: seq<Entry>): (r: seq<Entry>)
    ensures multiset(r) == multiset(s) + multiset{e}
  {
    if s == [] then [e]
    else if Before(e, s[0]) then [e] + s
    else
      assert s == [s[0]] + s[1..];
      [s[0]] + Insert(e, s[1..])
  }

  lemma {:induction false} InsertOrdered(e: Entry, s: seq<Entry>)
    requires Ordered(s) && forall x | x in s :: x.id != e.id
    ensures Ordered(Insert(e, s))
  {
    if s == [] || Before(e, s[0]) {
    } else {
      InsertOrdered(e, s[1..]);
      forall x | x in Insert(e, s[1..])
        ensures Before(s[0], x)
      {
        assert x in multiset(Insert(e, s[1..]));
        assert s[0] in s;
      }
    }
  }

  /** `sorted(... for ... if o >= 0)`. */
  function WithOffset(rows: seq<Row>): (s: seq<Entry>)
    ensures forall e :: e in s <==> exists r | r in rows :: r.entry == e && 0 <= e.offset
  {
    if rows == [] then []
    else
      var rest := WithOffset(rows[1..]);
      assert rows == [rows[0]] + rows[1..];
      if 0 <= rows[0].entry.offset then
        var s := Insert(rows[0].entry, rest);
        assert forall e :: e in s <==> e in multiset(s);
        s
      else rest
  }

  lemma {:induction false} WithOffsetOrdered(rows: seq<Row>)
    requires DistinctIds(rows)
    ensures Ordered(WithOffset(rows))
  {
    if rows != [] {
      WithOffsetOrdered(rows[1..]);
      if 0 <= rows[0].entry.offset {
        InsertOrdered(rows[0].entry, WithOffset(rows[1..]));
      }
    }
  }

  // ----- the relation over a sorted list

  ghost function EdgesB(m: (Text, Text) -> seq<Block>, s: seq<Entry>): (edges: set<(int, int)>) {
    set i, j | 0 <= i < |s| && 0 <= j < |s| && i < j && Exact(m, s[i], s[j]) :: (s[i].id, s[j].id)
  }

  /** No accepted pair crosses a gap of more than 500 ms. */
  lemma AcrossTheGap(m: (Text, Text) -> seq<Block>, s: seq<Entry>, lo: nat, i: nat, j: nat)
    requires Ordered(s) && i < lo <= j < |s|
    requires s[lo].offset - s[lo - 1].offset > OFFSET_BUCKET_MS
    ensures !Exact(m, s[i], s[j])
  {
    assert s[i].offset <= s[lo - 1].offset;
    assert s[lo].offset <= s[j].offset;
  }

  /** A cut at such a gap loses no pair. */
  lemma ClustersAreIndependent(m: (Text, Text) -> seq<Block>, s: seq<Entry>, lo: nat)
    requires Ordered(s) && lo <= |s|
    requires 0 < lo < |s| ==> s[lo].offset - s[lo - 1].offset > OFFSET_BUCKET_MS
    ensures EdgesB(m, s) == EdgesB(m, s[..lo]) + EdgesB(m, s[lo..])
  {
    forall i, j | 0 <= i < j < |s| && Exact(m, s[i], s[j])
      ensures (s[i].id, s[j].id) in EdgesB(m, s[..lo]) + EdgesB(m, s[lo..])
    {
      if j < lo {
        assert s[..lo][i] == s[i] && s[..lo][j] == s[j];
      } else if lo <= i {
        assert s[lo..][i - lo] == s[i] && s[lo..][j - lo] == s[j];
      } else {
        AcrossTheGap(m, s, lo, i, j);
      }
    }
    forall i, j | 0 <= i < j < |s[lo..]| && Exact(m, s[lo..][i], s[lo..][j])
      ensures (s[lo..][i].id, s[lo..][j].id) in EdgesB(m, s)
    {
      assert s[lo + i] == s[lo..][i] && s[lo + j] == s[lo..][j];
    }
  }

  ghost predicate Known(uf: UnionFind<int>, s: seq<Entry>)
    reads uf
  {
    forall e | e in s :: e.id in uf.parent
  }

  /** What one call of `exact_pair` unites. */
  ghost function PairEdge(m: (Text, Text) -> seq<Block>, left: Entry, right: Entry): set<(int, int)> {
    if Exact(m, left, right) then {(left.id, right.id)} else {}
  }

  lemma UnionAssociative(a: set<(int, int)>, b: set<(int, int)>, c: set<(int, int)>)
    ensures a + b + c == a + (b + c)
  {
  }

  /** `exact_pair`. */
  method ExactPair(m: (Text, Text) -> seq<Block>, left: Entry, right: Entry, uf: UnionFind<int>)
    requires uf.Valid() && left.id in uf.parent && right.id in uf.parent
    modifies uf
    ensures uf.Valid() && uf.parent.Keys == old(uf.parent.Keys)
    ensures uf.edges == old(uf.edges) + PairEdge(m, left, right)
  {
    if Exact(m, left, right) {
      uf.Union(left.id, right.id);
    }
  }

  /** The accepted pairs of position i with the positions i+1 .. j-1. */
  ghost function RowEdges(m: (Text, Text) -> seq<Block>, s: seq<Entry>, i: nat, j: nat): set<(int, int)>
    requires i < j <= |s|
  {
    if j == i + 1 then {}
    else RowEdges(m, s, i, j - 1) + PairEdge(m, s[i], s[j - 1])
  }

  lemma {:induction false} RowEdgesMembers(m: (Text, Text) -> seq<Block>, s: seq<Entry>, i: nat, j: nat, e: (int, int))
    requires i < j <= |s|
    ensures e in RowEdges(m, s, i, j) <==> exists k | i < k < j :: Exact(m, s[i], s[k]) && e == (s[i].id, s[k].id)
    decreases j - i
  {
    if j > i + 1 {
      RowEdgesMembers(m, s, i, j - 1, e);
    }
  }

  lemma {:induction false} BreakLosesNothing(m: (Text, Text) -> seq<Block>, s: seq<Entry>, i: nat, j: nat, n: nat)
    requires Ordered(s) && i < j <= n <= |s|
    requires j < |s| ==> s[j].offset - s[i].offset > OFFSET_BUCKET_MS
    ensures RowEdges(m, s, i, n) == RowEdges(m, s, i, j)
    decreases n - j
  {
    if j < n {
      BreakLosesNothing(m, s, i, j, n - 1);
      assert s[j].offset <= s[n - 1].offset;
    }
  }

  /** All rows from position i on. */
  ghost function TableEdges(m: (Text, Text) -> seq<Block>, s: seq<Entry>, n: nat): set<(int, int)>
    requires n <= |s|
  {
    if n == 0 then {} else TableEdges(m, s, n - 1) + RowEdges(m, s, n - 1, |s|)
  }

  lemma {:induction false} TableMembers(m: (Text, Text) -> seq<Block>, s: seq<Entry>, n: nat, e: (int, int))
    requires n <= |s|
    ensures e in TableEdges(m, s, n) <==>
            exists i, k | 0 <= i < n && i < k < |s| :: Exact(m, s[i], s[k]) && e == (s[i].id, s[k].id)
  {
    if n > 0 {
      TableMembers(m, s, n - 1, e);
      RowEdgesMembers(m, s, n - 1, |s|, e);
    }
  }

  lemma TableIsEdges(m: (Text, Text) -> seq<Block>, s: seq<Entry>)
    ensures TableEdges(m, s, |s|) == EdgesB(m, s)
  {
    forall e
      ensures e in TableEdges(m, s, |s|) <==> e in EdgesB(m, s)
    {
      TableMembers(m, s, |s|, e);
    }
  }

  /** One row of the pair loop, with its early break. */
  method FlushRow(m: (Text, Text) -> seq<Block>, s: seq<Entry>, i: nat, uf: UnionFind<int>)
    requires uf.Valid() && Known(uf, s) && Ordered(s) && i < |s|
    modifies uf
    ensures uf.Valid() && uf.parent.Keys == old(uf.parent.Keys)
    ensures uf.edges == old(uf.edges) + RowEdges(m, s, i, |s|)
  {
    var j := i + 1;
    while j < |s| && s[j].offset - s[i].offset <= OFFSET_BUCKET_MS
      invariant i < j <= |s|
      invariant uf.Valid() && uf.parent.Keys == old(uf.parent.Keys)
      invariant uf.edges == old(uf.edges) + RowEdges(m, s, i, j)
    {
      assert s[i] in s && s[j] in s;
      UnionAssociative(old(uf.edges), RowEdges(m, s, i, j), PairEdge(m, s[i], s[j]));
      ExactPair(m, s[i], s[j], uf);
      j := j + 1;
    }
    BreakLosesNothing(m, s, i, j, |s|);
  }

  method FlushSmall(m: (Text, Text) -> seq<Block>, s: seq<Entry>, uf: UnionFind<int>)
    requires uf.Valid() && Known(uf, s) && Ordered(s)
    modifies uf
    ensures uf.Valid() && uf.parent.Keys == old(uf.parent.Keys)
    ensures uf.edges == old(uf.edges) + EdgesB(m, s)
  {
    ghost var table: set<(int, int)> := {};
    for i := 0 to |s|
      invariant uf.Valid() && uf.parent.Keys == old(uf.parent.Keys)
      invariant table == TableEdges(m, s, i) && uf.edges == old(uf.edges) + table
    {
      ghost var row := RowEdges(m, s, i, |s|);
      UnionAssociative(old(uf.edges), table, row);
      FlushRow(m, s, i, uf);
      table := table + row;
    }
    TableIsEdges(m, s);
  }

  // ----- large clusters

  /** Every character of the cluster once; the filter is indifferent to the order. */
  method AlphabetOf(s: seq<Entry>) returns (characters: seq<char>)
    ensures Alphabet(s, characters)
  {
    characters := [];
    for n := 0 to |s|
      invariant forall i, j | 0 <= i < j < |characters| :: characters[i] != characters[j]
      invariant forall k | 0 <= k < n :: forall c | c in s[k].text :: c in characters
    {
      var t := s[n].text;
      for k := 0 to |t|
        invariant forall i, j | 0 <= i < j < |characters| :: characters[i] != characters[j]
        invariant forall i | 0 <= i < n :: forall c | c in s[i].text :: c in characters
        invariant forall c | c in t[..k] :: c in characters
      {
        if t[k] !in characters {
          characters := characters + [t[k]];
        }
      }
      assert t[..|t|] == t;
    }
  }

  /** The edges that `exact_pair` adds over a list of calls. */
  ghost function CallEdges(m: (Text, Text) -> seq<Block>, s: seq<Entry>, calls: seq<(nat, nat)>,
                           n: nat): set<(int, int)>
    requires n <= |calls| && forall p | p in calls :: p.0 < |s| && p.1 < |s|
  {
    if n == 0 then {}
    else
      var p := calls[n - 1];
      CallEdges(m, s, calls, n - 1) + PairEdge(m, s[p.0], s[p.1])
  }

  lemma {:induction false} CallMembers(m: (Text, Text) -> seq<Block>, s: seq<Entry>, calls: seq<(nat, nat)>, n: nat,
                                       e: (int, int))
    requires n <= |calls| && forall p | p in calls :: p.0 < |s| && p.1 < |s|
    ensures e in CallEdges(m, s, calls, n) <==>
            exists k | 0 <= k < n :: Exact(m, s[calls[k].0], s[calls[k].1]) && e == (s[calls[k].0].id, s[calls[k].1].id)
  {
    if n > 0 {
      CallMembers(m, s, calls, n - 1, e);
    }
  }

  lemma CallsAreEdges(m: (Text, Text) -> seq<Block>, s: seq<Entry>, calls: seq<(nat, nat)>)
    requires forall p | p in calls :: p.0 < p.1 < |s|
    requires forall p: (nat, nat) | p.0 < p.1 < |s| && Exact(m, s[p.0], s[p.1]) :: p in calls
    ensures CallEdges(m, s, calls, |calls|) == EdgesB(m, s)
  {
    forall e
      ensures e in CallEdges(m, s, calls, |calls|) <==> e in EdgesB(m, s)
    {
      CallMembers(m, s, calls, |calls|, e);
      if e in EdgesB(m, s) {
        var i, j :| 0 <= i < |s| && 0 <= j < |s| && i < j && Exact(m, s[i], s[j]) && e == (s[i].id, s[j].id);
        var p: (nat, nat) := (i, j);
        assert p in calls;
      }
    }
  }

  ghost predicate Overlong(s: seq<Entry>) {
    exists e | e in s :: |e.text| >= MAX_TEXT_LEN
  }

  /** A cluster that the prefilter refuses. */
  ghost predicate Unsafe(s: seq<Entry>) {
    |s| >= VECTOR_THRESHOLD && Overlong(s)
  }

  method FlushLarge(m: (Text, Text) -> seq<Block>, s: seq<Entry>, uf: UnionFind<int>) returns (ok: bool)
    requires uf.Valid() && Known(uf, s) && IsMatcher(m)
    modifies uf
    ensures uf.Valid() && uf.parent.Keys == old(uf.parent.Keys)
    ensures ok ==> uf.edges == old(uf.edges) + EdgesB(m, s)
    ensures ok <==> !Overlong(s)
  {
    var characters := AlphabetOf(s);
    var r := VectorizedRuleB(s, characters, characters, m);
    if r.Refused? {
      return false;
    }
    ok := true;
    UniteCalls(m, s, r.value, uf);
    CallsAreEdges(m, s, r.value);
  }

  method UniteCalls(m: (Text, Text) -> seq<Block>, s: seq<Entry>, calls: seq<(nat, nat)>, uf: UnionFind<int>)
    requires uf.Valid() && Known(uf, s) && forall p | p in calls :: p.0 < |s| && p.1 < |s|
    modifies uf
    ensures uf.Valid() && uf.parent.Keys == old(uf.parent.Keys)
    ensures uf.edges == old(uf.edges) + CallEdges(m, s, calls, |calls|)
  {
    for k := 0 to |calls|
      invariant uf.Valid() && uf.parent.Keys == old(uf.parent.Keys)
      invariant uf.edges == old(uf.edges) + CallEdges(m, s, calls, k)
    {
      var p := calls[k];
      assert p in calls && s[p.0] in s && s[p.1] in s;
      UnionAssociative(old(uf.edges), CallEdges(m, s, calls, k), PairEdge(m, s[p.0], s[p.1]));
      ExactPair(m, s[p.0], s[p.1], uf);
    }
  }

  /** `flush`. */
  method Flush(m: (Text, Text) -> seq<Block>, s: seq<Entry>, uf: UnionFind<int>) returns (ok: bool)
    requires uf.Valid() && Known(uf, s) && Ordered(s) && IsMatcher(m)
    modifies uf
    ensures uf.Valid() && uf.parent.Keys == old(uf.parent.Keys)
    ensures ok ==> uf.edges == old(uf.edges) + EdgesB(m, s)
    ensures ok <==> !Unsafe(s)
  {
    if |s| >= VECTOR_THRESHOLD {
      ok := FlushLarge(m, s, uf);
    } else {
      ok := true;
      FlushSmall(m, s, uf);
    }
  }

  lemma ClusterAdvance(m: (Text, Text) -> seq<Block>, s: seq<Entry>, lo: nat, n: nat)
    requires Ordered(s) && lo <= n <= |s|
    requires 0 < lo < |s| ==> s[lo].offset - s[lo - 1].offset > OFFSET_BUCKET_MS
    ensures Ordered(s[lo..n])
    ensures EdgesB(m, s[..n]) == EdgesB(m, s[..lo]) + EdgesB(m, s[lo..n])
  {
    var t := s[..n];
    assert t[..lo] == s[..lo] && t[lo..] == s[lo..n];
    ClustersAreIndependent(m, t, lo);
  }

  /** Flushes the cluster s[lo..n]. */
  method FlushCluster(m: (Text, Text) -> seq<Block>, s: seq<Entry>, lo: nat, n: nat, uf: UnionFind<int>,
                      ghost base: set<(int, int)>)
    returns (ok: bool)
    requires uf.Valid() && Known(uf, s) && Ordered(s) && IsMatcher(m) && lo <= n <= |s|
    requires 0 < lo < |s| ==> s[lo].offset - s[lo - 1].offset > OFFSET_BUCKET_MS
    requires uf.edges == base + EdgesB(m, s[..lo])
    modifies uf
    ensures uf.Valid() && uf.parent.Keys == old(uf.parent.Keys)
    ensures ok ==> uf.edges == base + EdgesB(m, s[..n])
    ensures ok <==> !Unsafe(s[lo..n])
  {
    ClusterAdvance(m, s, lo, n);
    UnionAssociative(base, EdgesB(m, s[..lo]), EdgesB(m, s[lo..n]));
    ok := Flush(m, s[lo..n], uf);
  }

  ghost predicate GapAt(s: seq<Entry>, k: nat)
    requires 0 < k < |s|
  {
    s[k].offset - s[k - 1].offset > OFFSET_BUCKET_MS
  }

  ghost predicate NoGap(s: seq<Entry>, lo: nat, n: nat)
    requires n <= |s|
  {
    forall k: nat | lo < k < n :: !GapAt(s, k)
  }

  /** A connected offset cluster: a longest stretch of entries without a gap. */
  ghost predicate IsCluster(s: seq<Entry>, lo: nat, n: nat) {
    && lo < n <= |s| && NoGap(s, lo, n)
    && (lo == 0 || GapAt(s, lo)) && (n == |s| || GapAt(s, n))
  }

  /** Some cluster is one that the prefilter refuses. */
  ghost predicate SomeUnsafe(s: seq<Entry>) {
    exists lo: nat, n: nat :: IsCluster(s, lo, n) && Unsafe(s[lo..n])
  }

  /** The clusters that end at or before lo are safe. */
  ghost predicate SafeUpTo(s: seq<Entry>, lo: nat) {
    forall a: nat, b: nat | IsCluster(s, a, b) && b <= lo :: !Unsafe(s[a..b])
  }

  lemma SameCluster(s: seq<Entry>, lo: nat, n: nat, a: nat, b: nat)
    requires IsCluster(s, lo, n) && IsCluster(s, a, b) && lo < b <= n
    ensures a == lo && b == n
  {
  }

  lemma SafeAdvances(s: seq<Entry>, lo: nat, n: nat)
    requires SafeUpTo(s, lo) && IsCluster(s, lo, n) && !Unsafe(s[lo..n])
    ensures SafeUpTo(s, n)
  {
    forall a: nat, b: nat | IsCluster(s, a, b) && b <= n
      ensures !Unsafe(s[a..b])
    {
      if lo < b { SameCluster(s, lo, n, a, b); }
    }
  }

  /** The current cluster began at lo and has no gap before n; what came before it was safe. */
  ghost predicate Scanning(s: seq<Entry>, lo: nat, n: nat) {
    && lo <= n <= |s| && (n > 0 ==> lo < n)
    && NoGap(s, lo, n) && (0 < lo < |s| ==> GapAt(s, lo)) && SafeUpTo(s, lo)
  }

  /** A gap at n ends the cluster. */
  lemma ScanCuts(s: seq<Entry>, lo: nat, n: nat)
    requires Scanning(s, lo, n) && 0 < n < |s| && GapAt(s, n)
    ensures Unsafe(s[lo..n]) ==> SomeUnsafe(s)
    ensures !Unsafe(s[lo..n]) ==> Scanning(s, n, n + 1)
  {
    assert IsCluster(s, lo, n);
    if !Unsafe(s[lo..n]) { SafeAdvances(s, lo, n); }
  }

  lemma ScanGoesOn(s: seq<Entry>, lo: nat, n: nat)
    requires Scanning(s, lo, n) && n < |s| && (n == 0 || !GapAt(s, n))
    ensures Scanning(s, lo, n + 1)
  {
  }

  /** The cluster loop. `lo` is where the current cluster starts. */
  method UniteB(m: (Text, Text) -> seq<Block>, s: seq<Entry>, uf: UnionFind<int>) returns (ok: bool)
    requires uf.Valid() && Known(uf, s) && Ordered(s) && IsMatcher(m)
    modifies uf
    ensures uf.Valid() && uf.parent.Keys == old(uf.parent.Keys)
    ensures ok ==> uf.edges == old(uf.edges) + EdgesB(m, s)
    ensures ok <==> !SomeUnsafe(s)
  {
    ghost var base := uf.edges;
    var lo := 0;
    ghost var done := EdgesB(m, s[..0]);
    assert done == {};
    for n := 0 to |s|
      invariant Scanning(s, lo, n)
      invariant uf.Valid() && uf.parent.Keys == old(uf.parent.Keys)
      invariant done == EdgesB(m, s[..lo]) && uf.edges == base + done
    {
      if lo < n && s[n].offset - s[n - 1].offset > OFFSET_BUCKET_MS {
        ScanCuts(s, lo, n);
        ok := FlushCluster(m, s, lo, n, uf, base);
        if !ok {
          return;
        }
        lo := n;
        done := EdgesB(m, s[..n]);
      } else {
        ScanGoesOn(s, lo, n);
      }
    }
    ok := FlushCluster(m, s, lo, |s|, uf, base);
    LastCluster(s, lo);
    assert s[..|s|] == s;
  }

  lemma LastCluster(s: seq<Entry>, lo: nat)
    requires Scanning(s, lo, |s|)
    ensures SomeUnsafe(s) <==> Unsafe(s[lo..])
  {
    if |s| > 0 {
      assert IsCluster(s, lo, |s|) && s[lo..|s|] == s[lo..];
      if !Unsafe(s[lo..]) { SafeAdvances(s, lo, |s|); }
    }
  }
}
