/**
 The candidate rules of `duplicate_groups` in check_dataset_duplicates.py, as relations between rows
 and as the loops that unite them. Rule A groups by text, rule A' goes through an inverted trigram
 index, rule B through sorted offset clusters; each loop is proved to unite the closure of its
 relation over all pairs of rows.
 */
module DuplicateRules {
  import opened Graphs
  import opened MatchingBlocks
  import opened RuleB
  import opened UnionFinds

  const BUCKET_LIMIT := 200
  const DURATION_TOLERANCE_MS := 1500
  const VECTOR_THRESHOLD := 1024

  /** A parsed row: offset and duration are -1 when unknown. */
  datatype Row = Row(entry: Entry, duration: int, trigrams: set<Text>)

  predicate DistinctIds(rows: seq<Row>) {
    forall i, j | 0 <= i < j < |rows| :: rows[i].entry.id != rows[j].entry.id
  }

  ghost function Ids(rows: seq<Row>): set<int> {
    set r | r in rows :: r.entry.id
  }

  // ----- rule A: the same text in different files

  ghost predicate RuleA(x: Row, y: Row) {
    x.entry.text == y.entry.text && x.entry.file != y.entry.file
  }

  ghost function EdgesA(rows: seq<Row>): (edges: set<(int, int)>)
    ensures forall i, j | 0 <= i < |rows| && 0 <= j < |rows| && RuleA(rows[i], rows[j]) ::
              (rows[i].entry.id, rows[j].entry.id) in edges
    ensures forall e | e in edges :: e.0 in Ids(rows) && e.1 in Ids(rows)
  {
    set x, y | x in rows && y in rows && RuleA(x, y) :: (x.entry.id, y.entry.id)
  }

  /** The rows before n that carry a text, in order. */
  ghost function Sharing(rows: seq<Row>, t: Text, n: nat): seq<nat>
    requires n <= |rows|
  {
    if n == 0 then []
    else if rows[n - 1].entry.text == t then Sharing(rows, t, n - 1) + [n - 1]
    else Sharing(rows, t, n - 1)
  }

  lemma {:induction false} SharingMembers(rows: seq<Row>, t: Text, n: nat)
    requires n <= |rows|
    ensures forall k | k in Sharing(rows, t, n) :: k < n && rows[k].entry.text == t
    ensures forall k: nat | k < n && rows[k].entry.text == t :: k in Sharing(rows, t, n)
  {
    if n > 0 { SharingMembers(rows, t, n - 1); }
  }

  /** `by_text`: insertion-ordered keys and the member rows of each. */
  method GroupByText(rows: seq<Row>) returns (keys: seq<Text>, groups: map<Text, seq<nat>>)
    ensures forall t | t in keys :: t in groups && groups[t] == Sharing(rows, t, |rows|)
    ensures forall r | r in rows :: r.entry.text in keys
  {
    keys, groups := [], map[];
    for n := 0 to |rows|
      invariant ByText(rows, keys, groups, n)
    {
      var t := rows[n].entry.text;
      ByTextStep(rows, keys, groups, n);
      if t !in keys {
        keys, groups := keys + [t], groups[t := []];
      }
      groups := groups[t := groups[t] + [n]];
    }
  }

  ghost predicate ByText(rows: seq<Row>, keys: seq<Text>, groups: map<Text, seq<nat>>, n: nat)
    requires n <= |rows|
  {
    && (forall t | t in keys :: t in groups && groups[t] == Sharing(rows, t, n))
    && (forall t | t !in keys :: Sharing(rows, t, n) == [])
    && (forall k | 0 <= k < n :: rows[k].entry.text in keys)
  }

  lemma ByTextStep(rows: seq<Row>, keys: seq<Text>, groups: map<Text, seq<nat>>, n: nat)
    requires n < |rows| && ByText(rows, keys, groups, n)
    ensures var t := rows[n].entry.text;
            if t in keys then t in groups && ByText(rows, keys, groups[t := groups[t] + [n]], n + 1)
            else ByText(rows, keys + [t], groups[t := [n]], n + 1)
  {
  }

  predicate ManyFiles(rows: seq<Row>, members: seq<nat>)
    requires forall k | k in members :: k < |rows|
  {
    exists i, j | i in members && j in members :: rows[i].entry.file != rows[j].entry.file
  }

  /** Members of a text group that spans several files are connected by rule A, even two members of
      the same file. */
  lemma GroupConnected(rows: seq<Row>, members: seq<nat>, t: Text, a: nat, b: nat)
    requires forall k | k in members :: k < |rows| && rows[k].entry.text == t
    requires ManyFiles(rows, members) && a in members && b in members
    ensures Connected(EdgesA(rows), rows[a].entry.id, rows[b].entry.id)
  {
    var edges := EdgesA(rows);
    if rows[a].entry.file != rows[b].entry.file {
      assert RuleA(rows[a], rows[b]);
      ConnectedEdge(edges, rows[a].entry.id, rows[b].entry.id);
    } else {
      var i, j :| i in members && j in members && rows[i].entry.file != rows[j].entry.file;
      var k := if rows[i].entry.file != rows[a].entry.file then i else j;
      assert RuleA(rows[a], rows[k]) && RuleA(rows[k], rows[b]);
      ConnectedEdge(edges, rows[a].entry.id, rows[k].entry.id);
      ConnectedEdge(edges, rows[k].entry.id, rows[b].entry.id);
      ConnectedJoin(edges, rows[a].entry.id, rows[k].entry.id, rows[b].entry.id);
    }
  }

  /** Every new edge is a connection of the relation, and every pair of the relation is connected. */
  ghost predicate Unites(before: set<(int, int)>, after: set<(int, int)>, relation: set<(int, int)>) {
    && before <= after
    && (forall e | e in after - before :: Connected(relation, e.0, e.1))
    && (forall e | e in relation :: Connected(after, e.0, e.1))
  }

  /** The rows of the first k texts are united with every row that rule A relates them to. */
  ghost predicate TextsUnited(rows: seq<Row>, keys: seq<Text>, k: nat, edges: set<(int, int)>)
    requires k <= |keys|
  {
    forall i, j | 0 <= i < |rows| && 0 <= j < |rows| && RuleA(rows[i], rows[j]) && rows[i].entry.text in keys[..k] ::
      Connected(edges, rows[i].entry.id, rows[j].entry.id)
  }

  /** All members of a group are united, unless they share one file. */
  ghost predicate GroupUnited(rows: seq<Row>, members: seq<nat>, edges: set<(int, int)>)
    requires forall k | k in members :: k < |rows|
  {
    ManyFiles(rows, members) ==>
      forall a, b | a in members && b in members :: Connected(edges, rows[a].entry.id, rows[b].entry.id)
  }

  lemma TextsUnitedStep(rows: seq<Row>, keys: seq<Text>, k: nat, was: set<(int, int)>, now: set<(int, int)>,
                        members: seq<nat>)
    requires k < |keys| && TextsUnited(rows, keys, k, was) && was <= now
    requires members == Sharing(rows, keys[k], |rows|)
    requires (forall i | i in members :: i < |rows|) && GroupUnited(rows, members, now)
    ensures TextsUnited(rows, keys, k + 1, now)
  {
    SharingMembers(rows, keys[k], |rows|);
    forall i, j | 0 <= i < |rows| && 0 <= j < |rows| && RuleA(rows[i], rows[j]) && rows[i].entry.text in keys[..k + 1]
      ensures Connected(now, rows[i].entry.id, rows[j].entry.id)
    {
      if rows[i].entry.text in keys[..k] {
        ConnectedMore(was, now, rows[i].entry.id, rows[j].entry.id);
      } else {
        assert rows[i].entry.text == keys[k];
        assert i in members && j in members;
      }
    }
  }

  lemma TextsUnitedAll(rows: seq<Row>, keys: seq<Text>, edges: set<(int, int)>)
    requires TextsUnited(rows, keys, |keys|, edges) && forall r | r in rows :: r.entry.text in keys
    ensures forall e | e in EdgesA(rows) :: Connected(edges, e.0, e.1)
  {
    forall e | e in EdgesA(rows)
      ensures Connected(edges, e.0, e.1)
    {
      var x, y :| x in rows && y in rows && RuleA(x, y) && e == (x.entry.id, y.entry.id);
      var i :| 0 <= i < |rows| && rows[i] == x;
      var j :| 0 <= j < |rows| && rows[j] == y;
      assert keys[..|keys|] == keys;
    }
  }

  /** The loop of rule A: each group of several files is united as a star around its first member. */
  method UniteA(rows: seq<Row>, uf: UnionFind<int>)
    requires uf.Valid() && uf.parent.Keys == Ids(rows)
    modifies uf
    ensures uf.Valid() && uf.parent.Keys == Ids(rows)
    ensures Unites(old(uf.edges), uf.edges, EdgesA(rows))
  {
    var keys, groups := GroupByText(rows);
    ghost var relation := EdgesA(rows);
    for k := 0 to |keys|
      invariant uf.Valid() && uf.parent.Keys == Ids(rows) && old(uf.edges) <= uf.edges
      invariant forall e | e in uf.edges - old(uf.edges) :: Connected(relation, e.0, e.1)
      invariant TextsUnited(rows, keys, k, uf.edges)
    {
      var t := keys[k];
      var members := groups[t];
      ghost var was := uf.edges;
      SharingMembers(rows, t, |rows|);
      if ManyFiles(rows, members) {
        UniteGroup(rows, uf, members, t);
      }
      TextsUnitedStep(rows, keys, k, was, uf.edges, members);
    }
    TextsUnitedAll(rows, keys, uf.edges);
  }

  method UniteGroup(rows: seq<Row>, uf: UnionFind<int>, members: seq<nat>, ghost t: Text)
    requires uf.Valid() && uf.parent.Keys == Ids(rows)
    requires forall k | k in members :: k < |rows| && rows[k].entry.text == t
    requires ManyFiles(rows, members)
    modifies uf
    ensures uf.Valid() && uf.parent.Keys == Ids(rows) && old(uf.edges) <= uf.edges
    ensures forall e | e in uf.edges - old(uf.edges) :: Connected(EdgesA(rows), e.0, e.1)
    ensures forall a, b | a in members && b in members :: Connected(uf.edges, rows[a].entry.id, rows[b].entry.id)
  {
    var star := StarOf(rows, members);
    forall i | 0 <= i < |star|
      ensures Connected(EdgesA(rows), star[0], star[i])
    {
      GroupConnected(rows, members, t, members[0], members[i]);
    }
    UniteStar(uf, star, EdgesA(rows));
    forall a, b | a in members && b in members
      ensures Connected(uf.edges, rows[a].entry.id, rows[b].entry.id)
    {
      var i :| 0 <= i < |members| && members[i] == a;
      var j :| 0 <= j < |members| && members[j] == b;
      ConnectedBack(uf.edges, star[0], star[i]);
      ConnectedJoin(uf.edges, star[i], star[0], star[j]);
    }
  }

  function StarOf(rows: seq<Row>, members: seq<nat>): (star: seq<int>)
    requires forall k | k in members :: k < |rows|
    ensures |star| == |members|
    ensures forall i | 0 <= i < |members| ::
              members[i] in members && star[i] == rows[members[i]].entry.id && star[i] in Ids(rows)
  {
    assert forall i | 0 <= i < |members| :: members[i] in members;
    assert forall k | k in members :: rows[k] in rows && rows[k].entry.id in Ids(rows);
    seq(|members|, i requires 0 <= i < |members| => rows[members[i]].entry.id)
  }

  /** `for sid in members[1:]: union(first, sid)`. */
  method UniteStar(uf: UnionFind<int>, star: seq<int>, ghost relation: set<(int, int)>)
    requires uf.Valid() && star != [] && forall i | 0 <= i < |star| :: star[i] in uf.parent
    requires forall i | 0 <= i < |star| :: Connected(relation, star[0], star[i])
    modifies uf
    ensures uf.Valid() && uf.parent.Keys == old(uf.parent.Keys) && old(uf.edges) <= uf.edges
    ensures forall e | e in uf.edges - old(uf.edges) :: Connected(relation, e.0, e.1)
    ensures forall i | 0 <= i < |star| :: Connected(uf.edges, star[0], star[i])
  {
    ConnectedSelf(uf.edges, star[0]);
    for k := 1 to |star|
      invariant uf.Valid() && uf.parent.Keys == old(uf.parent.Keys) && old(uf.edges) <= uf.edges
      invariant forall e | e in uf.edges - old(uf.edges) :: Connected(relation, e.0, e.1)
      invariant forall i | 0 <= i < k :: Connected(uf.edges, star[0], star[i])
    {
      ghost var was := uf.edges;
      uf.Union(star[0], star[k]);
      ConnectedEdge(uf.edges, star[0], star[k]);
      forall i | 0 <= i < k
        ensures Connected(uf.edges, star[0], star[i])
      {
        ConnectedMore(was, uf.edges, star[0], star[i]);
      }
    }
  }
}
