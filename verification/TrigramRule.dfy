/**
 Rule A' of `duplicate_groups`: near-identical texts in different files whose durations agree. The
 program never compares all pairs; it counts shared trigrams through an inverted index. The loop is
 proved to unite exactly the pairs of the relation stated over all pairs of rows.
 */
module TrigramRule {
  import opened DuplicateRules
  import opened MatchingBlocks
  import opened Numbers
  import opened RuleB
  import opened Sequences
  import opened UnionFinds

  /** The ids of the first n rows that hold a trigram, in order. */
  ghost function Bucket(rows: seq<Row>, g: Text, n: nat): (s: seq<int>)
    requires n <= |rows|
  {
    if n == 0 then []
    else Bucket(rows, g, n - 1) + if g in rows[n - 1].trigrams then [rows[n - 1].entry.id] else []
  }

  lemma {:induction false} BucketMembers(rows: seq<Row>, g: Text, n: nat, id: int)
    requires n <= |rows|
    ensures id in Bucket(rows, g, n) <==> exists k | 0 <= k < n :: rows[k].entry.id == id && g in rows[k].trigrams
  {
    if n > 0 {
      BucketMembers(rows, g, n - 1, id);
      if g in rows[n - 1].trigrams && rows[n - 1].entry.id == id {
        assert Bucket(rows, g, n)[|Bucket(rows, g, n - 1)|] == id;
      }
    }
  }

  lemma {:induction false} BucketDistinct(rows: seq<Row>, g: Text, n: nat)
    requires n <= |rows| && DistinctIds(rows)
    ensures Distinct(Bucket(rows, g, n))
  {
    if n > 0 {
      BucketDistinct(rows, g, n - 1);
      if g in rows[n - 1].trigrams {
        BucketMembers(rows, g, n - 1, rows[n - 1].entry.id);
        DistinctAppend(Bucket(rows, g, n - 1), rows[n - 1].entry.id);
      } else {
        assert Bucket(rows, g, n) == Bucket(rows, g, n - 1);
      }
    }
  }

  /** A trigram held by more than 200 rows carries no identity. */
  ghost predicate Rare(rows: seq<Row>, g: Text) {
    |Bucket(rows, g, |rows|)| <= BUCKET_LIMIT
  }

  ghost function Shared(rows: seq<Row>, x: Row, y: Row): set<Text> {
    set g | g in x.trigrams && g in y.trigrams && Rare(rows, g)
  }

  /** Both durations known and further apart than the tolerance. */
  predicate FarApart(x: Row, y: Row) {
    0 <= x.duration && 0 <= y.duration && Gap(x.duration, y.duration) > DURATION_TOLERANCE_MS
  }

  /** The relation over all pairs of rows; the lower id comes first. */
  ghost predicate RuleNear(near: (Text, Text) -> bool, rows: seq<Row>, x: Row, y: Row) {
    && x.entry.id < y.entry.id && x.entry.file != y.entry.file
    && x.trigrams != {} && y.trigrams != {}
    && 4 * |Shared(rows, x, y)| >= Min(|x.trigrams|, |y.trigrams|)
    && !FarApart(x, y)
    && near(x.entry.text, y.entry.text)
  }

  ghost function EdgesNear(near: (Text, Text) -> bool, rows: seq<Row>): set<(int, int)> {
    set x, y | x in rows && y in rows && RuleNear(near, rows, x, y) :: (x.entry.id, y.entry.id)
  }

  /** The trigrams of `done` that are rare and held by the row named o. */
  ghost function Hits(rows: seq<Row>, done: set<Text>, o: int): set<Text> {
    set g | g in done && Rare(rows, g) && o in Bucket(rows, g, |rows|)
  }

  /** The counts of one row against the rows of higher id: a key exactly where the count is not 0. */
  ghost predicate Counted(rows: seq<Row>, sid: int, shared: map<int, nat>, done: set<Text>, o: int) {
    if o in shared then sid < o && shared[o] == |Hits(rows, done, o)| && shared[o] > 0
    else sid < o ==> Hits(rows, done, o) == {}
  }

  /** `postings[g]` of a defaultdict. */
  function Lookup(postings: map<Text, seq<int>>, g: Text): seq<int> {
    if g in postings then postings[g] else []
  }

  ghost predicate IsIndex(rows: seq<Row>, postings: map<Text, seq<int>>, n: nat)
    requires n <= |rows|
  {
    forall g :: Lookup(postings, g) == Bucket(rows, g, n)
  }

  /** `postings`: the inverted index. */
  method BuildPostings(rows: seq<Row>) returns (postings: map<Text, seq<int>>)
    ensures IsIndex(rows, postings, |rows|)
  {
    postings := map[];
    for n := 0 to |rows|
      invariant IsIndex(rows, postings, n)
    {
      ghost var before := postings;
      postings := Post(postings, rows[n].trigrams, rows[n].entry.id);
      IndexGrows(rows, before, postings, n);
    }
  }

  /** `after` is `before` with an id appended under some trigrams. */
  ghost predicate Posted(before: map<Text, seq<int>>, trigrams: set<Text>, id: int, after: map<Text, seq<int>>) {
    forall g :: Lookup(after, g) == if g in trigrams then Lookup(before, g) + [id] else Lookup(before, g)
  }

  lemma BucketStep(rows: seq<Row>, g: Text, n: nat)
    requires n < |rows|
    ensures Bucket(rows, g, n + 1)
         == if g in rows[n].trigrams then Bucket(rows, g, n) + [rows[n].entry.id] else Bucket(rows, g, n)
  {
    assert Bucket(rows, g, n) + [] == Bucket(rows, g, n);
  }

  lemma IndexGrows(rows: seq<Row>, before: map<Text, seq<int>>, after: map<Text, seq<int>>, n: nat)
    requires n < |rows| && IsIndex(rows, before, n) && Posted(before, rows[n].trigrams, rows[n].entry.id, after)
    ensures IsIndex(rows, after, n + 1)
  {
    forall g
      ensures Lookup(after, g) == Bucket(rows, g, n + 1)
    {
      BucketStep(rows, g, n);
    }
  }

  /** `for gram in trigrams: postings[gram].append(sid)`. */
  method Post(before: map<Text, seq<int>>, trigrams: set<Text>, id: int) returns (postings: map<Text, seq<int>>)
    ensures Posted(before, trigrams, id, postings)
  {
    postings := before;
    var rest := trigrams;
    while rest != {}
      invariant rest <= trigrams
      invariant Posted(before, trigrams - rest, id, postings)
    {
      var g :| g in rest;
      postings := postings[g := Lookup(postings, g) + [id]];
      rest := rest - {g};
    }
  }

  lemma HitsGrow(rows: seq<Row>, done: set<Text>, g: Text, o: int)
    requires g !in done
    ensures Hits(rows, done + {g}, o) ==
            Hits(rows, done, o) + if Rare(rows, g) && o in Bucket(rows, g, |rows|) then {g} else {}
    ensures |Hits(rows, done + {g}, o)| ==
            |Hits(rows, done, o)| + if Rare(rows, g) && o in Bucket(rows, g, |rows|) then 1 else 0
  {
    assert Hits(rows, done + {g}, o) ==
           Hits(rows, done, o) + if Rare(rows, g) && o in Bucket(rows, g, |rows|) then {g} else {};
  }

  /** While one bucket is scanned, only the ids already passed have the new trigram counted. */
  ghost predicate Midway(rows: seq<Row>, sid: int, shared: map<int, nat>, done: set<Text>, g: Text, passed: seq<int>,
                         o: int)
  {
    Counted(rows, sid, shared, if o in passed then done + {g} else done, o)
  }

  /** One trigram: adds one to the count of every higher id in its bucket. */
  method CountBucket(rows: seq<Row>, sid: int, bucket: seq<int>, before: map<int, nat>, ghost done: set<Text>,
                     ghost g: Text)
    returns (shared: map<int, nat>)
    requires bucket == Bucket(rows, g, |rows|) && DistinctIds(rows) && Rare(rows, g) && g !in done
    requires forall o :: Counted(rows, sid, before, done, o)
    ensures forall o :: Counted(rows, sid, shared, done + {g}, o)
  {
    shared := before;
    ghost var passed := [];
    for k := 0 to |bucket|
      invariant passed == bucket[..k]
      invariant forall o :: Midway(rows, sid, shared, done, g, passed, o)
    {
      var other := bucket[k];
      ghost var was, sofar := shared, passed;
      if sid < other {
        shared := shared[other := (if other in shared then shared[other] else 0) + 1];
      }
      passed := passed + [other];
      BucketFresh(rows, g, k);
      forall o
        ensures Midway(rows, sid, shared, done, g, passed, o)
      {
        assert Midway(rows, sid, was, done, g, sofar, o);
        MidwayStep(rows, sid, was, shared, done, g, sofar, other, o);
      }
    }
    forall o
      ensures Counted(rows, sid, shared, done + {g}, o)
    {
      assert passed == bucket;
      assert Midway(rows, sid, shared, done, g, passed, o);
      HitsGrow(rows, done, g, o);
    }
  }

  lemma BucketFresh(rows: seq<Row>, g: Text, k: nat)
    requires DistinctIds(rows) && k < |Bucket(rows, g, |rows|)|
    ensures Bucket(rows, g, |rows|)[k] !in Bucket(rows, g, |rows|)[..k]
  {
    var bucket := Bucket(rows, g, |rows|);
    BucketDistinct(rows, g, |rows|);
  }

  lemma MidwayStep(rows: seq<Row>, sid: int, was: map<int, nat>, shared: map<int, nat>, done: set<Text>, g: Text,
                   passed: seq<int>, other: int, o: int)
    requires other in Bucket(rows, g, |rows|) && other !in passed && Rare(rows, g) && g !in done
    requires Midway(rows, sid, was, done, g, passed, o)
    requires shared == if sid < other then was[other := (if other in was then was[other] else 0) + 1] else was
    ensures Midway(rows, sid, shared, done, g, passed + [other], o)
  {
    HitsGrow(rows, done, g, other);
    assert o in passed + [other] <==> o in passed || o == other;
  }

  /** `shared`: the counts of one row, through the index alone. */
  method CountShared(rows: seq<Row>, x: Row, postings: map<Text, seq<int>>) returns (shared: map<int, nat>)
    requires x in rows && DistinctIds(rows) && IsIndex(rows, postings, |rows|)
    ensures forall o :: Counted(rows, x.entry.id, shared, x.trigrams, o)
  {
    shared := map[];
    var rest := x.trigrams;
    while rest != {}
      invariant rest <= x.trigrams
      invariant forall o :: Counted(rows, x.entry.id, shared, x.trigrams - rest, o)
    {
      var g :| g in rest;
      ghost var done := x.trigrams - rest;
      var bucket := Lookup(postings, g);
      if |bucket| <= BUCKET_LIMIT {
        shared := CountBucket(rows, x.entry.id, bucket, shared, done, g);
      } else {
        forall o
          ensures Counted(rows, x.entry.id, shared, done + {g}, o)
        {
          assert Counted(rows, x.entry.id, shared, done, o);
          HitsGrow(rows, done, g, o);
        }
      }
      rest := rest - {g};
      assert done + {g} == x.trigrams - rest;
    }
    assert x.trigrams - {} == x.trigrams;
  }

  /** For a row the counts are the sizes of the shared sets of the relation. */
  lemma HitsAreShared(rows: seq<Row>, x: Row, y: Row)
    requires x in rows && y in rows && DistinctIds(rows)
    ensures Hits(rows, x.trigrams, y.entry.id) == Shared(rows, x, y)
  {
    var j :| 0 <= j < |rows| && rows[j] == y;
    forall g | g in x.trigrams
      ensures y.entry.id in Bucket(rows, g, |rows|) <==> g in y.trigrams
    {
      BucketMembers(rows, g, |rows|, y.entry.id);
      if y.entry.id in Bucket(rows, g, |rows|) {
        var k :| 0 <= k < |rows| && rows[k].entry.id == y.entry.id && g in rows[k].trigrams;
        assert k == j;
      }
    }
  }

  /** The ids related to x from above. */
  ghost function Partners(near: (Text, Text) -> bool, rows: seq<Row>, x: Row): set<int> {
    set y | y in rows && RuleNear(near, rows, x, y) :: y.entry.id
  }

  ghost function Spokes(sid: int, others: set<int>): set<(int, int)> {
    set o | o in others :: (sid, o)
  }

  /** A pair with no count has no shared rare trigram, so the relation cannot hold. */
  lemma UncountedUnrelated(near: (Text, Text) -> bool, rows: seq<Row>, x: Row, y: Row, shared: map<int, nat>)
    requires x in rows && y in rows && DistinctIds(rows)
    requires Counted(rows, x.entry.id, shared, x.trigrams, y.entry.id) && y.entry.id !in shared
    ensures !RuleNear(near, rows, x, y)
  {
    HitsAreShared(rows, x, y);
    if x.trigrams != {} && y.trigrams != {} {
      var g :| g in x.trigrams;
      assert |x.trigrams| == |x.trigrams - {g}| + 1;
      var h :| h in y.trigrams;
      assert |y.trigrams| == |y.trigrams - {h}| + 1;
    }
  }

  /** One counted pair: the tests of the loop body decide the relation. */
  lemma TestsDecide(near: (Text, Text) -> bool, rows: seq<Row>, x: Row, y: Row, shared: map<int, nat>)
    requires x in rows && y in rows && DistinctIds(rows)
    requires Counted(rows, x.entry.id, shared, x.trigrams, y.entry.id) && y.entry.id in shared
    ensures RuleNear(near, rows, x, y) <==>
            && y.entry.file != x.entry.file
            && 4 * shared[y.entry.id] >= Min(|x.trigrams|, |y.trigrams|)
            && !FarApart(x, y)
            && near(x.entry.text, y.entry.text)
  {
    HitsAreShared(rows, x, y);
    var g :| g in Shared(rows, x, y);
  }

  function RowOf(rows: seq<Row>, id: int): (r: Row)
    requires exists k | 0 <= k < |rows| :: rows[k].entry.id == id
    ensures r in rows && r.entry.id == id
  {
    if rows[0].entry.id == id then rows[0] else RowOf(rows[1..], id)
  }

  lemma CountedAreRows(rows: seq<Row>, x: Row, shared: map<int, nat>, o: int)
    requires Counted(rows, x.entry.id, shared, x.trigrams, o) && o in shared
    ensures exists k | 0 <= k < |rows| :: rows[k].entry.id == o
  {
    var g :| g in Hits(rows, x.trigrams, o);
    BucketMembers(rows, g, |rows|, o);
  }

  lemma SameIdSameRow(rows: seq<Row>, x: Row, y: Row)
    requires DistinctIds(rows) && x in rows && y in rows && x.entry.id == y.entry.id
    ensures x == y
  {
    var i :| 0 <= i < |rows| && rows[i] == x;
    var j :| 0 <= j < |rows| && rows[j] == y;
    assert i == j;
  }

  lemma PartnersDecide(near: (Text, Text) -> bool, rows: seq<Row>, x: Row, y: Row)
    requires DistinctIds(rows) && y in rows
    ensures y.entry.id in Partners(near, rows, x) <==> RuleNear(near, rows, x, y)
  {
    if y.entry.id in Partners(near, rows, x) {
      var z :| z in rows && RuleNear(near, rows, x, z) && z.entry.id == y.entry.id;
      SameIdSameRow(rows, y, z);
    }
  }

  lemma PartnersCounted(near: (Text, Text) -> bool, rows: seq<Row>, x: Row, shared: map<int, nat>)
    requires DistinctIds(rows) && x in rows
    requires forall o :: Counted(rows, x.entry.id, shared, x.trigrams, o)
    ensures Partners(near, rows, x) <= shared.Keys
  {
    forall y | y in rows && RuleNear(near, rows, x, y)
      ensures y.entry.id in shared
    {
      assert Counted(rows, x.entry.id, shared, x.trigrams, y.entry.id);
      if y.entry.id !in shared {
        UncountedUnrelated(near, rows, x, y, shared);
      }
    }
  }

  /** The tests on one counted row. */
  method Accepts(near: (Text, Text) -> bool, rows: seq<Row>, x: Row, o: int, shared: map<int, nat>) returns (ok: bool)
    requires DistinctIds(rows) && x in rows && o in shared && Counted(rows, x.entry.id, shared, x.trigrams, o)
    ensures ok <==> o in Partners(near, rows, x)
    ensures o in Ids(rows)
  {
    CountedAreRows(rows, x, shared, o);
    var y := RowOf(rows, o);
    TestsDecide(near, rows, x, y, shared);
    PartnersDecide(near, rows, x, y);
    ok := y.entry.file != x.entry.file && 4 * shared[o] >= Min(|x.trigrams|, |y.trigrams|) && !FarApart(x, y)
          && near(x.entry.text, y.entry.text);
  }

  lemma SpokesGrow(sid: int, others: set<int>, o: int)
    ensures Spokes(sid, others + {o}) == Spokes(sid, others) + {(sid, o)}
  {
  }

  ghost predicate AllCounted(rows: seq<Row>, x: Row, shared: map<int, nat>) {
    forall o :: Counted(rows, x.entry.id, shared, x.trigrams, o)
  }

  /** One candidate of one row. */
  method UniteOne(near: (Text, Text) -> bool, rows: seq<Row>, x: Row, o: int, shared: map<int, nat>, uf: UnionFind<int>,
                  ghost partners: set<int>) returns (ok: bool)
    requires uf.Valid() && uf.parent.Keys == Ids(rows) && DistinctIds(rows) && x in rows && o in shared
    requires AllCounted(rows, x, shared) && partners == Partners(near, rows, x)
    modifies uf
    ensures uf.Valid() && uf.parent.Keys == Ids(rows) && (ok <==> o in partners)
    ensures uf.edges == if ok then old(uf.edges) + {(x.entry.id, o)} else old(uf.edges)
  {
    assert Counted(rows, x.entry.id, shared, x.trigrams, o);
    ok := Accepts(near, rows, x, o, shared);
    if ok {
      assert x.entry.id in Ids(rows);
      uf.Union(x.entry.id, o);
    }
  }

  lemma FoundStep(partners: set<int>, rest: set<int>, o: int)
    requires o in rest
    ensures partners - (rest - {o}) == if o in partners then partners - rest + {o} else partners - rest
  {
  }

  method AnyOf(s: set<int>) returns (o: int)
    requires s != {}
    ensures o in s
  {
    assert (forall x :: x !in s) ==> s == {};
    o :| o in s;
  }

  /** The candidates of one row. */
  method UniteFrom(near: (Text, Text) -> bool, rows: seq<Row>, x: Row, shared: map<int, nat>, uf: UnionFind<int>,
                   ghost partners: set<int>)
    requires uf.Valid() && uf.parent.Keys == Ids(rows) && DistinctIds(rows) && x in rows
    requires AllCounted(rows, x, shared)
    requires partners == Partners(near, rows, x) && partners <= shared.Keys
    modifies uf
    ensures uf.Valid() && uf.parent.Keys == Ids(rows)
    ensures uf.edges == old(uf.edges) + Spokes(x.entry.id, partners)
  {
    var rest := shared.Keys;
    ghost var found := {};
    var sid := x.entry.id;
    ghost var spokes := Spokes(sid, {});
    while rest != {}
      invariant rest <= shared.Keys && found == partners - rest && spokes == Spokes(sid, found)
      invariant uf.Valid() && uf.parent.Keys == Ids(rows)
      invariant uf.edges == old(uf.edges) + spokes
    {
      var o := AnyOf(rest);
      var ok := UniteOne(near, rows, x, o, shared, uf, partners);
      FoundStep(partners, rest, o);
      if ok {
        SpokesGrow(sid, found, o);
        found, spokes := found + {o}, spokes + {(sid, o)};
      }
      rest := rest - {o};
    }
    assert found == partners;
  }

  method UniteRow(near: (Text, Text) -> bool, rows: seq<Row>, x: Row, postings: map<Text, seq<int>>, uf: UnionFind<int>,
                  ghost spokes: set<(int, int)>)
    requires uf.Valid() && uf.parent.Keys == Ids(rows) && DistinctIds(rows) && x in rows
    requires IsIndex(rows, postings, |rows|) && spokes == Spokes(x.entry.id, Partners(near, rows, x))
    modifies uf
    ensures uf.Valid() && uf.parent.Keys == Ids(rows)
    ensures uf.edges == old(uf.edges) + spokes
  {
    ghost var partners := Partners(near, rows, x);
    if x.trigrams != {} {
      var shared := CountShared(rows, x, postings);
      PartnersCounted(near, rows, x, shared);
      UniteFrom(near, rows, x, shared, uf, partners);
    } else {
      assert partners == {};
    }
  }

  /** For each row, the pairs of the relation in which it is the lower one. */
  ghost function SpokesOf(near: (Text, Text) -> bool, rows: seq<Row>): (ss: seq<set<(int, int)>>)
    ensures |ss| == |rows| && forall i | 0 <= i < |rows| ::
              ss[i] == Spokes(rows[i].entry.id, Partners(near, rows, rows[i]))
  {
    seq(|rows|, i requires 0 <= i < |rows| => Spokes(rows[i].entry.id, Partners(near, rows, rows[i])))
  }

  ghost function UnionUpTo(ss: seq<set<(int, int)>>, n: nat): set<(int, int)>
    requires n <= |ss|
  {
    if n == 0 then {} else UnionUpTo(ss, n - 1) + ss[n - 1]
  }

  lemma {:induction false} UnionMembers(ss: seq<set<(int, int)>>, n: nat, e: (int, int))
    requires n <= |ss|
    ensures e in UnionUpTo(ss, n) <==> exists k | 0 <= k < n :: e in ss[k]
  {
    if n > 0 {
      UnionMembers(ss, n - 1, e);
    }
  }

  lemma SpokesAreEdges(near: (Text, Text) -> bool, rows: seq<Row>)
    ensures UnionUpTo(SpokesOf(near, rows), |rows|) == EdgesNear(near, rows)
  {
    var ss := SpokesOf(near, rows);
    forall e
      ensures e in UnionUpTo(ss, |rows|) <==> e in EdgesNear(near, rows)
    {
      UnionMembers(ss, |rows|, e);
      if e in EdgesNear(near, rows) {
        var x, y :| x in rows && y in rows && RuleNear(near, rows, x, y) && e == (x.entry.id, y.entry.id);
        var k :| 0 <= k < |rows| && rows[k] == x;
        assert e in ss[k];
      }
    }
  }

  /** The whole loop of rule A' unites exactly the pairs of the relation. */
  method UniteNear(near: (Text, Text) -> bool, rows: seq<Row>, uf: UnionFind<int>)
    requires uf.Valid() && uf.parent.Keys == Ids(rows) && DistinctIds(rows)
    modifies uf
    ensures uf.Valid() && uf.parent.Keys == Ids(rows)
    ensures uf.edges == old(uf.edges) + EdgesNear(near, rows)
  {
    var postings := BuildPostings(rows);
    SpokesAreEdges(near, rows);
    UniteRows(near, rows, postings, uf, SpokesOf(near, rows));
  }

  method UniteRows(near: (Text, Text) -> bool, rows: seq<Row>, postings: map<Text, seq<int>>, uf: UnionFind<int>,
                   ghost ss: seq<set<(int, int)>>)
    requires uf.Valid() && uf.parent.Keys == Ids(rows) && DistinctIds(rows) && IsIndex(rows, postings, |rows|)
    requires |ss| == |rows| && forall i | 0 <= i < |rows| ::
               ss[i] == Spokes(rows[i].entry.id, Partners(near, rows, rows[i]))
    modifies uf
    ensures uf.Valid() && uf.parent.Keys == Ids(rows)
    ensures uf.edges == old(uf.edges) + UnionUpTo(ss, |rows|)
  {
    for n := 0 to |rows|
      invariant uf.Valid() && uf.parent.Keys == Ids(rows)
      invariant uf.edges == old(uf.edges) + UnionUpTo(ss, n)
    {
      UniteRow(near, rows, rows[n], postings, uf, ss[n]);
    }
  }
}
