/**
 `edit_distance` of asr_metrics.py. The two-row loop computes `Distance`, which is proved to be the
 least number of single insertions, deletions and substitutions that turn one sequence into the
 other, and a metric.
 */
module EditDistance {

  import opened Numbers

  function Cost<T(==)>(x: T, y: T): nat { if x == y then 0 else 1 }

  function Init<T>(s: seq<T>): seq<T>
    requires s != []
  {
    s[..|s| - 1]
  }

  function Last<T>(s: seq<T>): T
    requires s != []
  {
    s[|s| - 1]
  }

  /** The recurrence, on the last elements. */
  function Distance<T(==)>(a: seq<T>, b: seq<T>): nat
    decreases |a| + |b|
  {
    if a == [] then |b|
    else if b == [] then |a|
    else Min(Min(Distance(Init(a), b) + 1, Distance(a, Init(b)) + 1),
             Distance(Init(a), Init(b)) + Cost(Last(a), Last(b)))
  }

  /** The first n + 1 entries of the row of u: its distances to the prefixes of b. */
  ghost predicate IsRow<T(!new)>(row: seq<nat>, u: seq<T>, b: seq<T>, n: nat) {
    && n <= |b| && |row| == n + 1
    && forall k | 0 <= k <= n :: row[k] == Distance(u, b[..k])
  }

  function Entry(above: nat, left: nat, corner: nat, cost: nat): nat {
    Min(Min(above + 1, left + 1), corner + cost)
  }

  method ComputeDistance<T(==, !new)>(a: seq<T>, b: seq<T>) returns (d: nat)
    ensures d == Distance(a, b)
  {
    var prev: seq<nat> := seq(|b| + 1, i requires 0 <= i => i);
    for i := 0 to |a|
      invariant IsRow(prev, a[..i], b, |b|)
    {
      prev := NextRow(a, b, i, prev);
    }
    assert a[..|a|] == a && b[..|b|] == b;
    d := prev[|prev| - 1];
  }

  /** One step of the inner loop is one step of the recurrence. */
  lemma EntryStep<T>(a: seq<T>, b: seq<T>, i: nat, j: nat)
    requires i < |a| && j < |b|
    ensures Distance(a[..i + 1], b[..j + 1])
         == Entry(Distance(a[..i], b[..j + 1]), Distance(a[..i + 1], b[..j]),
                  Distance(a[..i], b[..j]), Cost(a[i], b[j]))
  {
    var u, v := a[..i + 1], b[..j + 1];
    assert Init(u) == a[..i];
    assert Init(v) == b[..j];
    assert Last(u) == a[i] && Last(v) == b[j];
  }

  lemma RowGrows<T(!new)>(row: seq<nat>, u: seq<T>, b: seq<T>, n: nat, entry: nat)
    requires IsRow(row, u, b, n) && n < |b| && entry == Distance(u, b[..n + 1])
    ensures IsRow(row + [entry], u, b, n + 1)
  {
  }

  method NextRow<T(==, !new)>(a: seq<T>, b: seq<T>, i: nat, prev: seq<nat>) returns (cur: seq<nat>)
    requires i < |a| && IsRow(prev, a[..i], b, |b|)
    ensures IsRow(cur, a[..i + 1], b, |b|)
  {
    cur := [i + 1];
    for j := 0 to |b|
      invariant IsRow(cur, a[..i + 1], b, j)
    {
      var entry := Entry(prev[j + 1], cur[j], prev[j], if a[i] == b[j] then 0 else 1);
      EntryStep(a, b, i, j);
      RowGrows(cur, a[..i + 1], b, j, entry);
      cur := cur + [entry];
    }
  }

  // ----- a metric

  lemma {:induction false} DistanceSymmetric<T>(a: seq<T>, b: seq<T>)
    ensures Distance(a, b) == Distance(b, a)
    decreases |a| + |b|
  {
    if a != [] && b != [] {
      DistanceSymmetric(Init(a), b);
      DistanceSymmetric(a, Init(b));
      DistanceSymmetric(Init(a), Init(b));
    }
  }

  lemma {:induction false} DistanceZeroIffEqual<T>(a: seq<T>, b: seq<T>)
    ensures Distance(a, b) == 0 <==> a == b
    decreases |a| + |b|
  {
    if a != [] && b != [] {
      DistanceZeroIffEqual(Init(a), Init(b));
      assert a == Init(a) + [Last(a)] && b == Init(b) + [Last(b)];
    }
  }

  /** The three ways down from a pair of nonempty sequences. */
  lemma Down<T>(a: seq<T>, b: seq<T>)
    requires a != [] && b != []
    ensures Distance(a, b) <= Distance(Init(a), b) + 1
    ensures Distance(a, b) <= Distance(a, Init(b)) + 1
    ensures Distance(a, b) <= Distance(Init(a), Init(b)) + Cost(Last(a), Last(b))
    ensures || Distance(a, b) == Distance(Init(a), b) + 1
            || Distance(a, b) == Distance(a, Init(b)) + 1
            || Distance(a, b) == Distance(Init(a), Init(b)) + Cost(Last(a), Last(b))
  {
  }

  lemma {:induction false} LengthsBound<T>(a: seq<T>, b: seq<T>)
    ensures |a| - |b| <= Distance(a, b) && |b| - |a| <= Distance(a, b)
    decreases |a| + |b|
  {
    if a != [] && b != [] {
      LengthsBound(Init(a), b);
      LengthsBound(a, Init(b));
      LengthsBound(Init(a), Init(b));
    }
  }

  lemma {:induction false} Triangle<T>(a: seq<T>, b: seq<T>, c: seq<T>)
    ensures Distance(a, c) <= Distance(a, b) + Distance(b, c)
    decreases |a| + |b| + |c|
  {
    if a == [] || c == [] || b == [] {
      LengthsBound(a, b);
      LengthsBound(b, c);
      LengthsBound(a, c);
      if b == [] && a != [] && c != [] {
        DistanceAtMostBoth(a, c);
      }
    } else {
      Down(a, b);
      Down(b, c);
      Down(a, c);
      Triangle(Init(a), b, c);
      Triangle(a, b, Init(c));
      Triangle(a, Init(b), c);
      Triangle(a, Init(b), Init(c));
      Triangle(Init(a), Init(b), c);
      Triangle(Init(a), Init(b), Init(c));
    }
  }

  lemma {:induction false} DistanceAtMostBoth<T>(a: seq<T>, c: seq<T>)
    ensures Distance(a, c) <= |a| + |c|
    decreases |a| + |c|
  {
    if a != [] && c != [] {
      DistanceAtMostBoth(Init(a), c);
    }
  }

  // ----- the least number of edits

  /** One element inserted, deleted or replaced at position i. */
  ghost predicate EditAt<T(!new)>(s: seq<T>, t: seq<T>, i: nat) {
    || (i <= |s| && |t| == |s| + 1 && t[..i] == s[..i] && t[i + 1..] == s[i..])
    || (i <= |t| && |s| == |t| + 1 && s[..i] == t[..i] && s[i + 1..] == t[i..])
    || (i < |s| && |t| == |s| && t[..i] == s[..i] && t[i + 1..] == s[i + 1..])
  }

  ghost predicate OneEdit<T(!new)>(s: seq<T>, t: seq<T>) {
    exists i: nat :: EditAt(s, t, i)
  }

  /** A chain of single edits from its first sequence to its last. */
  ghost predicate IsChain<T(!new)>(chain: seq<seq<T>>, a: seq<T>, b: seq<T>) {
    && chain != [] && chain[0] == a && chain[|chain| - 1] == b
    && forall k | 0 <= k < |chain| - 1 :: OneEdit(chain[k], chain[k + 1])
  }

  /** A common suffix never makes two sequences more distant. */
  lemma {:induction false} CommonSuffix<T>(u: seq<T>, v: seq<T>, a: seq<T>, b: seq<T>, w: seq<T>)
    requires u == a + w && v == b + w
    ensures Distance(u, v) <= Distance(a, b)
    decreases |w|
  {
    if w == [] {
      assert u == a && v == b;
    } else {
      var u', v' := Init(u), Init(v);
      assert u' == a + Init(w) && v' == b + Init(w);
      CommonSuffix(u', v', a, b, Init(w));
      Down(u, v);
    }
  }

  lemma {:induction false} SelfDistance<T>(a: seq<T>)
    ensures Distance(a, a) == 0
  {
    DistanceZeroIffEqual(a, a);
  }

  lemma AppendCostsOne<T>(u: seq<T>, x: T)
    ensures Distance(u, u + [x]) <= 1
  {
    SelfDistance(u);
    if u != [] {
      Down(u, u + [x]);
      assert Init(u + [x]) == u;
    }
  }

  lemma ReplaceCostsOne<T>(u: seq<T>, x: T, y: T)
    ensures Distance(u + [x], u + [y]) <= 1
  {
    SelfDistance(u);
    Down(u + [x], u + [y]);
    assert Init(u + [x]) == u;
    assert Init(u + [y]) == u;
  }

  lemma InsertCostsOne<T(!new)>(s: seq<T>, t: seq<T>, i: nat)
    requires i <= |s| && |t| == |s| + 1 && t[..i] == s[..i] && t[i + 1..] == s[i..]
    ensures Distance(s, t) <= 1
  {
    var u := s[..i];
    AppendCostsOne(u, t[i]);
    assert u + s[i..] == s;
    assert u + [t[i]] + s[i..] == t;
    CommonSuffix(s, t, u, u + [t[i]], s[i..]);
  }

  lemma ChangeCostsOne<T(!new)>(s: seq<T>, t: seq<T>, i: nat)
    requires i < |s| && |t| == |s| && t[..i] == s[..i] && t[i + 1..] == s[i + 1..]
    ensures Distance(s, t) <= 1
  {
    var u, w := s[..i], s[i + 1..];
    var before, after := u + [s[i]], u + [t[i]];
    ReplaceCostsOne(u, s[i], t[i]);
    assert before + w == s;
    assert after + w == t;
    CommonSuffix(s, t, before, after, w);
  }

  lemma OneEditCostsOne<T(!new)>(s: seq<T>, t: seq<T>)
    requires OneEdit(s, t)
    ensures Distance(s, t) <= 1
  {
    var i: nat :| EditAt(s, t, i);
    if |t| == |s| + 1 {
      InsertCostsOne(s, t, i);
    } else if |s| == |t| + 1 {
      InsertCostsOne(t, s, i);
      DistanceSymmetric(s, t);
    } else {
      ChangeCostsOne(s, t, i);
    }
  }

  /** No chain of edits is shorter than the distance. */
  lemma {:induction false} ChainsAreLong<T(!new)>(chain: seq<seq<T>>, a: seq<T>, b: seq<T>)
    requires IsChain(chain, a, b)
    ensures Distance(a, b) <= |chain| - 1
    decreases |chain|
  {
    if |chain| == 1 {
      SelfDistance(a);
    } else {
      assert OneEdit(chain[0], chain[0 + 1]);
      OneEditCostsOne(a, chain[1]);
      assert IsChain(chain[1..], chain[1], b);
      ChainsAreLong(chain[1..], chain[1], b);
      Triangle(a, chain[1], b);
    }
  }

  lemma EditLifts<T(!new)>(s: seq<T>, t: seq<T>, x: T)
    requires OneEdit(s, t)
    ensures OneEdit(s + [x], t + [x])
  {
    var i: nat :| EditAt(s, t, i);
    var s', t' := s + [x], t + [x];
    assert s'[..i] == s[..i] || i > |s|;
    if |t| == |s| + 1 {
      assert t'[..i] == t[..i] && t'[i + 1..] == t[i + 1..] + [x] && s'[i..] == s[i..] + [x];
    } else if |s| == |t| + 1 {
      assert t'[..i] == t[..i] && s'[i + 1..] == s[i + 1..] + [x] && t'[i..] == t[i..] + [x];
    } else {
      assert t'[..i] == t[..i] && s'[i + 1..] == s[i + 1..] + [x] && t'[i + 1..] == t[i + 1..] + [x];
    }
    assert EditAt(s', t', i);
  }

  ghost function Lifted<T(!new)>(chain: seq<seq<T>>, x: T): (r: seq<seq<T>>)
    ensures |r| == |chain| && forall k | 0 <= k < |chain| :: r[k] == chain[k] + [x]
  {
    seq(|chain|, k requires 0 <= k < |chain| => chain[k] + [x])
  }

  lemma ChainLifts<T(!new)>(chain: seq<seq<T>>, a: seq<T>, b: seq<T>, x: T)
    requires IsChain(chain, a, b)
    ensures IsChain(Lifted(chain, x), a + [x], b + [x])
  {
    var r := Lifted(chain, x);
    forall k | 0 <= k < |r| - 1
      ensures OneEdit(r[k], r[k + 1])
    {
      assert OneEdit(chain[k], chain[k + 1]);
      EditLifts(chain[k], chain[k + 1], x);
    }
  }

  lemma ChainPrepend<T(!new)>(first: seq<T>, chain: seq<seq<T>>, a: seq<T>, b: seq<T>)
    requires IsChain(chain, a, b) && OneEdit(first, a)
    ensures IsChain([first] + chain, first, b)
  {
    var r := [first] + chain;
    forall k | 0 <= k < |r| - 1
      ensures OneEdit(r[k], r[k + 1])
    {
      if k > 0 { assert OneEdit(chain[k - 1], chain[k - 1 + 1]); }
    }
  }

  lemma ChainAppend<T(!new)>(chain: seq<seq<T>>, last: seq<T>, a: seq<T>, b: seq<T>)
    requires IsChain(chain, a, b) && OneEdit(b, last)
    ensures IsChain(chain + [last], a, last)
  {
    var r := chain + [last];
    forall k | 0 <= k < |r| - 1
      ensures OneEdit(r[k], r[k + 1])
    {
      if k < |chain| - 1 { assert OneEdit(chain[k], chain[k + 1]); }
    }
  }

  lemma DropLastIsEdit<T(!new)>(a: seq<T>)
    requires a != []
    ensures OneEdit(a, Init(a)) && OneEdit(Init(a), a)
  {
    assert EditAt(a, Init(a), |a| - 1) && EditAt(Init(a), a, |a| - 1);
  }

  lemma ReplaceLastIsEdit<T(!new)>(a: seq<T>, x: T, y: T)
    ensures OneEdit(a + [x], a + [y])
  {
    assert EditAt(a + [x], a + [y], |a|);
  }

  /** Some chain of edits is exactly as long as the distance. */
  lemma {:induction false} ShortestChain<T(!new)>(a: seq<T>, b: seq<T>) returns (chain: seq<seq<T>>)
    ensures IsChain(chain, a, b) && |chain| - 1 == Distance(a, b)
    decreases |a| + |b|
  {
    if a == [] && b == [] {
      chain := [a];
    } else if b == [] || (a != [] && Distance(a, b) == Distance(Init(a), b) + 1) {
      chain := ShortestChain(Init(a), b);
      DropLastIsEdit(a);
      ChainPrepend(a, chain, Init(a), b);
      chain := [a] + chain;
    } else if a == [] || Distance(a, b) == Distance(a, Init(b)) + 1 {
      chain := ShortestChain(a, Init(b));
      DropLastIsEdit(b);
      ChainAppend(chain, b, a, Init(b));
      chain := chain + [b];
    } else {
      chain := ShortestChain(Init(a), Init(b));
      ChainLifts(chain, Init(a), Init(b), Last(a));
      chain := Lifted(chain, Last(a));
      assert Init(a) + [Last(a)] == a && Init(b) + [Last(b)] == b;
      if Last(a) != Last(b) {
        ReplaceLastIsEdit(Init(b), Last(a), Last(b));
        ChainAppend(chain, b, a, Init(b) + [Last(a)]);
        chain := chain + [b];
      }
    }
  }
}
