/**
 What a `difflib.SequenceMatcher` comparison says about two texts, and the counting bounds that
 `_vectorized_rule_b` of check_dataset_duplicates.py relies on. A comparison is an ordered list of
 disjoint common blocks in which adjacent blocks have been merged; its ratio is 2M/T for M matched
 characters and T characters in all.
 */
module MatchingBlocks {

  type Text = seq<char>

  datatype Block = Block(i: nat, j: nat, size: nat)

  /** The blocks from position (i, j) on: in order, inside both texts, equal in both, and never two
      of them adjacent in both texts at once. */
  ghost predicate Fits(a: Text, b: Text, blocks: seq<Block>, i: nat, j: nat) {
    blocks == [] ||
    var k := blocks[0];
    && i <= k.i && j <= k.j && 0 < k.size
    && k.i + k.size <= |a| && k.j + k.size <= |b|
    && a[k.i..k.i + k.size] == b[k.j..k.j + k.size]
    && (1 < |blocks| ==> k.i + k.size < blocks[1].i || k.j + k.size < blocks[1].j)
    && Fits(a, b, blocks[1..], k.i + k.size, k.j + k.size)
  }

  function Matched(blocks: seq<Block>): nat {
    if blocks == [] then 0 else blocks[0].size + Matched(blocks[1..])
  }

  /** Any function of two texts that returns such a list of blocks. */
  ghost predicate IsMatcher(m: (Text, Text) -> seq<Block>) {
    forall a, b :: Fits(a, b, m(a, b), 0, 0)
  }

  /** `ratio() >= 0.90`, in exact arithmetic. */
  predicate Similar(m: (Text, Text) -> seq<Block>, a: Text, b: Text) {
    20 * Matched(m(a, b)) >= 9 * (|a| + |b|)
  }

  // ----- counting blocks and matched characters

  /** Between two consecutive blocks at least one character of one text is unmatched, so there are
      at most U + 1 blocks for U unmatched characters. */
  lemma {:induction false} BlockCount(a: Text, b: Text, blocks: seq<Block>, i: nat, j: nat)
    requires Fits(a, b, blocks, i, j) && blocks != []
    ensures |blocks| <= 1 + (|a| - blocks[0].i) + (|b| - blocks[0].j) - 2 * Matched(blocks)
    decreases |blocks|
  {
    var k := blocks[0];
    if 1 < |blocks| {
      BlockCount(a, b, blocks[1..], k.i + k.size, k.j + k.size);
    } else {
      assert Matched(blocks[1..]) == 0;
    }
  }

  lemma {:induction false} MatchedBound(a: Text, b: Text, blocks: seq<Block>, i: nat, j: nat)
    requires Fits(a, b, blocks, i, j) && i <= |a| && j <= |b|
    ensures Matched(blocks) <= |a| - i && Matched(blocks) <= |b| - j
    decreases |blocks|
  {
    if blocks != [] {
      var k := blocks[0];
      MatchedBound(a, b, blocks[1..], k.i + k.size, k.j + k.size);
    }
  }

  // ----- windows of a text

  /** The keys of all windows of length n, in order. */
  function Windows<K>(t: Text, n: nat, key: Text -> K): (w: seq<K>)
    requires 0 < n
    ensures |w| == WindowCount(|t|, n)
  {
    seq(WindowCount(|t|, n), i requires 0 <= i < WindowCount(|t|, n) => key(t[i..i + n]))
  }

  function WindowCount(length: nat, n: nat): nat {
    if n <= length then length - n + 1 else 0
  }

  lemma WindowsOfPrefix<K>(u: Text, v: Text, n: nat, key: Text -> K)
    requires 0 < n
    ensures |Windows(u, n, key)| <= |Windows(u + v, n, key)|
    ensures Windows(u, n, key) == Windows(u + v, n, key)[..|Windows(u, n, key)|]
  {
    forall i | 0 <= i < |Windows(u, n, key)|
      ensures Windows(u, n, key)[i] == Windows(u + v, n, key)[i]
    {
      assert (u + v)[i..i + n] == u[i..i + n];
    }
  }

  lemma WindowsOfSuffix<K>(u: Text, v: Text, n: nat, key: Text -> K)
    requires 0 < n
    ensures |Windows(v, n, key)| <= |Windows(u + v, n, key)|
    ensures Windows(v, n, key) == Windows(u + v, n, key)[|Windows(u + v, n, key)| - |Windows(v, n, key)|..]
  {
    var q := |Windows(u + v, n, key)| - |Windows(v, n, key)|;
    forall i | 0 <= i < |Windows(v, n, key)|
      ensures Windows(v, n, key)[i] == Windows(u + v, n, key)[q + i]
    {
      assert (u + v)[q + i..q + i + n] == v[i..i + n];
    }
  }

  lemma PartsOfWhole<K>(w: seq<K>, p: nat, q: nat)
    requires p <= q <= |w|
    ensures multiset(w[..p]) + multiset(w[q..]) <= multiset(w)
  {
    assert w == w[..p] + (w[p..q] + w[q..]);
  }

  /** The windows of a concatenation include those of both parts. */
  lemma WindowsSplit<K>(u: Text, v: Text, n: nat, key: Text -> K)
    requires 0 < n
    ensures multiset(Windows(u, n, key)) + multiset(Windows(v, n, key)) <= multiset(Windows(u + v, n, key))
  {
    WindowsOfPrefix(u, v, n, key);
    WindowsOfSuffix(u, v, n, key);
    var w := Windows(u + v, n, key);
    PartsOfWhole(w, |Windows(u, n, key)|, |w| - |Windows(v, n, key)|);
  }

  lemma CardMonotone<K>(s: multiset<K>, t: multiset<K>)
    requires s <= t
    ensures |s| <= |t|
  {
    assert t == s + (t - s);
  }

  /** Common parts add up in an intersection. */
  lemma MeetOfSums<K>(x: multiset<K>, a: multiset<K>, b: multiset<K>, p: multiset<K>, q: multiset<K>)
    requires x + a <= p && x + b <= q
    ensures |x| + |a * b| <= |p * q|
  {
    forall k | k in x + a * b
      ensures (x + a * b)[k] <= (p * q)[k]
    {
      assert (x + a)[k] <= p[k] && (x + b)[k] <= q[k];
    }
    assert x + a * b <= p * q;
    CardMonotone(x + a * b, p * q);
  }

  /** Windows that lie inside the blocks. */
  function Inside(blocks: seq<Block>, n: nat): nat {
    if blocks == [] then 0 else WindowCount(blocks[0].size, n) + Inside(blocks[1..], n)
  }

  /** Whatever the key, two texts share at least the windows inside their matching blocks. */
  lemma {:induction false} SharedWindows<K>(a: Text, b: Text, blocks: seq<Block>, i: nat, j: nat, n: nat,
                                            key: Text -> K)
    requires 0 < n && Fits(a, b, blocks, i, j) && i <= |a| && j <= |b|
    ensures Inside(blocks, n) <= |multiset(Windows(a[i..], n, key)) * multiset(Windows(b[j..], n, key))|
    decreases |blocks|
  {
    if blocks != [] {
      var k := blocks[0];
      var i', j' := k.i + k.size, k.j + k.size;
      SharedWindows(a, b, blocks[1..], i', j', n, key);
      var block := a[k.i..i'];
      Tail(a, i, k.i, i', n, key);
      Tail(b, j, k.j, j', n, key);
      MeetOfSums(multiset(Windows(block, n, key)),
                 multiset(Windows(a[i'..], n, key)), multiset(Windows(b[j'..], n, key)),
                 multiset(Windows(a[i..], n, key)), multiset(Windows(b[j..], n, key)));
    }
  }

  lemma Tail<K>(t: Text, lo: nat, mid: nat, hi: nat, n: nat, key: Text -> K)
    requires 0 < n && lo <= mid <= hi <= |t|
    ensures multiset(Windows(t[mid..hi], n, key)) + multiset(Windows(t[hi..], n, key))
         <= multiset(Windows(t[lo..], n, key))
  {
    WindowsSplit(t[mid..hi], t[hi..], n, key);
    WindowsSplit(t[lo..mid], t[mid..], n, key);
    assert t[mid..hi] + t[hi..] == t[mid..];
    assert t[lo..mid] + t[mid..] == t[lo..];
  }

  lemma {:induction false} InsideBound(blocks: seq<Block>, n: nat)
    requires 0 < n
    ensures Matched(blocks) - (n - 1) * |blocks| <= Inside(blocks, n)
  {
    if blocks != [] {
      InsideBound(blocks[1..], n);
      assert (n - 1) * |blocks| == (n - 1) * |blocks[1..]| + (n - 1);
    }
  }

  // ----- the three necessary conditions

  /** `20 * min(len) >= 9 * total`. */
  lemma LengthNecessary(m: (Text, Text) -> seq<Block>, a: Text, b: Text)
    requires IsMatcher(m) && Similar(m, a, b)
    ensures 20 * |a| >= 9 * (|a| + |b|) && 20 * |b| >= 9 * (|a| + |b|)
  {
    MatchedBound(a, b, m(a, b), 0, 0);
  }

  function First(w: Text): (c: char) {
    if w == [] then 'x' else w[0]
  }

  lemma WindowsOfOne(t: Text)
    ensures Windows(t, 1, First) == t
  {
    forall i | 0 <= i < |t|
      ensures Windows(t, 1, First)[i] == t[i]
    {
      assert Windows(t, 1, First)[i] == First(t[i..i + 1]);
    }
  }

  /** At least M characters are common, counted with multiplicity. */
  lemma CommonCharacters(m: (Text, Text) -> seq<Block>, a: Text, b: Text)
    requires IsMatcher(m)
    ensures Matched(m(a, b)) <= |multiset(a) * multiset(b)|
  {
    var blocks := m(a, b);
    SharedWindows(a, b, blocks, 0, 0, 1, First);
    InsideBound(blocks, 1);
    WindowsOfOne(a);
    WindowsOfOne(b);
    assert a[0..] == a && b[0..] == b;
  }

  /** The least number of common four-grams: 7*ceil(9T/20) - 3T - 3. */
  function MinimumOverlap(total: nat): int {
    7 * ((9 * total + 19) / 20) - 3 * total - 3
  }

  lemma FourGramNecessary<K>(m: (Text, Text) -> seq<Block>, a: Text, b: Text, key: Text -> K)
    requires IsMatcher(m) && Similar(m, a, b)
    ensures MinimumOverlap(|a| + |b|) <= |multiset(Windows(a, 4, key)) * multiset(Windows(b, 4, key))|
  {
    var blocks := m(a, b);
    SharedWindows(a, b, blocks, 0, 0, 4, key);
    InsideBound(blocks, 4);
    if blocks != [] {
      BlockCount(a, b, blocks, 0, 0);
    }
    assert a[0..] == a && b[0..] == b;
    assert (9 * (|a| + |b|) + 19) / 20 <= Matched(blocks);
  }
}
