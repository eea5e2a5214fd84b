/**
 The candidate relation of `duplicate_groups` in check_dataset_duplicates.py in the units of its
 documentation: ratios as real numbers, tolerances in milliseconds, trigrams counted over rows. What the
 loops unite is the closure of exactly this.
 */
module DuplicatePolicy {
  import opened DuplicateGroups
  import opened DuplicateRules
  import opened MatchingBlocks
  import opened OffsetRule
  import opened RuleB
  import opened TrigramRule

  // ----- ratios

  /** The positions from `low` on, `size` of them. */
  ghost function Span(low: int, size: nat): (r: set<int>)
    ensures |r| == size && forall p :: p in r <==> low <= p < low + size
  {
    if size == 0 then {} else Span(low, size - 1) + {low + size - 1}
  }

  /** The positions of the first text that lie in some block. */
  ghost function MatchedPositions(blocks: seq<Block>): set<int> {
    if blocks == [] then {} else Span(blocks[0].i, blocks[0].size) + MatchedPositions(blocks[1..])
  }

  /** Matched characters are counted once each: they are the positions that blocks cover. */
  lemma {:induction false} MatchedIsPositions(a: Text, b: Text, blocks: seq<Block>, i: nat, j: nat)
    requires Fits(a, b, blocks, i, j)
    ensures |MatchedPositions(blocks)| == Matched(blocks)
    ensures forall p | p in MatchedPositions(blocks) :: i <= p < |a|
    decreases |blocks|
  {
    if blocks != [] {
      var k := blocks[0];
      MatchedIsPositions(a, b, blocks[1..], k.i + k.size, k.j + k.size);
      assert Span(k.i, k.size) !! MatchedPositions(blocks[1..]);
    }
  }

  /** `ratio()`: twice the matched positions over the total length, 1 for two empty texts. */
  ghost function Ratio(m: (Text, Text) -> seq<Block>, a: Text, b: Text): real {
    if |a| + |b| == 0 then 1.0
    else (2 * |MatchedPositions(m(a, b))|) as real / (|a| + |b|) as real
  }

  /** `quick_ratio()`: the same with the characters common to both texts, order ignored. */
  ghost function QuickRatio(a: Text, b: Text): real {
    if |a| + |b| == 0 then 1.0
    else (2 * |multiset(a) * multiset(b)|) as real / (|a| + |b|) as real
  }

  lemma Quotient(x: nat, t: nat, num: nat, den: nat)
    requires t > 0 && den > 0
    ensures x as real / t as real >= num as real / den as real <==> x * den >= num * t
  {
    var q, r := x as real / t as real, num as real / den as real;
    assert q * t as real == x as real && r * den as real == num as real;
    assert (x * den) as real == q * t as real * den as real;
    assert (num * t) as real == r * t as real * den as real;
    OrderScales(q, r, t as real * den as real);
  }

  lemma QuotientMonotone(x: nat, y: nat, t: nat)
    requires t > 0 && x <= y
    ensures x as real / t as real <= y as real / t as real
  {
    OrderScales(y as real / t as real, x as real / t as real, t as real);
  }

  lemma OrderScales(q: real, r: real, k: real)
    requires k > 0.0
    ensures q >= r <==> q * k >= r * k
  {
    if q < r { assert (r - q) * k > 0.0; } else { assert (q - r) * k >= 0.0; }
  }

  /** The exact test on whole numbers decides a ratio of at least 0.90. */
  lemma SimilarIsRatio(m: (Text, Text) -> seq<Block>, a: Text, b: Text)
    requires IsMatcher(m)
    ensures Similar(m, a, b) <==> Ratio(m, a, b) >= 0.9
  {
    MatchedIsPositions(a, b, m(a, b), 0, 0);
    if |a| + |b| > 0 {
      Quotient(2 * Matched(m(a, b)), |a| + |b|, 9, 10);
    } else {
      MatchedBound(a, b, m(a, b), 0, 0);
    }
  }

  /** The quick ratio is an upper bound, so asking for it first loses no pair. */
  lemma QuickRatioBounds(m: (Text, Text) -> seq<Block>, a: Text, b: Text)
    requires IsMatcher(m)
    ensures Ratio(m, a, b) <= QuickRatio(a, b)
  {
    MatchedIsPositions(a, b, m(a, b), 0, 0);
    CommonCharacters(m, a, b);
    if |a| + |b| > 0 {
      QuotientMonotone(2 * Matched(m(a, b)), 2 * |multiset(a) * multiset(b)|, |a| + |b|);
    }
  }

  /** The two text tests of rule A'. */
  ghost predicate NearText(m: (Text, Text) -> seq<Block>, a: Text, b: Text) {
    !(QuickRatio(a, b) < 0.7) && !(Ratio(m, a, b) < 0.7)
  }

  lemma NearTextIsRatio(m: (Text, Text) -> seq<Block>, a: Text, b: Text)
    requires IsMatcher(m)
    ensures NearText(m, a, b) <==> Ratio(m, a, b) >= 0.7
  {
    QuickRatioBounds(m, a, b);
  }

  // ----- trigrams

  /** The positions of the rows that hold a trigram. */
  ghost function Holders(rows: seq<Row>, g: Text, n: nat): set<int>
    requires n <= |rows|
  {
    set k | 0 <= k < n && g in rows[k].trigrams
  }

  lemma {:induction false} BucketCounts(rows: seq<Row>, g: Text, n: nat)
    requires n <= |rows|
    ensures |Bucket(rows, g, n)| == |Holders(rows, g, n)|
  {
    if n > 0 {
      BucketCounts(rows, g, n - 1);
      assert Holders(rows, g, n) == Holders(rows, g, n - 1) + if g in rows[n - 1].trigrams then {n - 1} else {};
    } else {
      assert Holders(rows, g, n) == {};
    }
  }

  /** The trigrams of both rows that at most two hundred rows hold. */
  ghost function Telling(rows: seq<Row>, x: Row, y: Row): set<Text> {
    set g | g in x.trigrams && g in y.trigrams && |Holders(rows, g, |rows|)| < 201
  }

  lemma SharedIsTelling(rows: seq<Row>, x: Row, y: Row)
    ensures Shared(rows, x, y) == Telling(rows, x, y)
  {
    forall g
      ensures Rare(rows, g) <==> |Holders(rows, g, |rows|)| < 201
    {
      BucketCounts(rows, g, |rows|);
    }
  }

  // ----- the relation

  /** Durations block a pair only when both are known and differ by more than a second and a half. */
  ghost predicate DurationsAllow(x: Row, y: Row) {
    x.duration < 0 || y.duration < 0 || -1500 <= x.duration - y.duration <= 1500
  }

  /** A quarter of the smaller trigram set. */
  ghost predicate TrigramsAllow(rows: seq<Row>, x: Row, y: Row) {
    && x.trigrams != {} && y.trigrams != {}
    && (4 * |Telling(rows, x, y)| >= |x.trigrams| || 4 * |Telling(rows, x, y)| >= |y.trigrams|)
  }

  /** Rule A' on the rows' own fields. */
  lemma RuleNearIff(near: (Text, Text) -> bool, rows: seq<Row>, x: Row, y: Row)
    ensures RuleNear(near, rows, x, y) <==>
            && x.entry.id < y.entry.id && x.entry.file != y.entry.file
            && TrigramsAllow(rows, x, y) && DurationsAllow(x, y) && near(x.entry.text, y.entry.text)
  {
    SharedIsTelling(rows, x, y);
  }

  /** Both source clocks known, at most half a second apart. */
  ghost predicate ClocksAllow(x: Row, y: Row) {
    0 <= x.entry.offset <= y.entry.offset <= x.entry.offset + 500
  }

  /** Rule B on the rows' own fields; the earlier clock comes first, the lower id on a tie. */
  lemma RuleOffsetIff(m: (Text, Text) -> seq<Block>, x: Row, y: Row)
    requires IsMatcher(m)
    ensures RuleOffset(m, x, y) <==>
            && ClocksAllow(x, y) && (x.entry.offset == y.entry.offset ==> x.entry.id < y.entry.id)
            && x.entry.file != y.entry.file && Ratio(m, x.entry.text, y.entry.text) >= 0.9
  {
    SimilarIsRatio(m, x.entry.text, y.entry.text);
  }

  /** Two rows are candidates exactly when they lie in different files and have the same text, or near
      texts with shared trigrams and no contradicting durations, or similar texts at the same source clock. */
  lemma RelatedIff(m: (Text, Text) -> seq<Block>, near: (Text, Text) -> bool, rows: seq<Row>, x: Row, y: Row)
    requires IsMatcher(m) && forall a, b :: near(a, b) <==> NearText(m, a, b)
    ensures Related(m, near, rows, x, y) <==>
            && x.entry.file != y.entry.file
            && (|| x.entry.text == y.entry.text
                || (&& x.entry.id < y.entry.id && TrigramsAllow(rows, x, y) && DurationsAllow(x, y)
                    && Ratio(m, x.entry.text, y.entry.text) >= 0.7)
                || (&& ClocksAllow(x, y) && (x.entry.offset == y.entry.offset ==> x.entry.id < y.entry.id)
                    && Ratio(m, x.entry.text, y.entry.text) >= 0.9))
  {
    RuleNearIff(near, rows, x, y);
    RuleOffsetIff(m, x, y);
    NearTextIsRatio(m, x.entry.text, y.entry.text);
  }

  // ----- the prefilter and its refusal

  /** The four-gram bound, with the matched characters as the least number that reaches 90 percent. */
  lemma MinimumOverlapIs(total: nat, matched: nat)
    requires 20 * matched >= 9 * total && 20 * matched < 9 * total + 20
    ensures MinimumOverlap(total) == matched - 3 * (total - 2 * matched + 1)
  {
  }

  /** The nineteen most frequent characters have bins of their own; the rest share the twentieth. */
  lemma BinIs(rank: nat)
    ensures Bin(rank) == if rank <= 18 then rank else 19
  {
  }

  lemma BinsAre()
    ensures COARSE_BINS == 20
  {
  }

  lemma LengthIff(x: Entry, y: Entry)
    ensures LengthOk(x, y) <==>
            20 * |x.text| >= 9 * (|x.text| + |y.text|) && 20 * |y.text| >= 9 * (|x.text| + |y.text|)
  {
  }

  /** What the prefilter asks of a pair before it calls the matcher. */
  ghost predicate Asked(x: Entry, y: Entry, bins: nat, full: nat, shared: nat) {
    var total := |x.text| + |y.text|;
    && y.offset <= x.offset + 500 && x.file != y.file
    && 20 * |x.text| >= 9 * total && 20 * |y.text| >= 9 * total
    && 10 * bins <= total && 10 * full <= total
    && shared >= 7 * ((9 * total + 19) / 20) - 3 * total - 3
  }

  lemma ConditionsIff(x: Entry, y: Entry, characters: seq<char>, ranked: seq<char>)
    ensures Conditions(x, y, characters, ranked) <==>
            Asked(x, y, CoarseL1(x.text, y.text, ranked, |ranked|, COARSE_BINS),
                  L1(x.text, y.text, characters, |characters|),
                  |Grams(characters, x.text) * Grams(characters, y.text)|)
  {
    LengthIff(x, y);
  }

  /** A longest stretch of at least 1024 entries with steps of at most half a second that holds a text of
      at least 32768 characters. */
  ghost predicate TooLong(s: seq<Entry>, lo: nat, n: nat) {
    && lo + 1024 <= n <= |s|
    && (forall k: nat | lo < k < n :: s[k].offset <= s[k - 1].offset + 500)
    && (lo == 0 || s[lo].offset > s[lo - 1].offset + 500)
    && (n == |s| || s[n].offset > s[n - 1].offset + 500)
    && exists e | e in s[lo..n] :: |e.text| >= 32768
  }

  lemma TooLongIff(s: seq<Entry>, lo: nat, n: nat)
    ensures TooLong(s, lo, n) <==> IsCluster(s, lo, n) && Unsafe(s[lo..n])
  {
    if lo < n <= |s| {
      forall k: nat | lo < k < n
        ensures GapAt(s, k) <==> s[k].offset > s[k - 1].offset + 500
      {
      }
      if forall k: nat | lo < k < n :: s[k].offset <= s[k - 1].offset + 500 {
        assert NoGap(s, lo, n);
      }
      if NoGap(s, lo, n) {
        forall k: nat | lo < k < n
          ensures s[k].offset <= s[k - 1].offset + 500
        {
          assert !GapAt(s, k);
        }
      }
    }
  }

  /** The audit refuses exactly when there is such a stretch. */
  lemma RefusalIff(s: seq<Entry>)
    ensures SomeUnsafe(s) <==> exists lo: nat, n: nat :: TooLong(s, lo, n)
  {
    forall lo: nat, n: nat
      ensures TooLong(s, lo, n) <==> IsCluster(s, lo, n) && Unsafe(s[lo..n])
    {
      TooLongIff(s, lo, n);
    }
  }
}
