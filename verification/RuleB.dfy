/**
 `_vectorized_rule_b` of check_dataset_duplicates.py: a prefilter over one offset cluster that may
 not lose a pair which the exact matcher accepts. The filters run on int16 histograms and int32
 sums; the bounded integer types below make every overflow a proof obligation.
 */
module RuleB {
  import opened MatchingBlocks
  import opened Sequences
  import opened Wrappers

  const OFFSET_BUCKET_MS := 500
  const VECTOR_BLOCK_ROWS := 128
  const COARSE_BINS := 20
  const MAX_TEXT_LEN := 32768

  newtype int16 = x: int | -0x8000 <= x < 0x8000
  newtype int32 = x: int | -0x8000_0000 <= x < 0x8000_0000

  datatype Entry = Entry(offset: int, id: int, file: int, text: Text)

  /** The pair test of `exact_pair`, for a left entry that precedes the right one in the cluster. */
  predicate Exact(m: (Text, Text) -> seq<Block>, left: Entry, right: Entry) {
    && right.offset - left.offset <= OFFSET_BUCKET_MS
    && left.file != right.file
    && left.text != right.text
    && Similar(m, left.text, right.text)
  }

  // ----- histograms

  /** Every character of the text occurs in the alphabet, which lists each character once. */
  ghost predicate Covers(characters: seq<char>, t: Text) {
    && Distinct(characters)
    && forall c | c in t :: c in characters
  }

  function Count(t: Text, c: char): (n: nat)
    ensures n <= |t|
  {
    CountBound(multiset(t), c);
    multiset(t)[c]
  }

  lemma CountBound(m: multiset<char>, c: char)
    ensures m[c] <= |m|
  {
    assert m == m[c := 0] + multiset{}[c := m[c]];
  }

  /** The sum of the counts of the first n characters of the alphabet. */
  ghost function CountSum(t: Text, characters: seq<char>, n: nat): nat
    requires n <= |characters|
  {
    if n == 0 then 0 else CountSum(t, characters, n - 1) + Count(t, characters[n - 1])
  }

  function Gap(x: int, y: int): nat {
    if x < y then y - x else x - y
  }

  /** The L1 distance of two histograms over the first n characters. */
  ghost function L1(a: Text, b: Text, characters: seq<char>, n: nat): nat
    requires n <= |characters|
  {
    if n == 0 then 0
    else L1(a, b, characters, n - 1) + Gap(Count(a, characters[n - 1]), Count(b, characters[n - 1]))
  }

  /** What is left of a text's characters once the first n of the alphabet are removed. */
  ghost function Without(m: multiset<char>, characters: seq<char>, n: nat): (r: multiset<char>)
    requires n <= |characters|
    ensures forall c :: r[c] == if c in characters[..n] then 0 else m[c]
  {
    if n == 0 then m else Without(m, characters, n - 1)[characters[n - 1] := 0]
  }

  lemma DropOne(m: multiset<char>, c: char)
    ensures |m| == |m[c := 0]| + m[c]
  {
    assert m == m[c := 0] + multiset{}[c := m[c]];
  }

  lemma WithoutStep(m: multiset<char>, characters: seq<char>, n: nat)
    requires 0 < n <= |characters|
    requires Distinct(characters)
    ensures |Without(m, characters, n - 1)| == |Without(m, characters, n)| + m[characters[n - 1]]
  {
    var c := characters[n - 1];
    assert c !in characters[..n - 1];
    DropOne(Without(m, characters, n - 1), c);
  }

  /** |a - b| = a + b - 2 min(a, b), summed over the alphabet. */
  lemma {:induction false} L1Partial(a: Text, b: Text, characters: seq<char>, n: nat)
    requires n <= |characters|
    requires Distinct(characters)
    ensures L1(a, b, characters, n) ==
            |a| - |Without(multiset(a), characters, n)| + |b| - |Without(multiset(b), characters, n)|
            - 2 * (|multiset(a) * multiset(b)| - |Without(multiset(a) * multiset(b), characters, n)|)
  {
    if n > 0 {
      L1Partial(a, b, characters, n - 1);
      WithoutStep(multiset(a), characters, n);
      WithoutStep(multiset(b), characters, n);
      WithoutStep(multiset(a) * multiset(b), characters, n);
      MeetCount(multiset(a), multiset(b), characters[n - 1]);
    }
  }

  lemma MeetCount(x: multiset<char>, y: multiset<char>, c: char)
    ensures Gap(x[c], y[c]) == x[c] + y[c] - 2 * (x * y)[c]
  {
  }

  /** The full histogram distance is T - 2|common characters|. */
  lemma L1Exact(a: Text, b: Text, characters: seq<char>)
    requires Covers(characters, a) && Covers(characters, b)
    ensures L1(a, b, characters, |characters|) == |a| + |b| - 2 * |multiset(a) * multiset(b)|
  {
    var n := |characters|;
    L1Partial(a, b, characters, n);
    assert characters[..n] == characters;
    assert Without(multiset(a), characters, n) == multiset{} by {
      forall c ensures Without(multiset(a), characters, n)[c] == 0 {
        if c in multiset(a) { assert c in a; }
      }
    }
    assert Without(multiset(b), characters, n) == multiset{} by {
      forall c ensures Without(multiset(b), characters, n)[c] == 0 {
        if c in multiset(b) { assert c in b; }
      }
    }
    assert Without(multiset(a) * multiset(b), characters, n) == multiset{} by {
      forall c ensures Without(multiset(a) * multiset(b), characters, n)[c] == 0 {
        if c in multiset(a) * multiset(b) { assert c in a; }
      }
    }
  }

  /** `10 * full_l1 <= total`. */
  lemma HistogramNecessary(m: (Text, Text) -> seq<Block>, a: Text, b: Text, characters: seq<char>)
    requires IsMatcher(m) && Similar(m, a, b) && Covers(characters, a) && Covers(characters, b)
    ensures 10 * L1(a, b, characters, |characters|) <= |a| + |b|
  {
    CommonCharacters(m, a, b);
    L1Exact(a, b, characters);
  }

  lemma {:induction false} CountSumBound(t: Text, characters: seq<char>, n: nat)
    requires n <= |characters|
    requires Distinct(characters)
    ensures CountSum(t, characters, n) == |t| - |Without(multiset(t), characters, n)|
  {
    if n > 0 {
      CountSumBound(t, characters, n - 1);
      WithoutStep(multiset(t), characters, n);
    }
  }

  // ----- coarse bins

  function Bin(rank: nat): (b: nat)
    ensures b < COARSE_BINS
  {
    if rank < COARSE_BINS - 1 then rank else COARSE_BINS - 1
  }

  /** The count of one coarse bin after the first n characters of the ranking. */
  ghost function BinCount(t: Text, ranked: seq<char>, n: nat, bin: nat): nat
    requires n <= |ranked|
  {
    if n == 0 then 0
    else BinCount(t, ranked, n - 1, bin) + if Bin(n - 1) == bin then Count(t, ranked[n - 1]) else 0
  }

  lemma {:induction false} BinCountBound(t: Text, ranked: seq<char>, n: nat, bin: nat)
    requires n <= |ranked|
    ensures BinCount(t, ranked, n, bin) <= CountSum(t, ranked, n)
  {
    if n > 0 {
      BinCountBound(t, ranked, n - 1, bin);
    }
  }

  /** The L1 distance of the first `bins` coarse bins. */
  ghost function CoarseL1(a: Text, b: Text, ranked: seq<char>, n: nat, bins: nat): nat
    requires n <= |ranked|
  {
    if bins == 0 then 0
    else CoarseL1(a, b, ranked, n, bins - 1) + Gap(BinCount(a, ranked, n, bins - 1), BinCount(b, ranked, n, bins - 1))
  }

  /** One more ranked character moves the distance by at most its own gap, and only in its own bin. */
  lemma {:induction false} CoarseStep(a: Text, b: Text, ranked: seq<char>, n: nat, bins: nat)
    requires 0 < n <= |ranked|
    ensures CoarseL1(a, b, ranked, n, bins) <=
            CoarseL1(a, b, ranked, n - 1, bins) +
            if Bin(n - 1) < bins then Gap(Count(a, ranked[n - 1]), Count(b, ranked[n - 1])) else 0
  {
    if bins > 0 {
      CoarseStep(a, b, ranked, n, bins - 1);
    }
  }

  lemma {:induction false} CoarseEmpty(a: Text, b: Text, ranked: seq<char>, bins: nat)
    ensures CoarseL1(a, b, ranked, 0, bins) == 0
  {
    if bins > 0 {
      CoarseEmpty(a, b, ranked, bins - 1);
    }
  }

  /** Merging characters into bins can only lower the distance. */
  lemma {:induction false} CoarseBelowFull(a: Text, b: Text, ranked: seq<char>, n: nat)
    requires n <= |ranked|
    ensures CoarseL1(a, b, ranked, n, COARSE_BINS) <= L1(a, b, ranked, n)
  {
    if n == 0 {
      CoarseEmpty(a, b, ranked, COARSE_BINS);
    } else {
      CoarseBelowFull(a, b, ranked, n - 1);
      CoarseStep(a, b, ranked, n, COARSE_BINS);
    }
  }

  /** `10 * coarse_l1 <= total`, for any ranking of the alphabet. */
  lemma CoarseNecessary(m: (Text, Text) -> seq<Block>, a: Text, b: Text, ranked: seq<char>)
    requires IsMatcher(m) && Similar(m, a, b) && Covers(ranked, a) && Covers(ranked, b)
    ensures 10 * CoarseL1(a, b, ranked, |ranked|, COARSE_BINS) <= |a| + |b|
  {
    HistogramNecessary(m, a, b, ranked);
    CoarseBelowFull(a, b, ranked, |ranked|);
  }

  // ----- four-grams

  /** A four-gram key: four character codes packed into one integer, or the codes themselves. */
  datatype Gram = Packed(value: nat) | Codes(codes: seq<int>)

  function PowerOf2(n: nat): nat {
    if n == 0 then 1 else 2 * PowerOf2(n - 1)
  }

  /** `x | y`, bit by bit. */
  function BitOr(x: nat, y: nat): nat
    decreases x + y
  {
    if x == 0 && y == 0 then 0
    else 2 * BitOr(x / 2, y / 2) + if x % 2 == 1 || y % 2 == 1 then 1 else 0
  }

  /** `(c0 << 24) | (c1 << 16) | (c2 << 8) | c3`, a shift by n being a product with 2^n. */
  function Pack(c: seq<nat>): nat
    requires |c| == 4
  {
    BitOr(BitOr(BitOr(0x100_0000 * c[0], 0x1_0000 * c[1]), 0x100 * c[2]), c[3])
  }

  lemma {:induction false} OrZero(x: nat)
    ensures BitOr(x, 0) == x
    decreases x
  {
    if x > 0 { OrZero(x / 2); }
  }

  lemma Halve(a: nat, p: nat)
    ensures (a * (2 * p)) / 2 == a * p && (a * (2 * p)) % 2 == 0
  {
    assert a * (2 * p) == 2 * (a * p);
  }

  /** Where the bits do not meet, the disjunction is the sum. */
  lemma {:induction false} DisjunctionIsSum(a: nat, b: nat, k: nat)
    requires b < PowerOf2(k)
    ensures BitOr(a * PowerOf2(k), b) == a * PowerOf2(k) + b
    decreases k
  {
    var x := a * PowerOf2(k);
    if k == 0 {
      OrZero(a);
    } else if x != 0 || b != 0 {
      var p := PowerOf2(k - 1);
      Halve(a, p);
      DisjunctionIsSum(a, b / 2, k - 1);
      assert x == 2 * (a * p);
    }
  }

  lemma Powers()
    ensures PowerOf2(8) == 0x100 && PowerOf2(16) == 0x1_0000 && PowerOf2(24) == 0x100_0000
  {
  }

  /** Packing four codes below 256 reads them as the digits of one number. */
  lemma PackIsSum(c: seq<nat>)
    requires |c| == 4 && forall i | 0 <= i < 4 :: c[i] < 256
    ensures Pack(c) == 0x100_0000 * c[0] + 0x1_0000 * c[1] + 0x100 * c[2] + c[3]
  {
    Powers();
    DisjunctionIsSum(c[0], 0x1_0000 * c[1], 24);
    DisjunctionIsSum(0x100 * c[0] + c[1], 0x100 * c[2], 16);
    DisjunctionIsSum(0x1_0000 * c[0] + 0x100 * c[1] + c[2], c[3], 8);
  }

  lemma PackInjective(c: seq<nat>, d: seq<nat>)
    requires |c| == 4 && |d| == 4 && Pack(c) == Pack(d)
    requires (forall i | 0 <= i < 4 :: c[i] < 256) && (forall i | 0 <= i < 4 :: d[i] < 256)
    ensures c == d
  {
    PackIsSum(c);
    PackIsSum(d);
    var c2, d2 := 0x100 * c[0] + c[1], 0x100 * d[0] + d[1];
    Digit(0x100 * c2 + c[2], c[3], 0x100 * d2 + d[2], d[3]);
    Digit(c2, c[2], d2, d[2]);
    Digit(c[0], c[1], d[0], d[1]);
  }

  lemma Digit(x: nat, c: nat, y: nat, d: nat)
    requires 0x100 * x + c == 0x100 * y + d && c < 256 && d < 256
    ensures x == y && c == d
  {
  }

  /** `character_index`; a character outside the alphabet never occurs. */
  function Code(characters: seq<char>, c: char): (i: nat)
    ensures c in characters ==> i < |characters| && characters[i] == c
    ensures i <= |characters|
  {
    if characters == [] then 0
    else if characters[|characters| - 1] == c then |characters| - 1
    else var i := Code(characters[..|characters| - 1], c);
      if i == |characters| - 1 then |characters| else i
  }

  function CodesOf(characters: seq<char>, w: Text): (c: seq<nat>)
    ensures |c| == |w| && forall i | 0 <= i < |w| :: c[i] == Code(characters, w[i])
  {
    seq(|w|, i requires 0 <= i < |w| => Code(characters, w[i]))
  }

  function GramKey(characters: seq<char>, w: Text): Gram {
    if |w| == 4 && |characters| <= 256 then Packed(Pack(CodesOf(characters, w)))
    else Codes(CodesOf(characters, w))
  }

  function KeyOf(characters: seq<char>): Text -> Gram {
    w => GramKey(characters, w)
  }

  function Grams(characters: seq<char>, t: Text): multiset<Gram> {
    multiset(Windows(t, 4, KeyOf(characters)))
  }

  /** Different four-grams of the alphabet never share a key. */
  lemma GramKeyInjective(characters: seq<char>, v: Text, w: Text)
    requires |v| == 4 && |w| == 4
    requires (forall c | c in v :: c in characters) && (forall c | c in w :: c in characters)
    requires GramKey(characters, v) == GramKey(characters, w)
    ensures v == w
  {
    var cv, cw := CodesOf(characters, v), CodesOf(characters, w);
    forall i | 0 <= i < 4
      ensures cv[i] < |characters| && cw[i] < |characters|
    {
      assert v[i] in v && w[i] in w;
    }
    if |characters| <= 256 {
      PackInjective(cv, cw);
    }
    forall i | 0 <= i < 4
      ensures v[i] == w[i]
    {
      assert v[i] in v && w[i] in w;
    }
  }

  // ----- the matrices

  ghost predicate Alphabet(cluster: seq<Entry>, characters: seq<char>) {
    forall e | e in cluster :: Covers(characters, e.text)
  }

  predicate AllShort(cluster: seq<Entry>) {
    forall e | e in cluster :: |e.text| < MAX_TEXT_LEN
  }

  ghost predicate IsHistogram(h: array2<int16>, cluster: seq<Entry>, characters: seq<char>)
    reads h
  {
    && h.Length0 == |cluster| && h.Length1 == |characters|
    && forall r, c | 0 <= r < |cluster| && 0 <= c < |characters| ::
         h[r, c] as int == Count(cluster[r].text, characters[c])
  }

  ghost predicate IsCoarse(h: array2<int16>, cluster: seq<Entry>, ranked: seq<char>, n: nat)
    requires n <= |ranked|
    reads h
  {
    && h.Length0 == |cluster| && h.Length1 == COARSE_BINS
    && forall r, b | 0 <= r < |cluster| && 0 <= b < COARSE_BINS ::
         h[r, b] as int == BinCount(cluster[r].text, ranked, n, b)
  }

  method Histograms(cluster: seq<Entry>, characters: seq<char>) returns (h: array2<int16>)
    requires AllShort(cluster)
    ensures fresh(h) && IsHistogram(h, cluster, characters)
  {
    h := new int16[|cluster|, |characters|];
    for row := 0 to |cluster|
      invariant forall r, c | 0 <= r < row && 0 <= c < |characters| ::
                  h[r, c] as int == Count(cluster[r].text, characters[c])
    {
      for col := 0 to |characters|
        invariant forall r, c | 0 <= r < row && 0 <= c < |characters| ::
                    h[r, c] as int == Count(cluster[r].text, characters[c])
        invariant forall c | 0 <= c < col :: h[row, c] as int == Count(cluster[row].text, characters[c])
      {
        h[row, col] := Count(cluster[row].text, characters[col]) as int16;
      }
    }
  }

  lemma BinFits(t: Text, ranked: seq<char>, n: nat, bin: nat)
    requires n <= |ranked| && Covers(ranked, t)
    ensures BinCount(t, ranked, n, bin) <= |t|
  {
    BinCountBound(t, ranked, n, bin);
    CountSumBound(t, ranked, n);
  }

  /** `coarse[:, bin] += histograms[:, column]`, one ranked character after the other. */
  method Coarse(cluster: seq<Entry>, characters: seq<char>, ranked: seq<char>, h: array2<int16>)
    returns (coarse: array2<int16>)
    requires AllShort(cluster) && IsHistogram(h, cluster, characters)
    requires Alphabet(cluster, ranked) && forall c | c in ranked :: c in characters
    ensures fresh(coarse) && IsCoarse(coarse, cluster, ranked, |ranked|)
  {
    coarse := new int16[|cluster|, COARSE_BINS]((r, b) => 0);
    for rank := 0 to |ranked|
      invariant IsCoarse(coarse, cluster, ranked, rank)
    {
      AddRank(cluster, characters, ranked, h, coarse, rank);
    }
  }

  method AddRank(cluster: seq<Entry>, characters: seq<char>, ranked: seq<char>, h: array2<int16>,
                 coarse: array2<int16>, rank: nat)
    requires AllShort(cluster) && IsHistogram(h, cluster, characters) && h != coarse
    requires Alphabet(cluster, ranked) && (forall c | c in ranked :: c in characters)
    requires rank < |ranked| && IsCoarse(coarse, cluster, ranked, rank)
    modifies coarse
    ensures IsCoarse(coarse, cluster, ranked, rank + 1)
  {
    var bin := Bin(rank);
    assert ranked[rank] in ranked;
    var column := Code(characters, ranked[rank]);
    for row := 0 to |cluster|
      invariant IsHistogram(h, cluster, characters)
      invariant forall r, b | 0 <= r < |cluster| && 0 <= b < COARSE_BINS ::
                  coarse[r, b] as int == BinCount(cluster[r].text, ranked, if r < row then rank + 1 else rank, b)
    {
      var t := cluster[row].text;
      assert cluster[row] in cluster;
      BinFits(t, ranked, rank + 1, bin);
      assert h[row, column] as int == Count(t, ranked[rank]);
      coarse[row, bin] := coarse[row, bin] + h[row, column];
    }
  }

  // ----- distances

  lemma {:induction false} L1Bound(a: Text, b: Text, characters: seq<char>, n: nat)
    requires n <= |characters|
    ensures L1(a, b, characters, n) <= CountSum(a, characters, n) + CountSum(b, characters, n)
  {
    if n > 0 {
      L1Bound(a, b, characters, n - 1);
    }
  }

  lemma L1Fits(a: Text, b: Text, characters: seq<char>, n: nat)
    requires n <= |characters| && Covers(characters, a)
    ensures L1(a, b, characters, n) <= |a| + |b|
  {
    L1Bound(a, b, characters, n);
    CountSumBound(a, characters, n);
    CountSumBound(b, characters, n);
  }

  method FullDistance(cluster: seq<Entry>, characters: seq<char>, h: array2<int16>, left: nat, right: nat)
    returns (d: int32)
    requires AllShort(cluster) && Alphabet(cluster, characters) && IsHistogram(h, cluster, characters)
    requires left < |cluster| && right < |cluster|
    ensures d as int == L1(cluster[left].text, cluster[right].text, characters, |characters|)
  {
    var a, b := cluster[left].text, cluster[right].text;
    assert cluster[left] in cluster && cluster[right] in cluster;
    d := 0;
    for c := 0 to |characters|
      invariant d as int == L1(a, b, characters, c)
    {
      L1Fits(a, b, characters, c + 1);
      d := d + Delta(h[right, c], h[left, c]) as int32;
    }
  }

  lemma {:induction false} CoarseFits(a: Text, b: Text, ranked: seq<char>, bins: nat)
    requires Covers(ranked, a) && Covers(ranked, b) && |a| < MAX_TEXT_LEN && |b| < MAX_TEXT_LEN
    ensures CoarseL1(a, b, ranked, |ranked|, bins) <= bins * 32767
  {
    if bins > 0 {
      CoarseFits(a, b, ranked, bins - 1);
      BinFits(a, ranked, |ranked|, bins - 1);
      BinFits(b, ranked, |ranked|, bins - 1);
    }
  }

  method CoarseDistance(cluster: seq<Entry>, ranked: seq<char>, coarse: array2<int16>, left: nat, right: nat)
    returns (d: int32)
    requires AllShort(cluster) && Alphabet(cluster, ranked) && IsCoarse(coarse, cluster, ranked, |ranked|)
    requires left < |cluster| && right < |cluster|
    ensures d as int == CoarseL1(cluster[left].text, cluster[right].text, ranked, |ranked|, COARSE_BINS)
  {
    ghost var a, b := cluster[left].text, cluster[right].text;
    assert cluster[left] in cluster && cluster[right] in cluster;
    d := 0;
    for bin := 0 to COARSE_BINS
      invariant d as int == CoarseL1(a, b, ranked, |ranked|, bin)
    {
      CoarseFits(a, b, ranked, bin);
      d := d + Delta(coarse[right, bin], coarse[left, bin]) as int32;
    }
  }

  /** The absolute value of the difference of two counts, both in int16. */
  function Delta(x: int16, y: int16): (d: int16)
    requires 0 <= x && 0 <= y
    ensures d as int == Gap(x as int, y as int) && 0 <= d
  {
    var difference: int16 := x - y;
    if difference < 0 then -difference else difference
  }

  /** The sum of `min(count, other.get(gram, 0))` over the grams of one counter. */
  method Overlap(left: multiset<Gram>, right: multiset<Gram>) returns (n: nat)
    ensures n == |left * right|
  {
    n := 0;
    var rest := left;
    while rest != multiset{}
      invariant n + |rest * right| == |left * right|
      invariant forall g | g in rest :: rest[g] == left[g]
      decreases |rest|
    {
      var g :| g in rest;
      var count := if left[g] <= right[g] then left[g] else right[g];
      ghost var next := rest[g := 0];
      assert rest == next + multiset{}[g := rest[g]];
      assert rest * right == next * right + multiset{}[g := count];
      n, rest := n + count, rest[g := 0];
    }
    assert rest * right == multiset{};
  }

  // ----- the scan

  predicate LengthOk(x: Entry, y: Entry) {
    var shorter := if |x.text| <= |y.text| then |x.text| else |y.text|;
    20 * shorter >= 9 * (|x.text| + |y.text|)
  }

  ghost predicate CoarseOk(x: Entry, y: Entry, ranked: seq<char>) {
    10 * CoarseL1(x.text, y.text, ranked, |ranked|, COARSE_BINS) <= |x.text| + |y.text|
  }

  ghost predicate FullOk(x: Entry, y: Entry, characters: seq<char>) {
    10 * L1(x.text, y.text, characters, |characters|) <= |x.text| + |y.text|
  }

  predicate GramsOk(x: Entry, y: Entry, characters: seq<char>) {
    MinimumOverlap(|x.text| + |y.text|) <= |Grams(characters, x.text) * Grams(characters, y.text)|
  }

  /** What an accepted pair cannot fail. */
  ghost predicate Conditions(x: Entry, y: Entry, characters: seq<char>, ranked: seq<char>) {
    && y.offset - x.offset <= OFFSET_BUCKET_MS && x.file != y.file
    && LengthOk(x, y) && CoarseOk(x, y, ranked) && FullOk(x, y, characters) && GramsOk(x, y, characters)
  }

  lemma ExactLengthOk(m: (Text, Text) -> seq<Block>, x: Entry, y: Entry)
    requires IsMatcher(m) && Similar(m, x.text, y.text)
    ensures LengthOk(x, y)
  {
    LengthNecessary(m, x.text, y.text);
  }

  lemma ExactHistogramsOk(m: (Text, Text) -> seq<Block>, x: Entry, y: Entry, characters: seq<char>)
    requires IsMatcher(m) && Similar(m, x.text, y.text) && Covers(characters, x.text) && Covers(characters, y.text)
    ensures CoarseOk(x, y, characters) && FullOk(x, y, characters)
  {
    CoarseNecessary(m, x.text, y.text, characters);
    HistogramNecessary(m, x.text, y.text, characters);
  }

  lemma ExactGramsOk(m: (Text, Text) -> seq<Block>, x: Entry, y: Entry, characters: seq<char>)
    requires IsMatcher(m) && Similar(m, x.text, y.text)
    ensures GramsOk(x, y, characters)
  {
    FourGramNecessary(m, x.text, y.text, KeyOf(characters));
  }

  /** No false negatives: every pair that `exact_pair` accepts meets every condition. */
  lemma ExactMeetsConditions(m: (Text, Text) -> seq<Block>, x: Entry, y: Entry, characters: seq<char>,
                             ranked: seq<char>)
    requires IsMatcher(m) && Exact(m, x, y)
    requires Covers(characters, x.text) && Covers(characters, y.text) && Covers(ranked, x.text)
             && Covers(ranked, y.text)
    ensures Conditions(x, y, characters, ranked)
  {
    ExactLengthOk(m, x, y);
    ExactHistogramsOk(m, x, y, ranked);
    ExactHistogramsOk(m, x, y, characters);
    ExactGramsOk(m, x, y, characters);
  }

  /** `total_length`, in int32. */
  function TotalLength(x: Entry, y: Entry): (t: int32)
    requires |x.text| < MAX_TEXT_LEN && |y.text| < MAX_TEXT_LEN
    ensures t as int == |x.text| + |y.text|
  {
    |x.text| as int32 + |y.text| as int32
  }

  /** The length filter, in int32. */
  method LengthTest(x: Entry, y: Entry) returns (ok: bool)
    requires |x.text| < MAX_TEXT_LEN && |y.text| < MAX_TEXT_LEN
    ensures ok == LengthOk(x, y)
  {
    var left, right := |x.text| as int32, |y.text| as int32;
    var shorter := if left <= right then left else right;
    ok := 20 * shorter >= 9 * TotalLength(x, y);
  }

  method CoarseTest(cluster: seq<Entry>, ranked: seq<char>, coarse: array2<int16>, left: nat, right: nat)
    returns (ok: bool)
    requires AllShort(cluster) && Alphabet(cluster, ranked) && IsCoarse(coarse, cluster, ranked, |ranked|)
    requires left < right < |cluster|
    ensures ok == CoarseOk(cluster[left], cluster[right], ranked)
  {
    var d := CoarseDistance(cluster, ranked, coarse, left, right);
    assert cluster[left] in cluster && cluster[right] in cluster;
    CoarseFits(cluster[left].text, cluster[right].text, ranked, COARSE_BINS);
    ok := 10 * d <= TotalLength(cluster[left], cluster[right]);
  }

  method FullTest(cluster: seq<Entry>, characters: seq<char>, h: array2<int16>, left: nat, right: nat)
    returns (ok: bool)
    requires AllShort(cluster) && Alphabet(cluster, characters) && IsHistogram(h, cluster, characters)
    requires left < right < |cluster|
    ensures ok == FullOk(cluster[left], cluster[right], characters)
  {
    var d := FullDistance(cluster, characters, h, left, right);
    assert cluster[left] in cluster && cluster[right] in cluster;
    L1Fits(cluster[left].text, cluster[right].text, characters, |characters|);
    ok := 10 * d <= TotalLength(cluster[left], cluster[right]);
  }

  method SharesEnough(left: multiset<Gram>, right: multiset<Gram>, total: nat) returns (ok: bool)
    ensures ok == (MinimumOverlap(total) <= |left * right|)
  {
    var n := Overlap(left, right);
    ok := MinimumOverlap(total) <= n;
  }

  method GramTest(x: Entry, y: Entry, characters: seq<char>) returns (ok: bool)
    ensures ok == GramsOk(x, y, characters)
  {
    var left, right := Grams(characters, x.text), Grams(characters, y.text);
    ok := SharesEnough(left, right, |x.text| + |y.text|);
  }

  /** One pair through the filters, in order of cost. */
  method Passes(cluster: seq<Entry>, characters: seq<char>, ranked: seq<char>, h: array2<int16>, coarse: array2<int16>,
                left: nat, right: nat) returns (ok: bool)
    requires AllShort(cluster) && Alphabet(cluster, characters) && Alphabet(cluster, ranked)
    requires IsHistogram(h, cluster, characters) && IsCoarse(coarse, cluster, ranked, |ranked|)
    requires left < right < |cluster|
    ensures ok == Conditions(cluster[left], cluster[right], characters, ranked)
  {
    var x, y := cluster[left], cluster[right];
    assert x in cluster && y in cluster;
    ok := y.offset - x.offset <= OFFSET_BUCKET_MS && x.file != y.file;
    if ok {
      ok := LengthTest(x, y);
    }
    if ok {
      ok := CoarseTest(cluster, ranked, coarse, left, right);
    }
    if ok {
      ok := FullTest(cluster, characters, h, left, right);
    }
    if ok {
      ok := GramTest(x, y, characters);
    }
  }

  /** Pair (x, y) comes before (left, right) in the scan. */
  predicate Earlier(p: (nat, nat), left: nat, right: nat) {
    p.1 < right || (p.1 == right && p.0 < left)
  }

  /** The pairs of the triangle that meet the conditions. */
  ghost function Wanted(cluster: seq<Entry>, characters: seq<char>, ranked: seq<char>): (w: set<(nat, nat)>)
    ensures forall p | p in w :: p.0 < p.1 < |cluster|
    ensures forall x: nat, y: nat | x < y < |cluster| ::
              (x, y) in w <==> Conditions(cluster[x], cluster[y], characters, ranked)
  {
    set x: nat, y: nat | x < |cluster| && y < |cluster| && x < y
      && Conditions(cluster[x], cluster[y], characters, ranked) :: (x, y)
  }

  /** The pairs handed to `exact_pair` before position (left, right) of the scan: exactly the wanted
      ones, none twice. */
  ghost predicate Scanned(wanted: set<(nat, nat)>, calls: seq<(nat, nat)>, left: nat, right: nat) {
    && Distinct(calls)
    && forall p: (nat, nat) :: p in calls <==> p in wanted && Earlier(p, left, right)
  }

  /** Two scan positions with no pair of the triangle between them. */
  lemma ScannedAdvance(wanted: set<(nat, nat)>, calls: seq<(nat, nat)>, left: nat, right: nat, left': nat, right': nat)
    requires Scanned(wanted, calls, left, right) && forall p | p in wanted :: p.0 < p.1
    requires right <= left && ((left' == left + 1 && right' == right) || (left' == 0 && right' == right + 1))
    ensures Scanned(wanted, calls, left', right')
  {
  }

  lemma ScannedStep(wanted: set<(nat, nat)>, calls: seq<(nat, nat)>, left: nat, right: nat)
    requires Scanned(wanted, calls, left, right)
    ensures Scanned(wanted, if (left, right) in wanted then calls + [(left, right)] else calls, left + 1, right)
  {
    if (left, right) in wanted {
      assert !Earlier((left, right), left, right);
      DistinctAppend(calls, (left, right));
    }
  }

  /** The whole filter. It refuses a text that int16 counts cannot hold; otherwise it hands exactly the
      pairs that meet the conditions to `exact_pair`, each once, and the pairs that `exact_pair` then
      accepts are exactly those of the all-pairs loop. The order of alphabet and ranking is free. */
  method VectorizedRuleB(cluster: seq<Entry>, characters: seq<char>, ranked: seq<char>,
                         ghost m: (Text, Text) -> seq<Block>)
    returns (r: Result<seq<(nat, nat)>>)
    requires IsMatcher(m) && Alphabet(cluster, characters) && Alphabet(cluster, ranked)
    requires forall c | c in ranked :: c in characters
    ensures r.Refused? <==> exists e | e in cluster :: |e.text| >= MAX_TEXT_LEN
    ensures r.Ok? ==> Distinct(r.value)
    ensures r.Ok? ==> forall p | p in r.value ::
              p.0 < p.1 < |cluster| && Conditions(cluster[p.0], cluster[p.1], characters, ranked)
    ensures r.Ok? ==> forall p: (nat, nat) | p.0 < p.1 < |cluster| && Exact(m, cluster[p.0], cluster[p.1]) ::
              p in r.value
  {
    if !AllShort(cluster) {
      return Refused;
    }
    var h := Histograms(cluster, characters);
    var coarse := Coarse(cluster, characters, ranked, h);
    var calls := Scan(cluster, characters, ranked, h, coarse);
    AcceptedAreWanted(cluster, characters, ranked, m);
    return Ok(calls);
  }

  lemma AcceptedAreWanted(cluster: seq<Entry>, characters: seq<char>, ranked: seq<char>, m: (Text, Text) -> seq<Block>)
    requires IsMatcher(m) && Alphabet(cluster, characters) && Alphabet(cluster, ranked)
    ensures forall p: (nat, nat) | p.0 < p.1 < |cluster| && Exact(m, cluster[p.0], cluster[p.1]) ::
              p in Wanted(cluster, characters, ranked)
  {
    forall p: (nat, nat) | p.0 < p.1 < |cluster| && Exact(m, cluster[p.0], cluster[p.1])
      ensures p in Wanted(cluster, characters, ranked)
    {
      assert cluster[p.0] in cluster && cluster[p.1] in cluster;
      ExactMeetsConditions(m, cluster[p.0], cluster[p.1], characters, ranked);
    }
  }

  method Scan(cluster: seq<Entry>, characters: seq<char>, ranked: seq<char>, h: array2<int16>, coarse: array2<int16>)
    returns (calls: seq<(nat, nat)>)
    requires AllShort(cluster) && Alphabet(cluster, characters) && Alphabet(cluster, ranked)
    requires IsHistogram(h, cluster, characters) && IsCoarse(coarse, cluster, ranked, |ranked|)
    ensures Distinct(calls)
    ensures forall p: (nat, nat) :: p in calls <==> p in Wanted(cluster, characters, ranked)
  {
    ghost var wanted := Wanted(cluster, characters, ranked);
    calls := [];
    var start := 0;
    while start < |cluster|
      invariant 0 <= start <= |cluster|
      invariant Scanned(wanted, calls, 0, start)
    {
      var stop := if start + VECTOR_BLOCK_ROWS < |cluster| then start + VECTOR_BLOCK_ROWS else |cluster|;
      for right := start to stop
        invariant Scanned(wanted, calls, 0, right)
      {
        calls := ScanRow(cluster, characters, ranked, h, coarse, calls, right, stop, wanted);
      }
      start := stop;
    }
  }

  /** One row of a block: every left column up to the end of the block, though only the columns
      before the diagonal are eligible. */
  method ScanRow(cluster: seq<Entry>, characters: seq<char>, ranked: seq<char>, h: array2<int16>, coarse: array2<int16>,
                 before: seq<(nat, nat)>, right: nat, stop: nat, ghost wanted: set<(nat, nat)>)
    returns (calls: seq<(nat, nat)>)
    requires AllShort(cluster) && Alphabet(cluster, characters) && Alphabet(cluster, ranked)
    requires IsHistogram(h, cluster, characters) && IsCoarse(coarse, cluster, ranked, |ranked|)
    requires right < stop <= |cluster| && wanted == Wanted(cluster, characters, ranked)
             && Scanned(wanted, before, 0, right)
    ensures Scanned(wanted, calls, 0, right + 1)
  {
    calls := before;
    for left := 0 to stop
      invariant Scanned(wanted, calls, left, right)
    {
      if left < right {
        var ok := Passes(cluster, characters, ranked, h, coarse, left, right);
        ScannedStep(wanted, calls, left, right);
        if ok {
          calls := calls + [(left, right)];
        }
      } else {
        ScannedAdvance(wanted, calls, left, right, left + 1, right);
      }
    }
    ScannedAdvance(wanted, calls, stop, right, 0, right + 1);
  }
}
