/**
 Cohen's kappa (agreement_kappa.py) over exact rationals: chance agreement never exceeds half of one
 plus observed agreement, which bounds kappa and rules out the degenerate branch.
 */
module Kappa {
  import opened Wrappers
  import opened Sequences

  function Count<T(==)>(s: seq<T>, k: T): nat {
    if s == [] then 0 else Count(s[..|s| - 1], k) + if s[|s| - 1] == k then 1 else 0
  }

  /** How many items both raters gave the same label. */
  function Agreed<T(==)>(a: seq<T>, b: seq<T>): nat
    requires |a| == |b|
  {
    if a == [] then 0
    else Agreed(a[..|a| - 1], b[..|b| - 1]) + if a[|a| - 1] == b[|b| - 1] then 1 else 0
  }

  /** The sum over the labels of the product of the raters' counts. */
  function Products<T(==)>(labels: seq<T>, a: seq<T>, b: seq<T>): nat {
    if labels == [] then 0
    else Products(labels[1..], a, b) + Count(a, labels[0]) * Count(b, labels[0])
  }

  /** The labels of set(a) | set(b), each once, in whatever order the set is walked. */
  predicate Enumerates<T(==)>(labels: seq<T>, a: seq<T>, b: seq<T>) {
    && Distinct(labels)
    && (forall k | k in labels :: k in a || k in b)
    && (forall k | k in a :: k in labels)
    && (forall k | k in b :: k in labels)
  }

  function Observed(agreed: nat, n: nat): real
    requires n > 0
  {
    agreed as real / n as real
  }

  function Chance(products: nat, n: nat): real
    requires n > 0
  {
    products as real / (n as real * n as real)
  }

  /** The sum as it is written: of (a.count(k) / n) * (b.count(k) / n) over the labels. */
  function ChanceAgreement<T(==)>(labels: seq<T>, a: seq<T>, b: seq<T>, n: nat): real
    requires n > 0
  {
    if labels == [] then 0.0
    else ChanceAgreement(labels[1..], a, b, n) + Observed(Count(a, labels[0]), n) * Observed(Count(b, labels[0]), n)
  }

  function Formula(po: real, pe: real): real {
    if pe >= 1.0 then (if po >= 1.0 then 1.0 else 0.0)
    else (po - pe) / (1.0 - pe)
  }

  function CohenKappa<T(==)>(labels: seq<T>, a: seq<T>, b: seq<T>): Result<real> {
    if |a| != |b| || |a| == 0 then Refused
    else Ok(Formula(Observed(Agreed(a, b), |a|), ChanceAgreement(labels, a, b, |a|)))
  }

  datatype Band = Band(threshold: real, name: string)

  const BANDS := [
    Band(0.81, "almost perfect"), Band(0.61, "substantial"), Band(0.41, "moderate"),
    Band(0.21, "fair"), Band(0.01, "slight"), Band(-1.0, "poor / worse than chance")]

  /** The first band whose threshold kappa reaches. */
  function FirstBand(bands: seq<Band>, kappa: real): (r: Option<string>)
    ensures r.Some? <==> exists i | 0 <= i < |bands| :: kappa >= bands[i].threshold
  {
    if bands == [] then None
    else if kappa >= bands[0].threshold then Some(bands[0].name)
    else
      var rest := FirstBand(bands[1..], kappa);
      assert forall i | 0 < i < |bands| :: bands[i] == bands[1..][i - 1];
      rest
  }

  function Interpret(kappa: real): string {
    match FirstBand(BANDS, kappa)
    case Some(name) => name
    case None => "poor / worse than chance"
  }

  // ----- counting

  /** Items to which both raters gave the label k. */
  function Shared<T(==)>(a: seq<T>, b: seq<T>, k: T): nat
    requires |a| == |b|
  {
    if a == [] then 0
    else Shared(a[..|a| - 1], b[..|b| - 1], k) + if a[|a| - 1] == k && b[|b| - 1] == k then 1 else 0
  }

  /** Two sets of items cover at most all items, and their overlap twice. */
  lemma {:induction false} CountsCover<T>(a: seq<T>, b: seq<T>, k: T)
    requires |a| == |b|
    ensures Count(a, k) + Count(b, k) <= |a| + Shared(a, b, k)
    ensures Count(a, k) <= |a| && Count(b, k) <= |a|
    decreases |a|
  {
    if a != [] { CountsCover(a[..|a| - 1], b[..|b| - 1], k); }
  }

  function CountAll<T(==)>(labels: seq<T>, s: seq<T>): nat {
    if labels == [] then 0 else CountAll(labels[1..], s) + Count(s, labels[0])
  }

  function SharedAll<T(==)>(labels: seq<T>, a: seq<T>, b: seq<T>): nat
    requires |a| == |b|
  {
    if labels == [] then 0 else SharedAll(labels[1..], a, b) + Shared(a, b, labels[0])
  }

  /** Dropping the last item takes one away from exactly one label. */
  lemma {:induction false} CountAllStep<T>(labels: seq<T>, s: seq<T>)
    requires Distinct(labels) && s != []
    ensures CountAll(labels, s) == CountAll(labels, s[..|s| - 1]) + if s[|s| - 1] in labels then 1 else 0
    decreases |labels|
  {
    if labels != [] { CountAllStep(labels[1..], s); }
  }

  lemma {:induction false} CountAllIsLength<T>(labels: seq<T>, s: seq<T>)
    requires Distinct(labels) && forall k | k in s :: k in labels
    ensures CountAll(labels, s) == |s|
    decreases |s|
  {
    if s == [] {
      CountNothing(labels, s);
    } else {
      CountAllStep(labels, s);
      CountAllIsLength(labels, s[..|s| - 1]);
    }
  }

  lemma {:induction false} CountNothing<T>(labels: seq<T>, s: seq<T>)
    requires s == []
    ensures CountAll(labels, s) == 0
    decreases |labels|
  {
    if labels != [] { CountNothing(labels[1..], s); }
  }

  lemma {:induction false} SharedAllStep<T>(labels: seq<T>, a: seq<T>, b: seq<T>)
    requires Distinct(labels) && |a| == |b| > 0
    ensures SharedAll(labels, a, b) == SharedAll(labels, a[..|a| - 1], b[..|b| - 1])
              + if a[|a| - 1] == b[|b| - 1] && a[|a| - 1] in labels then 1 else 0
    decreases |labels|
  {
    if labels != [] { SharedAllStep(labels[1..], a, b); }
  }

  lemma {:induction false} SharedNothing<T>(labels: seq<T>, a: seq<T>, b: seq<T>)
    requires a == [] == b
    ensures SharedAll(labels, a, b) == 0
    decreases |labels|
  {
    if labels != [] { SharedNothing(labels[1..], a, b); }
  }

  lemma {:induction false} SharedAllIsAgreed<T>(labels: seq<T>, a: seq<T>, b: seq<T>)
    requires |a| == |b| && Distinct(labels) && forall k | k in a :: k in labels
    ensures SharedAll(labels, a, b) == Agreed(a, b)
    decreases |a|
  {
    if a == [] {
      SharedNothing(labels, a, b);
    } else {
      SharedAllStep(labels, a, b);
      SharedAllIsAgreed(labels, a[..|a| - 1], b[..|b| - 1]);
    }
  }

  // ----- the bound on chance agreement

  lemma Square(x: nat, y: nat)
    ensures 4 * (x * y) <= (x + y) * (x + y)
  {
    assert (x - y) * (x - y) >= 0;
  }

  lemma Monotone(t: nat, u: nat, v: nat)
    requires u <= v
    ensures t * u <= t * v
  {
  }

  lemma Distribute(n: nat, x: nat, y: nat)
    ensures n * (x + y) == n * x + n * y
  {
  }

  /** 4xy <= (x + y)^2 <= (x + y)(n + m) <= n(x + y) + 2nm, for one label. */
  lemma OneLabel(x: nat, y: nat, n: nat, m: nat)
    requires x + y <= n + m && x <= n && y <= n
    ensures 4 * (x * y) <= n * (x + y) + 2 * (n * m)
  {
    var t := x + y;
    Square(x, y);
    Monotone(t, t, n + m);
    Distribute(t, n, m);
    Monotone(m, t, n + n);
    Distribute(m, n, n);
    Commutes(t, n);
    Commutes(t, m);
    Commutes(m, n);
  }

  lemma Commutes(x: nat, y: nat)
    ensures x * y == y * x
  {
  }

  lemma {:induction false} AllLabels<T>(labels: seq<T>, a: seq<T>, b: seq<T>)
    requires |a| == |b|
    ensures 4 * Products(labels, a, b)
         <= |a| * (CountAll(labels, a) + CountAll(labels, b)) + 2 * (|a| * SharedAll(labels, a, b))
    decreases |labels|
  {
    if labels != [] {
      var k, n := labels[0], |a|;
      AllLabels(labels[1..], a, b);
      CountsCover(a, b, k);
      OneLabel(Count(a, k), Count(b, k), n, Shared(a, b, k));
      Distribute(n, CountAll(labels[1..], a) + CountAll(labels[1..], b), Count(a, k) + Count(b, k));
      Distribute(n, SharedAll(labels[1..], a, b), Shared(a, b, k));
    }
  }

  /** 2 * sum of products <= n^2 + n * agreements. */
  lemma ProductsBound<T>(labels: seq<T>, a: seq<T>, b: seq<T>)
    requires |a| == |b| && Enumerates(labels, a, b)
    ensures 2 * Products(labels, a, b) <= |a| * |a| + |a| * Agreed(a, b)
  {
    var n := |a|;
    AllLabels(labels, a, b);
    CountAllIsLength(labels, a);
    CountAllIsLength(labels, b);
    SharedAllIsAgreed(labels, a, b);
    Distribute(n, n, n);
  }

  lemma {:induction false} AgreedAtMost<T>(a: seq<T>, b: seq<T>)
    requires |a| == |b|
    ensures Agreed(a, b) <= |a| && (Agreed(a, b) == |a| <==> a == b)
    decreases |a|
  {
    if a != [] {
      var a', b' := a[..|a| - 1], b[..|b| - 1];
      AgreedAtMost(a', b');
      assert a == a' + [a[|a| - 1]] && b == b' + [b[|b| - 1]];
    }
  }

  lemma AddTimes(p: real, q: real, r: real)
    ensures (p + q) * r == p * r + q * r
  {
  }

  lemma Cancel(p: real, q: real, d: real)
    requires d > 0.0 && p * d <= q * d
    ensures p <= q
  {
    var x := p - q;
    AddTimes(x, q, d);
    assert x * d <= 0.0;
  }

  lemma DivideTimes(x: real, d: real)
    requires d > 0.0
    ensures (x / d) * d == x
  {
  }

  lemma TimesSquare(q: real, r: real, p: real)
    requires q * r == p
    ensures q * (r * r) == r * p
  {
    assert q * (r * r) == (q * r) * r;
  }

  lemma SquarePositive(r: real)
    requires r > 0.0
    ensures r * r > 0.0
  {
  }

  lemma Cast(x: nat, y: nat)
    ensures (x * y) as real == x as real * y as real
  {
  }

  /** The bound, with both agreements as variables and d = n^2. */
  lemma Scaled(pe: real, po: real, d: real, s: real, np: real)
    requires d > 0.0 && pe * d == s && po * d == np && 2.0 * s <= d + np
    ensures pe <= (1.0 + po) / 2.0
  {
    AddTimes(1.0, po, d);
    AddTimes(pe, pe, d);
    Cancel(pe + pe, 1.0 + po, d);
  }

  lemma RatioBound(pe: real, po: real, d: real, s: real, r: real, p: real)
    requires r > 0.0 && d > 0.0 && d == r * r && 2.0 * s <= d + r * p
    requires pe == s / d && po == p / r
    ensures pe <= (1.0 + po) / 2.0
  {
    DivideTimes(s, d);
    DivideTimes(p, r);
    TimesSquare(po, r, p);
    Scaled(pe, po, d, s, r * p);
  }

  lemma ChanceAtMost(products: nat, agreed: nat, n: nat)
    requires n > 0 && 2 * products <= n * n + n * agreed
    ensures Chance(products, n) <= (1.0 + Observed(agreed, n)) / 2.0
  {
    Cast(n, n);
    Cast(n, agreed);
    var r, p, s := n as real, agreed as real, products as real;
    assert 2.0 * s <= r * r + r * p;
    SquarePositive(r);
    RatioBound(Chance(products, n), Observed(agreed, n), r * r, s, r, p);
  }

  lemma One(q: real, r: real)
    requires r > 0.0 && q * r == r
    ensures q == 1.0
  {
    var x := q - 1.0;
    AddTimes(x, 1.0, r);
    assert x * r == 0.0;
  }

  lemma TermIsChance(x: nat, y: nat, n: nat)
    requires n > 0
    ensures Observed(x, n) * Observed(y, n) == Chance(x * y, n)
  {
    var p, q, r := x as real, y as real, n as real;
    Cast(x, y);
    assert (p / r) * (q / r) == (p * q) / (r * r);
  }

  lemma ChanceAdds(x: nat, y: nat, n: nat)
    requires n > 0
    ensures Chance(x, n) + Chance(y, n) == Chance(x + y, n)
  {
    var p, q, d := x as real, y as real, n as real * n as real;
    assert p / d + q / d == (p + q) / d;
  }

  lemma {:induction false} ChanceIsProducts<T>(labels: seq<T>, a: seq<T>, b: seq<T>, n: nat)
    requires n > 0
    ensures ChanceAgreement(labels, a, b, n) == Chance(Products(labels, a, b), n)
    decreases |labels|
  {
    if labels != [] {
      ChanceIsProducts(labels[1..], a, b, n);
      TermIsChance(Count(a, labels[0]), Count(b, labels[0]), n);
      ChanceAdds(Products(labels[1..], a, b), Count(a, labels[0]) * Count(b, labels[0]), n);
    }
  }

  lemma Share(po: real, r: real, p: real)
    requires r > 0.0 && po * r == p && 0.0 <= p <= r
    ensures 0.0 <= po <= 1.0 && (po == 1.0 <==> p == r)
  {
    Cancel(po, 1.0, r);
    Cancel(0.0, po, r);
    if p == r { One(po, r); }
  }

  lemma ObservedShare(agreed: nat, n: nat)
    requires n > 0 && agreed <= n
    ensures 0.0 <= Observed(agreed, n) <= 1.0 && (Observed(agreed, n) == 1.0 <==> agreed == n)
  {
    DivideTimes(agreed as real, n as real);
    Share(Observed(agreed, n), n as real, agreed as real);
  }

  /** Chance agreement is at most (1 + po) / 2. */
  lemma ChanceBound<T>(labels: seq<T>, a: seq<T>, b: seq<T>)
    requires |a| == |b| > 0 && Enumerates(labels, a, b)
    ensures ChanceAgreement(labels, a, b, |a|) <= (1.0 + Observed(Agreed(a, b), |a|)) / 2.0
  {
    ChanceIsProducts(labels, a, b, |a|);
    ProductsBound(labels, a, b);
    ChanceAtMost(Products(labels, a, b), Agreed(a, b), |a|);
  }

  // ----- kappa

  lemma Quotient(po: real, pe: real)
    requires pe < 1.0 && po <= 1.0 && 2.0 * pe <= 1.0 + po
    ensures -1.0 <= (po - pe) / (1.0 - pe) <= 1.0
    ensures (po - pe) / (1.0 - pe) == 1.0 <==> po == 1.0
  {
    var d := 1.0 - pe;
    var q := (po - pe) / d;
    DivideTimes(po - pe, d);
    Cancel(q, 1.0, d);
    Cancel(-1.0, q, d);
    if po == 1.0 { Cancel(1.0, q, d); }
  }

  lemma FormulaBounds(po: real, pe: real)
    requires 0.0 <= po <= 1.0 && pe <= (1.0 + po) / 2.0
    ensures -1.0 <= Formula(po, pe) <= 1.0 && (Formula(po, pe) == 1.0 <==> po == 1.0)
    ensures pe >= 1.0 ==> po == 1.0
  {
    if pe < 1.0 { Quotient(po, pe); }
  }

  /** For every pair of non-empty label sequences of one length kappa lies in [-1, 1] and is 1 exactly
      on full agreement; chance agreement reaches 1 only on full agreement, so the 0.0 of the
      degenerate branch is never returned; and a band is always found. */
  lemma KappaBounds<T>(labels: seq<T>, a: seq<T>, b: seq<T>)
    requires |a| == |b| > 0 && Enumerates(labels, a, b)
    ensures CohenKappa(labels, a, b).Ok?
    ensures -1.0 <= CohenKappa(labels, a, b).value <= 1.0
    ensures CohenKappa(labels, a, b).value == 1.0 <==> a == b
    ensures ChanceAgreement(labels, a, b, |a|) >= 1.0 ==> Observed(Agreed(a, b), |a|) >= 1.0
    ensures FirstBand(BANDS, CohenKappa(labels, a, b).value) == Some(Interpret(CohenKappa(labels, a, b).value))
  {
    ChanceBound(labels, a, b);
    AgreedAtMost(a, b);
    ObservedShare(Agreed(a, b), |a|);
    FormulaBounds(Observed(Agreed(a, b), |a|), ChanceAgreement(labels, a, b, |a|));
    assert BANDS[5].threshold == -1.0;
  }

  // ----- the order of the labels does not matter, nor which rater comes first

  lemma {:induction false} AgreedSwaps<T>(a: seq<T>, b: seq<T>)
    requires |a| == |b|
    ensures Agreed(a, b) == Agreed(b, a)
    decreases |a|
  {
    if a != [] { AgreedSwaps(a[..|a| - 1], b[..|b| - 1]); }
  }

  /** The sum of products counts the pairs of items (i of a, j of b) with one label. */
  function Pairs<T(==)>(a: seq<T>, b: seq<T>): nat {
    if a == [] then 0 else Pairs(a[..|a| - 1], b) + Count(b, a[|a| - 1])
  }

  lemma {:induction false} ProductsStep<T>(labels: seq<T>, a: seq<T>, b: seq<T>)
    requires Distinct(labels) && a != []
    ensures Products(labels, a, b) == Products(labels, a[..|a| - 1], b)
              + if a[|a| - 1] in labels then Count(b, a[|a| - 1]) else 0
    decreases |labels|
  {
    if labels != [] {
      ProductsStep(labels[1..], a, b);
      var k := labels[0];
      if a[|a| - 1] == k {
        assert (Count(a[..|a| - 1], k) + 1) * Count(b, k) == Count(a[..|a| - 1], k) * Count(b, k) + Count(b, k);
      }
    }
  }

  lemma {:induction false} ProductsNothing<T>(labels: seq<T>, a: seq<T>, b: seq<T>)
    requires a == []
    ensures Products(labels, a, b) == 0
    decreases |labels|
  {
    if labels != [] { ProductsNothing(labels[1..], a, b); }
  }

  lemma {:induction false} ProductsArePairs<T>(labels: seq<T>, a: seq<T>, b: seq<T>)
    requires Distinct(labels) && forall k | k in a :: k in labels
    ensures Products(labels, a, b) == Pairs(a, b)
    decreases |a|
  {
    if a == [] {
      ProductsNothing(labels, a, b);
    } else {
      ProductsStep(labels, a, b);
      ProductsArePairs(labels, a[..|a| - 1], b);
    }
  }

  lemma {:induction false} ProductsSwap<T>(labels: seq<T>, a: seq<T>, b: seq<T>)
    ensures Products(labels, a, b) == Products(labels, b, a)
    decreases |labels|
  {
    if labels != [] {
      ProductsSwap(labels[1..], a, b);
      Commutes(Count(a, labels[0]), Count(b, labels[0]));
    }
  }

  lemma CountsSymmetric<T>(labels: seq<T>, others: seq<T>, a: seq<T>, b: seq<T>)
    requires |a| == |b| && Enumerates(labels, a, b) && Enumerates(others, b, a)
    ensures Agreed(a, b) == Agreed(b, a) && Products(labels, a, b) == Products(others, b, a)
  {
    AgreedSwaps(a, b);
    ProductsArePairs(labels, a, b);
    ProductsArePairs(others, a, b);
    ProductsSwap(others, a, b);
  }

  /** Kappa is symmetric in the raters and independent of the order in which the set of labels is
      walked. */
  lemma KappaSymmetric<T>(labels: seq<T>, others: seq<T>, a: seq<T>, b: seq<T>)
    requires Enumerates(labels, a, b) && Enumerates(others, b, a)
    ensures CohenKappa(labels, a, b) == CohenKappa(others, b, a)
  {
    if |a| == |b| > 0 {
      CountsSymmetric(labels, others, a, b);
      ChanceIsProducts(labels, a, b, |a|);
      ChanceIsProducts(others, b, a, |a|);
    }
  }

  // ----- kappa on positions

  /** The items on which the raters agree. */
  ghost function Agreeing<T>(a: seq<T>, b: seq<T>): set<int>
    requires |a| == |b|
  {
    set i | 0 <= i < |a| && a[i] == b[i]
  }

  /** The pairs of an item of a and an item of b with one label. */
  ghost function Meeting<T>(a: seq<T>, b: seq<T>): set<(int, int)> {
    set i, j | 0 <= i < |a| && 0 <= j < |b| && a[i] == b[j] :: (i, j)
  }

  ghost function Positions<T>(s: seq<T>, k: T): set<int> { set i | 0 <= i < |s| && s[i] == k }

  lemma {:induction false} AgreedIsPositions<T>(a: seq<T>, b: seq<T>)
    requires |a| == |b|
    ensures Agreed(a, b) == |Agreeing(a, b)|
    decreases |a|
  {
    if a == [] {
      assert Agreeing(a, b) == {};
    } else {
      var a', b', n := a[..|a| - 1], b[..|b| - 1], |a| - 1;
      AgreedIsPositions(a', b');
      assert Agreeing(a, b) == Agreeing(a', b') + if a[n] == b[n] then {n} else {};
    }
  }

  lemma {:induction false} CountIsPositions<T>(s: seq<T>, k: T)
    ensures Count(s, k) == |Positions(s, k)|
    decreases |s|
  {
    if s == [] {
      assert Positions(s, k) == {};
    } else {
      var s', n := s[..|s| - 1], |s| - 1;
      CountIsPositions(s', k);
      assert Positions(s, k) == Positions(s', k) + if s[n] == k then {n} else {};
    }
  }

  /** A set of positions paired with one number. */
  lemma {:induction false} PairedSize(n: int, js: set<int>)
    ensures |set j | j in js :: (n, j)| == |js|
    decreases |js|
  {
    var paired := set j | j in js :: (n, j);
    if js == {} {
      assert paired == {};
    } else {
      assert (forall j :: j !in js) ==> js == {};
      var x :| x in js;
      PairedSize(n, js - {x});
      assert paired == (set j | j in js - {x} :: (n, j)) + {(n, x)};
    }
  }

  lemma {:induction false} PairsIsPositions<T>(a: seq<T>, b: seq<T>)
    ensures Pairs(a, b) == |Meeting(a, b)|
    decreases |a|
  {
    if a == [] {
      assert Meeting(a, b) == {};
    } else {
      var a', n := a[..|a| - 1], |a| - 1;
      var last := set j | j in Positions(b, a[n]) :: (n, j);
      PairsIsPositions(a', b);
      CountIsPositions(b, a[n]);
      PairedSize(n, Positions(b, a[n]));
      assert Meeting(a, b) == Meeting(a', b) + last;
      assert Meeting(a', b) !! last;
    }
  }

  lemma KappaQuotient(po: real, pe: real, r: real, o: real, c: real)
    requires r > 0.0 && po * r == o && pe * (r * r) == c && pe < 1.0
    ensures ((po - pe) / (1.0 - pe)) * (r * r - c) == r * o - c
  {
    var k, d := (po - pe) / (1.0 - pe), r * r;
    DivideTimes(po - pe, 1.0 - pe);
    TimesSquare(po, r, o);
    AddTimes(1.0, -pe, d);
    AddTimes(po, -pe, d);
    assert k * ((1.0 - pe) * d) == (k * (1.0 - pe)) * d;
  }

  lemma ChanceShare(c: nat, n: nat)
    requires n > 0
    ensures Chance(c, n) * (n as real * n as real) == c as real
    ensures Chance(c, n) >= 1.0 <==> c >= n * n
  {
    var d := n as real * n as real;
    SquarePositive(n as real);
    Cast(n, n);
    DivideTimes(c as real, d);
    AtLeastOne(Chance(c, n), d, c as real);
  }

  lemma AtLeastOne(q: real, d: real, x: real)
    requires d > 0.0 && q * d == x
    ensures q >= 1.0 <==> x >= d
  {
    var e := q - 1.0;
    AddTimes(e, 1.0, d);
    assert e * d == x - d;
    if e >= 0.0 { assert e * d >= 0.0; } else { assert e * d < 0.0; }
  }

  /** (n*o - c) / (n*n - c), and 1 when c is n*n. */
  ghost predicate KappaIs(k: real, o: nat, c: nat, n: nat) {
    var r := n as real;
    if c < n * n then k * (r * r - c as real) == r * o as real - c as real else k == 1.0
  }

  lemma FullMeeting<T>(labels: seq<T>, a: seq<T>, b: seq<T>)
    requires |a| == |b| > 0 && Enumerates(labels, a, b)
    ensures ChanceAgreement(labels, a, b, |a|) == Chance(Pairs(a, b), |a|)
    ensures Agreed(a, b) <= |a| && (Pairs(a, b) >= |a| * |a| ==> Agreed(a, b) == |a|)
  {
    ProductsArePairs(labels, a, b);
    ChanceIsProducts(labels, a, b, |a|);
    ChanceShare(Pairs(a, b), |a|);
    KappaBounds(labels, a, b);
    AgreedAtMost(a, b);
    ObservedShare(Agreed(a, b), |a|);
  }

  lemma KappaOn(o: nat, c: nat, n: nat)
    requires 0 < n && o <= n && (c >= n * n ==> o == n)
    ensures KappaIs(Formula(Observed(o, n), Chance(c, n)), o, c, n)
  {
    ChanceShare(c, n);
    ObservedShare(o, n);
    if c < n * n {
      DivideTimes(o as real, n as real);
      KappaQuotient(Observed(o, n), Chance(c, n), n as real, o as real, c as real);
    }
  }

  /** Kappa compares the agreeing items with the pairs of items that meet by chance: with O agreeing items
      of n and C meeting pairs it is (n*O - C) / (n*n - C), and 1 when every pair meets. It is refused
      exactly for no items or different numbers of them. */
  lemma KappaMeans<T>(labels: seq<T>, a: seq<T>, b: seq<T>)
    requires Enumerates(labels, a, b)
    ensures CohenKappa(labels, a, b).Refused? <==> |a| != |b| || a == []
    ensures CohenKappa(labels, a, b).Ok? ==>
              KappaIs(CohenKappa(labels, a, b).value, |Agreeing(a, b)|, |Meeting(a, b)|, |a|)
  {
    if |a| == |b| && a != [] {
      AgreedIsPositions(a, b);
      PairsIsPositions(a, b);
      FullMeeting(labels, a, b);
      KappaOn(Agreed(a, b), Pairs(a, b), |a|);
    }
  }

  /** The bands of Landis and Koch. */
  lemma InterpretBands(kappa: real)
    ensures Interpret(kappa) ==
            if kappa < 0.01 then "poor / worse than chance"
            else if kappa < 0.21 then "slight"
            else if kappa < 0.41 then "fair"
            else if kappa < 0.61 then "moderate"
            else if kappa < 0.81 then "substantial"
            else "almost perfect"
  {
    assert BANDS[0..] == BANDS;
    BandAt(0, kappa);
    BandAt(1, kappa);
    BandAt(2, kappa);
    BandAt(3, kappa);
    BandAt(4, kappa);
    BandAt(5, kappa);
  }

  lemma BandAt(i: nat, kappa: real)
    requires i < |BANDS|
    ensures FirstBand(BANDS[i..], kappa)
         == if kappa >= BANDS[i].threshold then Some(BANDS[i].name) else FirstBand(BANDS[i + 1..], kappa)
  {
    assert BANDS[i..][1..] == BANDS[i + 1..];
  }
}
