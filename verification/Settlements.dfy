/**
 `_audit_settlements` of check_review_compensation_readiness.py: each payout must cover one exact,
 contiguous range of its reviewer's ledger rows. Reviewer keys are already stripped and case-folded.
 */
module Settlements {

  datatype LedgerRow = LedgerRow(id: int, reviewer: int, delta: int)

  datatype Settlement = Settlement(reviewer: int, from: int, through: int, amount: int, reference: string)

  predicate Covers(s: Settlement, r: LedgerRow) {
    s.reviewer == r.reviewer && s.from < r.id <= s.through
  }

  /** The rows of one range, summed. */
  function RangeSum(rows: seq<LedgerRow>, reviewer: int, from: int, through: int): int {
    if rows == [] then 0
    else (if rows[0].reviewer == reviewer && from < rows[0].id <= through then rows[0].delta else 0) +
         RangeSum(rows[1..], reviewer, from, through)
  }

  datatype State = State(boundary: map<int, int>, references: set<string>, ok: bool)

  const START := State(map[], {}, true)

  function Boundary(s: State, reviewer: int): int {
    if reviewer in s.boundary then s.boundary[reviewer] else 0
  }

  /** The loop body. */
  function Step(s: State, p: Settlement, rows: seq<LedgerRow>): State {
    State(
      s.boundary[p.reviewer := p.through],
      s.references + {p.reference},
      && s.ok
      && p.from == Boundary(s, p.reviewer) && p.through > p.from
      && RangeSum(rows, p.reviewer, p.from, p.through) == p.amount
      && p.reference != "" && p.reference !in s.references)
  }

  ghost function After(ps: seq<Settlement>, rows: seq<LedgerRow>, n: nat): State
    requires n <= |ps|
  {
    if n == 0 then START else Step(After(ps, rows, n - 1), ps[n - 1], rows)
  }

  ghost function Amounts(ps: seq<Settlement>, n: nat): int
    requires n <= |ps|
  {
    if n == 0 then 0 else Amounts(ps, n - 1) + ps[n - 1].amount
  }

  /** The loop, and the total it reports. */
  method AuditSettlements(ps: seq<Settlement>, rows: seq<LedgerRow>) returns (s: State, settled: int)
    ensures s == After(ps, rows, |ps|) && settled == Amounts(ps, |ps|)
  {
    s, settled := START, 0;
    for n := 0 to |ps|
      invariant s == After(ps, rows, n) && settled == Amounts(ps, n)
    {
      s, settled := Step(s, ps[n], rows), settled + ps[n].amount;
    }
  }

  /** A row lies at or below its reviewer's last boundary. */
  predicate Settled(s: State, r: LedgerRow) {
    0 < r.id <= Boundary(s, r.reviewer)
  }

  ghost predicate CoveredBySome(ps: seq<Settlement>, n: nat, r: LedgerRow)
    requires n <= |ps|
  {
    exists k | 0 <= k < n :: Covers(ps[k], r)
  }

  lemma {:induction false} AcceptedPrefix(ps: seq<Settlement>, rows: seq<LedgerRow>, n: nat, k: nat)
    requires k <= n <= |ps| && After(ps, rows, n).ok
    ensures After(ps, rows, k).ok
  {
    if k < n {
      AcceptedPrefix(ps, rows, n - 1, k);
    }
  }

  lemma {:induction false} BoundaryNotNegative(ps: seq<Settlement>, rows: seq<LedgerRow>, n: nat, v: int)
    requires n <= |ps| && After(ps, rows, n).ok
    ensures 0 <= Boundary(After(ps, rows, n), v)
  {
    if n > 0 {
      BoundaryNotNegative(ps, rows, n - 1, v);
      BoundaryNotNegative(ps, rows, n - 1, ps[n - 1].reviewer);
    }
  }

  /** Settlements leave no hole: the covered rows are exactly those up to the boundary. */
  lemma {:induction false} CoveredIffSettled(ps: seq<Settlement>, rows: seq<LedgerRow>, n: nat, r: LedgerRow)
    requires n <= |ps| && After(ps, rows, n).ok
    ensures CoveredBySome(ps, n, r) <==> Settled(After(ps, rows, n), r)
  {
    if n > 0 {
      CoveredIffSettled(ps, rows, n - 1, r);
      BoundaryNotNegative(ps, rows, n - 1, r.reviewer);
      var p := ps[n - 1];
      if Settled(After(ps, rows, n), r) && !Settled(After(ps, rows, n - 1), r) {
        assert Covers(ps[n - 1], r);
      }
      if k :| 0 <= k < n - 1 && Covers(ps[k], r) {
        assert CoveredBySome(ps, n - 1, r);
      }
    }
  }

  /** No ledger row is covered by two settlements. */
  lemma CoveredOnce(ps: seq<Settlement>, rows: seq<LedgerRow>, i: nat, j: nat, r: LedgerRow)
    requires i < j < |ps| && After(ps, rows, |ps|).ok
    ensures !(Covers(ps[i], r) && Covers(ps[j], r))
  {
    AcceptedPrefix(ps, rows, |ps|, j + 1);
    CoveredIffSettled(ps, rows, j, r);
    if Covers(ps[i], r) {
      assert CoveredBySome(ps, j, r);
    }
  }

  /** Payout references are pairwise distinct. */
  lemma {:induction false} ReferencesCollected(ps: seq<Settlement>, rows: seq<LedgerRow>, n: nat, i: nat)
    requires i < n <= |ps|
    ensures ps[i].reference in After(ps, rows, n).references
  {
    if i < n - 1 {
      ReferencesCollected(ps, rows, n - 1, i);
    }
  }

  lemma ReferencesDistinct(ps: seq<Settlement>, rows: seq<LedgerRow>, i: nat, j: nat)
    requires i < j < |ps| && After(ps, rows, |ps|).ok
    ensures ps[i].reference != ps[j].reference
  {
    AcceptedPrefix(ps, rows, |ps|, j + 1);
    ReferencesCollected(ps, rows, j, i);
  }

  // ----- exactly which lists are accepted

  /** The settlement at j is the last one of reviewer v among the first n. */
  ghost predicate LastOf(ps: seq<Settlement>, n: nat, v: int, j: int)
    requires n <= |ps|
  {
    0 <= j < n && ps[j].reviewer == v && forall k | j < k < n :: ps[k].reviewer != v
  }

  ghost predicate NoneOf(ps: seq<Settlement>, n: nat, v: int)
    requires n <= |ps|
  {
    forall k | 0 <= k < n :: ps[k].reviewer != v
  }

  /** A settlement begins where the reviewer's last one ended, at 0 if there was none. */
  ghost predicate Continues(ps: seq<Settlement>, i: nat)
    requires i < |ps|
  {
    || (NoneOf(ps, i, ps[i].reviewer) && ps[i].from == 0)
    || exists j :: LastOf(ps, i, ps[i].reviewer, j) && ps[i].from == ps[j].through
  }

  /** The i-th payout continues, pays exactly its rows and has a reference of its own. */
  ghost predicate Exact(ps: seq<Settlement>, rows: seq<LedgerRow>, i: nat)
    requires i < |ps|
  {
    var p := ps[i];
    && Continues(ps, i) && p.from + 1 <= p.through
    && p.amount == RangeSum(rows, p.reviewer, p.from, p.through)
    && |p.reference| >= 1 && forall j | 0 <= j < i :: ps[j].reference != p.reference
  }

  lemma {:induction false} BoundaryIsLast(ps: seq<Settlement>, rows: seq<LedgerRow>, n: nat, v: int)
    requires n <= |ps|
    ensures NoneOf(ps, n, v) ==> Boundary(After(ps, rows, n), v) == 0
    ensures NoneOf(ps, n, v) || exists j :: LastOf(ps, n, v, j)
    ensures forall j | LastOf(ps, n, v, j) :: Boundary(After(ps, rows, n), v) == ps[j].through
  {
    if n > 0 {
      var m := n - 1;
      BoundaryIsLast(ps, rows, m, v);
      if ps[m].reviewer == v {
        assert LastOf(ps, n, v, m);
        assert forall j | LastOf(ps, n, v, j) :: j == m;
      } else {
        forall j
          ensures LastOf(ps, n, v, j) <==> LastOf(ps, m, v, j)
        {
        }
        if !NoneOf(ps, m, v) {
          var j :| LastOf(ps, m, v, j);
          assert LastOf(ps, n, v, j);
        }
      }
    }
  }

  lemma ContinuesAtBoundary(ps: seq<Settlement>, rows: seq<LedgerRow>, i: nat)
    requires i < |ps|
    ensures Continues(ps, i) <==> ps[i].from == Boundary(After(ps, rows, i), ps[i].reviewer)
  {
    var v := ps[i].reviewer;
    BoundaryIsLast(ps, rows, i, v);
    if !NoneOf(ps, i, v) {
      var j :| LastOf(ps, i, v, j);
      assert ps[j].reviewer == v;
    }
  }

  lemma {:induction false} ReferencesAre(ps: seq<Settlement>, rows: seq<LedgerRow>, n: nat, reference: string)
    requires n <= |ps|
    ensures reference in After(ps, rows, n).references <==> exists j | 0 <= j < n :: ps[j].reference == reference
  {
    if n > 0 {
      ReferencesAre(ps, rows, n - 1, reference);
    }
  }

  /** The audit accepts a list of settlements if and only if every one of them is exact. */
  lemma {:induction false} AcceptedIffExact(ps: seq<Settlement>, rows: seq<LedgerRow>, n: nat)
    requires n <= |ps|
    ensures After(ps, rows, n).ok <==> forall i | 0 <= i < n :: Exact(ps, rows, i)
  {
    if n > 0 {
      var m := n - 1;
      AcceptedIffExact(ps, rows, m);
      ReferencesAre(ps, rows, m, ps[m].reference);
      ContinuesAtBoundary(ps, rows, m);
      assert (forall i | 0 <= i < n :: Exact(ps, rows, i))
        <==> (forall i | 0 <= i < m :: Exact(ps, rows, i)) && Exact(ps, rows, m);
    }
  }

  // ----- conservation

  lemma {:induction false} RangeSumSplit(rows: seq<LedgerRow>, v: int, a: int, b: int, c: int)
    requires a <= b <= c
    ensures RangeSum(rows, v, a, c) == RangeSum(rows, v, a, b) + RangeSum(rows, v, b, c)
  {
    if rows != [] {
      RangeSumSplit(rows[1..], v, a, b, c);
    }
  }

  lemma {:induction false} RangeSumEmpty(rows: seq<LedgerRow>, v: int, a: int)
    ensures RangeSum(rows, v, a, a) == 0
  {
    if rows != [] {
      RangeSumEmpty(rows[1..], v, a);
    }
  }

  /** What one reviewer was paid by the first n settlements. */
  ghost function PaidTo(ps: seq<Settlement>, n: nat, v: int): int
    requires n <= |ps|
  {
    if n == 0 then 0 else PaidTo(ps, n - 1, v) + if ps[n - 1].reviewer == v then ps[n - 1].amount else 0
  }

  /** Settlements telescope: a reviewer's payouts sum to all of that reviewer's rows up to the last
      boundary. */
  lemma {:induction false} PayoutsTelescope(ps: seq<Settlement>, rows: seq<LedgerRow>, n: nat, v: int)
    requires n <= |ps| && After(ps, rows, n).ok
    ensures PaidTo(ps, n, v) == RangeSum(rows, v, 0, Boundary(After(ps, rows, n), v))
  {
    if n == 0 {
      RangeSumEmpty(rows, v, 0);
    } else {
      PayoutsTelescope(ps, rows, n - 1, v);
      if ps[n - 1].reviewer == v {
        BoundaryNotNegative(ps, rows, n - 1, v);
        RangeSumSplit(rows, v, 0, ps[n - 1].from, ps[n - 1].through);
      }
    }
  }

  /** The rows that a state of the audit counts as settled, and those that it does not. */
  ghost function SettledSum(s: State, rows: seq<LedgerRow>): int {
    if rows == [] then 0 else (if Settled(s, rows[0]) then rows[0].delta else 0) + SettledSum(s, rows[1..])
  }

  ghost function UnsettledSum(s: State, rows: seq<LedgerRow>): int {
    if rows == [] then 0 else (if Settled(s, rows[0]) then 0 else rows[0].delta) + UnsettledSum(s, rows[1..])
  }

  ghost function Total(rows: seq<LedgerRow>): int {
    if rows == [] then 0 else rows[0].delta + Total(rows[1..])
  }

  lemma {:induction false} SettledStep(s: State, p: Settlement, all: seq<LedgerRow>, rows: seq<LedgerRow>)
    requires Step(s, p, all).ok && 0 <= Boundary(s, p.reviewer)
    ensures SettledSum(Step(s, p, all), rows) == SettledSum(s, rows) + RangeSum(rows, p.reviewer, p.from, p.through)
  {
    if rows != [] {
      SettledStep(s, p, all, rows[1..]);
    }
  }

  lemma {:induction false} NothingSettled(rows: seq<LedgerRow>)
    ensures SettledSum(START, rows) == 0
  {
    if rows != [] {
      NothingSettled(rows[1..]);
    }
  }

  lemma {:induction false} AmountsAreSettledRows(ps: seq<Settlement>, rows: seq<LedgerRow>, n: nat)
    requires n <= |ps| && After(ps, rows, n).ok
    ensures Amounts(ps, n) == SettledSum(After(ps, rows, n), rows)
  {
    if n == 0 {
      NothingSettled(rows);
    } else {
      AmountsAreSettledRows(ps, rows, n - 1);
      BoundaryNotNegative(ps, rows, n - 1, ps[n - 1].reviewer);
      SettledStep(After(ps, rows, n - 1), ps[n - 1], rows, rows);
    }
  }

  lemma {:induction false} SettledAndUnsettled(s: State, rows: seq<LedgerRow>)
    ensures SettledSum(s, rows) + UnsettledSum(s, rows) == Total(rows)
  {
    if rows != [] {
      SettledAndUnsettled(s, rows[1..]);
    }
  }

  /** Conservation: the reported settled total plus the rows still open is the total earned. */
  lemma Conservation(ps: seq<Settlement>, rows: seq<LedgerRow>)
    requires After(ps, rows, |ps|).ok
    ensures Amounts(ps, |ps|) + UnsettledSum(After(ps, rows, |ps|), rows) == Total(rows)
  {
    AmountsAreSettledRows(ps, rows, |ps|);
    SettledAndUnsettled(After(ps, rows, |ps|), rows);
  }
}
