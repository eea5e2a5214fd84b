/**
 The payment ledger audit of check_review_compensation_readiness.py (`audit_flexible_paid`). Credits
 carry signed deltas against the running balance of their work id; an undo carries the negated delta
 of an earlier credit. The audit accepts a ledger when no row raises an error.
 */
module ReviewLedger {
  import opened Wrappers

  const BASE_RATE_MICRO_IQD_PER_HOUR := 18_000_000_000
  const MS_PER_HOUR := 3_600_000

  datatype Action = Edit | Accept | Reject | Skip | Undo | Unsupported

  /** Which branch of the loop a row takes: it names a review event or a pool decision, it is an undo,
      or it is neither. */
  datatype Kind = Credit | Reversal | Neither

  /** `bound` says that the row agrees with the event, decision, playback receipt or reversal that it
      names; `subject` is the segment, reviewer and revision that an undo must share with its target. */
  datatype Row = Row(
    entry: int, work: int, kind: Kind, action: Action, duration: int, bps: int, entitlement: int, delta: int,
    corrected: int, deltaCorrected: int, reverses: Option<int>, subject: (int, int, int), bound: bool)

  // ----- rates

  function BasisPoints(a: Action): Option<int> {
    match a
    case Edit => Some(10_000)
    case Accept => Some(1_000)
    case Reject => Some(1_000)
    case Skip => Some(0)
    case _ => None
  }

  /** `_exact_entitlement`; None where it raises. */
  function ExactEntitlement(duration: int, bps: int): (r: Option<int>) {
    var numerator := duration * BASE_RATE_MICRO_IQD_PER_HOUR * bps;
    var denominator := MS_PER_HOUR * 10_000;
    if duration <= 0 || numerator % denominator != 0 then None else Some(numerator / denominator)
  }

  /** What a credit is worth: 5000 micro-IQD per millisecond of an edit, a tenth of it for an
      acceptance or a rejection, nothing for a skip. */
  function Worth(a: Action, duration: int): int {
    match a
    case Edit => 5_000 * duration
    case Accept => 500 * duration
    case Reject => 500 * duration
    case _ => 0
  }

  /** The rate never fails to divide; only a duration that is not positive is refused. */
  lemma EntitlementIsWorth(a: Action, duration: int)
    requires a.Edit? || a.Accept? || a.Reject?
    ensures ExactEntitlement(duration, BasisPoints(a).value) == if duration <= 0 then None else Some(Worth(a, duration))
  {
    var bps := BasisPoints(a).value;
    if a.Edit? {
      assert duration * BASE_RATE_MICRO_IQD_PER_HOUR * bps == 5_000 * duration * (MS_PER_HOUR * 10_000);
    } else {
      assert duration * BASE_RATE_MICRO_IQD_PER_HOUR * bps == 500 * duration * (MS_PER_HOUR * 10_000);
    }
  }

  // ----- the audit of one row

  /** `_check_credit_arithmetic` raises no error. */
  predicate CreditOk(r: Row, prior: int, priorCorrected: int) {
    && BasisPoints(r.action).Some?
    && var bps := BasisPoints(r.action).value;
    && var worth := if bps == 0 then Some(0) else ExactEntitlement(r.duration, bps);
    && worth.Some?
    && r.bps == bps && r.entitlement == worth.value
    && r.delta == (if r.action.Skip? then 0 else worth.value - prior)
    && r.corrected == (match r.action case Edit => r.duration case Skip => priorCorrected case _ => 0)
    && r.deltaCorrected == r.corrected - priorCorrected
  }

  /** The undo branch raises no error. */
  predicate UndoOk(r: Row, entries: map<int, Row>, reversed: set<int>, priorCorrected: int) {
    && r.reverses.Some? && r.reverses.value in entries
    && var target := entries[r.reverses.value];
    && !target.action.Undo? && target.work == r.work && target.subject == r.subject && target.duration == r.duration
    && r.reverses.value !in reversed
    && r.bps == 0 && r.entitlement == 0
    && r.delta == -target.delta && r.deltaCorrected == -target.deltaCorrected
    && r.corrected == priorCorrected + r.deltaCorrected
  }

  datatype State = State(
    entries: map<int, Row>, reversed: set<int>, balances: map<int, int>, corrected: map<int, int>, ok: bool)

  function Get(m: map<int, int>, w: int): int {
    if w in m then m[w] else 0
  }

  const START := State(map[], {}, map[], map[], true)

  /** The loop body. */
  function Step(s: State, r: Row): State {
    var prior, priorCorrected := Get(s.balances, r.work), Get(s.corrected, r.work);
    var fine := r.bound && match r.kind
      case Credit => CreditOk(r, prior, priorCorrected)
      case Reversal => r.action.Undo? && UndoOk(r, s.entries, s.reversed, priorCorrected)
      case Neither => false;
    State(
      s.entries[r.entry := r],
      if r.kind.Reversal? && r.reverses.Some? && r.reverses.value in s.entries
      then s.reversed + {r.reverses.value} else s.reversed,
      s.balances[r.work := prior + r.delta],
      s.corrected[r.work := priorCorrected + r.deltaCorrected],
      s.ok && fine && prior + r.delta >= 0 && priorCorrected + r.deltaCorrected >= 0)
  }

  ghost function After(rows: seq<Row>, n: nat): State
    requires n <= |rows|
  {
    if n == 0 then START else Step(After(rows, n - 1), rows[n - 1])
  }

  /** The ledger loop. Entry ids are a primary key of the table. */
  method Audit(rows: seq<Row>) returns (s: State)
    ensures s == After(rows, |rows|)
  {
    s := START;
    for n := 0 to |rows|
      invariant s == After(rows, n)
    {
      s := Step(s, rows[n]);
    }
  }

  ghost predicate Accepted(rows: seq<Row>) {
    After(rows, |rows|).ok
  }

  lemma {:induction false} AcceptedPrefix(rows: seq<Row>, n: nat, k: nat)
    requires k <= n <= |rows| && After(rows, n).ok
    ensures After(rows, k).ok
  {
    if k < n {
      AcceptedPrefix(rows, n - 1, k);
    }
  }

  ghost predicate DistinctEntries(rows: seq<Row>) {
    forall i, j | 0 <= i < j < |rows| :: rows[i].entry != rows[j].entry
  }

  // ----- the stack of unreversed credits

  ghost function Remove(s: seq<Row>, entry: int): seq<Row> {
    if s == [] then []
    else if s[0].entry == entry then s[1..]
    else [s[0]] + Remove(s[1..], entry)
  }

  /** The unreversed credits of one work id after n rows, oldest first. */
  ghost function Stack(rows: seq<Row>, n: nat, w: int): seq<Row>
    requires n <= |rows|
  {
    if n == 0 then []
    else
      var s, r := Stack(rows, n - 1, w), rows[n - 1];
      if r.work != w then s
      else if r.kind.Credit? then s + [r]
      else if r.reverses.Some? then Remove(s, r.reverses.value)
      else s
  }

  ghost function Sum(s: seq<Row>): int {
    if s == [] then 0 else Sum(s[..|s| - 1]) + s[|s| - 1].delta
  }

  ghost function SumCorrected(s: seq<Row>): int {
    if s == [] then 0 else SumCorrected(s[..|s| - 1]) + s[|s| - 1].deltaCorrected
  }

  /** The entitlement of the topmost credit that is not a skip; 0 if there is none. */
  ghost function Top(s: seq<Row>): int {
    if s == [] then 0
    else if s[|s| - 1].action.Skip? then Top(s[..|s| - 1])
    else s[|s| - 1].entitlement
  }

  /** The corrected milliseconds that the same credit stands for. */
  ghost function TopCorrected(s: seq<Row>): int {
    if s == [] then 0
    else if s[|s| - 1].action.Skip? then TopCorrected(s[..|s| - 1])
    else s[|s| - 1].corrected
  }

  /** Every prefix of the stack sums to the entitlement of its topmost credit. */
  ghost predicate Balanced(s: seq<Row>) {
    forall k | 0 <= k <= |s| :: Sum(s[..k]) == Top(s[..k]) && SumCorrected(s[..k]) == TopCorrected(s[..k])
  }

  // ----- sums and removals

  lemma {:induction false} SumConcat(a: seq<Row>, b: seq<Row>)
    ensures Sum(a + b) == Sum(a) + Sum(b)
    ensures SumCorrected(a + b) == SumCorrected(a) + SumCorrected(b)
    decreases |b|
  {
    if b == [] {
      assert a + b == a;
    } else {
      SumConcat(a, b[..|b| - 1]);
      assert (a + b)[..|a + b| - 1] == a + b[..|b| - 1];
    }
  }

  function Without(s: seq<Row>, k: nat): seq<Row>
    requires k < |s|
  {
    s[..k] + s[k + 1..]
  }

  lemma SumWithout(s: seq<Row>, k: nat)
    requires k < |s|
    ensures Sum(Without(s, k)) == Sum(s) - s[k].delta
    ensures SumCorrected(Without(s, k)) == SumCorrected(s) - s[k].deltaCorrected
  {
    var low, high := s[..k], s[k + 1..];
    SumConcat(low, high);
    SumConcat(s[..k + 1], high);
    assert s == s[..k + 1] + high;
    assert s[..k + 1][..k] == low;
  }

  lemma DistinctAt(s: seq<Row>, i: nat, j: nat)
    requires DistinctEntries(s) && i < |s| && j < |s| && s[i].entry == s[j].entry
    ensures i == j
  {
  }

  lemma {:induction false} RemoveIsWithout(s: seq<Row>, k: nat)
    requires k < |s| && DistinctEntries(s)
    ensures Remove(s, s[k].entry) == Without(s, k)
  {
    if k > 0 {
      assert s[0].entry != s[k].entry;
      RemoveIsWithout(s[1..], k - 1);
      assert s == [s[0]] + s[1..];
    }
  }

  // ----- what the audit's state means

  /** The stack holds credits of the first n rows, in order. */
  lemma {:induction false} StackRows(rows: seq<Row>, n: nat, w: int)
    requires n <= |rows| && DistinctEntries(rows)
    ensures forall i | 0 <= i < |Stack(rows, n, w)| :: FromRows(rows, n, w, Stack(rows, n, w)[i])
    ensures DistinctEntries(Stack(rows, n, w))
  {
    if n > 0 {
      StackRows(rows, n - 1, w);
      var s, r := Stack(rows, n - 1, w), rows[n - 1];
      forall i | 0 <= i < |s|
        ensures FromRows(rows, n, w, s[i]) && s[i].entry != r.entry
      {
        assert FromRows(rows, n - 1, w, s[i]);
      }
      if r.work == w && !r.kind.Credit? && r.reverses.Some? {
        RemoveSub(s, r.reverses.value, rows, n, w);
      }
    }
  }

  ghost predicate FromRows(rows: seq<Row>, n: nat, w: int, r: Row)
    requires n <= |rows|
  {
    r.work == w && r.kind.Credit? && exists k | 0 <= k < n :: rows[k] == r
  }

  lemma {:induction false} RemoveSub(s: seq<Row>, entry: int, rows: seq<Row>, n: nat, w: int)
    requires n <= |rows| && DistinctEntries(s) && forall i | 0 <= i < |s| :: FromRows(rows, n, w, s[i])
    ensures DistinctEntries(Remove(s, entry))
    ensures forall i | 0 <= i < |Remove(s, entry)| :: FromRows(rows, n, w, Remove(s, entry)[i])
  {
    if k :| 0 <= k < |s| && s[k].entry == entry {
      RemoveIsWithout(s, k);
      WithoutSub(s, k, rows, n, w);
    } else {
      RemoveAbsent(s, entry);
    }
  }

  lemma WithoutSub(s: seq<Row>, k: nat, rows: seq<Row>, n: nat, w: int)
    requires k < |s| && n <= |rows| && DistinctEntries(s) && forall i | 0 <= i < |s| :: FromRows(rows, n, w, s[i])
    ensures DistinctEntries(Without(s, k))
    ensures forall i | 0 <= i < |Without(s, k)| :: FromRows(rows, n, w, Without(s, k)[i])
  {
    var t := Without(s, k);
    assert forall i | 0 <= i < |t| :: t[i] == if i < k then s[i] else s[i + 1];
  }

  lemma {:induction false} RemoveAbsent(s: seq<Row>, entry: int)
    requires forall k | 0 <= k < |s| :: s[k].entry != entry
    ensures Remove(s, entry) == s
  {
    if s != [] {
      RemoveAbsent(s[1..], entry);
    }
  }

  /** The entries seen so far, and where the unreversed credits among them are. */
  ghost predicate Indexed(rows: seq<Row>, n: nat, s: State)
    requires n <= |rows|
  {
    && (forall id | id in s.entries :: exists k | 0 <= k < n :: rows[k] == s.entries[id] && rows[k].entry == id)
    && (forall id | id in s.entries && !s.entries[id].action.Undo? && id !in s.reversed ::
          s.entries[id] in Stack(rows, n, s.entries[id].work))
  }

  lemma {:induction false} IndexedAfter(rows: seq<Row>, n: nat)
    requires n <= |rows| && DistinctEntries(rows) && After(rows, n).ok
    ensures Indexed(rows, n, After(rows, n))
  {
    if n > 0 {
      IndexedAfter(rows, n - 1);
      IndexedStep(rows, n);
    }
  }

  lemma IndexedStep(rows: seq<Row>, n: nat)
    requires 0 < n <= |rows| && DistinctEntries(rows) && After(rows, n).ok && Indexed(rows, n - 1, After(rows, n - 1))
    ensures Indexed(rows, n, After(rows, n))
  {
    var s, t, r := After(rows, n - 1), After(rows, n), rows[n - 1];
    forall id | id in t.entries
      ensures exists k | 0 <= k < n :: rows[k] == t.entries[id] && rows[k].entry == id
    {
      if id == r.entry {
        assert rows[n - 1] == t.entries[id];
      } else {
        var k :| 0 <= k < n - 1 && rows[k] == s.entries[id] && rows[k].entry == id;
      }
    }
    forall id | id in t.entries && !t.entries[id].action.Undo? && id !in t.reversed
      ensures t.entries[id] in Stack(rows, n, t.entries[id].work)
    {
      if id == r.entry {
        assert Stack(rows, n, r.work)[|Stack(rows, n - 1, r.work)|] == r;
      } else {
        KeptInStack(rows, n, s.entries[id]);
      }
    }
  }

  /** A credit that the n-th row does not name stays in its stack. */
  lemma KeptInStack(rows: seq<Row>, n: nat, x: Row)
    requires 0 < n <= |rows| && DistinctEntries(rows) && x in Stack(rows, n - 1, x.work)
    requires rows[n - 1].kind.Credit? || rows[n - 1].reverses != Some(x.entry)
    ensures x in Stack(rows, n, x.work)
  {
    var s, r := Stack(rows, n - 1, x.work), rows[n - 1];
    StackRows(rows, n - 1, x.work);
    if r.work == x.work && !r.kind.Credit? && r.reverses.Some? {
      if k :| 0 <= k < |s| && s[k].entry == r.reverses.value {
        RemoveIsWithout(s, k);
        var i :| 0 <= i < |s| && s[i] == x;
        assert Without(s, k)[if i < k then i else i - 1] == x;
      } else {
        RemoveAbsent(s, r.reverses.value);
      }
    }
  }

  /** An accepted undo names an entry of the stack, and its row takes exactly that entry away. */
  lemma UndoTarget(rows: seq<Row>, n: nat) returns (k: nat)
    requires n < |rows| && DistinctEntries(rows) && After(rows, n + 1).ok && rows[n].kind.Reversal?
    ensures var s := Stack(rows, n, rows[n].work);
            && k < |s| && rows[n].reverses == Some(s[k].entry)
            && rows[n].delta == -s[k].delta && rows[n].deltaCorrected == -s[k].deltaCorrected
            && Stack(rows, n + 1, rows[n].work) == Without(s, k)
            && DistinctEntries(s)
  {
    var s, r := Stack(rows, n, rows[n].work), rows[n];
    StackRows(rows, n, r.work);
    var target := UndoNames(rows, n);
    k :| 0 <= k < |s| && s[k] == target;
    RemoveIsWithout(s, k);
  }

  lemma UndoNames(rows: seq<Row>, n: nat) returns (target: Row)
    requires n < |rows| && DistinctEntries(rows) && After(rows, n + 1).ok && rows[n].kind.Reversal?
    ensures target in Stack(rows, n, rows[n].work) && rows[n].reverses == Some(target.entry)
    ensures rows[n].delta == -target.delta && rows[n].deltaCorrected == -target.deltaCorrected
  {
    var before, r := After(rows, n), rows[n];
    AcceptedPrefix(rows, n + 1, n);
    IndexedAfter(rows, n);
    assert After(rows, n + 1) == Step(before, r);
    UndoBinds(before, r);
    var id := r.reverses.value;
    target := before.entries[id];
    assert target in Stack(rows, n, before.entries[id].work);
    var k :| 0 <= k < n && rows[k] == before.entries[id] && rows[k].entry == id;
  }

  /** What the undo branch has checked. */
  lemma UndoBinds(s: State, r: Row)
    requires Step(s, r).ok && r.kind.Reversal?
    ensures r.reverses.Some? && r.reverses.value in s.entries && r.reverses.value !in s.reversed
    ensures var target := s.entries[r.reverses.value];
            && !target.action.Undo? && target.work == r.work
            && r.delta == -target.delta && r.deltaCorrected == -target.deltaCorrected
  {
  }

  /** One row: what it adds to its work id's balances is what it adds to the sums of the stack. */
  lemma SumsStep(rows: seq<Row>, n: nat)
    requires n < |rows| && DistinctEntries(rows) && After(rows, n + 1).ok
    ensures var w := rows[n].work;
            && Sum(Stack(rows, n + 1, w)) == Sum(Stack(rows, n, w)) + rows[n].delta
            && SumCorrected(Stack(rows, n + 1, w)) == SumCorrected(Stack(rows, n, w)) + rows[n].deltaCorrected
  {
    var s, r := Stack(rows, n, rows[n].work), rows[n];
    if r.kind.Credit? {
      assert (s + [r])[..|s|] == s;
    } else {
      assert After(rows, n + 1) == Step(After(rows, n), r);
      var k := UndoTarget(rows, n);
      SumWithout(s, k);
    }
  }

  /** The running balances are the sums of the stacks: reversed credits and their undos cancel. */
  lemma {:induction false} BalancesAreSums(rows: seq<Row>, n: nat, w: int)
    requires n <= |rows| && DistinctEntries(rows) && After(rows, n).ok
    ensures Get(After(rows, n).balances, w) == Sum(Stack(rows, n, w))
    ensures Get(After(rows, n).corrected, w) == SumCorrected(Stack(rows, n, w))
  {
    if n > 0 {
      var m := n - 1;
      BalancesAreSums(rows, m, w);
      assert After(rows, n) == Step(After(rows, m), rows[m]);
      if rows[m].work == w { SumsStep(rows, m); }
    }
  }

  // ----- when every prefix of the stack is worth its topmost credit

  ghost predicate AllSkips(s: seq<Row>) {
    forall i | 0 <= i < |s| :: s[i].action.Skip?
  }

  /** A skip moves neither balance. */
  ghost predicate SkipsAreFree(s: seq<Row>) {
    forall i | 0 <= i < |s| && s[i].action.Skip? :: s[i].delta == 0 && s[i].deltaCorrected == 0
  }

  lemma {:induction false} SkipsAboveDoNotCount(a: seq<Row>, b: seq<Row>)
    requires AllSkips(b) && SkipsAreFree(b)
    ensures Top(a + b) == Top(a) && TopCorrected(a + b) == TopCorrected(a)
    ensures Sum(b) == 0 && SumCorrected(b) == 0
    decreases |b|
  {
    if b == [] {
      assert a + b == a;
    } else {
      SkipsAboveDoNotCount(a, b[..|b| - 1]);
      assert (a + b)[..|a + b| - 1] == a + b[..|b| - 1];
    }
  }

  lemma {:induction false} TopIgnoresBelow(a: seq<Row>, a': seq<Row>, b: seq<Row>)
    requires !AllSkips(b)
    ensures Top(a + b) == Top(a' + b) && TopCorrected(a + b) == TopCorrected(a' + b)
    decreases |b|
  {
    if b[|b| - 1].action.Skip? {
      TopIgnoresBelow(a, a', b[..|b| - 1]);
      assert (a + b)[..|a + b| - 1] == a + b[..|b| - 1];
      assert (a' + b)[..|a' + b| - 1] == a' + b[..|b| - 1];
    }
  }

  /** An undo that leaves the property alone: its credit moved nothing, or only skips lie above it. */
  ghost predicate Harmless(s: seq<Row>, k: nat)
    requires k < |s|
  {
    (s[k].delta == 0 && s[k].deltaCorrected == 0) || AllSkips(s[k + 1..])
  }

  /** Prefixes of a stack with one entry taken out. */
  lemma WithoutPrefix(s: seq<Row>, k: nat, j: nat)
    requires k < |s| && k <= j < |s|
    ensures Without(s, k)[..j] == s[..k] + s[k + 1..j + 1]
    ensures s[..j + 1] == s[..k + 1] + s[k + 1..j + 1]
    ensures Sum(Without(s, k)[..j]) == Sum(s[..j + 1]) - s[k].delta
    ensures SumCorrected(Without(s, k)[..j]) == SumCorrected(s[..j + 1]) - s[k].deltaCorrected
  {
    var t := s[..j + 1];
    SumWithout(t, k);
    assert Without(t, k) == Without(s, k)[..j];
  }

  lemma HarmlessKeeps(s: seq<Row>, k: nat)
    requires Balanced(s) && SkipsAreFree(s) && k < |s| && Harmless(s, k)
    ensures Balanced(Without(s, k))
  {
    var t := Without(s, k);
    forall j | 0 <= j <= |t|
      ensures Sum(t[..j]) == Top(t[..j]) && SumCorrected(t[..j]) == TopCorrected(t[..j])
    {
      if j <= k {
        assert t[..j] == s[..j];
      } else {
        var mid := s[k + 1..j + 1];
        WithoutPrefix(s, k, j);
        if AllSkips(mid) {
          SkipsAboveDoNotCount(s[..k], mid);
          SumConcat(s[..k], mid);
        } else {
          TopIgnoresBelow(s[..k], s[..k + 1], mid);
        }
      }
    }
  }

  lemma KeepsOnlyIfHarmless(s: seq<Row>, k: nat)
    requires Balanced(s) && k < |s| && Balanced(Without(s, k))
    ensures Harmless(s, k)
  {
    if i :| k < i < |s| && !s[i].action.Skip? {
      var mid := s[k + 1..i + 1];
      WithoutPrefix(s, k, i);
      assert !mid[i - k - 1].action.Skip?;
      TopIgnoresBelow(s[..k], s[..k + 1], mid);
      assert Sum(Without(s, k)[..i]) == Top(Without(s, k)[..i]);
    }
  }

  /** A credit that the audit accepts against the sums of a balanced stack keeps it balanced. */
  lemma CreditKeeps(s: seq<Row>, r: Row)
    requires Balanced(s) && CreditOk(r, Sum(s), SumCorrected(s))
    ensures Balanced(s + [r])
  {
    var t := s + [r];
    CreditOnTop(s, r);
    forall k | 0 <= k <= |t|
      ensures Sum(t[..k]) == Top(t[..k]) && SumCorrected(t[..k]) == TopCorrected(t[..k])
    {
      if k <= |s| {
        assert t[..k] == s[..k];
      } else {
        assert t[..k] == t;
      }
    }
  }

  lemma CreditOnTop(s: seq<Row>, r: Row)
    requires Balanced(s) && CreditOk(r, Sum(s), SumCorrected(s))
    ensures Sum(s + [r]) == Top(s + [r]) && SumCorrected(s + [r]) == TopCorrected(s + [r])
  {
    var t, n := s + [r], |s|;
    assert s[..n] == s;
    assert Sum(s[..n]) == Top(s[..n]) && SumCorrected(s[..n]) == TopCorrected(s[..n]);
    assert t[..|t| - 1] == s;
    CreditMeans(r, Sum(s), SumCorrected(s));
  }

  lemma CreditMeans(r: Row, prior: int, priorCorrected: int)
    requires CreditOk(r, prior, priorCorrected)
    ensures if r.action.Skip? then r.delta == 0 && r.deltaCorrected == 0
            else prior + r.delta == r.entitlement && priorCorrected + r.deltaCorrected == r.corrected
  {
  }

  lemma {:induction false} StackSkips(rows: seq<Row>, n: nat, w: int)
    requires n <= |rows| && DistinctEntries(rows) && After(rows, n).ok
    ensures SkipsAreFree(Stack(rows, n, w))
  {
    if n > 0 {
      StackSkips(rows, n - 1, w);
      if rows[n - 1].work == w && rows[n - 1].kind.Reversal? {
        var k := UndoTarget(rows, n - 1);
      }
    }
  }

  /** The undo at row n, if there is one, is harmless to its stack. */
  ghost predicate HarmlessAt(rows: seq<Row>, n: nat)
    requires n < |rows|
  {
    rows[n].kind.Reversal? ==>
      var s := Stack(rows, n, rows[n].work);
      forall k | 0 <= k < |s| && rows[n].reverses == Some(s[k].entry) :: Harmless(s, k)
  }

  ghost predicate AllBalanced(rows: seq<Row>, n: nat)
    requires n <= |rows|
  {
    forall w :: Balanced(Stack(rows, n, w))
  }

  lemma OtherStacksKept(rows: seq<Row>, n: nat, w: int)
    requires n < |rows| && w != rows[n].work
    ensures Stack(rows, n + 1, w) == Stack(rows, n, w)
  {
  }

  lemma AllBalancedIff(rows: seq<Row>, n: nat)
    requires n < |rows| && AllBalanced(rows, n)
    ensures AllBalanced(rows, n + 1) <==> Balanced(Stack(rows, n + 1, rows[n].work))
  {
    var m := n + 1;
    if Balanced(Stack(rows, m, rows[n].work)) {
      forall w
        ensures Balanced(Stack(rows, m, w))
      {
        if w != rows[n].work {
          OtherStacksKept(rows, n, w);
          assert Balanced(Stack(rows, n, w));
        }
      }
    }
  }

  lemma HarmlessAtIff(rows: seq<Row>, n: nat, k: nat)
    requires n < |rows| && rows[n].kind.Reversal?
    requires var s := Stack(rows, n, rows[n].work);
             k < |s| && DistinctEntries(s) && rows[n].reverses == Some(s[k].entry)
    ensures HarmlessAt(rows, n) <==> Harmless(Stack(rows, n, rows[n].work), k)
  {
    var s := Stack(rows, n, rows[n].work);
    forall j | 0 <= j < |s| && rows[n].reverses == Some(s[j].entry)
      ensures j == k
    {
      DistinctAt(s, j, k);
    }
  }

  /** One row keeps all stacks balanced exactly when it is no harmful undo. */
  lemma RowKeepsIff(rows: seq<Row>, n: nat)
    requires n < |rows| && DistinctEntries(rows) && After(rows, n + 1).ok && AllBalanced(rows, n)
    ensures AllBalanced(rows, n + 1) <==> HarmlessAt(rows, n)
  {
    var r := rows[n];
    var s := Stack(rows, n, r.work);
    assert Balanced(s);
    AllBalancedIff(rows, n);
    if r.kind.Credit? {
      BalancesAreSums(rows, n, r.work);
      CreditKeeps(s, r);
    } else {
      StackSkips(rows, n, r.work);
      var k := UndoTarget(rows, n);
      HarmlessAtIff(rows, n, k);
      if Harmless(s, k) {
        HarmlessKeeps(s, k);
      }
      if Balanced(Without(s, k)) {
        KeepsOnlyIfHarmless(s, k);
      }
    }
  }

  /** The exact condition over whole ledgers: in an accepted ledger every prefix of every stack is
      worth its topmost credit at all times if and only if every undo is harmless. */
  lemma {:induction false} BalancedIffHarmless(rows: seq<Row>, n: nat)
    requires n <= |rows| && DistinctEntries(rows) && After(rows, n).ok
    ensures (forall i | 0 <= i <= n :: AllBalanced(rows, i)) <==> (forall i | 0 <= i < n :: HarmlessAt(rows, i))
  {
    if n > 0 {
      var m := n - 1;
      AcceptedPrefix(rows, n, m);
      BalancedIffHarmless(rows, m);
      if AllBalanced(rows, m) {
        RowKeepsIff(rows, m);
      }
      assert (forall i | 0 <= i <= n :: AllBalanced(rows, i))
        <==> (forall i | 0 <= i <= m :: AllBalanced(rows, i)) && AllBalanced(rows, n);
    }
  }

  /** Each undo names the newest unreversed entry of its work id. */
  ghost predicate NewestFirst(rows: seq<Row>) {
    forall n | 0 <= n < |rows| && rows[n].kind.Reversal? :: NewestAt(rows, n)
  }

  ghost predicate NewestAt(rows: seq<Row>, n: nat)
    requires n < |rows|
  {
    var s := Stack(rows, n, rows[n].work);
    s != [] && rows[n].reverses == Some(s[|s| - 1].entry)
  }

  lemma NewestFirstHarmless(rows: seq<Row>, n: nat)
    requires Accepted(rows) && DistinctEntries(rows) && NewestFirst(rows) && n < |rows|
    ensures HarmlessAt(rows, n)
  {
    if rows[n].kind.Reversal? {
      assert NewestAt(rows, n);
      StackRows(rows, n, rows[n].work);
      HarmlessAtIff(rows, n, |Stack(rows, n, rows[n].work)| - 1);
    }
  }

  /** In an accepted ledger with newest-first undos, at every point: every prefix of every stack is
      worth its topmost credit, and the balances of every work id are the entitlement and the
      corrected milliseconds of its topmost credit, so re-decisions never stack. */
  lemma NewestFirstBalances(rows: seq<Row>, n: nat, w: int)
    requires Accepted(rows) && DistinctEntries(rows) && NewestFirst(rows) && n <= |rows|
    ensures Balanced(Stack(rows, n, w))
    ensures Get(After(rows, n).balances, w) == Top(Stack(rows, n, w))
    ensures Get(After(rows, n).corrected, w) == TopCorrected(Stack(rows, n, w))
  {
    forall i | 0 <= i < |rows|
      ensures HarmlessAt(rows, i)
    {
      NewestFirstHarmless(rows, i);
    }
    BalancedIffHarmless(rows, |rows|);
    assert AllBalanced(rows, n);
    AcceptedPrefix(rows, |rows|, n);
    BalancesAreSums(rows, n, w);
    var s := Stack(rows, n, w);
    assert s[..|s|] == s;
  }

  /** A newest-first undo brings back both balances from before the credit it reverses. */
  lemma UndoRestores(rows: seq<Row>, n: nat)
    requires n < |rows| && After(rows, n + 1).ok && DistinctEntries(rows) && rows[n].kind.Reversal? && NewestAt(rows, n)
    ensures var w := rows[n].work;
            var s := Stack(rows, n, w);
            && Stack(rows, n + 1, w) == s[..|s| - 1]
            && Get(After(rows, n + 1).balances, w) == Sum(s[..|s| - 1])
            && Get(After(rows, n + 1).corrected, w) == SumCorrected(s[..|s| - 1])
  {
    var s := Stack(rows, n, rows[n].work);
    var k := UndoTarget(rows, n);
    DistinctAt(s, k, |s| - 1);
    assert Without(s, k) == s[..|s| - 1];
    BalancesAreSums(rows, n + 1, rows[n].work);
  }

  /** The topmost credit that is not a skip. */
  ghost function TopCredit(s: seq<Row>): Option<Row> {
    if s == [] then None
    else if s[|s| - 1].action.Skip? then TopCredit(s[..|s| - 1])
    else Some(s[|s| - 1])
  }

  lemma {:induction false} TopIsWorth(rows: seq<Row>, n: nat, w: int, s: seq<Row>)
    requires n <= |rows| && After(rows, n).ok && forall i | 0 <= i < |s| :: FromRows(rows, n, w, s[i])
    ensures match TopCredit(s)
            case None => Top(s) == 0
            case Some(r) => r in s && 0 < r.duration && Top(s) == Worth(r.action, r.duration)
  {
    if s != [] {
      var r := s[|s| - 1];
      if r.action.Skip? {
        TopIsWorth(rows, n, w, s[..|s| - 1]);
      } else {
        assert FromRows(rows, n, w, r);
        var k :| 0 <= k < n && rows[k] == r;
        AcceptedPrefix(rows, n, k + 1);
        assert r.action.Edit? || r.action.Accept? || r.action.Reject?;
        EntitlementIsWorth(r.action, r.duration);
      }
    }
  }

  /** A work id is worth exactly its topmost credit, so at most 5000 micro-IQD per millisecond of that
      credit's duration, and nothing when no credit but skips is left. */
  lemma BalanceBounded(rows: seq<Row>, n: nat, w: int)
    requires Accepted(rows) && DistinctEntries(rows) && NewestFirst(rows) && n <= |rows|
    ensures var b := Get(After(rows, n).balances, w);
            match TopCredit(Stack(rows, n, w))
            case None => b == 0
            case Some(r) => 0 < r.duration && b == Worth(r.action, r.duration) <= 5_000 * r.duration
  {
    NewestFirstBalances(rows, n, w);
    AcceptedPrefix(rows, |rows|, n);
    StackRows(rows, n, w);
    TopIsWorth(rows, n, w, Stack(rows, n, w));
  }

  lemma {:induction false} TopCorrectedIsEdited(rows: seq<Row>, n: nat, w: int, s: seq<Row>)
    requires n <= |rows| && After(rows, n).ok && forall i | 0 <= i < |s| :: FromRows(rows, n, w, s[i])
    ensures match TopCredit(s)
            case None => TopCorrected(s) == 0
            case Some(r) => TopCorrected(s) == if r.action.Edit? then r.duration else 0
  {
    if s != [] {
      var r := s[|s| - 1];
      if r.action.Skip? {
        TopCorrectedIsEdited(rows, n, w, s[..|s| - 1]);
      } else {
        assert FromRows(rows, n, w, r);
        var k :| 0 <= k < n && rows[k] == r;
        AcceptedPrefix(rows, n, k + 1);
      }
    }
  }

  /** Corrected audio is the duration of the topmost credit if that is an edit; an acceptance or rejection
      on top earns none, and neither do skips alone. */
  lemma CorrectedOnlyByEdit(rows: seq<Row>, n: nat, w: int)
    requires Accepted(rows) && DistinctEntries(rows) && NewestFirst(rows) && n <= |rows|
    ensures Get(After(rows, n).corrected, w) ==
            match TopCredit(Stack(rows, n, w))
            case None => 0
            case Some(r) => if r.action.Edit? then r.duration else 0
  {
    NewestFirstBalances(rows, n, w);
    AcceptedPrefix(rows, |rows|, n);
    StackRows(rows, n, w);
    TopCorrectedIsEdited(rows, n, w, Stack(rows, n, w));
  }

  // ----- exactly which rows the audit accepts

  /** A credit that fits the balances of its work id: the tariff of its action, the difference to the
      money balance, and the corrected audio that its action sets. */
  ghost predicate CreditFits(r: Row, money: int, audio: int) {
    match r.action
    case Edit =>
      && r.duration >= 1 && r.bps == 10_000 && r.entitlement == 5_000 * r.duration
      && r.delta == 5_000 * r.duration - money && r.corrected == r.duration && r.deltaCorrected == r.duration - audio
    case Accept =>
      && r.duration >= 1 && r.bps == 1_000 && r.entitlement == 500 * r.duration
      && r.delta == 500 * r.duration - money && r.corrected == 0 && r.deltaCorrected == -audio
    case Reject =>
      && r.duration >= 1 && r.bps == 1_000 && r.entitlement == 500 * r.duration
      && r.delta == 500 * r.duration - money && r.corrected == 0 && r.deltaCorrected == -audio
    case Skip =>
      r.bps == 0 && r.entitlement == 0 && r.delta == 0 && r.corrected == audio && r.deltaCorrected == 0
    case _ => false
  }

  /** An undo of the credit x: same subject and duration, everything that x moved moved back. */
  ghost predicate Undoes(r: Row, x: Row, audio: int) {
    && r.reverses == Some(x.entry) && r.subject == x.subject && r.duration == x.duration
    && r.bps == 0 && r.entitlement == 0
    && r.delta + x.delta == 0 && r.deltaCorrected + x.deltaCorrected == 0
    && r.corrected == audio - x.deltaCorrected
  }

  /** The row agrees with what it names, and is a credit that fits the unreversed credits of its work id or
      the undo of one of them; it makes no balance negative. */
  ghost predicate Fits(rows: seq<Row>, n: nat)
    requires n < |rows|
  {
    var r := rows[n];
    var s := Stack(rows, n, r.work);
    && r.bound && Sum(s) + r.delta >= 0 && SumCorrected(s) + r.deltaCorrected >= 0
    && match r.kind
       case Credit => CreditFits(r, Sum(s), SumCorrected(s))
       case Reversal => r.action == Undo && UndoesSome(r, s, SumCorrected(s))
       case Neither => false
  }

  lemma CreditOkIff(r: Row, money: int, audio: int)
    ensures CreditOk(r, money, audio) <==> CreditFits(r, money, audio)
    ensures CreditFits(r, money, audio) ==> r.entitlement == Worth(r.action, r.duration)
  {
    if r.action.Edit? || r.action.Accept? || r.action.Reject? {
      EntitlementIsWorth(r.action, r.duration);
    }
  }

  lemma {:induction false} ReversedOnRecord(rows: seq<Row>, n: nat)
    requires n <= |rows|
    ensures forall id | id in After(rows, n).reversed :: id in After(rows, n).entries
    ensures forall id | id in After(rows, n).entries :: exists k | 0 <= k < n :: rows[k].entry == id
  {
    if n > 0 {
      ReversedOnRecord(rows, n - 1);
      assert rows[n - 1].entry == rows[n - 1].entry;
    }
  }

  /** An unreversed credit is on record under its entry id. */
  lemma {:induction false} StackIndexed(rows: seq<Row>, n: nat, w: int, x: Row)
    requires n <= |rows| && DistinctEntries(rows) && After(rows, n).ok && x in Stack(rows, n, w)
    ensures var s := After(rows, n);
            x.entry in s.entries && s.entries[x.entry] == x && x.entry !in s.reversed
    ensures x.work == w && !x.action.Undo?
  {
    var r, m := rows[n - 1], n - 1;
    AcceptedPrefix(rows, n, m);
    assert After(rows, n) == Step(After(rows, m), r);
    if r.work == w && r.kind.Credit? && x == r {
      ReversedOnRecord(rows, m);
    } else {
      StillInStack(rows, m, w, x);
      StackIndexed(rows, m, w, x);
      StackRows(rows, m, w);
      assert FromRows(rows, m, w, x);
      if r.kind.Reversal? { UndoBinds(After(rows, m), r); }
    }
  }

  /** What is on the stack after an accepted row and is not that row was there before and is not undone. */
  lemma StillInStack(rows: seq<Row>, m: nat, w: int, x: Row)
    requires m < |rows| && DistinctEntries(rows) && After(rows, m + 1).ok && x in Stack(rows, m + 1, w)
    requires !(rows[m].work == w && rows[m].kind.Credit? && x == rows[m])
    ensures x in Stack(rows, m, w)
    ensures rows[m].work == w && rows[m].kind.Reversal? ==> rows[m].reverses != Some(x.entry)
  {
    if rows[m].work == w && rows[m].kind.Reversal? {
      var k := UndoTarget(rows, m);
      StaysWithout(Stack(rows, m, w), k, x);
    } else {
      assert After(rows, m + 1) == Step(After(rows, m), rows[m]);
      assert rows[m].work == w ==> Stack(rows, m + 1, w) == Stack(rows, m, w) + [rows[m]];
    }
  }

  lemma StaysWithout(s: seq<Row>, k: nat, x: Row)
    requires k < |s| && DistinctEntries(s) && x in Without(s, k)
    ensures x in s && x.entry != s[k].entry
  {
    var i :| 0 <= i < |Without(s, k)| && Without(s, k)[i] == x;
    assert x == s[if i < k then i else i + 1];
  }

  ghost predicate UndoesSome(r: Row, s: seq<Row>, audio: int) { exists x :: x in s && Undoes(r, x, audio) }

  /** The undo of a credit on record. */
  lemma UndoOkMeans(r: Row, entries: map<int, Row>, reversed: set<int>, audio: int, x: Row)
    requires x.entry in entries && entries[x.entry] == x && x.entry !in reversed && x.work == r.work && !x.action.Undo?
    requires r.reverses == Some(x.entry)
    ensures UndoOk(r, entries, reversed, audio) <==> Undoes(r, x, audio)
  {
  }

  lemma UndoOkIf(rows: seq<Row>, n: nat, audio: int, x: Row)
    requires n < |rows| && DistinctEntries(rows) && After(rows, n).ok
    requires x in Stack(rows, n, rows[n].work) && Undoes(rows[n], x, audio)
    ensures UndoOk(rows[n], After(rows, n).entries, After(rows, n).reversed, audio)
  {
    StackIndexed(rows, n, rows[n].work, x);
    UndoOkMeans(rows[n], After(rows, n).entries, After(rows, n).reversed, audio, x);
  }

  lemma UndoOkOnlyIf(rows: seq<Row>, n: nat, audio: int)
    requires n < |rows| && DistinctEntries(rows) && After(rows, n).ok
    requires UndoOk(rows[n], After(rows, n).entries, After(rows, n).reversed, audio)
    ensures UndoesSome(rows[n], Stack(rows, n, rows[n].work), audio)
  {
    var r, t := rows[n], After(rows, n);
    IndexedAfter(rows, n);
    var x := OnRecord(rows, n, t, r.reverses.value);
    UndoOkMeans(r, t.entries, t.reversed, audio, x);
  }

  lemma OnRecord(rows: seq<Row>, n: nat, t: State, id: int) returns (x: Row)
    requires n <= |rows| && Indexed(rows, n, t) && id in t.entries
    ensures x == t.entries[id] && x.entry == id
    ensures !x.action.Undo? && id !in t.reversed ==> x in Stack(rows, n, x.work)
  {
    x := t.entries[id];
    var k :| 0 <= k < n && rows[k] == t.entries[id] && rows[k].entry == id;
  }

  lemma UndoOkIff(rows: seq<Row>, n: nat, audio: int)
    requires n < |rows| && DistinctEntries(rows) && After(rows, n).ok
    ensures UndoOk(rows[n], After(rows, n).entries, After(rows, n).reversed, audio)
       <==> UndoesSome(rows[n], Stack(rows, n, rows[n].work), audio)
  {
    if UndoesSome(rows[n], Stack(rows, n, rows[n].work), audio) {
      var x :| x in Stack(rows, n, rows[n].work) && Undoes(rows[n], x, audio);
      UndoOkIf(rows, n, audio, x);
    } else if UndoOk(rows[n], After(rows, n).entries, After(rows, n).reversed, audio) {
      UndoOkOnlyIf(rows, n, audio);
    }
  }

  lemma FitsIff(rows: seq<Row>, n: nat)
    requires n < |rows| && DistinctEntries(rows) && After(rows, n).ok
    ensures After(rows, n + 1).ok <==> Fits(rows, n)
  {
    var r := rows[n];
    var s := Stack(rows, n, r.work);
    assert After(rows, n + 1) == Step(After(rows, n), r);
    BalancesAreSums(rows, n, r.work);
    if r.kind.Credit? { CreditOkIff(r, Sum(s), SumCorrected(s)); }
    if r.kind.Reversal? { UndoOkIff(rows, n, SumCorrected(s)); }
  }

  /** The audit accepts a ledger if and only if every row fits the unreversed credits before it. */
  lemma {:induction false} AcceptedIffFits(rows: seq<Row>, n: nat)
    requires n <= |rows| && DistinctEntries(rows)
    ensures After(rows, n).ok <==> forall i | 0 <= i < n :: Fits(rows, i)
  {
    if n > 0 {
      AcceptedIffFits(rows, n - 1);
      assert After(rows, n) == Step(After(rows, n - 1), rows[n - 1]);
      if After(rows, n - 1).ok { FitsIff(rows, n - 1); }
    }
  }

  // ----- an undo that is not newest-first

  const FIRST := Row(1, 7, Credit, Accept, 1, 1_000, 500, 500, 0, 0, None, (1, 1, 1), true)
  const SECOND := Row(2, 7, Credit, Edit, 1, 10_000, 5_000, 4_500, 1, 1, None, (1, 1, 1), true)
  const UNDO_FIRST := Row(3, 7, Reversal, Undo, 1, 0, 0, -500, 1, 0, Some(1), (1, 1, 1), true)

  /** The audit accepts an undo of the older of two credits, and the work id is then worth 4500 where
      its only remaining credit says 5000. */
  lemma OlderUndoAccepted()
    ensures var rows := [FIRST, SECOND, UNDO_FIRST];
            && Accepted(rows) && DistinctEntries(rows)
            && Get(After(rows, 3).balances, 7) == 4_500
            && Stack(rows, 3, 7) == [SECOND] && Top(Stack(rows, 3, 7)) == 5_000
  {
    var rows := [FIRST, SECOND, UNDO_FIRST];
    EntitlementIsWorth(Accept, 1);
    EntitlementIsWorth(Edit, 1);
    assert After(rows, 1) == Step(START, FIRST);
    assert After(rows, 2) == Step(After(rows, 1), SECOND);
    assert After(rows, 3) == Step(After(rows, 2), UNDO_FIRST);
    assert Stack(rows, 1, 7) == [FIRST];
    assert Stack(rows, 2, 7) == [FIRST, SECOND];
    assert Remove([FIRST, SECOND], 1) == [SECOND];
  }
}
