/**
 Segment building of build_halwest_dataset.py: greedy merging of speech intervals and ordered
 allocation of text units to the merged chunks. Times are exact reals.
 */
module Halwest {
  import opened Sequences
  import opened Wrappers

  datatype Interval = Interval(start: real, end: real) {
    function Duration(): real { end - start }
  }

  const MIN_SEG_DUR := 3.0
  const MAX_SEG_DUR := 12.0
  const TARGET_SEG_DUR := 7.0

  // ----- runs of inputs

  /** The inputs from `first` up to but not including `after`. */
  datatype Run = Run(first: nat, after: nat) {
    predicate Within(xs: seq<Interval>) { first < after <= |xs| }

    function Span(xs: seq<Interval>): Interval
      requires Within(xs)
    {
      Interval(xs[first].start, xs[after - 1].end)
    }
  }

  /** The input after a run may be merged into it. */
  predicate Joins(xs: seq<Interval>, run: Run)
    requires run.Within(xs) && run.after < |xs|
  {
    var candidate := xs[run.after].end - xs[run.first].start;
    var current := run.Span(xs).Duration();
    candidate <= MAX_SEG_DUR && (current < MIN_SEG_DUR || candidate <= TARGET_SEG_DUR)
  }

  /** An input joins a run when the whole stays within twelve seconds and either the run is still shorter
      than three or the whole stays within seven. */
  lemma JoinsIff(xs: seq<Interval>, run: Run)
    requires run.Within(xs) && run.after < |xs|
    ensures var whole, now := xs[run.after].end - xs[run.first].start, xs[run.after - 1].end - xs[run.first].start;
            Joins(xs, run) <==> whole <= 12.0 && (now < 3.0 || whole <= 7.0)
  {
  }

  /** The greedy runs, from a current run on. */
  function Runs(xs: seq<Interval>, run: Run): seq<Run>
    requires run.Within(xs)
    decreases |xs| - run.after
  {
    if run.after == |xs| then [run]
    else if Joins(xs, run) then Runs(xs, Run(run.first, run.after + 1))
    else [run] + Runs(xs, Run(run.after, run.after + 1))
  }

  predicate AllWithin(xs: seq<Interval>, runs: seq<Run>) {
    forall k | 0 <= k < |runs| :: runs[k].Within(xs)
  }

  /** The runs that are long enough. */
  function Kept(xs: seq<Interval>, runs: seq<Run>): seq<Interval>
    requires AllWithin(xs, runs)
  {
    if runs == [] then []
    else
      var span := runs[0].Span(xs);
      (if span.Duration() >= MIN_SEG_DUR then [span] else []) + Kept(xs, runs[1..])
  }

  /** Consecutive runs that together are all inputs from `from` on, each once and in order. */
  ghost predicate Cover(xs: seq<Interval>, runs: seq<Run>, from: nat) {
    && runs != [] && runs[0].first == from && runs[|runs| - 1].after == |xs|
    && AllWithin(xs, runs)
    && forall k | 0 < k < |runs| :: runs[k].first == runs[k - 1].after
  }

  lemma {:induction false} RunsCover(xs: seq<Interval>, run: Run)
    requires run.Within(xs)
    ensures Cover(xs, Runs(xs, run), run.first)
    decreases |xs| - run.after
  {
    if run.after < |xs| {
      if Joins(xs, run) {
        RunsCover(xs, Run(run.first, run.after + 1));
      } else {
        var rest := Runs(xs, Run(run.after, run.after + 1));
        RunsCover(xs, Run(run.after, run.after + 1));
        assert forall k | 0 < k < |[run] + rest| :: ([run] + rest)[k] == rest[k - 1];
      }
    }
  }

  /** A run of several inputs is no longer than the maximum. */
  predicate SingleOrShort(xs: seq<Interval>, run: Run)
    requires run.Within(xs)
  {
    run.after == run.first + 1 || run.Span(xs).Duration() <= MAX_SEG_DUR
  }

  lemma {:induction false} RunsBounded(xs: seq<Interval>, run: Run, r: Run)
    requires run.Within(xs) && SingleOrShort(xs, run) && r in Runs(xs, run)
    ensures r.Within(xs) && SingleOrShort(xs, r)
    decreases |xs| - run.after
  {
    if run.after < |xs| {
      if Joins(xs, run) {
        RunsBounded(xs, Run(run.first, run.after + 1), r);
      } else if r != run {
        RunsBounded(xs, Run(run.after, run.after + 1), r);
      }
    }
  }

  /** A run ends only where the next input may not join it. */
  lemma {:induction false} RunsMaximal(xs: seq<Interval>, run: Run, r: Run)
    requires run.Within(xs) && r in Runs(xs, run)
    ensures r.Within(xs) && (r.after == |xs| || !Joins(xs, r))
    decreases |xs| - run.after
  {
    if run.after < |xs| {
      if Joins(xs, run) {
        RunsMaximal(xs, Run(run.first, run.after + 1), r);
      } else if r != run {
        RunsMaximal(xs, Run(run.after, run.after + 1), r);
      }
    }
  }

  /** What `merge_intervals` returns. */
  ghost function Merged(xs: seq<Interval>): seq<Interval> {
    if xs == [] then [] else
      RunsCover(xs, Run(0, 1));
      Kept(xs, Runs(xs, Run(0, 1)))
  }

  // ----- the two passes

  /** The chunks closed so far and the greedy runs from the current one on are the whole result. */
  ghost predicate Pending(xs: seq<Interval>, run: Run, chunks: seq<Interval>) {
    && run.Within(xs) && AllWithin(xs, Runs(xs, run))
    && chunks + Kept(xs, Runs(xs, run)) == Merged(xs)
  }

  lemma PendingJoins(xs: seq<Interval>, run: Run, chunks: seq<Interval>)
    requires Pending(xs, run, chunks) && run.after < |xs| && Joins(xs, run)
    ensures Pending(xs, Run(run.first, run.after + 1), chunks)
  {
  }

  function Close(chunks: seq<Interval>, cur: Interval): seq<Interval> {
    if cur.end - cur.start >= MIN_SEG_DUR then chunks + [cur] else chunks
  }

  lemma PendingCuts(xs: seq<Interval>, run: Run, chunks: seq<Interval>)
    requires Pending(xs, run, chunks) && run.after < |xs| && !Joins(xs, run)
    ensures Pending(xs, Run(run.after, run.after + 1), Close(chunks, run.Span(xs)))
  {
    var next := Run(run.after, run.after + 1);
    RunsCover(xs, next);
    KeptStep(xs, run, Runs(xs, next));
  }

  lemma PendingEnds(xs: seq<Interval>, run: Run, chunks: seq<Interval>)
    requires Pending(xs, run, chunks) && run.after == |xs|
    ensures Close(chunks, run.Span(xs)) == Merged(xs)
  {
    KeptOne(xs, run);
  }

  lemma MergedLong(xs: seq<Interval>)
    ensures forall c | c in Merged(xs) :: c.Duration() >= 3.0
  {
    if xs != [] {
      RunsCover(xs, Run(0, 1));
      KeptLong(xs, Runs(xs, Run(0, 1)));
    }
  }

  method MergeIntervals(xs: seq<Interval>) returns (merged: seq<Interval>)
    ensures merged == Merged(xs)
    ensures forall c | c in merged :: c.Duration() >= 3.0
  {
    if xs == [] { return []; }
    var chunks: seq<Interval> := [];
    var cur := xs[0];
    ghost var run := Run(0, 1);
    RunsCover(xs, run);
    for i := 1 to |xs|
      invariant Pending(xs, run, chunks) && run.after == i && cur == run.Span(xs)
    {
      var next := xs[i];
      var candidate := next.end - cur.start;
      var current := cur.end - cur.start;
      if candidate <= MAX_SEG_DUR && (current < MIN_SEG_DUR || candidate <= TARGET_SEG_DUR) {
        PendingJoins(xs, run, chunks);
        run := Run(run.first, i + 1);
        cur := cur.(end := next.end);
      } else {
        PendingCuts(xs, run, chunks);
        run := Run(i, i + 1);
        chunks := Close(chunks, cur);
        cur := next;
      }
    }
    PendingEnds(xs, run, chunks);
    chunks := Close(chunks, cur);
    MergedLong(xs);
    merged := SecondPass(chunks);
  }

  lemma KeptStep(xs: seq<Interval>, run: Run, rest: seq<Run>)
    requires run.Within(xs) && AllWithin(xs, rest)
    ensures AllWithin(xs, [run] + rest)
    ensures Kept(xs, [run] + rest)
         == (if run.Span(xs).Duration() >= MIN_SEG_DUR then [run.Span(xs)] else []) + Kept(xs, rest)
  {
    assert ([run] + rest)[1..] == rest;
  }

  lemma KeptOne(xs: seq<Interval>, run: Run)
    requires run.Within(xs)
    ensures Kept(xs, [run]) == if run.Span(xs).Duration() >= MIN_SEG_DUR then [run.Span(xs)] else []
  {
    assert [run] + [] == [run];
    KeptStep(xs, run, []);
  }

  lemma {:induction false} KeptLong(xs: seq<Interval>, runs: seq<Run>)
    requires AllWithin(xs, runs)
    ensures forall c | c in Kept(xs, runs) :: c.Duration() >= MIN_SEG_DUR
    decreases |runs|
  {
    if runs != [] { KeptLong(xs, runs[1..]); }
  }

  /** Merging short chunks into their predecessor: with no short chunks, the identity. */
  method SecondPass(chunks: seq<Interval>) returns (merged: seq<Interval>)
    ensures (forall c | c in chunks :: c.Duration() >= MIN_SEG_DUR) ==> merged == chunks
  {
    merged := [];
    for i := 0 to |chunks|
      invariant (forall c | c in chunks :: c.Duration() >= MIN_SEG_DUR) ==> merged == chunks[..i]
    {
      var c := chunks[i];
      assert c in chunks;
      if merged != [] && c.end - c.start < MIN_SEG_DUR && c.end - merged[|merged| - 1].start <= MAX_SEG_DUR {
        merged := merged[|merged| - 1 := merged[|merged| - 1].(end := c.end)];
      } else {
        merged := merged + [c];
      }
    }
    assert chunks[..|chunks|] == chunks;
  }

  // ----- what the merged chunks are

  function Shifted(pick: seq<nat>): (r: seq<nat>)
    ensures |r| == |pick| && forall p | 0 <= p < |pick| :: r[p] == pick[p] + 1
  {
    seq(|pick|, p requires 0 <= p < |pick| => pick[p] + 1)
  }

  ghost predicate Picks(xs: seq<Interval>, runs: seq<Run>, kept: seq<Interval>, pick: seq<nat>)
    requires AllWithin(xs, runs)
  {
    && |pick| == |kept|
    && (forall p | 0 <= p < |pick| :: pick[p] < |runs| && kept[p] == runs[pick[p]].Span(xs))
    && (forall p, q | 0 <= p < q < |pick| :: pick[p] < pick[q])
  }

  lemma PicksLater(xs: seq<Interval>, runs: seq<Run>, kept: seq<Interval>, pick: seq<nat>)
    requires runs != [] && AllWithin(xs, runs) && Picks(xs, runs[1..], kept, pick)
    ensures Picks(xs, runs, kept, Shifted(pick))
  {
  }

  lemma PicksFirst(xs: seq<Interval>, runs: seq<Run>, kept: seq<Interval>, pick: seq<nat>)
    requires runs != [] && AllWithin(xs, runs) && Picks(xs, runs, kept, pick)
    requires forall p | 0 <= p < |pick| :: pick[p] > 0
    ensures Picks(xs, runs, [runs[0].Span(xs)] + kept, [0] + pick)
  {
  }

  /** The kept chunks are runs, in the order of the runs: `pick` names the run of each. */
  lemma {:induction false} KeptAreRuns(xs: seq<Interval>, runs: seq<Run>) returns (pick: seq<nat>)
    requires AllWithin(xs, runs)
    ensures Picks(xs, runs, Kept(xs, runs), pick)
    decreases |runs|
  {
    if runs == [] { return []; }
    pick := KeptAreRuns(xs, runs[1..]);
    PicksLater(xs, runs, Kept(xs, runs[1..]), pick);
    pick := Shifted(pick);
    if runs[0].Span(xs).Duration() >= MIN_SEG_DUR {
      PicksFirst(xs, runs, Kept(xs, runs[1..]), pick);
      pick := [0] + pick;
    }
  }

  lemma {:induction false} LongRunKept(xs: seq<Interval>, runs: seq<Run>, r: Run)
    requires AllWithin(xs, runs) && r in runs && r.Within(xs) && r.Span(xs).Duration() >= MIN_SEG_DUR
    ensures r.Span(xs) in Kept(xs, runs)
    decreases |runs|
  {
    if r != runs[0] { LongRunKept(xs, runs[1..], r); }
  }

  lemma {:induction false} RunOf(xs: seq<Interval>, runs: seq<Run>, from: nat, i: nat) returns (k: nat)
    requires Cover(xs, runs, from) && from <= i < |xs|
    ensures k < |runs| && runs[k].first <= i < runs[k].after
    decreases |runs|
  {
    if i < runs[0].after { return 0; }
    assert Cover(xs, runs[1..], runs[0].after) by {
      assert forall k | 0 <= k < |runs| - 1 :: runs[1..][k] == runs[k + 1];
    }
    k := RunOf(xs, runs[1..], runs[0].after, i);
    k := k + 1;
  }

  /** An input no chunk covers lies in a greedy run that is too short. */
  lemma DroppedIsShort(xs: seq<Interval>, i: nat) returns (r: Run)
    requires i < |xs|
    ensures r in Runs(xs, Run(0, 1)) && r.first <= i < r.after && r.Within(xs)
    ensures r.Span(xs) in Merged(xs) || r.Span(xs).Duration() < 3.0
    ensures SingleOrShort(xs, r) && (r.after == |xs| || !Joins(xs, r))
  {
    var runs := Runs(xs, Run(0, 1));
    RunsCover(xs, Run(0, 1));
    var k := RunOf(xs, runs, 0, i);
    r := runs[k];
    RunsBounded(xs, Run(0, 1), r);
    RunsMaximal(xs, Run(0, 1), r);
    if r.Span(xs).Duration() >= MIN_SEG_DUR { LongRunKept(xs, runs, r); }
  }

  /** A chunk longer than the maximum is a single input. */
  lemma OverlongIsInput(xs: seq<Interval>, c: Interval)
    requires c in Merged(xs) && c.Duration() > 12.0
    ensures c in xs
  {
    var runs := Runs(xs, Run(0, 1));
    RunsCover(xs, Run(0, 1));
    var pick := KeptAreRuns(xs, runs);
    var p :| 0 <= p < |Kept(xs, runs)| && Kept(xs, runs)[p] == c;
    RunsBounded(xs, Run(0, 1), runs[pick[p]]);
    assert c == xs[runs[pick[p]].first];
  }

  lemma {:induction false} RunsInOrder(xs: seq<Interval>, runs: seq<Run>, from: nat, j: nat, k: nat)
    requires Cover(xs, runs, from) && j < k < |runs|
    ensures runs[j].after <= runs[k].first
    decreases k
  {
    if k > j + 1 { RunsInOrder(xs, runs, from, j, k - 1); }
  }

  ghost predicate InOrder(xs: seq<Interval>) {
    forall i, j | 0 <= i < j < |xs| :: xs[i].end <= xs[j].start
  }

  /** Chunks of ordered inputs are ordered and do not overlap. */
  lemma MergedInOrder(xs: seq<Interval>)
    requires InOrder(xs)
    ensures InOrder(Merged(xs))
  {
    if xs != [] {
      var runs, kept := Runs(xs, Run(0, 1)), Merged(xs);
      RunsCover(xs, Run(0, 1));
      var pick := KeptAreRuns(xs, runs);
      forall p, q | 0 <= p < q < |kept|
        ensures kept[p].end <= kept[q].start
      {
        RunsInOrder(xs, runs, 0, pick[p], pick[q]);
        assert kept[p].end == xs[runs[pick[p]].after - 1].end;
      }
    }
  }

  // ----- quality

  datatype Issue = ShortDuration | LongDuration | MissingText | CharRateOutlier
  datatype Status = Train | Review

  /** Too few or too many characters per second; a duration that is not positive counts as none. */
  predicate RateOutlier(duration: real, length: nat) {
    length > 0 && (duration <= 0.0 || (length as real) < 6.0 * duration || (length as real) > 28.0 * duration)
  }

  function QualityStatus(duration: real, length: nat): (r: (Status, seq<Issue>))
    ensures r.0 == Train <==> r.1 == []
    ensures Distinct(r.1)
    ensures ShortDuration in r.1 <==> duration < 3.0
    ensures LongDuration in r.1 <==> duration > 12.0
    ensures MissingText in r.1 <==> length == 0
    ensures CharRateOutlier in r.1 <==> RateOutlier(duration, length)
  {
    var rate := if duration > 0.0 then length as real / duration else 0.0;
    var issues := (if duration < MIN_SEG_DUR then [ShortDuration] else [])
                  + (if duration > MAX_SEG_DUR then [LongDuration] else [])
                  + (if length == 0 then [MissingText] else [])
                  + (if length > 0 && (rate < 6.0 || rate > 28.0) then [CharRateOutlier] else []);
    if duration > 0.0 then Compare(length as real, duration, 6.0); Compare(length as real, duration, 28.0);
      (if issues == [] then Train else Review, issues)
    else
      (if issues == [] then Train else Review, issues)
  }

  lemma Compare(x: real, d: real, c: real)
    requires d > 0.0
    ensures x / d < c <==> x < c * d
    ensures x / d > c <==> x > c * d
  {
    var e := x / d - c;
    assert e * d == x - c * d;
  }

  /** A merged chunk is never reported short, and reported long only when it is one input. */
  lemma MergedNeverShort(xs: seq<Interval>, c: Interval, length: nat)
    requires c in Merged(xs)
    ensures ShortDuration !in QualityStatus(c.Duration(), length).1
    ensures LongDuration in QualityStatus(c.Duration(), length).1 ==> c in xs
  {
    RunsCover(xs, Run(0, 1));
    KeptLong(xs, Runs(xs, Run(0, 1)));
    if c.Duration() > MAX_SEG_DUR { OverlongIsInput(xs, c); }
  }

  // ----- text allocation

  function Chars(units: seq<string>): nat {
    if units == [] then 0 else Chars(units[..|units| - 1]) + |units[|units| - 1]|
  }

  function Sum(xs: seq<real>): real {
    if xs == [] then 0.0 else Sum(xs[..|xs| - 1]) + xs[|xs| - 1]
  }

  /** Enough text for a chunk: 85 percent of its share. */
  predicate Reaches(units: seq<string>, target: real) {
    Chars(units) as real >= target * 0.85
  }

  /** The units from lo to hi go to a chunk that is followed by left - 1 more. */
  ghost predicate NextCut(units: seq<string>, lo: nat, hi: nat, left: nat, target: real) {
    && lo <= hi <= |units|
    && if lo == |units| then hi == lo
       else if left == 1 then hi == |units|
       else if |units| - lo <= left then hi == lo + 1
       else
         && lo < hi && left <= |units| - hi
         && (forall m | lo < m < hi :: !Reaches(units[lo..m], target))
         && (Reaches(units[lo..hi], target) || |units| - hi == left)
  }

  /** The cuts made for the first k chunks of n. */
  ghost predicate IsCuts(units: seq<string>, targets: seq<real>, cuts: seq<nat>, k: nat) {
    && k <= |targets| && |cuts| == k + 1 && cuts[0] == 0
    && forall j | 0 <= j < k :: NextCut(units, cuts[j], cuts[j + 1], |targets| - j, targets[j])
  }

  function Flatten(groups: seq<seq<string>>): seq<string> {
    if groups == [] then [] else Flatten(groups[..|groups| - 1]) + groups[|groups| - 1]
  }

  /** The groups are the units between consecutive cuts. */
  ghost predicate Between(units: seq<string>, cuts: seq<nat>, groups: seq<seq<string>>) {
    && |cuts| == |groups| + 1
    && forall j | 0 <= j < |groups| :: IsSlice(units, cuts[j], cuts[j + 1], groups[j])
  }

  ghost predicate IsSlice(units: seq<string>, lo: nat, hi: nat, group: seq<string>) {
    lo <= hi <= |units| && group == units[lo..hi]
  }

  lemma {:induction false} BetweenFlattens(units: seq<string>, cuts: seq<nat>, groups: seq<seq<string>>)
    requires Between(units, cuts, groups) && cuts[0] == 0
    ensures cuts[|groups|] <= |units| && Flatten(groups) == units[..cuts[|groups|]]
    decreases |groups|
  {
    if groups != [] {
      var n := |groups| - 1;
      assert Between(units, cuts[..n + 1], groups[..n]);
      BetweenFlattens(units, cuts[..n + 1], groups[..n]);
      assert IsSlice(units, cuts[n], cuts[n + 1], groups[n]);
      assert units[..cuts[n]] + units[cuts[n]..cuts[n + 1]] == units[..cuts[n + 1]];
    }
  }

  /** With as many units as chunks, every chunk leaves at least one unit for each that follows. */
  lemma {:induction false} EnoughLeft(units: seq<string>, targets: seq<real>, cuts: seq<nat>, k: nat, j: nat)
    requires IsCuts(units, targets, cuts, k) && j <= k && |units| >= |targets|
    ensures cuts[j] <= |units| && |units| - cuts[j] >= |targets| - j
    ensures j == |targets| > 0 ==> cuts[j] == |units|
    decreases j
  {
    if j > 0 {
      EnoughLeft(units, targets, cuts, k, j - 1);
      assert NextCut(units, cuts[j - 1], cuts[j - 1 + 1], |targets| - (j - 1), targets[j - 1]);
    }
  }

  /** With fewer units than chunks, they go one by one to the first chunks. */
  lemma {:induction false} OneEach(units: seq<string>, targets: seq<real>, cuts: seq<nat>, k: nat, j: nat)
    requires IsCuts(units, targets, cuts, k) && j <= k && |units| < |targets|
    ensures cuts[j] == if j <= |units| then j else |units|
    decreases j
  {
    if j > 0 {
      OneEach(units, targets, cuts, k, j - 1);
      assert NextCut(units, cuts[j - 1], cuts[j - 1 + 1], |targets| - (j - 1), targets[j - 1]);
    }
  }

  ghost predicate Allocated(units: seq<string>, n: nat, groups: seq<seq<string>>) {
    && |groups| == n && Flatten(groups) == units
    && (|units| >= n ==> forall k | 0 <= k < n :: groups[k] != [])
    && (|units| < n ==> forall k | 0 <= k < n :: groups[k] == if k < |units| then [units[k]] else [])
  }

  /** For any targets, every unit is allocated once and in order; every chunk gets text when there are
      as many units as chunks, and otherwise the first chunks get one unit each. */
  lemma CutsAllocate(units: seq<string>, targets: seq<real>, cuts: seq<nat>, groups: seq<seq<string>>)
    requires targets != [] && IsCuts(units, targets, cuts, |targets|) && Between(units, cuts, groups)
    ensures Allocated(units, |targets|, groups)
  {
    var n := |targets|;
    BetweenFlattens(units, cuts, groups);
    if |units| >= n {
      EnoughLeft(units, targets, cuts, n, n);
      assert units[..|units|] == units;
      forall k | 0 <= k < n
        ensures groups[k] != []
      {
        EnoughLeft(units, targets, cuts, n, k);
        assert NextCut(units, cuts[k], cuts[k + 1], n - k, targets[k]);
        assert IsSlice(units, cuts[k], cuts[k + 1], groups[k]);
      }
    } else {
      OneEach(units, targets, cuts, n, n);
      assert units[..|units|] == units;
      forall k | 0 <= k < n
        ensures groups[k] == if k < |units| then [units[k]] else []
      {
        OneEach(units, targets, cuts, n, k);
        OneEach(units, targets, cuts, n, k + 1);
        assert IsSlice(units, cuts[k], cuts[k + 1], groups[k]);
      }
    }
  }

  /** The inner loop: units are taken until the share is reached or only as many are left as chunks. */
  method TakeUnits(units: seq<string>, lo: nat, left: nat, target: real) returns (hi: nat)
    requires lo < |units| && left >= 2
    ensures NextCut(units, lo, hi, left, target)
  {
    var chars := 0;
    hi := lo;
    while hi < |units|
      invariant lo <= hi <= |units| && chars == Chars(units[lo..hi])
      invariant hi > lo ==> |units| - hi >= left
      invariant forall m | lo < m < hi :: !Reaches(units[lo..m], target)
    {
      if hi > lo && chars as real >= target * 0.85 { break; }
      if |units| - hi <= left { break; }
      assert units[lo..hi + 1][..hi - lo] == units[lo..hi];
      chars := chars + |units[hi]|;
      hi := hi + 1;
    }
    if hi == lo { hi := hi + 1; }
  }

  lemma CutsGrow(units: seq<string>, targets: seq<real>, cuts: seq<nat>, k: nat, next: nat)
    requires IsCuts(units, targets, cuts, k) && k < |targets|
    requires NextCut(units, cuts[k], next, |targets| - k, targets[k])
    ensures IsCuts(units, targets, cuts + [next], k + 1)
  {
    var grown := cuts + [next];
    forall j | 0 <= j < k + 1
      ensures NextCut(units, grown[j], grown[j + 1], |targets| - j, targets[j])
    {
      if j < k { assert NextCut(units, cuts[j], cuts[j + 1], |targets| - j, targets[j]); }
    }
  }

  lemma BetweenGrows(units: seq<string>, cuts: seq<nat>, groups: seq<seq<string>>, next: nat)
    requires Between(units, cuts, groups) && cuts[|groups|] <= next <= |units|
    ensures Between(units, cuts + [next], groups + [units[cuts[|groups|]..next]])
  {
    var grown, more := cuts + [next], groups + [units[cuts[|groups|]..next]];
    forall j | 0 <= j < |more|
      ensures IsSlice(units, grown[j], grown[j + 1], more[j])
    {
      if j < |groups| { assert IsSlice(units, cuts[j], cuts[j + 1], groups[j]); }
    }
  }

  /** The outer loop, for any targets. */
  method Allocate(units: seq<string>, targets: seq<real>) returns (groups: seq<seq<string>>, ghost cuts: seq<nat>)
    requires targets != []
    ensures IsCuts(units, targets, cuts, |targets|) && Between(units, cuts, groups)
    ensures Allocated(units, |targets|, groups)
  {
    groups := [];
    var unit := 0;
    cuts := [0];
    for k := 0 to |targets|
      invariant |groups| == k && IsCuts(units, targets, cuts, k) && Between(units, cuts, groups)
      invariant cuts[k] == unit <= |units|
    {
      var left := |targets| - k;
      var next := unit;
      if unit < |units| {
        if left == 1 {
          next := |units|;
        } else {
          next := TakeUnits(units, unit, left, targets[k]);
        }
      }
      CutsGrow(units, targets, cuts, k, next);
      BetweenGrows(units, cuts, groups, next);
      groups := groups + [units[unit..next]];
      cuts := cuts + [next];
      unit := next;
    }
    CutsAllocate(units, targets, cuts, groups);
  }

  function Share(chars: real, duration: real, total: real): real
    requires total != 0.0
  {
    chars * (duration / total)
  }

  function Targets(durations: seq<real>, chars: nat): (r: seq<real>)
    requires Sum(durations) != 0.0
    ensures |r| == |durations|
    ensures forall k | 0 <= k < |durations| :: r[k] == Share(chars as real, durations[k], Sum(durations))
  {
    seq(|durations|, k requires 0 <= k < |durations| => Share(chars as real, durations[k], Sum(durations)))
  }

  function JoinWithSpaces(units: seq<string>): string {
    if units == [] then ""
    else if |units| == 1 then units[0]
    else units[0] + " " + JoinWithSpaces(units[1..])
  }

  /** The text of a chunk: its units joined and normalised; a chunk reached with no units left has the
      empty text. */
  function TextOf(group: seq<string>, normalize: string -> string): string {
    if group == [] then "" else normalize(JoinWithSpaces(group))
  }

  function TextsOf(groups: seq<seq<string>>, normalize: string -> string): (r: seq<string>)
    ensures |r| == |groups| && forall k | 0 <= k < |groups| :: r[k] == TextOf(groups[k], normalize)
  {
    seq(|groups|, k requires 0 <= k < |groups| => TextOf(groups[k], normalize))
  }

  /** The groups of units that the targets of these durations give. */
  ghost predicate GroupsFor(durations: seq<real>, units: seq<string>, groups: seq<seq<string>>) {
    && Allocated(units, |durations|, groups)
    && (|durations| > 1 && Sum(durations) != 0.0 ==>
          exists cuts :: IsCuts(units, Targets(durations, Chars(units)), cuts, |durations|)
            && Between(units, cuts, groups))
  }

  /** `allocate_text` over the durations of the chunks, with `normalize_text` as an argument. The
      division by the total duration fails when that is zero, and only a chunk with a successor asks
      for it. */
  method AllocateText(durations: seq<real>, units: seq<string>, normalize: string -> string)
    returns (r: Result<seq<string>>)
    ensures r.Refused? <==> units != [] && |durations| > 1 && Sum(durations) == 0.0
    ensures (durations == [] || units == []) ==> r == Ok([])
    ensures durations != [] && units != [] && r.Ok? ==>
              exists groups :: GroupsFor(durations, units, groups) && r.value == TextsOf(groups, normalize)
  {
    if durations == [] || units == [] { return Ok([]); }
    if |durations| > 1 && Sum(durations) == 0.0 { return Refused; }
    var targets := if |durations| == 1 then [0.0] else Targets(durations, Chars(units));
    var groups;
    ghost var cuts;
    groups, cuts := Allocate(units, targets);
    assert GroupsFor(durations, units, groups);
    r := Ok(TextsOf(groups, normalize));
  }

  // ----- shares and texts

  lemma {:induction false} SumJoins(a: seq<real>, b: seq<real>)
    ensures Sum(a + b) == Sum(a) + Sum(b)
    decreases |b|
  {
    if b == [] {
      assert a + b == a;
    } else {
      SumJoins(a, b[..|b| - 1]);
      assert (a + b)[..|a + b| - 1] == a + b[..|b| - 1];
    }
  }

  lemma SumOfOne(x: real)
    ensures Sum([x]) == x
  {
    assert [x][..0] == [];
  }

  ghost function Times(x: real, f: real): real { x * f }

  lemma {:induction false} SumScales(xs: seq<real>, ys: seq<real>, f: real)
    requires |xs| == |ys| && forall k | 0 <= k < |xs| :: ys[k] == Times(xs[k], f)
    ensures Sum(ys) == Times(Sum(xs), f)
    decreases |xs|
  {
    if xs != [] {
      SumScales(xs[..|xs| - 1], ys[..|ys| - 1], f);
      TimesAdds(Sum(xs[..|xs| - 1]), xs[|xs| - 1], f);
    }
  }

  lemma TimesAdds(x: real, y: real, f: real)
    ensures Times(x + y, f) == Times(x, f) + Times(y, f)
  {
  }

  /** The share of a chunk is to all characters as its duration is to the total. */
  lemma ShareIs(chars: real, duration: real, total: real)
    requires total != 0.0
    ensures Share(chars, duration, total) * total == chars * duration
    ensures Share(chars, duration, total) == Times(duration, chars / total)
  {
    Proportion(chars, duration, total);
  }

  /** The shares together are all of the characters. */
  lemma SharesAddUp(durations: seq<real>, chars: nat)
    requires Sum(durations) != 0.0
    ensures Sum(Targets(durations, chars)) == chars as real
  {
    forall k | 0 <= k < |durations|
      ensures Targets(durations, chars)[k] == Times(durations[k], chars as real / Sum(durations))
    {
      ShareIs(chars as real, durations[k], Sum(durations));
    }
    SumScales(durations, Targets(durations, chars), chars as real / Sum(durations));
    Whole(chars as real, Sum(durations));
  }

  lemma Whole(c: real, t: real)
    requires t != 0.0
    ensures t * (c / t) == c
  {
  }

  lemma Proportion(c: real, d: real, t: real)
    requires t != 0.0
    ensures c * (d / t) == d * (c / t) && c * (d / t) * t == c * d
  {
    var q, r := d / t, c / t;
    Whole(d, t);
    Whole(c, t);
    Regroup(t, r, q);
    Regroup(t, q, r);
    Regroup(c, q, t);
  }

  lemma Regroup(x: real, y: real, z: real)
    ensures x * y * z == x * (y * z)
  {
  }

  /** Joining puts one blank between two texts and none at the ends. */
  lemma {:induction false} JoinMeans(a: seq<string>, b: seq<string>)
    requires a != [] && b != []
    ensures JoinWithSpaces(a + b) == JoinWithSpaces(a) + " " + JoinWithSpaces(b)
    decreases |a|
  {
    assert (a + b)[1..] == a[1..] + b;
    if |a| > 1 {
      JoinMeans(a[1..], b);
      assert a[0] + " " + (JoinWithSpaces(a[1..]) + " " + JoinWithSpaces(b))
          == a[0] + " " + JoinWithSpaces(a[1..]) + " " + JoinWithSpaces(b);
    } else {
      assert a[1..] == [];
      assert a[1..] + b == b;
    }
  }

  /** Without units the text is empty; one unit is normalised as it is. */
  lemma TextMeans(unit: string, more: seq<string>, normalize: string -> string)
    ensures TextOf([], normalize) == "" && TextOf([unit], normalize) == normalize(unit)
    ensures more != [] ==> TextOf([unit] + more, normalize) == normalize(unit + " " + JoinWithSpaces(more))
  {
    if more != [] { JoinMeans([unit], more); }
  }
}
