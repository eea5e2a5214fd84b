/**
 `activate` of activate_sequential_review.py: the pilot is replaced by a sequential campaign through a
 marker file, a database commit, a session rewrite and an unlink. Every file replacement and the commit
 is one atomic step; a run may stop after any of them. Runs may use any arguments, and review events
 may arrive between runs while no marker denies the runtime.
 */
module SequentialActivation {
  import opened Wrappers
  import opened ReviewCampaign
  import opened ReviewEvents
  import opened ReviewerNames
  import opened Sequences

  // ----- documents

  datatype Pilot = Pilot(baseline: nat, rest: string)
  datatype PolicyFile = PolicyFile(policy: Pilot, sha: string)

  datatype Session = Session(db: string, reviewers: map<string, string>, sessions: seq<string>,
                             spotChecks: seq<string>, pilotChecks: seq<string>, policy: Option<Pilot>,
                             other: string)

  /** The revocation marker names the campaign it guards and a complete backup. */
  datatype Marker = Marker(campaign: CampaignId, backup: nat)

  datatype Disk = Disk(db: string, healthy: bool, events: seq<Event>, focus: set<string>,
                       marker: Option<Marker>, backups: set<nat>, campaign: Option<Campaign>,
                       session: Session, pilot: Option<PolicyFile>)

  datatype Args = Args(expectedMax: nat, expectedSha: string)

  // ----- the pure parts

  predicate IsReviewer(name: string) { Names(name, "rubar") }

  function KeptPairing(reviewers: map<string, string>): map<string, string> {
    map token | token in reviewers && IsReviewer(reviewers[token]) :: reviewers[token]
  }

  /** `_narrow_session` */
  function NarrowSession(session: Session, db: string): Result<Session> {
    var kept := KeptPairing(session.reviewers);
    if session.db != db || |kept| != 1 then Refused
    else Ok(session.(reviewers := kept, sessions := [], spotChecks := [], pilotChecks := [], policy := None))
  }

  function After(events: seq<Event>, baseline: nat): seq<Event> {
    if events == [] then []
    else
      var last := events[|events| - 1];
      After(events[..|events| - 1], baseline) + if last.id > baseline then [last] else []
  }

  /** `_verify_post_baseline`: only the reviewer's own paid review events, without a gap. */
  predicate HistoryOk(events: seq<Event>, baseline: nat, maximum: nat) {
    var rows := After(events, baseline);
    && |rows| == maximum - baseline
    && forall k | 0 <= k < |rows| ::
         IsReviewer(rows[k].reviewer) && !rows[k].action.OtherAction? && !rows[k].source.OtherSource?
  }

  // ----- what a run decides before it changes anything

  datatype Decision = Refuse | AlreadyActive | Proceed(intended: Campaign, narrowed: Session)

  function Baseline(d: Disk): Result<nat> {
    match d.pilot
    case Some(file) =>
      if d.session.policy.Some? then
        if d.session.policy.value == file.policy then Ok(file.policy.baseline) else Refused
      else if d.campaign.Some? && d.marker.Some? then Ok(file.policy.baseline)
      else Refused
    case None =>
      if d.campaign.Some? && ValidCampaign(d.campaign.value) then Ok(d.campaign.value.baseline) else Refused
  }

  function DecideWith(d: Disk, intended: Campaign, narrowed: Session): Decision {
    if !ValidCampaign(intended) || !HistoryOk(d.events, intended.baseline, intended.activation) then Refuse
    else if d.campaign.Some? && d.campaign.value != intended then Refuse
    else if d.campaign.Some? && d.pilot.None? && d.marker.None? then
      if d.session != narrowed then Refuse else AlreadyActive
    else if d.marker.Some? && (d.marker.value.campaign != intended.id || d.marker.value.backup !in d.backups)
    then Refuse
    else Proceed(intended, narrowed)
  }

  function Decide(d: Disk, args: Args): Decision {
    if d.pilot.Some? && d.pilot.value.sha != args.expectedSha then Refuse
    else if !d.healthy || MaxEvent(d.events) != args.expectedMax then Refuse
    else
      match NarrowSession(d.session, d.db)
      case Refused => Refuse
      case Ok(narrowed) =>
        match Baseline(d)
        case Refused => Refuse
        case Ok(baseline) =>
          DecideWith(d, CampaignPolicy(baseline, MaxEvent(d.events), FocusEvidence(d.focus)), narrowed)
  }

  // ----- a run, stopped after k of its mutations

  const LAST := 6

  /** Backup, marker, commit, session, unlink of the pilot policy, unlink of the marker. The first two
      are skipped when a marker is already there. */
  function Mutate(d: Disk, c: Campaign, narrowed: Session, dir: nat, k: nat): Disk {
    var begun := d.marker.Some?;
    d.(backups := if k >= 1 && !begun then d.backups + {dir} else d.backups,
       marker := if k >= 6 then None else if k >= 2 && !begun then Some(Marker(c.id, dir)) else d.marker,
       campaign := if k >= 3 then Some(c) else d.campaign,
       session := if k >= 4 then narrowed else d.session,
       pilot := if k >= 5 then None else d.pilot)
  }

  /** The backup directory is made afresh; an existing one of that name stops the run. */
  function RunTo(d: Disk, args: Args, dir: nat, k: nat): Disk {
    match Decide(d, args)
    case Proceed(c, narrowed) => if d.marker.None? && dir in d.backups then d else Mutate(d, c, narrowed, dir, k)
    case _ => d
  }

  datatype Step = Run(args: Args, dir: nat, k: nat) | Review(event: Event)

  /** The runtime serves, and so records review events, only while there is no marker. */
  function Next(d: Disk, step: Step): Disk {
    match step
    case Run(args, dir, k) => RunTo(d, args, dir, k)
    case Review(e) => if d.marker.None? then d.(events := d.events + [e]) else d
  }

  function Exec(d: Disk, steps: seq<Step>): Disk {
    if steps == [] then d else Next(Exec(d, steps[..|steps| - 1]), steps[|steps| - 1])
  }

  // ----- old, new, and in between

  ghost predicate Old(d0: Disk, d: Disk) {
    d.marker.None? && d.campaign.None? && d.session == d0.session && d.pilot == d0.pilot
  }

  /** The campaign of d0's pilot is stored, the session is d0's narrowed one, the pilot is retired. */
  ghost predicate Replaced(d0: Disk, d: Disk) {
    && d0.pilot.Some? && d.campaign.Some? && d.pilot.None?
    && d.campaign.value
       == CampaignPolicy(d0.pilot.value.policy.baseline, d.campaign.value.activation, FocusEvidence(d0.focus))
    && ValidCampaign(d.campaign.value)
    && NarrowSession(d0.session, d0.db) == Ok(d.session)
  }

  ghost predicate New(d0: Disk, d: Disk) { d.marker.None? && Replaced(d0, d) }

  /** What was true when the marker was written, with c the campaign it names. */
  ghost predicate Authorized(d0: Disk, d: Disk, c: Campaign) {
    && d0.pilot.Some? && d0.session.policy == Some(d0.pilot.value.policy)
    && c == CampaignPolicy(d0.pilot.value.policy.baseline, MaxEvent(d.events), FocusEvidence(d0.focus))
    && ValidCampaign(c) && HistoryOk(d.events, c.baseline, c.activation) && d0.healthy
    && NarrowSession(d0.session, d0.db).Ok?
  }

  ghost predicate Begun(d0: Disk, d: Disk, c: Campaign) {
    && Authorized(d0, d, c)
    && d.marker.Some? && d.marker.value.campaign == c.id && d.marker.value.backup in d.backups
    && var narrowed := NarrowSession(d0.session, d0.db).value;
       || (d.campaign == None && d.session == d0.session && d.pilot == d0.pilot)
       || (d.campaign == Some(c) && d.session == d0.session && d.pilot == d0.pilot)
       || (d.campaign == Some(c) && d.session == narrowed && d.pilot == d0.pilot)
       || (d.campaign == Some(c) && d.session == narrowed && d.pilot == None)
  }

  ghost function TheCampaign(d0: Disk, d: Disk): Campaign
    requires d0.pilot.Some?
  {
    CampaignPolicy(d0.pilot.value.policy.baseline, MaxEvent(d.events), FocusEvidence(d0.focus))
  }

  ghost predicate Same(d0: Disk, d: Disk) { d.db == d0.db && d.healthy == d0.healthy && d.focus == d0.focus }

  ghost predicate Inv(d0: Disk, d: Disk) {
    Same(d0, d) && (Old(d0, d) || (d0.pilot.Some? && Begun(d0, d, TheCampaign(d0, d))) || New(d0, d))
  }

  // ----- narrowing

  lemma KeptTwice(reviewers: map<string, string>)
    ensures KeptPairing(KeptPairing(reviewers)) == KeptPairing(reviewers)
  {
  }

  /** Narrowing a narrowed session changes nothing. */
  lemma NarrowIdempotent(session: Session, db: string)
    requires NarrowSession(session, db).Ok?
    ensures NarrowSession(NarrowSession(session, db).value, db) == NarrowSession(session, db)
  {
    KeptTwice(session.reviewers);
  }

  /** A pairing token of the reviewer Rubar, however the name is spelt. */
  ghost predicate RubarToken(reviewers: map<string, string>, token: string) {
    token in reviewers && Lower(Strip(reviewers[token])) == "rubar"
  }

  ghost predicate OneRubar(reviewers: map<string, string>) {
    exists token :: RubarToken(reviewers, token) && forall u | RubarToken(reviewers, u) :: u == token
  }

  lemma OneKept(reviewers: map<string, string>)
    ensures |KeptPairing(reviewers)| == 1 <==> OneRubar(reviewers)
  {
    var kept := KeptPairing(reviewers);
    assert forall t :: t in kept.Keys <==> RubarToken(reviewers, t);
    assert |kept| == |kept.Keys|;
    Singleton(kept.Keys);
    if |kept.Keys| == 1 {
      var t :| t in kept.Keys && kept.Keys == {t};
      assert forall u | RubarToken(reviewers, u) :: u == t;
    }
    if OneRubar(reviewers) {
      var t :| RubarToken(reviewers, t) && forall u | RubarToken(reviewers, u) :: u == t;
      assert kept.Keys == {t};
    }
  }

  /** What is left of a session: Rubar's tokens under their names and nothing of the pilot. */
  ghost predicate RubarOnly(session: Session, s: Session) {
    && (forall t :: t in s.reviewers <==> RubarToken(session.reviewers, t))
    && (forall t | t in s.reviewers :: s.reviewers[t] == session.reviewers[t])
    && s.sessions == [] && s.spotChecks == [] && s.pilotChecks == [] && s.policy == None
    && s.db == session.db && s.other == session.other
  }

  /** Narrowing succeeds exactly for a session of this database with one token of Rubar's. It then keeps
      that token under its name and no other, drops the pilot state and changes nothing else. */
  lemma NarrowKeepsRubar(session: Session, db: string)
    ensures NarrowSession(session, db).Ok? <==> session.db == db && OneRubar(session.reviewers)
    ensures NarrowSession(session, db).Ok? ==> RubarOnly(session, NarrowSession(session, db).value)
  {
    OneKept(session.reviewers);
  }

  // ----- the review history

  ghost predicate DistinctIds(events: seq<Event>) {
    forall i, j | 0 <= i < j < |events| :: events[i].id != events[j].id
  }

  ghost function IdsOf(events: seq<Event>): set<int> { set e | e in events :: e.id }

  function Between(low: nat, high: nat): (r: set<int>)
    requires low <= high
    ensures forall n :: n in r <==> low < n <= high
    ensures |r| == high - low
  {
    if low == high then {} else Between(low, high - 1) + {high}
  }

  lemma {:induction false} AfterMeans(events: seq<Event>, baseline: nat)
    ensures forall e :: e in After(events, baseline) <==> e in events && e.id > baseline
    ensures DistinctIds(events) ==> DistinctIds(After(events, baseline))
    decreases |events|
  {
    if events != [] {
      var front, last := events[..|events| - 1], events[|events| - 1];
      AfterMeans(front, baseline);
      assert events == front + [last];
      if DistinctIds(events) {
        assert forall k | 0 <= k < |front| :: front[k].id != last.id;
        assert forall e | e in After(front, baseline) :: e.id != last.id;
      }
    }
  }

  lemma {:induction false} DistinctCount(events: seq<Event>)
    requires DistinctIds(events)
    ensures |IdsOf(events)| == |events|
    decreases |events|
  {
    if events != [] {
      var front, last := events[..|events| - 1], events[|events| - 1];
      DistinctCount(front);
      assert events == front + [last];
      assert IdsOf(events) == IdsOf(front) + {last.id};
    }
  }

  lemma SubsetOfSize(a: set<int>, b: set<int>)
    requires a <= b
    ensures |a| == |b| <==> a == b
  {
    assert b == a + (b - a);
  }

  ghost predicate PaidReview(e: Event) {
    && Lower(Strip(e.reviewer)) == "rubar"
    && e.action in {Accept, Edit, Reject, Skip} && e.source in {Couch, SpotCheck}
  }

  ghost predicate HasId(events: seq<Event>, n: int) { exists e | e in events :: e.id == n }

  lemma GapFree(events: seq<Event>, baseline: nat)
    requires baseline <= MaxEvent(events)
    ensures var ids, all := IdsOf(After(events, baseline)), Between(baseline, MaxEvent(events));
            ids <= all && (ids == all <==> forall n | baseline < n <= MaxEvent(events) :: HasId(events, n))
  {
    var rows, high := After(events, baseline), MaxEvent(events);
    AfterMeans(events, baseline);
    MaxEventIsMost(events);
    forall n | baseline < n <= high
      ensures n in IdsOf(rows) <==> HasId(events, n)
    {
      if HasId(events, n) {
        var e :| e in events && e.id == n;
        assert e in rows;
      }
    }
  }

  lemma PaidRows(events: seq<Event>, baseline: nat, maximum: nat)
    ensures HistoryOk(events, baseline, maximum) <==>
            && |After(events, baseline)| == maximum - baseline
            && forall e | e in events && e.id > baseline :: PaidReview(e)
  {
    var rows := After(events, baseline);
    AfterMeans(events, baseline);
    if HistoryOk(events, baseline, maximum) {
      forall e | e in events && e.id > baseline
        ensures PaidReview(e)
      {
        var k :| 0 <= k < |rows| && rows[k] == e;
      }
    }
    forall k | 0 <= k < |rows|
      ensures rows[k] in events && rows[k].id > baseline
    {
      assert rows[k] in rows;
    }
  }

  /** The history is accepted exactly when every event after the baseline is a paid review of Rubar's and
      every number up to the maximum is the id of one. */
  lemma HistoryWithoutGap(events: seq<Event>, baseline: nat)
    requires DistinctIds(events) && baseline <= MaxEvent(events)
    ensures HistoryOk(events, baseline, MaxEvent(events)) <==> History(events, baseline, MaxEvent(events))
  {
    var rows := After(events, baseline);
    AfterMeans(events, baseline);
    PaidRows(events, baseline, MaxEvent(events));
    DistinctCount(rows);
    GapFree(events, baseline);
    SubsetOfSize(IdsOf(rows), Between(baseline, MaxEvent(events)));
  }

  /** Reviews that arrive between runs are all recorded, in order, without a marker, and none with one. */
  lemma {:induction false} MarkerDenies(d: Disk, es: seq<Event>)
    ensures Exec(d, seq(|es|, k requires 0 <= k < |es| => Review(es[k])))
         == if d.marker == None then d.(events := d.events + es) else d
    decreases |es|
  {
    var steps := seq(|es|, k requires 0 <= k < |es| => Review(es[k]));
    if es == [] {
      assert d.events + es == d.events;
    } else {
      var front := es[..|es| - 1];
      MarkerDenies(d, front);
      assert steps[..|steps| - 1] == seq(|front|, k requires 0 <= k < |front| => Review(front[k]));
      assert d.events + es == d.events + front + [es[|es| - 1]];
    }
  }

  // ----- exactly when a run goes ahead

  ghost predicate History(events: seq<Event>, baseline: nat, maximum: nat) {
    && (forall e | e in events && e.id > baseline :: PaidReview(e))
    && forall n | baseline < n <= maximum :: HasId(events, n)
  }

  /** Where the baseline comes from: the pilot policy that the session remembers or that an interrupted run
      already unbound from it; without a pilot file, the stored campaign. */
  ghost predicate BaselineIs(d: Disk, baseline: nat) {
    || (&& d.pilot.Some? && d.pilot.value.policy.baseline == baseline
        && (|| d.session.policy == Some(d.pilot.value.policy)
            || (d.session.policy == None && d.campaign.Some? && d.marker.Some?)))
    || (&& d.pilot.None? && d.campaign.Some? && d.campaign.value.baseline == baseline
        && baseline <= d.campaign.value.activation && d.campaign.value.focus.count >= 1)
  }

  /** What every accepted run has checked, with c the campaign it is to store. */
  ghost predicate Acceptable(d: Disk, args: Args, c: Campaign) {
    && (d.pilot.Some? ==> d.pilot.value.sha == args.expectedSha)
    && d.healthy && IsMaximum(d.events, args.expectedMax)
    && d.session.db == d.db && OneRubar(d.session.reviewers)
    && BaselineIs(d, c.baseline) && CampaignOf(c, c.baseline, args.expectedMax, d.focus)
    && c.baseline <= args.expectedMax && d.focus != {}
    && History(d.events, c.baseline, args.expectedMax)
    && (d.campaign.Some? ==> d.campaign.value == c)
    && (d.marker.Some? ==> d.marker.value.campaign == c.id && d.marker.value.backup in d.backups)
  }

  /** The campaign is stored, the pilot retired and no run interrupted. */
  ghost predicate Finished(d: Disk) { d.campaign.Some? && d.pilot.None? && d.marker.None? }

  lemma BaselineOk(d: Disk, baseline: nat)
    ensures BaselineIs(d, baseline) <==> Baseline(d) == Ok(baseline)
  {
  }

  /** The same in terms of the functions of the script. */
  ghost predicate Checked(d: Disk, args: Args, c: Campaign) {
    && (d.pilot.Some? ==> d.pilot.value.sha == args.expectedSha)
    && d.healthy && MaxEvent(d.events) == args.expectedMax && NarrowSession(d.session, d.db).Ok?
    && Baseline(d) == Ok(c.baseline)
    && c == CampaignPolicy(c.baseline, MaxEvent(d.events), FocusEvidence(d.focus)) && ValidCampaign(c)
    && HistoryOk(d.events, c.baseline, c.activation)
    && (d.campaign.Some? ==> d.campaign.value == c)
    && (d.marker.Some? ==> d.marker.value.campaign == c.id && d.marker.value.backup in d.backups)
  }

  lemma AcceptableIsChecked(d: Disk, args: Args, c: Campaign)
    requires DistinctIds(d.events)
    ensures Acceptable(d, args, c) <==> Checked(d, args, c)
  {
    NarrowKeepsRubar(d.session, d.db);
    MaximumIs(d.events, args.expectedMax);
    BaselineOk(d, c.baseline);
    CampaignIs(c, c.baseline, args.expectedMax, d.focus);
    if c.baseline <= MaxEvent(d.events) { HistoryWithoutGap(d.events, c.baseline); }
  }

  lemma DecideChecked(d: Disk, args: Args, c: Campaign)
    requires Checked(d, args, c)
    ensures if Finished(d)
            then Decide(d, args) == if NarrowSession(d.session, d.db) == Ok(d.session) then AlreadyActive else Refuse
            else Decide(d, args) == Proceed(c, NarrowSession(d.session, d.db).value)
  {
  }

  lemma ProceedChecked(d: Disk, args: Args)
    requires Decide(d, args).Proceed?
    ensures !Finished(d) && Checked(d, args, Decide(d, args).intended)
  {
  }

  /** A run goes ahead exactly when all of that holds and the directory is not finished yet; event ids are
      the primary key of their table. */
  lemma ProceedIff(d: Disk, args: Args)
    requires DistinctIds(d.events)
    ensures Decide(d, args).Proceed? <==> !Finished(d) && exists c :: Acceptable(d, args, c)
    ensures forall c | Acceptable(d, args, c) ::
              if Finished(d)
              then Decide(d, args) == if NarrowSession(d.session, d.db) == Ok(d.session) then AlreadyActive else Refuse
              else Decide(d, args) == Proceed(c, NarrowSession(d.session, d.db).value)
  {
    forall c
      ensures Acceptable(d, args, c) <==> Checked(d, args, c)
    {
      AcceptableIsChecked(d, args, c);
    }
    forall c | Acceptable(d, args, c)
      ensures if Finished(d)
              then Decide(d, args) == if NarrowSession(d.session, d.db) == Ok(d.session) then AlreadyActive else Refuse
              else Decide(d, args) == Proceed(c, NarrowSession(d.session, d.db).value)
    {
      DecideChecked(d, args, c);
    }
    if Decide(d, args).Proceed? {
      ProceedChecked(d, args);
    }
  }

  // ----- every step keeps the invariant

  lemma OldProceeds(d0: Disk, d: Disk, args: Args)
    requires Same(d0, d) && Old(d0, d) && Decide(d, args).Proceed?
    ensures d0.pilot.Some? && Authorized(d0, d, TheCampaign(d0, d))
    ensures Decide(d, args) == Proceed(TheCampaign(d0, d), NarrowSession(d0.session, d0.db).value)
  {
  }

  /** A run that meets its own marker decides as the run that wrote it. */
  lemma BegunProceeds(d0: Disk, d: Disk, args: Args)
    requires Same(d0, d) && d0.pilot.Some? && Begun(d0, d, TheCampaign(d0, d))
    ensures Decide(d, args) == Refuse
         || Decide(d, args) == Proceed(TheCampaign(d0, d), NarrowSession(d0.session, d0.db).value)
    ensures args.expectedMax == MaxEvent(d.events) && (d.pilot.Some? ==> d.pilot.value.sha == args.expectedSha) ==>
              Decide(d, args).Proceed?
  {
    NarrowIdempotent(d0.session, d0.db);
  }

  lemma NewDecides(d0: Disk, d: Disk, args: Args)
    requires Same(d0, d) && New(d0, d)
    ensures !Decide(d, args).Proceed?
    ensures && args.expectedMax == MaxEvent(d.events) == d.campaign.value.activation && d.healthy
            && HistoryOk(d.events, d.campaign.value.baseline, d.campaign.value.activation)
            ==> Decide(d, args) == AlreadyActive
  {
    NarrowIdempotent(d0.session, d0.db);
  }

  lemma RunKeeps(d0: Disk, d: Disk, args: Args, dir: nat, k: nat)
    requires Inv(d0, d)
    ensures Inv(d0, RunTo(d, args, dir, k))
  {
    if Decide(d, args).Proceed? {
      if Old(d0, d) {
        OldProceeds(d0, d, args);
      } else if New(d0, d) {
        NewDecides(d0, d, args);
      } else {
        BegunProceeds(d0, d, args);
      }
    }
  }

  lemma {:induction false} ExecKeeps(d0: Disk, steps: seq<Step>)
    requires d0.marker.None? && d0.campaign.None?
    ensures Inv(d0, Exec(d0, steps))
    decreases |steps|
  {
    if steps != [] {
      ExecKeeps(d0, steps[..|steps| - 1]);
      var d := Exec(d0, steps[..|steps| - 1]);
      match steps[|steps| - 1]
      case Run(args, dir, k) => RunKeeps(d0, d, args, dir, k);
      case Review(e) =>
    }
  }

  /** After any runs, each stopped anywhere, a state without the marker is wholly old or wholly new; a
      mixture is always denied. */
  lemma WholeWithoutMarker(d0: Disk, steps: seq<Step>)
    requires d0.marker.None? && d0.campaign.None?
    ensures var d := Exec(d0, steps);
            d.marker.None? ==> Old(d0, d) || New(d0, d)
    ensures var d := Exec(d0, steps);
            d.marker.Some? ==> d.marker.value.backup in d.backups
  {
    ExecKeeps(d0, steps);
  }

  /** In the new state the one paired reviewer is Rubar, under the token of the old session, and nothing of
      the pilot is left. */
  lemma NewPairsRubar(d0: Disk, d: Disk)
    requires New(d0, d)
    ensures d.pilot == None && d.marker == None && OneRubar(d.session.reviewers) && RubarOnly(d0.session, d.session)
  {
    NarrowKeepsRubar(d0.session, d0.db);
    NarrowIdempotent(d0.session, d0.db);
    NarrowKeepsRubar(d.session, d0.db);
  }

  // ----- reruns with the same arguments

  datatype Stop = Stop(dir: nat, k: nat)

  function Rerun(d: Disk, args: Args, stops: seq<Stop>): Disk {
    if stops == [] then d
    else
      var last := stops[|stops| - 1];
      RunTo(Rerun(d, args, stops[..|stops| - 1]), args, last.dir, last.k)
  }

  ghost predicate OnTrack(d0: Disk, d: Disk, args: Args) {
    && Same(d0, d) && args.expectedMax == MaxEvent(d.events)
    && (|| (Old(d0, d) && Decide(d, args).Proceed?)
        || (&& d0.pilot.Some? && Begun(d0, d, TheCampaign(d0, d))
            && (d.pilot.Some? ==> d.pilot.value.sha == args.expectedSha))
        || (&& New(d0, d) && d.campaign.value.activation == MaxEvent(d.events) && d.healthy
            && HistoryOk(d.events, d.campaign.value.baseline, d.campaign.value.activation)))
  }

  lemma OnTrackKept(d0: Disk, d: Disk, args: Args, dir: nat, k: nat)
    requires OnTrack(d0, d, args)
    ensures OnTrack(d0, RunTo(d, args, dir, k), args)
  {
    if Old(d0, d) {
      OldProceeds(d0, d, args);
      if k == 1 && dir !in d.backups {
        assert Decide(RunTo(d, args, dir, k), args) == Decide(d, args);
      }
    } else if New(d0, d) {
      NewDecides(d0, d, args);
    } else {
      BegunProceeds(d0, d, args);
    }
  }

  lemma OnTrackArrives(d0: Disk, d: Disk, args: Args, dir: nat)
    requires OnTrack(d0, d, args) && dir !in d.backups
    ensures New(d0, RunTo(d, args, dir, LAST))
  {
    if Old(d0, d) {
      OldProceeds(d0, d, args);
    } else if New(d0, d) {
      NewDecides(d0, d, args);
    } else {
      BegunProceeds(d0, d, args);
    }
  }

  lemma {:induction false} RerunOnTrack(d0: Disk, d: Disk, args: Args, stops: seq<Stop>)
    requires OnTrack(d0, d, args)
    ensures OnTrack(d0, Rerun(d, args, stops), args)
    decreases |stops|
  {
    if stops != [] {
      RerunOnTrack(d0, d, args, stops[..|stops| - 1]);
      var last := stops[|stops| - 1];
      OnTrackKept(d0, Rerun(d, args, stops[..|stops| - 1]), args, last.dir, last.k);
    }
  }

  /** Once a run has accepted its inputs, then however often it is stopped and rerun with the same
      arguments, one rerun to the end reaches the new state. */
  lemma RerunCompletes(d0: Disk, steps: seq<Step>, args: Args, stops: seq<Stop>, dir: nat)
    requires d0.marker.None? && d0.campaign.None?
    requires Decide(Exec(d0, steps), args).Proceed?
    requires dir !in Rerun(Exec(d0, steps), args, stops).backups
    ensures New(d0, RunTo(Rerun(Exec(d0, steps), args, stops), args, dir, LAST))
  {
    var d := Exec(d0, steps);
    ExecKeeps(d0, steps);
    if New(d0, d) {
      NewDecides(d0, d, args);
    } else {
      RerunOnTrack(d0, d, args, stops);
      OnTrackArrives(d0, Rerun(d, args, stops), args, dir);
    }
  }

  // ----- the script

  class DataDirectory {
    const db: string
    const healthy: bool
    const events: seq<Event>
    const focus: set<string>
    var marker: Option<Marker>
    var backups: set<nat>
    var campaign: Option<Campaign>
    var session: Session
    var pilot: Option<PolicyFile>

    function Contents(): Disk
      reads this
    {
      Disk(db, healthy, events, focus, marker, backups, campaign, session, pilot)
    }

    constructor (d: Disk)
      ensures Contents() == d
    {
      db, healthy, events, focus := d.db, d.healthy, d.events, d.focus;
      marker, backups, campaign, session, pilot := d.marker, d.backups, d.campaign, d.session, d.pilot;
    }

    /** The order of the mutations, stopped after `stop` of them. */
    method Activate(args: Args, dir: nat, stop: nat) returns (done: bool)
      modifies this
      ensures Contents() == RunTo(old(Contents()), args, dir, stop)
      ensures done ==> marker.None? && pilot.None? && campaign.Some?
                       && NarrowSession(old(session), db) == Ok(session) && RubarOnly(old(session), session)
    {
      var decision := Decide(Contents(), args);
      NarrowKeepsRubar(session, db);
      if decision.AlreadyActive? { return true; }
      if decision.Refuse? { return false; }
      var begun := marker.Some?;
      if !begun {
        if dir in backups || stop == 0 { return false; }
        backups := backups + {dir};
        if stop == 1 { return false; }
        marker := Some(Marker(decision.intended.id, dir));
      }
      if stop <= 2 { return false; }
      if campaign.None? { campaign := Some(decision.intended); }
      if stop == 3 { return false; }
      session := decision.narrowed;
      if stop == 4 { return false; }
      if pilot.Some? { pilot := None; }
      if stop == 5 { return false; }
      marker := None;
      done := true;
    }
  }
}
