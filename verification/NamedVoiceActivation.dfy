/**
 `activate` of activate_named_voice_focus.py: an active campaign is narrowed to the segments of one
 completed import through a backup, a marker, one database commit (speaker names, revisions and the
 campaign row) and a rewrite of the focus file. A run may stop after any step, reruns may use any
 arguments, and review events arrive only while no marker denies the runtime.
 */
module NamedVoiceActivation {
  import opened Wrappers
  import opened ReviewCampaign
  import opened ReviewEvents
  import opened Sequences

  datatype Segment = Segment(speaker: Option<string>, revision: Option<nat>) {
    function Revision(): nat { if revision.Some? then revision.value else 0 }
    predicate NamedAs(name: string) { (if speaker.Some? then speaker.value else "") == name }
  }

  /** The segments a completed import maps to; `ready` is the outcome of the checks on its journal,
      audio files and drafts. */
  datatype Job = Job(rows: seq<string>, ready: bool)

  datatype Marker = Marker(from: CampaignId, to: CampaignId, backup: nat)

  /** `sessionOk`: the remembered session belongs to the database, is Rubar's alone and holds no pilot
      state. */
  datatype Disk = Disk(sessionOk: bool, healthy: bool, jobs: map<string, Job>, events: seq<Event>,
                       marker: Option<Marker>, backups: set<nat>, segments: map<string, Segment>,
                       campaign: Option<Campaign>, focus: set<string>)

  datatype Args = Args(speaker: string, job: string, expected: CampaignId, expectedMax: nat)

  // ----- decisions

  predicate ValidSpeaker(name: string) { 0 < |name| <= 64 && forall c | c in name :: c as int >= 32 }

  function Ids(rows: seq<string>): set<string> { set s | s in rows }

  predicate Reviewed(events: seq<Event>, ids: set<string>) { exists e | e in events :: e.segment in ids }

  datatype Decision = Refuse | Proceed(intended: Campaign, rows: seq<string>)

  /** The import may be targeted: exact, drafted by the champion, unreviewed, within the focus. */
  predicate Targetable(d: Disk, args: Args) {
    && args.job in d.jobs && d.jobs[args.job].ready
    && var rows := d.jobs[args.job].rows;
       && Distinct(rows) && Ids(rows) <= d.segments.Keys
       && !Reviewed(d.events, Ids(rows)) && Ids(rows) <= d.focus
  }

  predicate MarkerAllows(d: Disk, args: Args, current: CampaignId, intended: CampaignId) {
    match d.marker
    case None => current == args.expected
    case Some(m) =>
      && m.from == args.expected && m.to == intended && m.backup in d.backups
      && (current == args.expected || current == intended)
  }

  function Intended(d: Disk, args: Args): Campaign
    requires d.campaign.Some? && args.job in d.jobs
  {
    CampaignPolicy(d.campaign.value.baseline, MaxEvent(d.events), FocusEvidence(Ids(d.jobs[args.job].rows)))
  }

  function Decide(d: Disk, args: Args): Decision {
    if !ValidSpeaker(args.speaker) || !d.sessionOk || !d.healthy || MaxEvent(d.events) != args.expectedMax then Refuse
    else if d.campaign.None? || !ValidCampaign(d.campaign.value) || !Targetable(d, args) then Refuse
    else if !ValidCampaign(Intended(d, args)) then Refuse
    else if !MarkerAllows(d, args, d.campaign.value.id, Intended(d, args).id) then Refuse
    else Proceed(Intended(d, args), d.jobs[args.job].rows)
  }

  // ----- a run, stopped after k of its mutations

  function Renamed(s: Segment, name: string): Segment {
    Segment(Some(name), Some(s.Revision() + if s.NamedAs(name) then 0 else 1))
  }

  function Rename(segments: map<string, Segment>, ids: set<string>, name: string): map<string, Segment> {
    map s | s in segments :: if s in ids then Renamed(segments[s], name) else segments[s]
  }

  const LAST := 5

  /** Backup, marker, commit, focus file, unlink of the marker. */
  function Mutate(d: Disk, c: Campaign, ids: set<string>, args: Args, dir: nat, k: nat): Disk
    requires d.campaign.Some?
  {
    var begun := d.marker.Some?;
    d.(backups := if k >= 1 && !begun then d.backups + {dir} else d.backups,
       marker := if k >= 5 then None
                 else if k >= 2 && !begun then Some(Marker(d.campaign.value.id, c.id, dir))
                 else d.marker,
       segments := if k >= 3 then Rename(d.segments, ids, args.speaker) else d.segments,
       campaign := if k >= 3 then Some(c) else d.campaign,
       focus := if k >= 4 then ids else d.focus)
  }

  function RunTo(d: Disk, args: Args, dir: nat, k: nat): Disk {
    match Decide(d, args)
    case Proceed(c, rows) => if d.marker.None? && dir in d.backups then d else Mutate(d, c, Ids(rows), args, dir, k)
    case Refuse => d
  }

  datatype Step = Run(args: Args, dir: nat, k: nat) | Review(event: Event)

  function Next(d: Disk, step: Step): Disk {
    match step
    case Run(args, dir, k) => RunTo(d, args, dir, k)
    case Review(e) => if d.marker.None? then d.(events := d.events + [e]) else d
  }

  function Exec(d: Disk, steps: seq<Step>): Disk {
    if steps == [] then d else Next(Exec(d, steps[..|steps| - 1]), steps[|steps| - 1])
  }

  // ----- the focus file and the campaign agree whenever the runtime may serve

  ghost predicate FocusMatches(d: Disk) {
    d.campaign.Some? && d.campaign.value.focus == FocusEvidence(d.focus)
  }

  /** While the marker stands, the campaign row and the focus file are each the old or the new one. */
  ghost predicate Begun(d: Disk) {
    && d.marker.Some? && d.campaign.Some?
    && var m := d.marker.value;
       && m.backup in d.backups
       && d.campaign.value.id in {m.from, m.to}
       && (d.campaign.value.id == m.from ==> m.from == m.to || FocusMatches(d))
  }

  ghost predicate Inv(d: Disk) { if d.marker.None? then FocusMatches(d) else Begun(d) }

  lemma {:induction false} ExecKeeps(d0: Disk, steps: seq<Step>)
    requires d0.marker.None? && FocusMatches(d0)
    ensures Inv(Exec(d0, steps))
    decreases |steps|
  {
    if steps != [] {
      ExecKeeps(d0, steps[..|steps| - 1]);
    }
  }

  /** After any runs, each stopped anywhere, absence of the marker means that the stored campaign's count
      and digest are those of the focus file; a mismatch is always denied. */
  lemma {:induction false} MatchesWithoutMarker(d0: Disk, steps: seq<Step>)
    requires d0.marker.None? && FocusMatches(d0)
    ensures Exec(d0, steps).marker.None? ==> FocusMatches(Exec(d0, steps))
    ensures Exec(d0, steps).marker.Some? ==> Exec(d0, steps).marker.value.backup in Exec(d0, steps).backups
  {
    ExecKeeps(d0, steps);
  }

  /** Reviews that arrive between runs are all recorded, in order, without a marker, and none with one. */
  lemma {:induction false} MarkerDenies(d: Disk, es: seq<Event>)
    ensures Exec(d, seq(|es|, k requires 0 <= k < |es| => Review(es[k])))
         == if d.marker == None then d.(events := d.events + es) else d
    decreases |es|
  {
    var steps := seq(|es|, k requires 0 <= k < |es| => Review(es[k]));
    if es == [] {
      assert d.events + es == d.events;
    } else {
      var front := es[..|es| - 1];
      MarkerDenies(d, front);
      assert steps[..|steps| - 1] == seq(|front|, k requires 0 <= k < |front| => Review(front[k]));
      assert d.events + es == d.events + front + [es[|es| - 1]];
    }
  }

  // ----- exactly when a run goes ahead

  /** What an import must be: finished and checked, without repeated segments, all of them stored, in the
      current focus and never reviewed. */
  ghost predicate FreshImport(d: Disk, job: string) {
    && job in d.jobs && d.jobs[job].ready
    && var rows := d.jobs[job].rows;
       && (forall i, j | 0 <= i < j < |rows| :: rows[i] != rows[j])
       && (forall i | 0 <= i < |rows| :: rows[i] in d.segments && rows[i] in d.focus)
       && (forall i, e | 0 <= i < |rows| && e in d.events :: e.segment != rows[i])
  }

  /** What every accepted run has checked, with c the campaign it is to store. */
  ghost predicate Acceptable(d: Disk, args: Args, c: Campaign) {
    && 1 <= |args.speaker| < 65 && (forall k | 0 <= k < |args.speaker| :: !(args.speaker[k] < ' '))
    && d.sessionOk && d.healthy && IsMaximum(d.events, args.expectedMax) && FreshImport(d, args.job)
    && d.campaign.Some? && d.campaign.value.baseline <= d.campaign.value.activation
    && d.campaign.value.focus.count >= 1
    && CampaignOf(c, d.campaign.value.baseline, args.expectedMax, Ids(d.jobs[args.job].rows))
    && c.baseline <= args.expectedMax && |d.jobs[args.job].rows| >= 1
    && match d.marker
       case None => d.campaign.value.id == args.expected
       case Some(m) =>
         && m.from == args.expected && m.to == c.id && m.backup in d.backups
         && d.campaign.value.id in {m.from, m.to}
  }

  lemma FreshIsTargetable(d: Disk, args: Args)
    ensures FreshImport(d, args.job) <==> Targetable(d, args)
  {
    if args.job in d.jobs {
      var rows := d.jobs[args.job].rows;
      assert forall i | 0 <= i < |rows| :: rows[i] in Ids(rows);
      assert forall s | s in Ids(rows) :: exists i | 0 <= i < |rows| :: rows[i] == s;
    }
  }

  /** A run goes ahead exactly when all of that holds, and then to that campaign and those segments. */
  lemma ProceedIff(d: Disk, args: Args, c: Campaign)
    ensures Acceptable(d, args, c) <==> Decide(d, args).Proceed? && Decide(d, args).intended == c
    ensures Decide(d, args).Proceed? ==> Decide(d, args).rows == d.jobs[args.job].rows
  {
    FreshIsTargetable(d, args);
    MaximumIs(d.events, args.expectedMax);
    assert forall k | 0 <= k < |args.speaker| :: args.speaker[k] in args.speaker;
    if args.job in d.jobs && d.campaign.Some? {
      var rows := d.jobs[args.job].rows;
      CampaignIs(c, d.campaign.value.baseline, args.expectedMax, Ids(rows));
      assert rows != [] ==> rows[0] in Ids(rows);
    }
  }

  // ----- reruns with the same arguments

  /** The campaign a rerun computes after the commit is the one the first run computed. */
  lemma IntendedAgain(d: Disk, args: Args, dir: nat, k: nat)
    requires Decide(d, args).Proceed?
    ensures Intended(RunTo(d, args, dir, k), args) == Intended(d, args)
  {
  }

  ghost predicate AllNamed(segments: map<string, Segment>, ids: set<string>, name: string) {
    forall s | s in ids :: s in segments && segments[s].speaker == Some(name)
  }

  ghost predicate Done(d: Disk, args: Args, c: Campaign) {
    && d.marker.None? && args.job in d.jobs && d.campaign == Some(c)
    && var ids := Ids(d.jobs[args.job].rows);
       && d.focus == ids && c.focus == FocusEvidence(ids) && AllNamed(d.segments, ids, args.speaker)
  }

  ghost predicate OnTrack(d: Disk, args: Args, c: Campaign) {
    || (Decide(d, args).Proceed? && Decide(d, args).intended == c)
    || (Done(d, args, c) && c == Intended(d, args))
  }

  lemma OnTrackKept(d: Disk, args: Args, c: Campaign, dir: nat, k: nat)
    requires OnTrack(d, args, c)
    ensures OnTrack(RunTo(d, args, dir, k), args, c)
    ensures k >= LAST && dir !in d.backups ==> Done(RunTo(d, args, dir, k), args, c)
  {
    if Decide(d, args).Proceed? {
      IntendedAgain(d, args, dir, k);
      if !(d.marker.None? && dir in d.backups) && k < LAST {
        StillProceeds(d, args, dir, k);
      }
    }
  }

  lemma StillProceeds(d: Disk, args: Args, dir: nat, k: nat)
    requires Decide(d, args).Proceed? && k < LAST && (d.marker.Some? || dir !in d.backups)
    ensures Decide(RunTo(d, args, dir, k), args) == Decide(d, args)
  {
    var after := RunTo(d, args, dir, k);
    IntendedAgain(d, args, dir, k);
    assert after.segments.Keys == d.segments.Keys;
    assert Targetable(after, args);
    assert MarkerAllows(after, args, after.campaign.value.id, Intended(d, args).id);
  }

  datatype Stop = Stop(dir: nat, k: nat)

  function Rerun(d: Disk, args: Args, stops: seq<Stop>): Disk {
    if stops == [] then d
    else
      var last := stops[|stops| - 1];
      RunTo(Rerun(d, args, stops[..|stops| - 1]), args, last.dir, last.k)
  }

  lemma {:induction false} RerunOnTrack(d: Disk, args: Args, c: Campaign, stops: seq<Stop>)
    requires OnTrack(d, args, c)
    ensures OnTrack(Rerun(d, args, stops), args, c)
    decreases |stops|
  {
    if stops != [] {
      var before, last := Rerun(d, args, stops[..|stops| - 1]), stops[|stops| - 1];
      RerunOnTrack(d, args, c, stops[..|stops| - 1]);
      OnTrackKept(before, args, c, last.dir, last.k);
    }
  }

  /** However often an accepted run is stopped and rerun with the same arguments, one rerun to the end
      stores the campaign the first run computed, focuses on exactly the import and names all of it. */
  lemma RerunCompletes(d: Disk, args: Args, stops: seq<Stop>, dir: nat)
    requires Decide(d, args).Proceed? && dir !in Rerun(d, args, stops).backups
    ensures Done(RunTo(Rerun(d, args, stops), args, dir, LAST), args, Intended(d, args))
  {
    RerunOnTrack(d, args, Intended(d, args), stops);
    OnTrackKept(Rerun(d, args, stops), args, Intended(d, args), dir, LAST);
  }

  // ----- revisions

  /** Untouched, or named with its revision raised once unless it already bore the name. */
  ghost predicate RaisedOnce(before: Segment, now: Segment, name: string) {
    now == before || now == Renamed(before, name)
  }

  predicate OneSpeaker(steps: seq<Step>, name: string) {
    forall k | 0 <= k < |steps| :: steps[k].Run? ==> steps[k].args.speaker == name
  }

  lemma RenamedTwice(s: Segment, name: string)
    ensures Renamed(Renamed(s, name), name) == Renamed(s, name)
  {
  }

  /** Over all runs with one speaker name, each segment's revision rises at most once, and only when
      the segment is given a name it did not bear. */
  lemma {:induction false} RevisionRisesOnce(d0: Disk, steps: seq<Step>, name: string, s: string)
    requires OneSpeaker(steps, name) && s in d0.segments
    ensures s in Exec(d0, steps).segments && RaisedOnce(d0.segments[s], Exec(d0, steps).segments[s], name)
    ensures Exec(d0, steps).segments[s].Revision() <= d0.segments[s].Revision() + 1
    decreases |steps|
  {
    if steps != [] {
      RevisionRisesOnce(d0, steps[..|steps| - 1], name, s);
      RenamedTwice(d0.segments[s], name);
      assert steps[|steps| - 1].Run? ==> steps[|steps| - 1].args.speaker == name;
    }
  }

  /** The marker does not bind the speaker. A run stopped at any point and taken up under any name raises
      a segment's revision at most once if and only if the stop came before the commit, the second name
      is refused or the same, or the segment already bore the first name; otherwise it rises twice. */
  lemma OtherSpeakerRaisesAgain(d: Disk, args: Args, dir: nat, k: nat, other: string, again: nat, s: string)
    requires Decide(d, args).Proceed? && d.marker.None? && dir !in d.backups && k < LAST
    requires s in d.jobs[args.job].rows
    ensures var final := RunTo(RunTo(d, args, dir, k), args.(speaker := other), again, LAST);
            && s in final.segments
            && final.segments[s].Revision() <= d.segments[s].Revision() + 2
            && (final.segments[s].Revision() <= d.segments[s].Revision() + 1
                <==> k < 3 || !ValidSpeaker(other) || other == args.speaker || d.segments[s].NamedAs(args.speaker))
  {
    var stopped := RunTo(d, args, dir, k);
    StillProceeds(d, args, dir, k);
    assert ValidSpeaker(other) ==> Decide(stopped, args.(speaker := other)).Proceed?;
  }

  const UNNAMED := Segment(None, None)
  const OLD_CAMPAIGN := CampaignPolicy(0, 0, FocusEvidence({"a"}))
  /** One imported segment, in focus, without a name. */
  const IMPORTED := Disk(true, true, map["j" := Job(["a"], true)], [], None, {}, map["a" := UNNAMED],
                         Some(OLD_CAMPAIGN), {"a"})
  const AS_X := Args("x", "j", OLD_CAMPAIGN.id, 0)

  /** Stopped after its commit as "x" and finished as "y", one activation ends with a revision of two. */
  lemma TwoNamesRaiseTwice()
    ensures Decide(IMPORTED, AS_X).Proceed?
    ensures var final := RunTo(RunTo(IMPORTED, AS_X, 0, 3), AS_X.(speaker := "y"), 0, LAST);
            final.marker.None? && final.segments["a"] == Segment(Some("y"), Some(2))
  {
    assert Decide(IMPORTED, AS_X).Proceed?;
    StillProceeds(IMPORTED, AS_X, 0, 3);
    assert Decide(RunTo(IMPORTED, AS_X, 0, 3), AS_X.(speaker := "y")).Proceed?;
  }

  // ----- the script

  lemma RenameApart(segments: map<string, Segment>, a: set<string>, b: set<string>, name: string)
    requires a !! b
    ensures Rename(Rename(segments, a, name), b, name) == Rename(segments, a + b, name)
  {
  }

  class DataDirectory {
    const sessionOk: bool
    const healthy: bool
    const jobs: map<string, Job>
    const events: seq<Event>
    var marker: Option<Marker>
    var backups: set<nat>
    var segments: map<string, Segment>
    var campaign: Option<Campaign>
    var focus: set<string>

    function Contents(): Disk
      reads this
    {
      Disk(sessionOk, healthy, jobs, events, marker, backups, segments, campaign, focus)
    }

    constructor (d: Disk)
      ensures Contents() == d
    {
      sessionOk, healthy, jobs, events := d.sessionOk, d.healthy, d.jobs, d.events;
      marker, backups, segments, campaign, focus := d.marker, d.backups, d.segments, d.campaign, d.focus;
    }

    /** The update loop, 800 identifiers at a time, inside the open transaction. */
    method NameSpeaker(rows: seq<string>, name: string) returns (named: map<string, Segment>)
      requires Distinct(rows)
      ensures named == Rename(segments, Ids(rows), name)
    {
      named := segments;
      var offset := 0;
      assert Rename(segments, Ids(rows[..0]), name) == segments;
      while offset < |rows|
        invariant 0 <= offset <= |rows| && named == Rename(segments, Ids(rows[..offset]), name)
      {
        var end := if offset + 800 <= |rows| then offset + 800 else |rows|;
        var chunk := rows[offset..end];
        ChunkApart(rows, offset, end);
        RenameApart(segments, Ids(rows[..offset]), Ids(chunk), name);
        named := Rename(named, Ids(chunk), name);
        offset := end;
      }
      assert rows[..|rows|] == rows;
    }

    /** The order of the mutations, stopped after `stop` of them; a stop before the commit loses the
        transaction. */
    method Activate(args: Args, dir: nat, stop: nat) returns (done: bool)
      modifies this
      ensures Contents() == RunTo(old(Contents()), args, dir, stop)
      ensures done ==> FocusMatches(Contents()) && marker.None?
    {
      var decision := Decide(Contents(), args);
      if decision.Refuse? { return false; }
      var c, rows := decision.intended, decision.rows;
      if marker.None? {
        if dir in backups || stop == 0 { return false; }
        backups := backups + {dir};
        if stop == 1 { return false; }
        marker := Some(Marker(campaign.value.id, c.id, dir));
      }
      if stop <= 2 { return false; }
      var named := NameSpeaker(rows, args.speaker);
      segments, campaign := named, Some(c);
      if stop == 3 { return false; }
      focus := Ids(rows);
      if stop == 4 { return false; }
      marker := None;
      done := true;
    }
  }

  lemma ChunkApart(rows: seq<string>, lo: nat, hi: nat)
    requires Distinct(rows) && lo <= hi <= |rows|
    ensures Ids(rows[..lo]) !! Ids(rows[lo..hi])
    ensures Ids(rows[..lo]) + Ids(rows[lo..hi]) == Ids(rows[..hi])
  {
    assert rows[..hi] == rows[..lo] + rows[lo..hi];
    forall s | s in Ids(rows[..lo])
      ensures s !in Ids(rows[lo..hi])
    {
      var i :| 0 <= i < lo && rows[i] == s;
      assert forall j | lo <= j < hi :: rows[j] != rows[i];
    }
  }
}
