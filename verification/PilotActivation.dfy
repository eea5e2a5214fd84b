/**
 `_activate_locked` of activate_review_pilot.py: inside one database transaction the marker is written,
 the policy, session and (for a roster replacement with additions) focus files are replaced, the
 transaction is committed and the marker removed last. A run may stop after any step; what it inserted
 is lost unless the commit was reached. Runs may use any arguments.
 */
module PilotActivation {
  import opened Wrappers
  import opened ReviewEvents
  import opened ReviewerNames
  import opened Sequences
  import opened PilotHiddenKeys

  datatype Session = Session(db: string, reviewers: map<string, string>, cookies: seq<string>,
                             spotChecks: seq<RawKey>, pilotChecks: seq<RawKey>, policy: Option<Policy>,
                             other: string)

  /** The bytes of a policy file: the document as equality of parsed documents sees it, the order of its
      keys, which parsing keeps and equality ignores, and the layout (whitespace, escapes, line ends),
      which parsing forgets. A digest of the file stands for all three. */
  datatype PolicyFile = PolicyFile(policy: Policy, keyOrder: string, layout: string)

  /** `pristine`: the other tables a roster replacement requires empty are empty. */
  datatype Disk = Disk(db: string, healthy: bool, pristine: bool, events: seq<Event>, contract: set<string>,
                       marker: bool, policy: Option<PolicyFile>, session: Session, focus: set<string>,
                       table: set<Grant>)

  datatype Args = Args(expectedMax: nat, expectedPolicy: Option<PolicyFile>, replace: bool,
                       credential: Option<Session>, additions: seq<string>, expectedFocus: Option<set<string>>)

  // ----- narrowing

  predicate IsTarget(name: string) { Names(name, "rubar") || Names(name, "alle") }

  function KeepNames(names: seq<string>): seq<string> {
    if names == [] then [] else (if IsTarget(names[0]) then [names[0]] else []) + KeepNames(names[1..])
  }

  function KeepChecks(checks: seq<RawKey>): seq<RawKey> {
    if checks == [] then [] else (if IsTarget(checks[0].reviewer) then [checks[0]] else []) + KeepChecks(checks[1..])
  }

  function KeptPairing(reviewers: map<string, string>): map<string, string> {
    map token | token in reviewers && IsTarget(reviewers[token]) :: reviewers[token]
  }

  function Tokens(reviewers: map<string, string>, lowerName: string): set<string> {
    set token | token in reviewers && Names(reviewers[token], lowerName)
  }

  /** `narrow_session`: hidden keys are kept only under the very policy that authorized them. */
  function NarrowSession(s: Session, db: string, p: Policy): Result<Session> {
    var kept, checks := KeptPairing(s.reviewers), KeepChecks(s.pilotChecks);
    if s.db != db || |Tokens(kept, "rubar")| != 1 || |Tokens(kept, "alle")| != 1 then Refused
    else if checks != [] && (s.policy.None? || !ValidPolicy(s.policy.value) || s.policy.value != p) then Refused
    else Ok(s.(reviewers := kept, cookies := KeepNames(s.cookies), spotChecks := KeepChecks(s.spotChecks),
               pilotChecks := checks, policy := Some(p)))
  }

  lemma {:induction false} KeepNamesTwice(names: seq<string>)
    ensures KeepNames(KeepNames(names)) == KeepNames(names)
    decreases |names|
  {
    if names != [] {
      KeepNamesTwice(names[1..]);
      var kept, rest := KeepNames(names), KeepNames(names[1..]);
      if IsTarget(names[0]) { assert kept[1..] == rest; } else { assert kept == rest; }
    }
  }

  lemma {:induction false} KeepChecksTwice(checks: seq<RawKey>)
    ensures KeepChecks(KeepChecks(checks)) == KeepChecks(checks)
    decreases |checks|
  {
    if checks != [] {
      KeepChecksTwice(checks[1..]);
      var kept, rest := KeepChecks(checks), KeepChecks(checks[1..]);
      if IsTarget(checks[0].reviewer) { assert kept[1..] == rest; } else { assert kept == rest; }
    }
  }

  /** Narrowing a narrowed session to the same policy changes nothing. */
  lemma NarrowTwice(s: Session, db: string, p: Policy)
    requires ValidPolicy(p) && NarrowSession(s, db, p).Ok?
    ensures NarrowSession(NarrowSession(s, db, p).value, db, p) == NarrowSession(s, db, p)
  {
    KeepNamesTwice(s.cookies);
    KeepChecksTwice(s.spotChecks);
    KeepChecksTwice(s.pilotChecks);
    var kept := KeptPairing(s.reviewers);
    assert KeptPairing(kept) == kept;
  }

  // ----- decisions

  function PilotPolicy(baseline: nat): Policy { Policy(baseline, {"rubar", "alle"}, "") }

  /** What the script writes: its own layout (the empty one here), with the keys in the given order. */
  function Render(p: Policy, keyOrder: string): PolicyFile { PolicyFile(p, keyOrder, "") }

  function SetOf(xs: seq<string>): set<string> { set x | x in xs }

  /** The focus file after the run: the tracked contract, reached by additions or already there. */
  function FocusTarget(d: Disk, args: Args): Result<set<string>> {
    if args.additions != [] then
      if !args.replace || args.expectedFocus != Some(d.focus) || !Distinct(args.additions) then Refused
      else if !(d.focus !! SetOf(args.additions)) || d.focus + SetOf(args.additions) != d.contract then Refused
      else Ok(d.focus + SetOf(args.additions))
    else if args.expectedFocus.Some? || d.focus != d.contract then Refused
    else Ok(d.focus)
  }

  /** The compare-and-swap on the policy file. */
  predicate PolicyExpected(d: Disk, args: Args) {
    && d.policy == args.expectedPolicy
    && (d.policy.Some? ==>
          if args.replace then |d.policy.value.policy.roster| == 2 else ValidPolicy(d.policy.value.policy))
  }

  /** A roster is replaced only before any activity of the policy it replaces. */
  predicate MayReplace(d: Disk, args: Args) {
    && d.policy.Some? && args.credential.Some?
    && MaxEvent(d.events) == d.policy.value.policy.baseline && d.table == {} && d.pristine
    && d.session.policy == Some(d.policy.value.policy)
  }

  function ChosenPolicy(d: Disk, args: Args): Policy
    requires args.replace ==> d.policy.Some?
  {
    if args.replace then PilotPolicy(d.policy.value.policy.baseline)
    else if d.policy.Some? then d.policy.value.policy
    else PilotPolicy(MaxEvent(d.events))
  }

  /** A policy read from the file keeps the order of its keys; a new one has the script's own (the empty
      one here). */
  function ChosenOrder(d: Disk, args: Args): string {
    if !args.replace && d.policy.Some? then d.policy.value.keyOrder else ""
  }

  function Narrowed(d: Disk, args: Args): Result<Session>
    requires args.replace ==> d.policy.Some? && args.credential.Some?
  {
    var source := if args.replace then args.credential.value else d.session;
    match NarrowSession(source, d.db, ChosenPolicy(d, args))
    case Refused => Refused
    case Ok(s) => Ok(if args.replace then s.(cookies := [], spotChecks := [], pilotChecks := []) else s)
  }

  datatype Decision = Refuse | Proceed(policy: Policy, keyOrder: string, narrowed: Session, table: set<Grant>,
                                       focus: set<string>) {
    function File(): PolicyFile
      requires Proceed?
    {
      Render(policy, keyOrder)
    }
  }

  function Decide(d: Disk, args: Args): Decision {
    if FocusTarget(d, args).Refused? || !PolicyExpected(d, args) then Refuse
    else if !d.healthy || MaxEvent(d.events) != args.expectedMax then Refuse
    else if args.replace && !MayReplace(d, args) then Refuse
    else
      match Narrowed(d, args)
      case Refused => Refuse
      case Ok(narrowed) =>
        match Import(d.table, ChosenPolicy(d, args), narrowed.pilotChecks, d.events)
        case Refused => Refuse
        case Ok(table) =>
          Proceed(ChosenPolicy(d, args), ChosenOrder(d, args), narrowed, table, FocusTarget(d, args).value)
  }

  // ----- a run, stopped after k of its mutations

  const LAST := 6

  /** Marker, policy file, session file, focus file, commit, unlink of the marker. */
  function Mutate(d: Disk, go: Decision, k: nat): Disk
    requires go.Proceed?
  {
    d.(marker := if k >= 6 then false else k >= 1 || d.marker,
       policy := if k >= 2 then Some(go.File()) else d.policy,
       session := if k >= 3 then go.narrowed else d.session,
       focus := if k >= 4 then go.focus else d.focus,
       table := if k >= 5 then go.table else d.table)
  }

  function RunTo(d: Disk, args: Args, k: nat): Disk {
    if Decide(d, args).Proceed? then Mutate(d, Decide(d, args), k) else d
  }

  datatype Step = Run(args: Args, k: nat) | Review(event: Event)

  /** The runtime serves only without a marker, and hidden checks only for granted keys. */
  predicate Serves(d: Disk, e: Event) {
    && !d.marker
    && (e.source.SpotCheck? ==>
          && d.policy.Some? && KeyOf(RawKeyOf(e)).Some?
          && KeyOf(RawKeyOf(e)).value in Granted(d.table, d.policy.value.policy))
  }

  function Next(d: Disk, step: Step): Disk {
    match step
    case Run(args, k) => RunTo(d, args, k)
    case Review(e) => if Serves(d, e) then d.(events := d.events + [e]) else d
  }

  function Exec(d: Disk, steps: seq<Step>): Disk {
    if steps == [] then d else Next(Exec(d, steps[..|steps| - 1]), steps[|steps| - 1])
  }

  // ----- agreement

  /** Policy file, session and table speak of one policy; every retained or completed key is granted,
      within the quotas; the focus is the tracked one. */
  ghost predicate Agree(d: Disk) {
    && d.focus == d.contract
    && d.policy.Some? && d.session.policy == Some(d.policy.value.policy) && ValidPolicy(d.policy.value.policy)
    && var p := d.policy.value.policy;
       && ListKeys(d.session.pilotChecks) <= Granted(d.table, p)
       && Completed(d.events, p) <= Granted(d.table, p)
       && WithinQuota(Granted(d.table, p))
  }

  lemma ProceedMeans(d: Disk, args: Args)
    requires Decide(d, args).Proceed?
    ensures var go := Decide(d, args);
            && ValidPolicy(go.policy) && go.narrowed.policy == Some(go.policy) && go.focus == d.contract
            && Granted(go.table, go.policy)
               == Granted(d.table, go.policy) + ListKeys(go.narrowed.pilotChecks) + Completed(d.events, go.policy)
            && WithinQuota(Granted(go.table, go.policy))
  {
    var go := Decide(d, args);
    ImportIsUnion(d.table, go.policy, go.narrowed.pilotChecks, d.events);
  }

  /** A run that reaches its end leaves agreement, and a table that is the union of the granted, the
      retained and the completed keys. */
  lemma CompletedRunAgrees(d: Disk, args: Args, k: nat)
    requires Decide(d, args).Proceed? && k >= LAST
    ensures var after := RunTo(d, args, k);
            && !after.marker && Agree(after)
            && var p := after.policy.value.policy;
               Granted(after.table, p)
               == Granted(d.table, p) + ListKeys(after.session.pilotChecks) + Completed(d.events, p)
  {
    ProceedMeans(d, args);
  }

  ghost predicate Untouched(d0: Disk, d: Disk) {
    d.policy == d0.policy && d.session == d0.session && d.focus == d0.focus && d.table == d0.table
  }

  ghost predicate Inv(d0: Disk, d: Disk) {
    d.contract == d0.contract && (d.marker || (!d0.marker && Untouched(d0, d)) || Agree(d))
  }

  lemma HiddenAfterAppend(events: seq<Event>, e: Event, baseline: nat)
    ensures HiddenAfter(events + [e], baseline)
         == HiddenAfter(events, baseline) + if e.id > baseline && e.source.SpotCheck? then [e] else []
  {
    assert (events + [e])[..|events|] == events;
  }

  lemma RawAppend(events: seq<Event>, e: Event)
    ensures RawOf(events + [e]) == RawOf(events) + [RawKeyOf(e)]
  {
  }

  lemma KeysAppend(raws: seq<RawKey>, raw: RawKey)
    requires KeyOf(raw).Some?
    ensures ListKeys(raws + [raw]) == ListKeys(raws) + {KeyOf(raw).value}
  {
  }

  /** A served event completes at most its own key. */
  lemma CompletedAppend(events: seq<Event>, e: Event, p: Policy, key: Key)
    requires e.source.SpotCheck? && KeyOf(RawKeyOf(e)) == Some(key)
    ensures Completed(events + [e], p) <= Completed(events, p) + {key}
  {
    var hidden, after := HiddenAfter(events, p.baseline), HiddenAfter(events + [e], p.baseline);
    HiddenAfterAppend(events, e, p.baseline);
    if e.id > p.baseline {
      RawAppend(hidden, e);
      KeysAppend(RawOf(hidden), RawKeyOf(e));
      assert ListKeys(RawOf(after)) == ListKeys(RawOf(hidden)) + {key};
    } else {
      assert after == hidden;
    }
  }

  lemma CompletedElsewhere(events: seq<Event>, e: Event, p: Policy)
    requires !e.source.SpotCheck?
    ensures Completed(events + [e], p) == Completed(events, p)
  {
    HiddenAfterAppend(events, e, p.baseline);
    assert HiddenAfter(events + [e], p.baseline) == HiddenAfter(events, p.baseline);
  }

  lemma ReviewKeeps(d: Disk, e: Event)
    requires Serves(d, e) && Agree(d)
    ensures Agree(d.(events := d.events + [e]))
  {
    var p := d.policy.value.policy;
    if e.source.SpotCheck? {
      CompletedAppend(d.events, e, p, KeyOf(RawKeyOf(e)).value);
    } else {
      CompletedElsewhere(d.events, e, p);
    }
  }

  lemma {:induction false} ExecKeeps(d0: Disk, steps: seq<Step>)
    ensures Inv(d0, Exec(d0, steps))
    decreases |steps|
  {
    if steps != [] {
      ExecKeeps(d0, steps[..|steps| - 1]);
      var d := Exec(d0, steps[..|steps| - 1]);
      match steps[|steps| - 1]
      case Run(args, k) =>
        if Decide(d, args).Proceed? && k >= LAST { CompletedRunAgrees(d, args, k); }
      case Review(e) =>
        if Serves(d, e) && Agree(d) { ReviewKeeps(d, e); }
    }
  }

  /** After any runs, each stopped anywhere: without the marker, either nothing has changed since a
      start without it, or policy file, session, table and focus agree. */
  lemma AgreesWithoutMarker(d0: Disk, steps: seq<Step>)
    ensures var d := Exec(d0, steps);
            !d.marker ==> (!d0.marker && Untouched(d0, d)) || Agree(d)
  {
    ExecKeeps(d0, steps);
  }

  /** The table of grants only ever grows. */
  lemma {:induction false} TableGrows(d0: Disk, steps: seq<Step>)
    ensures d0.table <= Exec(d0, steps).table
    decreases |steps|
  {
    if steps != [] {
      TableGrows(d0, steps[..|steps| - 1]);
    }
  }

  // ----- recovery

  /** The arguments of a run that takes up a stopped one: they expect the policy file as it now is, and
      ask for no additions once the focus file has them. */
  function Resuming(d: Disk, args: Args): Args {
    if d.focus == d.contract then args.(expectedPolicy := d.policy, additions := [], expectedFocus := None)
    else args.(expectedPolicy := d.policy)
  }

  /** A roster replacement that changes the policy, stopped between its policy and its session file. */
  predicate Torn(d: Disk, args: Args, k: nat) {
    args.replace && k == 2 && d.policy.Some? && d.policy.value.policy != ChosenPolicy(d, args)
  }

  lemma OrdinaryProceeds(d: Disk, args: Args, k: nat)
    requires !args.replace && Decide(d, args).Proceed?
    ensures Decide(RunTo(d, args, k), Resuming(RunTo(d, args, k), args)) == Decide(d, args)
  {
    var go, stopped := Decide(d, args), RunTo(d, args, k);
    var args' := Resuming(stopped, args);
    assert ValidPolicy(go.policy);
    assert ChosenPolicy(stopped, args') == go.policy;
    NarrowTwice(d.session, d.db, go.policy);
    assert Narrowed(stopped, args') == Ok(go.narrowed);
    ImportTwice(d.table, go.policy, go.narrowed.pilotChecks, d.events);
  }

  lemma {:induction false} NoneAfterMax(events: seq<Event>, baseline: nat)
    requires MaxEvent(events) <= baseline
    ensures HiddenAfter(events, baseline) == []
    decreases |events|
  {
    if events != [] { NoneAfterMax(events[..|events| - 1], baseline); }
  }

  lemma ImportOfNothing(p: Policy, events: seq<Event>)
    requires MaxEvent(events) <= p.baseline && Import({}, p, [], events).Ok?
    ensures Import({}, p, [], events) == Ok({})
  {
    NoneAfterMax(events, p.baseline);
    var keys := Lifetime({}, p, [], events);
    assert keys == {};
    assert GrantsFor(p, keys - Granted({}, p)) == {};
  }

  /** A replacement imports nothing: there was no activity to import. */
  lemma ReplacementImportsNothing(d: Disk, args: Args)
    requires args.replace && Decide(d, args).Proceed?
    ensures Decide(d, args).table == {} == d.table && Decide(d, args).policy == PilotPolicy(MaxEvent(d.events))
    ensures Decide(d, args).narrowed.policy == Some(Decide(d, args).policy)
  {
    ImportOfNothing(ChosenPolicy(d, args), d.events);
  }

  lemma FocusResumes(d: Disk, args: Args, k: nat)
    requires Decide(d, args).Proceed?
    ensures FocusTarget(RunTo(d, args, k), Resuming(RunTo(d, args, k), args)) == Ok(Decide(d, args).focus)
  {
    if args.additions != [] {
      assert args.additions[0] in SetOf(args.additions);
    }
  }

  lemma ReplacementProceeds(d: Disk, args: Args, k: nat)
    requires args.replace && Decide(d, args).Proceed? && !Torn(d, args, k)
    ensures Decide(RunTo(d, args, k), Resuming(RunTo(d, args, k), args)) == Decide(d, args)
  {
    var go, stopped := Decide(d, args), RunTo(d, args, k);
    var args' := Resuming(stopped, args);
    ReplacementImportsNothing(d, args);
    FocusResumes(d, args, k);
    assert |{"rubar", "alle"}| == 2;
    assert MayReplace(stopped, args') && PolicyExpected(stopped, args');
    assert ChosenPolicy(stopped, args') == go.policy;
    assert Narrowed(stopped, args') == Ok(go.narrowed);
  }

  /** However a run is stopped, a run with resuming arguments ends in the very state of the
      uninterrupted one; only a torn replacement is refused, by every replacement run. */
  lemma RecoveryCompletes(d: Disk, args: Args, k: nat)
    requires Decide(d, args).Proceed?
    ensures var stopped := RunTo(d, args, k);
            if Torn(d, args, k) then forall other: Args | other.replace :: Decide(stopped, other).Refuse?
            else RunTo(stopped, Resuming(stopped, args), LAST) == RunTo(d, args, LAST)
    ensures Agree(RunTo(d, args, LAST))
  {
    CompletedRunAgrees(d, args, LAST);
    if !args.replace {
      OrdinaryProceeds(d, args, k);
    } else if !Torn(d, args, k) {
      ReplacementProceeds(d, args, k);
    } else {
      forall other: Args | other.replace
        ensures Decide(RunTo(d, args, k), other).Refuse?
      {
        assert !MayReplace(RunTo(d, args, k), other);
      }
    }
  }

  /** The arguments of an ordinary run that expects the files of `d`. */
  function Ordinary(d: Disk): Args { Args(MaxEvent(d.events), d.policy, false, None, [], None) }

  lemma OrdinaryTakesUp(d: Disk, args: Args)
    requires Decide(d, args).Proceed? && Torn(d, args, 2) && d.focus == d.contract
    requires NarrowSession(d.session, d.db, PilotPolicy(MaxEvent(d.events))).Ok?
    ensures Decide(RunTo(d, args, 2), Ordinary(RunTo(d, args, 2))).Proceed?
  {
    var stopped := RunTo(d, args, 2);
    ReplacementImportsNothing(d, args);
    assert Narrowed(stopped, Ordinary(stopped)).value.pilotChecks == [];
  }

  /** A torn replacement is taken up by some run if and only if the focus file was complete and the old
      session already pairs both new reviewers and holds nothing of theirs; the run is an ordinary one
      and leaves agreement. */
  lemma TornAcceptedIff(d: Disk, args: Args)
    requires Decide(d, args).Proceed? && Torn(d, args, 2)
    ensures var stopped := RunTo(d, args, 2);
            && ((exists other: Args :: Decide(stopped, other).Proceed?)
                <==> d.focus == d.contract && NarrowSession(d.session, d.db, PilotPolicy(MaxEvent(d.events))).Ok?)
            && (forall other: Args | Decide(stopped, other).Proceed? ::
                  !other.replace && Agree(RunTo(stopped, other, LAST)))
  {
    var stopped := RunTo(d, args, 2);
    ReplacementImportsNothing(d, args);
    RecoveryCompletes(d, args, 2);
    forall other: Args | Decide(stopped, other).Proceed?
      ensures !other.replace && Agree(RunTo(stopped, other, LAST))
      ensures d.focus == d.contract && NarrowSession(d.session, d.db, PilotPolicy(MaxEvent(d.events))).Ok?
    {
      CompletedRunAgrees(stopped, other, LAST);
    }
    if d.focus == d.contract && NarrowSession(d.session, d.db, PilotPolicy(MaxEvent(d.events))).Ok? {
      OrdinaryTakesUp(d, args);
    }
  }

  /** The stopped run's own arguments are accepted exactly when they still expect the files: before the
      policy file is written, or when that file is rewritten as it was and no additions were made. */
  lemma OwnArgumentsIff(d: Disk, args: Args, k: nat)
    requires Decide(d, args).Proceed?
    ensures Decide(RunTo(d, args, k), args).Proceed?
       <==> k < 2 || (d.policy == Some(Decide(d, args).File()) && (k < 4 || args.additions == []))
  {
    var stopped := RunTo(d, args, k);
    if k < 2 || d.policy == Some(Decide(d, args).File()) {
      if args.replace { ReplacementProceeds(d, args, k); } else { OrdinaryProceeds(d, args, k); }
      if k < 4 || args.additions == [] {
        OwnAreResuming(d, args, k);
      } else {
        assert stopped.focus == d.contract && args.additions[0] in SetOf(args.additions);
        assert args.expectedFocus == Some(d.focus) && d.focus != stopped.focus;
      }
    }
  }

  lemma OwnAreResuming(d: Disk, args: Args, k: nat)
    requires Decide(d, args).Proceed? && (k < 4 || args.additions == [])
    requires k < 2 || d.policy == Some(Decide(d, args).File())
    ensures Resuming(RunTo(d, args, k), args) == args
  {
    if args.additions != [] {
      assert args.additions[0] in SetOf(args.additions);
    }
  }

  /** Nothing activated yet: two paired reviewers, no policy file, no events. */
  const FIRST := Disk("db", true, true, [], {}, false, None,
                      Session("db", map["t" := "Rubar", "u" := "Alle"], [], [], [], None, ""), {}, {})
  const FIRST_ARGS := Args(0, None, false, None, [], None)

  lemma FirstNames()
    ensures Names("Rubar", "rubar") && Names("Alle", "alle")
    ensures !Names("Rubar", "alle") && !Names("Alle", "rubar")
  {
    NamesCanonical(Key(Rubar, "s"));
    NamesCanonical(Key(Alle, "s"));
  }

  lemma FirstNarrows()
    ensures NarrowSession(FIRST.session, FIRST.db, PilotPolicy(0)).Ok?
    ensures NarrowSession(FIRST.session, FIRST.db, PilotPolicy(0)).value.pilotChecks == []
  {
    FirstNames();
    var kept := KeptPairing(FIRST.session.reviewers);
    assert kept == FIRST.session.reviewers;
    assert Tokens(kept, "rubar") == {"t"} && Tokens(kept, "alle") == {"u"};
  }

  lemma EmptyImports()
    ensures Import({}, PilotPolicy(0), [], []).Ok?
  {
    assert Lifetime({}, PilotPolicy(0), [], []) == {};
    assert KeysFor({}, Rubar) == {} && KeysFor({}, Alle) == {};
  }

  /** A first activation stopped after its policy file was written is refused with its own arguments:
      they expect no policy file. */
  lemma FirstArgumentsRefused()
    ensures Decide(FIRST, FIRST_ARGS).Proceed? && Decide(RunTo(FIRST, FIRST_ARGS, 2), FIRST_ARGS).Refuse?
  {
    FirstNarrows();
    EmptyImports();
    OwnArgumentsIff(FIRST, FIRST_ARGS, 2);
  }

  /** Another roster is in force, and its two paired reviewers have done nothing yet. */
  const OTHER_POLICY := Policy(0, {"p", "q"}, "")
  const REPLACEABLE := FIRST.(policy := Some(Render(OTHER_POLICY, "")),
                              session := FIRST.session.(reviewers := map["t" := "P", "u" := "Q"],
                                                        policy := Some(OTHER_POLICY)))
  const REPLACE_ARGS := Args(0, Some(Render(OTHER_POLICY, "")), true, Some(FIRST.session), [], None)

  lemma OthersDropped()
    ensures NarrowSession(REPLACEABLE.session, REPLACEABLE.db, PilotPolicy(0)).Refused?
  {
    assert Strip("P") == "P" && Strip("Q") == "Q" && Lower("P") == "p" && Lower("Q") == "q";
    assert Tokens(KeptPairing(REPLACEABLE.session.reviewers), "rubar") == {};
  }

  /** A replacement stopped between its policy file and its session file, after which every run is
      refused whatever its arguments. */
  lemma TornReplacementRefused()
    ensures Decide(REPLACEABLE, REPLACE_ARGS).Proceed? && Torn(REPLACEABLE, REPLACE_ARGS, 2)
    ensures forall other: Args :: Decide(RunTo(REPLACEABLE, REPLACE_ARGS, 2), other).Refuse?
  {
    FirstNarrows();
    EmptyImports();
    assert |{"p", "q"}| == 2;
    assert MayReplace(REPLACEABLE, REPLACE_ARGS) && PolicyExpected(REPLACEABLE, REPLACE_ARGS);
    assert Narrowed(REPLACEABLE, REPLACE_ARGS).Ok?;
    assert "p" in OTHER_POLICY.roster && "p" !in PilotPolicy(0).roster;
    OthersDropped();
    TornAcceptedIff(REPLACEABLE, REPLACE_ARGS);
  }

  // ----- the script

  class DataDirectory {
    const db: string
    const healthy: bool
    const pristine: bool
    const events: seq<Event>
    const contract: set<string>
    var marker: bool
    var policy: Option<PolicyFile>
    var session: Session
    var focus: set<string>
    var table: set<Grant>

    function Contents(): Disk
      reads this
    {
      Disk(db, healthy, pristine, events, contract, marker, policy, session, focus, table)
    }

    constructor (d: Disk)
      ensures Contents() == d
    {
      db, healthy, pristine, events, contract := d.db, d.healthy, d.pristine, d.events, d.contract;
      marker, policy, session, focus, table := d.marker, d.policy, d.session, d.focus, d.table;
    }

    /** The order of the mutations, stopped after `stop` of them. The rows are inserted inside the
        transaction before the marker is written, and become durable at the commit. */
    method Promote(go: Decision, stop: nat)
      requires go.Proceed?
      modifies this
      ensures Contents() == Mutate(old(Contents()), go, stop)
    {
      if stop == 0 { return; }
      marker := true;
      if stop == 1 { return; }
      policy := Some(go.File());
      if stop == 2 { return; }
      session := go.narrowed;
      if stop == 3 { return; }
      focus := go.focus;
      if stop == 4 { return; }
      table := go.table;
      if stop == 5 { return; }
      marker := false;
    }

    method Activate(args: Args, stop: nat) returns (done: bool)
      modifies this
      ensures Contents() == RunTo(old(Contents()), args, stop)
      ensures done ==> !marker && Agree(Contents())
    {
      ghost var d := Contents();
      var go := Prepare(Contents(), args);
      if go.Refuse? { return false; }
      Promote(go, stop);
      done := stop >= LAST;
      if done { CompletedRunAgrees(d, args, stop); }
    }
  }

  /** The guards, in the order of the script, and the import inside the transaction. */
  method Prepare(d: Disk, args: Args) returns (go: Decision)
    ensures go == Decide(d, args)
  {
    var target := FocusTarget(d, args);
    if target.Refused? || !PolicyExpected(d, args) { return Refuse; }
    if !d.healthy || MaxEvent(d.events) != args.expectedMax { return Refuse; }
    if args.replace && !MayReplace(d, args) { return Refuse; }
    var chosen, narrowed := ChosenPolicy(d, args), Narrowed(d, args);
    if narrowed.Refused? { return Refuse; }
    var imported, inserted := ImportHiddenAuthority(d.table, chosen, narrowed.value.pilotChecks, d.events);
    if imported.Refused? { return Refuse; }
    go := Proceed(chosen, ChosenOrder(d, args), narrowed.value, imported.value, target.value);
  }
}
