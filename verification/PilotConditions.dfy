/**
 Exactly when activate_review_pilot.py goes ahead and what it keeps, on the documents' own fields: which
 hidden keys are valid, when they may be imported, what a narrowed session holds, and which directories
 and arguments a run accepts.
 */
module PilotConditions {
  import opened Wrappers
  import opened ReviewEvents
  import opened ReviewerNames
  import opened Sequences
  import opened PilotHiddenKeys
  import opened PilotActivation

  // ----- keys

  /** An ASCII letter, a digit, a hyphen, a full stop or an underscore. */
  ghost predicate IdentifierCode(c: int) {
    48 <= c <= 57 || 65 <= c <= 90 || 97 <= c <= 122 || c in {45, 46, 95}
  }

  /** A name in any case without blanks around it, and an identifier of 1 to 256 characters. */
  ghost predicate Spells(raw: RawKey, k: Key) {
    && Lower(raw.reviewer) == (match k.reviewer case Rubar => "rubar" case Alle => "alle")
    && raw.reviewer[0] != ' ' && raw.reviewer[|raw.reviewer| - 1] != ' '
    && raw.segment == k.segment && 1 <= |k.segment| <= 256
    && forall i | 0 <= i < |k.segment| :: IdentifierCode(k.segment[i] as int)
  }

  lemma KeyOfIff(raw: RawKey, k: Key)
    ensures KeyOf(raw) == Some(k) <==> raw.reviewer != "" && Spells(raw, k)
  {
    StrippedIff(raw.reviewer);
    assert Lower("") == "";
    assert "rubar"[0] != "alle"[0];
    SegmentIff(raw.segment);
  }

  lemma SegmentIff(s: string)
    ensures ValidSegment(s) <==> 1 <= |s| <= 256 && forall i | 0 <= i < |s| :: IdentifierCode(s[i] as int)
  {
    forall c: char
      ensures SegmentChar(c) <==> IdentifierCode(c as int)
    {
      CharIff(c);
    }
    assert forall i | 0 <= i < |s| :: s[i] in s;
  }

  lemma CharIff(c: char)
    ensures SegmentChar(c) <==> IdentifierCode(c as int)
  {
    assert 'a' as int == 97 && 'z' as int == 122 && 'A' as int == 65 && 'Z' as int == 90;
    assert '0' as int == 48 && '9' as int == 57 && '_' as int == 95 && '-' as int == 45 && '.' as int == 46;
    if c as int == 45 { assert c == '-'; }
    if c as int == 46 { assert c == '.'; }
    if c as int == 95 { assert c == '_'; }
  }

  // ----- the three sources of hidden keys

  /** A row of the table for this policy: both its digest and its baseline are the policy's. */
  ghost predicate RowFor(g: Grant, p: Policy) { g.digest == PolicySha(p.baseline) && g.baseline == p.baseline }

  /** A hidden check completed after the baseline. */
  ghost predicate Hidden(e: Event, baseline: nat) { e.id > baseline && e.source == SpotCheck }

  lemma GrantedIff(table: set<Grant>, p: Policy, k: Key)
    ensures k in Granted(table, p) <==> exists g | g in table :: RowFor(g, p) && KeyOf(g.key) == Some(k)
  {
    if g :| g in table && RowFor(g, p) && KeyOf(g.key) == Some(k) {
      assert g in RowsOf(table, p);
    }
  }

  lemma {:induction false} HiddenAfterMeans(events: seq<Event>, baseline: nat)
    ensures forall e :: e in HiddenAfter(events, baseline) <==> e in events && Hidden(e, baseline)
    decreases |events|
  {
    if events != [] {
      var front, last := events[..|events| - 1], events[|events| - 1];
      HiddenAfterMeans(front, baseline);
      assert events == front + [last];
    }
  }

  lemma CompletedIff(events: seq<Event>, p: Policy, k: Key)
    ensures k in Completed(events, p) <==>
            exists e | e in events :: Hidden(e, p.baseline) && KeyOf(RawKeyOf(e)) == Some(k)
  {
    var hidden := HiddenAfter(events, p.baseline);
    HiddenAfterMeans(events, p.baseline);
    if e :| e in events && Hidden(e, p.baseline) && KeyOf(RawKeyOf(e)) == Some(k) {
      var i :| 0 <= i < |hidden| && hidden[i] == e;
      assert RawOf(hidden)[i] == RawKeyOf(e);
    }
    if k in Completed(events, p) {
      var raw :| raw in RawOf(hidden) && KeyOf(raw) == Some(k);
      var i :| 0 <= i < |hidden| && RawOf(hidden)[i] == raw;
      assert hidden[i] in hidden;
    }
  }

  /** Every hidden event names a key by one of the four actions, and no two name the same. */
  ghost predicate CompletionsOk(events: seq<Event>, baseline: nat) {
    && (forall i | 0 <= i < |events| && Hidden(events[i], baseline) ::
          KeyOf(RawKeyOf(events[i])).Some? && events[i].action in {Accept, Edit, Reject, Skip})
    && (forall i, j | 0 <= i < j < |events| && Hidden(events[i], baseline) && Hidden(events[j], baseline) ::
          KeyOf(RawKeyOf(events[i])) != KeyOf(RawKeyOf(events[j])))
  }

  lemma ListAppend(raws: seq<RawKey>, raw: RawKey)
    ensures ListOk(raws + [raw]) <==> ListOk(raws) && KeyOf(raw).Some? && forall r | r in raws :: KeyOf(r) != KeyOf(raw)
  {
    var all := raws + [raw];
    assert forall i | 0 <= i < |raws| :: all[i] == raws[i];
    if ListOk(all) {
      forall r | r in raws
        ensures KeyOf(r) != KeyOf(raw)
      {
        var i :| 0 <= i < |raws| && raws[i] == r;
        assert all[|raws|] == raw && KeyOf(all[i]) != KeyOf(all[|raws|]);
      }
      assert KeyOf(all[|raws|]).Some?;
    }
  }

  lemma ListedAppend(hidden: seq<Event>, last: Event)
    ensures ListOk(RawOf(hidden + [last])) && ActionsOk(hidden + [last]) <==>
            && ListOk(RawOf(hidden)) && ActionsOk(hidden)
            && KeyOf(RawKeyOf(last)).Some? && !last.action.OtherAction?
            && forall e | e in hidden :: KeyOf(RawKeyOf(e)) != KeyOf(RawKeyOf(last))
  {
    assert RawOf(hidden + [last]) == RawOf(hidden) + [RawKeyOf(last)];
    ListAppend(RawOf(hidden), RawKeyOf(last));
    RawsOf(hidden);
  }

  lemma CompletionsStep(front: seq<Event>, last: Event, baseline: nat, hidden: seq<Event>)
    requires hidden == HiddenAfter(front, baseline)
    requires ListOk(RawOf(hidden)) && ActionsOk(hidden) <==> CompletionsOk(front, baseline)
    ensures var after := if Hidden(last, baseline) then hidden + [last] else hidden;
            ListOk(RawOf(after)) && ActionsOk(after) <==> CompletionsOk(front + [last], baseline)
  {
    HiddenAfterMeans(front, baseline);
    CompletionsAppend(front, last, baseline);
    ListedAppend(hidden, last);
  }

  /** The hidden completions checked in the script's order are those of the whole table. */
  lemma {:induction false} CompletionsIff(events: seq<Event>, baseline: nat)
    ensures ListOk(RawOf(HiddenAfter(events, baseline))) && ActionsOk(HiddenAfter(events, baseline))
       <==> CompletionsOk(events, baseline)
    decreases |events|
  {
    if events != [] {
      var front, last := events[..|events| - 1], events[|events| - 1];
      var hidden := HiddenAfter(front, baseline);
      CompletionsIff(front, baseline);
      assert events == front + [last];
      assert HiddenAfter(events, baseline) == if Hidden(last, baseline) then hidden + [last] else hidden;
      CompletionsStep(front, last, baseline, hidden);
    }
  }

  lemma RawsOf(hidden: seq<Event>)
    ensures forall raw :: raw in RawOf(hidden) <==> exists e | e in hidden :: RawKeyOf(e) == raw
  {
    forall raw | raw in RawOf(hidden)
      ensures exists e | e in hidden :: RawKeyOf(e) == raw
    {
      var i :| 0 <= i < |hidden| && RawOf(hidden)[i] == raw;
      assert hidden[i] in hidden;
    }
    forall e | e in hidden
      ensures RawKeyOf(e) in RawOf(hidden)
    {
      var i :| 0 <= i < |hidden| && hidden[i] == e;
      assert RawOf(hidden)[i] == RawKeyOf(e);
    }
  }

  lemma CompletionsAppend(front: seq<Event>, last: Event, baseline: nat)
    ensures CompletionsOk(front + [last], baseline) <==>
            && CompletionsOk(front, baseline)
            && (Hidden(last, baseline) ==>
                  && KeyOf(RawKeyOf(last)).Some? && !last.action.OtherAction?
                  && forall e | e in front && Hidden(e, baseline) :: KeyOf(RawKeyOf(e)) != KeyOf(RawKeyOf(last)))
  {
    var all := front + [last];
    assert forall i | 0 <= i < |front| :: all[i] == front[i];
    assert all[|front|] == last;
    if CompletionsOk(all, baseline) && Hidden(last, baseline) {
      forall e | e in front && Hidden(e, baseline)
        ensures KeyOf(RawKeyOf(e)) != KeyOf(RawKeyOf(last))
      {
        var i :| 0 <= i < |front| && front[i] == e;
        assert Hidden(all[i], baseline) && Hidden(all[|front|], baseline);
      }
    }
  }

  // ----- the import

  /** The lifetime keys of one reviewer, from the table, the session and the events. */
  ghost function KeysOf(table: set<Grant>, p: Policy, checks: seq<RawKey>, events: seq<Event>, r: Reviewer): set<Key> {
    set k | k in Granted(table, p) + ListKeys(checks) + Completed(events, p) && k.reviewer == r
  }

  /** The import is allowed exactly when the policy is Rubar's and Alle's, no row of the table agrees with it
      in only one of digest and baseline, each source names valid keys without repetition, and neither
      reviewer has more than two keys in all. The script's third quota, four in all, decides nothing. */
  lemma ImportIff(table: set<Grant>, p: Policy, checks: seq<RawKey>, events: seq<Event>)
    ensures Import(table, p, checks, events).Ok? <==>
            && p.roster == {"alle", "rubar"}
            && (forall g | g in table :: g.digest == PolicySha(p.baseline) <==> g.baseline == p.baseline)
            && (forall g | g in table && RowFor(g, p) :: KeyOf(g.key).Some?)
            && (forall g, h | g in table && h in table && RowFor(g, p) && RowFor(h, p) && g != h ::
                  KeyOf(g.key) != KeyOf(h.key))
            && (forall i | 0 <= i < |checks| :: KeyOf(checks[i]).Some?)
            && (forall i, j | 0 <= i < j < |checks| :: KeyOf(checks[i]) != KeyOf(checks[j]))
            && CompletionsOk(events, p.baseline)
            && |KeysOf(table, p, checks, events, Rubar)| < 3 && |KeysOf(table, p, checks, events, Alle)| < 3
  {
    CompletionsIff(events, p.baseline);
    var keys := Lifetime(table, p, checks, events);
    assert KeysFor(keys, Rubar) == KeysOf(table, p, checks, events, Rubar);
    assert KeysFor(keys, Alle) == KeysOf(table, p, checks, events, Alle);
    TableIff(table, p);
  }

  lemma TableIff(table: set<Grant>, p: Policy)
    ensures (forall g | g in table :: !Conflicts(g, p)) <==>
            (forall g | g in table :: g.digest == PolicySha(p.baseline) <==> g.baseline == p.baseline)
    ensures RowsOk(RowsOf(table, p)) <==>
            && (forall g | g in table && RowFor(g, p) :: KeyOf(g.key).Some?)
            && (forall g, h | g in table && h in table && RowFor(g, p) && RowFor(h, p) && g != h ::
                  KeyOf(g.key) != KeyOf(h.key))
  {
    assert forall g :: g in RowsOf(table, p) <==> g in table && RowFor(g, p);
  }

  /** An import that goes ahead adds exactly one row, spelt canonically, for each key not yet granted. */
  lemma ImportAdds(table: set<Grant>, p: Policy, checks: seq<RawKey>, events: seq<Event>, g: Grant)
    requires Import(table, p, checks, events).Ok?
    ensures g in Import(table, p, checks, events).value <==>
            || g in table
            || exists k | k in ListKeys(checks) + Completed(events, p) - Granted(table, p) ::
                 && g.digest == PolicySha(p.baseline) && g.baseline == p.baseline && g.key.segment == k.segment
                 && g.key.reviewer == if k.reviewer == Rubar then "Rubar" else "Alle"
  {
    var keys := Lifetime(table, p, checks, events);
    assert keys - Granted(table, p) == ListKeys(checks) + Completed(events, p) - Granted(table, p);
  }

  // ----- the narrowed session

  ghost predicate OfThePilot(name: string) { Lower(Strip(name)) in {"rubar", "alle"} }

  /** The kept cookies are the pilot reviewers' ones, in their order. */
  lemma {:induction false} KeepNamesAt(names: seq<string>, x: string, more: seq<string>)
    ensures KeepNames([]) == []
    ensures KeepNames(names + [x] + more) == KeepNames(names) + (if OfThePilot(x) then [x] else []) + KeepNames(more)
    decreases |names|
  {
    var all := names + [x] + more;
    if names == [] {
      assert all[0] == x && all[1..] == more;
    } else {
      KeepNamesAt(names[1..], x, more);
      assert all[0] == names[0] && all[1..] == names[1..] + [x] + more;
    }
  }

  /** The kept checks are the pilot reviewers' ones, in their order. */
  lemma {:induction false} KeepChecksAt(checks: seq<RawKey>, x: RawKey, more: seq<RawKey>)
    ensures KeepChecks([]) == []
    ensures KeepChecks(checks + [x] + more)
         == KeepChecks(checks) + (if OfThePilot(x.reviewer) then [x] else []) + KeepChecks(more)
    decreases |checks|
  {
    var all := checks + [x] + more;
    if checks == [] {
      assert all[0] == x && all[1..] == more;
    } else {
      KeepChecksAt(checks[1..], x, more);
      assert all[0] == checks[0] && all[1..] == checks[1..] + [x] + more;
    }
  }

  lemma {:induction false} KeepChecksEmpty(checks: seq<RawKey>)
    ensures KeepChecks(checks) == [] <==> forall i | 0 <= i < |checks| :: !OfThePilot(checks[i].reviewer)
    decreases |checks|
  {
    if checks != [] {
      KeepChecksEmpty(checks[1..]);
      assert checks == [checks[0]] + checks[1..];
    }
  }

  ghost predicate TokenOf(reviewers: map<string, string>, token: string, lowerName: string) {
    token in reviewers && Lower(Strip(reviewers[token])) == lowerName
  }

  /** Exactly one token is paired with the reviewer. */
  ghost predicate OneToken(reviewers: map<string, string>, lowerName: string) {
    exists token :: TokenOf(reviewers, token, lowerName)
                    && forall u | TokenOf(reviewers, u, lowerName) :: u == token
  }

  lemma OneTokenIff(reviewers: map<string, string>, lowerName: string)
    requires lowerName in {"rubar", "alle"}
    ensures |Tokens(KeptPairing(reviewers), lowerName)| == 1 <==> OneToken(reviewers, lowerName)
  {
    var tokens := Tokens(KeptPairing(reviewers), lowerName);
    assert forall t :: t in tokens <==> TokenOf(reviewers, t, lowerName);
    Singleton(tokens);
    if |tokens| == 1 {
      var t :| t in tokens && tokens == {t};
      assert TokenOf(reviewers, t, lowerName) && forall u | TokenOf(reviewers, u, lowerName) :: u == t;
    }
    if OneToken(reviewers, lowerName) {
      var t :| TokenOf(reviewers, t, lowerName) && forall u | TokenOf(reviewers, u, lowerName) :: u == t;
      assert tokens == {t};
    }
  }

  /** Narrowing succeeds exactly for a session of this database with one token each of Rubar's and Alle's,
      whose hidden checks of theirs, if any, stand under this very policy. It keeps their tokens under their
      names, their cookies and their checks, binds the policy and changes nothing else. */
  lemma NarrowIff(s: Session, db: string, p: Policy)
    ensures NarrowSession(s, db, p).Ok? <==>
            && s.db == db && OneToken(s.reviewers, "rubar") && OneToken(s.reviewers, "alle")
            && ((exists i | 0 <= i < |s.pilotChecks| :: OfThePilot(s.pilotChecks[i].reviewer)) ==>
                  s.policy == Some(p) && p.roster == {"alle", "rubar"})
    ensures NarrowSession(s, db, p).Ok? ==>
              var n := NarrowSession(s, db, p).value;
              && (forall t :: t in n.reviewers <==> t in s.reviewers && OfThePilot(s.reviewers[t]))
              && (forall t | t in n.reviewers :: n.reviewers[t] == s.reviewers[t])
              && n.cookies == KeepNames(s.cookies) && n.spotChecks == KeepChecks(s.spotChecks)
              && n.pilotChecks == KeepChecks(s.pilotChecks) && n.policy == Some(p)
              && n.db == s.db && n.other == s.other
  {
    OneTokenIff(s.reviewers, "rubar");
    OneTokenIff(s.reviewers, "alle");
    KeepChecksEmpty(s.pilotChecks);
  }

  // ----- exactly when a run goes ahead

  /** The focus file is the tracked one, or becomes it by additions that a replacement may make. */
  ghost predicate FocusAllows(d: Disk, args: Args) {
    if args.additions == [] then args.expectedFocus == None && d.focus == d.contract
    else
      && args.replace && args.expectedFocus == Some(d.focus)
      && (forall i, j | 0 <= i < j < |args.additions| :: args.additions[i] != args.additions[j])
      && (forall x | x in args.additions :: x !in d.focus && x in d.contract)
      && (forall x | x in d.contract :: x in d.focus || x in args.additions) && d.focus <= d.contract
  }

  lemma FocusIff(d: Disk, args: Args)
    ensures FocusTarget(d, args) == if FocusAllows(d, args) then Ok(d.contract) else Refused
  {
    assert forall x :: x in SetOf(args.additions) <==> x in args.additions;
    if args.additions != [] && d.focus + SetOf(args.additions) == d.contract {
      assert forall x | x in args.additions :: x in d.focus + SetOf(args.additions);
    }
    if args.additions != [] && FocusAllows(d, args) {
      assert d.focus + SetOf(args.additions) == d.contract;
    }
  }

  /** The policy of a run: a replacement's keeps the baseline, an existing one is kept as it is, and the
      first one starts at the last event. */
  ghost predicate PolicyIs(d: Disk, args: Args, p: Policy) {
    if !args.replace && d.policy.Some? then p == d.policy.value.policy
    else
      && p.roster == {"alle", "rubar"} && p.spelling == ""
      && p.baseline == if d.policy.Some? then d.policy.value.policy.baseline else args.expectedMax
  }

  /** A replacement has a policy of two reviewers to replace, bound by the session, without any activity. */
  ghost predicate ReplacementAllows(d: Disk, args: Args) {
    && d.policy.Some? && args.credential.Some? && |d.policy.value.policy.roster| == 2
    && d.policy.value.policy.baseline == args.expectedMax && d.table == {} && d.pristine
    && d.session.policy == Some(d.policy.value.policy)
  }

  /** What every accepted run has checked, with p its policy. */
  ghost predicate Acceptable(d: Disk, args: Args, p: Policy) {
    && FocusAllows(d, args) && d.healthy && IsMaximum(d.events, args.expectedMax)
    && d.policy == args.expectedPolicy && PolicyIs(d, args, p)
    && (if args.replace then ReplacementAllows(d, args)
        else d.policy.Some? ==> d.policy.value.policy.roster == {"alle", "rubar"})
    && var narrowed := NarrowSession(if args.replace then args.credential.value else d.session, d.db, p);
       narrowed.Ok? && Import(d.table, p, if args.replace then [] else narrowed.value.pilotChecks, d.events).Ok?
  }

  /** A run goes ahead exactly when all of that holds. It then writes that policy, with the file's own key
      order unless the policy is new, the tracked focus, the imported table, and the narrowed session,
      which a replacement takes from the credentials without cookies and checks. */
  lemma ProceedIff(d: Disk, args: Args, p: Policy)
    ensures Acceptable(d, args, p) <==> Decide(d, args).Proceed? && Decide(d, args).policy == p
    ensures Acceptable(d, args, p) ==>
              var go := Decide(d, args);
              && go.focus == d.contract
              && go.keyOrder == (if args.replace || d.policy.None? then "" else d.policy.value.keyOrder)
              && (args.replace ==>
                    go.narrowed == NarrowSession(args.credential.value, d.db, p).value
                                   .(cookies := [], spotChecks := [], pilotChecks := []))
              && (!args.replace ==> go.narrowed == NarrowSession(d.session, d.db, p).value)
              && Ok(go.table) == Import(d.table, p, go.narrowed.pilotChecks, d.events)
  {
    FocusIff(d, args);
    MaximumIs(d.events, args.expectedMax);
    assert {"rubar", "alle"} == {"alle", "rubar"};
  }

  // ----- the runtime between runs

  /** A review is recorded exactly without a marker and, for a hidden check, for a key that the table grants
      under the policy file; otherwise nothing changes. */
  lemma RecordedIff(d: Disk, e: Event)
    ensures var serve := !d.marker && (e.source == SpotCheck ==>
              d.policy.Some? && exists g | g in d.table ::
                RowFor(g, d.policy.value.policy) && KeyOf(RawKeyOf(e)).Some? && KeyOf(g.key) == KeyOf(RawKeyOf(e)));
            Next(d, Review(e)) == if serve then d.(events := d.events + [e]) else d
  {
    if e.source == SpotCheck && d.policy.Some? && KeyOf(RawKeyOf(e)).Some? {
      GrantedIff(d.table, d.policy.value.policy, KeyOf(RawKeyOf(e)).value);
    }
  }
}
