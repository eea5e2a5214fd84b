/**
 `import_pilot_hidden_authority` of activate_review_pilot.py: the hidden keys already granted, those a
 remembered session retains and those completed by review events become one lifetime set, within the
 quotas, in the table of grants.
 */
module PilotHiddenKeys {
  import opened Wrappers
  import opened ReviewEvents
  import opened ReviewerNames

  datatype Reviewer = Rubar | Alle
  datatype Key = Key(reviewer: Reviewer, segment: string)

  /** A key as a table row, a session entry or an event spells it. */
  datatype RawKey = RawKey(reviewer: string, segment: string)

  /** A parsed policy. `roster` holds the stripped lower-case reviewer names; `spelling` is what the
      validation ignores and equality sees: their order in the list, their case and padding. */
  datatype Policy = Policy(baseline: nat, roster: set<string>, spelling: string)

  /** The digest of a parsed policy; caps and roster are fixed by validation. */
  datatype Digest = PolicySha(baseline: nat) | OtherSha(name: string)

  datatype Grant = Grant(digest: Digest, baseline: nat, key: RawKey)

  const KEYS_PER_REVIEWER := 2
  const TOTAL_KEYS := 4

  predicate ValidPolicy(p: Policy) { p.roster == {"rubar", "alle"} }

  function CanonicalReviewer(name: string): Option<Reviewer> {
    if name != Strip(name) then None
    else if Lower(name) == "rubar" then Some(Rubar)
    else if Lower(name) == "alle" then Some(Alle)
    else None
  }

  predicate SegmentChar(c: char) {
    'a' <= c <= 'z' || 'A' <= c <= 'Z' || '0' <= c <= '9' || c == '_' || c == '-' || c == '.'
  }

  predicate ValidSegment(s: string) { 0 < |s| <= 256 && forall c | c in s :: SegmentChar(c) }

  function KeyOf(raw: RawKey): Option<Key> {
    if CanonicalReviewer(raw.reviewer).None? || !ValidSegment(raw.segment) then None
    else Some(Key(CanonicalReviewer(raw.reviewer).value, raw.segment))
  }

  // ----- the three sources

  predicate ForPolicy(g: Grant, p: Policy) { g.digest == PolicySha(p.baseline) && g.baseline == p.baseline }

  predicate Conflicts(g: Grant, p: Policy) {
    (g.digest == PolicySha(p.baseline) || g.baseline == p.baseline) && !ForPolicy(g, p)
  }

  function RowsOf(table: set<Grant>, p: Policy): set<Grant> { set g | g in table && ForPolicy(g, p) }

  predicate RowsOk(rows: set<Grant>) {
    && (forall g | g in rows :: KeyOf(g.key).Some?)
    && (forall g, h | g in rows && h in rows && KeyOf(g.key) == KeyOf(h.key) :: g == h)
  }

  function RowKeys(rows: set<Grant>): set<Key> {
    set g | g in rows && KeyOf(g.key).Some? :: KeyOf(g.key).value
  }

  /** The keys a policy has been granted. */
  function Granted(table: set<Grant>, p: Policy): set<Key> { RowKeys(RowsOf(table, p)) }

  predicate ListOk(raws: seq<RawKey>) {
    && (forall i | 0 <= i < |raws| :: KeyOf(raws[i]).Some?)
    && (forall i, j | 0 <= i < j < |raws| :: KeyOf(raws[i]) != KeyOf(raws[j]))
  }

  function ListKeys(raws: seq<RawKey>): set<Key> {
    set raw | raw in raws && KeyOf(raw).Some? :: KeyOf(raw).value
  }

  /** The hidden events after the baseline. */
  function HiddenAfter(events: seq<Event>, baseline: nat): seq<Event> {
    if events == [] then []
    else
      var last := events[|events| - 1];
      HiddenAfter(events[..|events| - 1], baseline)
      + if last.id > baseline && last.source.SpotCheck? then [last] else []
  }

  function RawKeyOf(e: Event): RawKey { RawKey(e.reviewer, e.segment) }

  function RawOf(events: seq<Event>): (r: seq<RawKey>)
    ensures |r| == |events| && forall i | 0 <= i < |events| :: r[i] == RawKeyOf(events[i])
  {
    seq(|events|, i requires 0 <= i < |events| => RawKeyOf(events[i]))
  }

  predicate ActionsOk(events: seq<Event>) { forall e | e in events :: !e.action.OtherAction? }

  function Completed(events: seq<Event>, p: Policy): set<Key> { ListKeys(RawOf(HiddenAfter(events, p.baseline))) }

  // ----- the import

  /** The lifetime set of a policy. */
  function Lifetime(table: set<Grant>, p: Policy, checks: seq<RawKey>, events: seq<Event>): set<Key> {
    Granted(table, p) + ListKeys(checks) + Completed(events, p)
  }

  function KeysFor(keys: set<Key>, r: Reviewer): set<Key> { set k | k in keys && k.reviewer == r }

  predicate WithinQuota(keys: set<Key>) {
    && |KeysFor(keys, Rubar)| <= KEYS_PER_REVIEWER && |KeysFor(keys, Alle)| <= KEYS_PER_REVIEWER
    && |KeysFor(keys, Rubar)| + |KeysFor(keys, Alle)| <= TOTAL_KEYS
  }

  predicate SourcesOk(table: set<Grant>, p: Policy, checks: seq<RawKey>, events: seq<Event>) {
    && ValidPolicy(p) && (forall g | g in table :: !Conflicts(g, p))
    && RowsOk(RowsOf(table, p))
    && ListOk(checks)
    && ListOk(RawOf(HiddenAfter(events, p.baseline))) && ActionsOk(HiddenAfter(events, p.baseline))
  }

  function ReviewerName(r: Reviewer): string { if r == Rubar then "Rubar" else "Alle" }

  function GrantFor(p: Policy, k: Key): Grant {
    Grant(PolicySha(p.baseline), p.baseline, RawKey(ReviewerName(k.reviewer), k.segment))
  }

  function GrantsFor(p: Policy, keys: set<Key>): set<Grant> { set k | k in keys :: GrantFor(p, k) }

  /** The table after the import, when it is allowed. */
  function Import(table: set<Grant>, p: Policy, checks: seq<RawKey>, events: seq<Event>): Result<set<Grant>> {
    var keys := Lifetime(table, p, checks, events);
    if SourcesOk(table, p, checks, events) && WithinQuota(keys)
    then Ok(table + GrantsFor(p, keys - Granted(table, p)))
    else Refused
  }

  // ----- what the import means

  ghost predicate WellFormed(keys: set<Key>) { forall k | k in keys :: ValidSegment(k.segment) }

  lemma NamesCanonical(k: Key)
    requires ValidSegment(k.segment)
    ensures KeyOf(RawKey(ReviewerName(k.reviewer), k.segment)) == Some(k)
  {
    assert Lower("Rubar") == "rubar" && Lower("Alle") == "alle" by {
      assert Lower("r") == "r" && Lower("ar") == "ar" && Lower("bar") == "bar" && Lower("ubar") == "ubar";
      assert Lower("le") == "le" && Lower("lle") == "lle";
    }
    assert Strip("Rubar") == "Rubar" && Strip("Alle") == "Alle";
  }

  lemma LifetimeWellFormed(table: set<Grant>, p: Policy, checks: seq<RawKey>, events: seq<Event>)
    ensures WellFormed(Lifetime(table, p, checks, events))
  {
  }

  lemma RowsAfter(table: set<Grant>, p: Policy, keys: set<Key>)
    requires WellFormed(keys) && keys !! Granted(table, p)
    ensures RowsOf(table + GrantsFor(p, keys), p) == RowsOf(table, p) + GrantsFor(p, keys)
    ensures Granted(table + GrantsFor(p, keys), p) == Granted(table, p) + keys
  {
    var after := table + GrantsFor(p, keys);
    forall k | k in keys
      ensures k in Granted(after, p)
    {
      NamesCanonical(k);
      assert GrantFor(p, k) in RowsOf(after, p);
    }
    forall k | k in Granted(after, p)
      ensures k in Granted(table, p) + keys
    {
      var g :| g in RowsOf(after, p) && KeyOf(g.key) == Some(k);
      if g !in table {
        var k' :| k' in keys && g == GrantFor(p, k');
        NamesCanonical(k');
      }
    }
  }

  /** The import leaves the union of the granted, retained and completed keys, within the quotas; it
      only adds rows, and only rows of its own policy. */
  lemma ImportIsUnion(table: set<Grant>, p: Policy, checks: seq<RawKey>, events: seq<Event>)
    requires Import(table, p, checks, events).Ok?
    ensures var after := Import(table, p, checks, events).value;
            && table <= after && (forall g | g in after - table :: ForPolicy(g, p))
            && Granted(after, p) == Granted(table, p) + ListKeys(checks) + Completed(events, p)
            && WithinQuota(Granted(after, p))
  {
    var keys := Lifetime(table, p, checks, events);
    LifetimeWellFormed(table, p, checks, events);
    RowsAfter(table, p, keys - Granted(table, p));
    assert Granted(table, p) + (keys - Granted(table, p)) == keys;
  }

  lemma NewRowsOk(table: set<Grant>, p: Policy, keys: set<Key>)
    requires RowsOk(RowsOf(table, p)) && WellFormed(keys) && keys !! Granted(table, p)
    ensures RowsOk(RowsOf(table, p) + GrantsFor(p, keys))
  {
    var rows, added := RowsOf(table, p), GrantsFor(p, keys);
    forall g | g in added
      ensures KeyOf(g.key).Some? && KeyOf(g.key).value in keys && g == GrantFor(p, KeyOf(g.key).value)
    {
      var k :| k in keys && g == GrantFor(p, k);
      NamesCanonical(k);
    }
    forall g, h | g in rows + added && h in rows + added && KeyOf(g.key) == KeyOf(h.key)
      ensures g == h
    {
      assert g in rows ==> KeyOf(g.key).value in Granted(table, p);
      assert h in rows ==> KeyOf(h.key).value in Granted(table, p);
    }
  }

  lemma SourcesStillOk(table: set<Grant>, p: Policy, keys: set<Key>, checks: seq<RawKey>, events: seq<Event>)
    requires SourcesOk(table, p, checks, events) && WellFormed(keys) && keys !! Granted(table, p)
    ensures SourcesOk(table + GrantsFor(p, keys), p, checks, events)
  {
    var after := table + GrantsFor(p, keys);
    RowsAfter(table, p, keys);
    NewRowsOk(table, p, keys);
    assert RowsOk(RowsOf(after, p));
    assert forall g | g in GrantsFor(p, keys) :: ForPolicy(g, p);
    assert forall g | g in after :: !Conflicts(g, p);
  }

  /** When every key of the lifetime set is granted, the import changes nothing. */
  lemma ImportOfGranted(table: set<Grant>, p: Policy, checks: seq<RawKey>, events: seq<Event>)
    requires SourcesOk(table, p, checks, events) && WithinQuota(Granted(table, p))
    requires Lifetime(table, p, checks, events) == Granted(table, p)
    ensures Import(table, p, checks, events) == Ok(table)
  {
    var none: set<Key> := Granted(table, p) - Granted(table, p);
    assert none == {};
    assert GrantsFor(p, none) == {};
    assert table + GrantsFor(p, none) == table;
  }

  /** A second import of the same sources inserts nothing. */
  lemma ImportTwice(table: set<Grant>, p: Policy, checks: seq<RawKey>, events: seq<Event>)
    requires Import(table, p, checks, events).Ok?
    ensures var after := Import(table, p, checks, events).value;
            Import(after, p, checks, events) == Ok(after)
  {
    var keys := Lifetime(table, p, checks, events);
    var added := keys - Granted(table, p);
    var after := table + GrantsFor(p, added);
    LifetimeWellFormed(table, p, checks, events);
    SourcesStillOk(table, p, added, checks, events);
    RowsAfter(table, p, added);
    assert Granted(after, p) == keys;
    assert Lifetime(after, p, checks, events) == keys;
    ImportOfGranted(after, p, checks, events);
  }

  // ----- the script

  /** The rows of the policy, refused at the first invalid or repeated key. */
  method CollectRows(rows: set<Grant>) returns (r: Result<set<Key>>)
    ensures r == if RowsOk(rows) then Ok(RowKeys(rows)) else Refused
  {
    var todo, seen, keys := rows, {}, {};
    while todo != {}
      invariant seen + todo == rows && seen !! todo && RowsOk(seen) && keys == RowKeys(seen)
      decreases todo
    {
      var g :| g in todo;
      var key := KeyOf(g.key);
      if key.None? { return Refused; }
      if key.value in keys {
        ghost var h :| h in seen && KeyOf(h.key) == key;
        assert g != h;
        return Refused;
      }
      RowAdded(seen, g);
      todo, seen, keys := todo - {g}, seen + {g}, keys + {key.value};
    }
    assert seen == rows;
    r := Ok(keys);
  }

  lemma RowAdded(seen: set<Grant>, g: Grant)
    requires RowsOk(seen) && KeyOf(g.key).Some? && KeyOf(g.key).value !in RowKeys(seen)
    ensures RowsOk(seen + {g}) && RowKeys(seen + {g}) == RowKeys(seen) + {KeyOf(g.key).value}
  {
    forall h | h in seen
      ensures KeyOf(h.key) != KeyOf(g.key)
    {
      assert KeyOf(h.key).value in RowKeys(seen);
    }
    assert RowKeys(seen + {g}) == RowKeys(seen) + {KeyOf(g.key).value};
  }

  /** The keys of a list, refused at the first invalid or repeated one. */
  method CollectList(raws: seq<RawKey>) returns (r: Result<set<Key>>)
    ensures r == if ListOk(raws) then Ok(ListKeys(raws)) else Refused
  {
    var keys: set<Key> := {};
    for i := 0 to |raws|
      invariant ListOk(raws[..i]) && keys == ListKeys(raws[..i])
    {
      var key := KeyOf(raws[i]);
      if key.None? { return Refused; }
      if key.value in keys {
        ghost var raw :| raw in raws[..i] && KeyOf(raw) == key;
        ghost var j :| 0 <= j < i && raws[j] == raw;
        return Refused;
      }
      ListAdded(raws, i);
      keys := keys + {key.value};
    }
    assert raws[..|raws|] == raws;
    r := Ok(keys);
  }

  lemma ListAdded(raws: seq<RawKey>, i: nat)
    requires i < |raws| && ListOk(raws[..i]) && KeyOf(raws[i]).Some? && KeyOf(raws[i]).value !in ListKeys(raws[..i])
    ensures ListOk(raws[..i + 1]) && ListKeys(raws[..i + 1]) == ListKeys(raws[..i]) + {KeyOf(raws[i]).value}
  {
    var before, now := raws[..i], raws[..i + 1];
    assert now == before + [raws[i]];
    forall j | 0 <= j < i
      ensures KeyOf(raws[j]) != KeyOf(raws[i])
    {
      assert before[j] in before && KeyOf(before[j]).value in ListKeys(before);
    }
  }

  /** Adds a row for every missing key. */
  method InsertGrants(table: set<Grant>, p: Policy, missing: set<Key>) returns (after: set<Grant>, inserted: nat)
    ensures after == table + GrantsFor(p, missing) && inserted == |missing|
  {
    var todo, seen := missing, {};
    after, inserted := table, 0;
    while todo != {}
      invariant seen + todo == missing && seen !! todo
      invariant after == table + GrantsFor(p, seen) && inserted == |seen|
      decreases todo
    {
      var k :| k in todo;
      assert GrantsFor(p, seen + {k}) == GrantsFor(p, seen) + {GrantFor(p, k)};
      after, inserted := after + {GrantFor(p, k)}, inserted + 1;
      todo, seen := todo - {k}, seen + {k};
    }
    assert seen == missing;
  }

  method ImportHiddenAuthority(table: set<Grant>, p: Policy, checks: seq<RawKey>, events: seq<Event>)
    returns (r: Result<set<Grant>>, inserted: nat)
    ensures r == Import(table, p, checks, events)
    ensures r.Ok? ==> inserted == |Granted(r.value, p) - Granted(table, p)|
  {
    inserted := 0;
    if !ValidPolicy(p) || exists g | g in table :: Conflicts(g, p) { return Refused, 0; }
    var durable := CollectRows(RowsOf(table, p));
    if durable.Refused? { return Refused, 0; }
    var retained := CollectList(checks);
    if retained.Refused? { return Refused, 0; }
    var hidden := HiddenAfter(events, p.baseline);
    if !ActionsOk(hidden) { return Refused, 0; }
    var completed := CollectList(RawOf(hidden));
    if completed.Refused? { return Refused, 0; }
    var complete := durable.value + retained.value + completed.value;
    if !WithinQuota(complete) { return Refused, 0; }
    var after;
    after, inserted := InsertGrants(table, p, complete - durable.value);
    ImportIsUnion(table, p, checks, events);
    assert Granted(after, p) - Granted(table, p) == complete - durable.value;
    // the read-back of the script: the table covers exactly the lifetime set
    assert Granted(after, p) == complete;
    r := Ok(after);
  }
}
