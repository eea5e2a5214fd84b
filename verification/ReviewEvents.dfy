/** The append-only table of review events that the activations read. */
module ReviewEvents {

  datatype Action = Accept | Edit | Reject | Skip | OtherAction
  datatype Source = Couch | SpotCheck | OtherSource
  datatype Event = Event(id: nat, segment: string, reviewer: string, action: Action, source: Source)

  function MaxEvent(events: seq<Event>): nat {
    if events == [] then 0
    else
      var before, last := MaxEvent(events[..|events| - 1]), events[|events| - 1].id;
      if last > before then last else before
  }

  /** The maximum is 0 for the empty table, and otherwise the id of some event that no id exceeds. */
  lemma {:induction false} MaxEventIsMost(events: seq<Event>)
    ensures forall e | e in events :: e.id <= MaxEvent(events)
    ensures if events == [] then MaxEvent(events) == 0 else exists e | e in events :: e.id == MaxEvent(events)
    decreases |events|
  {
    if events != [] {
      var front, last := events[..|events| - 1], events[|events| - 1];
      MaxEventIsMost(front);
      assert events == front + [last];
      if front != [] && last.id < MaxEvent(front) {
        var e :| e in front && e.id == MaxEvent(front);
        assert e in events;
      } else {
        assert last in events && last.id == MaxEvent(events);
      }
    }
  }

  /** The largest id of the table, 0 when it is empty. */
  ghost predicate IsMaximum(events: seq<Event>, n: nat) {
    && (forall e | e in events :: e.id <= n)
    && if events == [] then n == 0 else exists e | e in events :: e.id == n
  }

  lemma MaximumIs(events: seq<Event>, n: nat)
    ensures IsMaximum(events, n) <==> n == MaxEvent(events)
  {
    MaxEventIsMost(events);
    if IsMaximum(events, n) && events != [] {
      var e, f :| e in events && f in events && e.id == n && f.id == MaxEvent(events);
    }
  }
}
