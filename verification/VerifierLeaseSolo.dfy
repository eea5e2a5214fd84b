/**
 One process running `acquire`, `heartbeat` and `release` while nobody else acts, and two runs that
 show where the protocol's limits lie.
 */
module VerifierLeaseSolo {
  import opened Wrappers
  import opened VerifierLease

  // ----- recovery from a crash

  ghost predicate PidFree(s: State, pid: int) {
    forall q | q in s.procs :: q.pid != pid
  }

  /** What is left of a takeover that finds the holder gone, together with the number of actions
      still to run. `left` is the lease found at the start. */
  function Remaining(pc: PC, left: Option<LeaseRecord>): (n: int) {
    if left.None? then
      match pc
      case Idle => 5
      case WaitFirst => 4
      case Recover => 3
      case Install => 2
      case InstallWrite => 1
      case Holding(a) => 0
      case _ => -1
    else
      match pc
      case Idle => 18
      case WaitFirst => 17
      case Recover => 16
      case Install => 15
      case Claiming => 14
      case AuditRead => 13
      case AuditLook(_) => 12
      case AuditAge(_, _) => 11
      case WaitFinal(_) => 10
      case FinalOwn(_) => 9
      case FinalRead(_) => 8
      case FinalLook(_) => 7
      case FinalAge(_, _) => 6
      case Unlink(_) => 5
      case Reinstall(_) => 4
      case ReinstallWrite(_) => 3
      case WaitCleanup(_) => 2
      case Cleanup(_) => 1
      case Holding(_) => 0
      case _ => -1
  }

  function Abandoned(left: Option<LeaseRecord>): Option<string> {
    if left.Some? then Some(left.value.token) else None
  }

  /** The files as p must find them at its program point when it recovers alone. */
  ghost predicate OnTrack(s: State, p: Ident, left: Option<LeaseRecord>) {
    && p in s.procs
    && var pc := s.procs[p].pc;
    && var n := Remaining(pc, left);
    && var mine := Marker(Claim(p, s.procs[p].token));
    && 0 <= n
    && s.guard == (if Guarded(pc) then Some(p) else None)
    && (left.Some? ==> PidFree(s, left.value.who.pid))
    && (s.marker.Marker? && s.marker != mine ==> PidFree(s, s.marker.claim.who.pid))
    && (pc.Idle? || pc.WaitFirst? || pc.Recover? ==> !s.marker.BrokenMarker? && s.marker != mine)
    && (pc.Install? || pc.InstallWrite? || pc.Claiming? || pc.Holding? ==> s.marker.NoMarker?)
    && (Contender(pc) ==> s.marker == mine)
    && (left.None? ==>
          s.lease == (if 2 <= n then NoLease else if n == 1 then BrokenLease else s.lease))
    && (left.Some? && 5 <= n ==> s.lease == Lease(left.value))
    && (left.Some? && n == 4 ==> s.lease.NoLease?)
    && (left.Some? && n == 3 ==> s.lease.BrokenLease?)
    && ((left.None? && n == 0) || (left.Some? && n <= 2) ==> Names(s.lease, p, s.procs[p].token))
    && (pc.AuditLook? || pc.AuditAge? || pc.WaitFinal? || pc.FinalOwn? || pc.FinalRead? ==> Some(pc.rec) == left)
    && (pc.FinalLook? || pc.FinalAge? || pc.Unlink? ==> Some(pc.cur) == left)
    && (pc.AuditAge? || pc.FinalAge? ==> pc.seen.Gone?)
    && (pc.Reinstall? || pc.ReinstallWrite? ==> Some(pc.stale) == Abandoned(left))
    && (pc.WaitCleanup? || pc.Cleanup? ==> pc.outcome.Won? && Some(pc.outcome.abandoned) == Abandoned(left))
    && (pc.Holding? ==> pc.abandoned == Abandoned(left))
  }

  /** Some process died at any point: readable files or none, and no recorded pid in use. */
  ghost predicate CrashState(s: State, p: Ident) {
    && p in s.procs && s.procs[p].pc.Idle? && s.guard.None?
    && !s.lease.BrokenLease? && !s.marker.BrokenMarker?
    && (s.lease.Lease? ==> PidFree(s, s.lease.rec.who.pid))
    && (s.marker.Marker? ==> PidFree(s, s.marker.claim.who.pid))
  }

  function Left(s: State): Option<LeaseRecord> {
    if s.lease.Lease? then Some(s.lease.rec) else None
  }

  lemma OnTrackClaim(s: State, p: Ident, left: Option<LeaseRecord>)
    requires OnTrack(s, p, left) && (s.procs[p].pc.Recover? || s.procs[p].pc.Claiming?)
    ensures OnTrack(RunFirst(s, p), p, left)
    ensures Remaining(RunFirst(s, p).procs[p].pc, left) == Remaining(s.procs[p].pc, left) - 1
  {
    var t := RunFirst(s, p);
    assert t.procs.Keys == s.procs.Keys;
  }

  lemma OnTrackInstall(s: State, p: Ident, left: Option<LeaseRecord>)
    requires OnTrack(s, p, left) && (s.procs[p].pc.Install? || s.procs[p].pc.InstallWrite?)
    ensures OnTrack(RunFirst(s, p), p, left)
    ensures Remaining(RunFirst(s, p).procs[p].pc, left) == Remaining(s.procs[p].pc, left) - 1
  {
    var t := RunFirst(s, p);
    assert t.procs.Keys == s.procs.Keys;
  }

  lemma OnTrackAudit(s: State, p: Ident, left: Option<LeaseRecord>)
    requires OnTrack(s, p, left)
    requires var pc := s.procs[p].pc; pc.AuditRead? || pc.AuditLook? || pc.AuditAge?
    ensures OnTrack(RunAudit(s, p), p, left)
    ensures Remaining(RunAudit(s, p).procs[p].pc, left) == Remaining(s.procs[p].pc, left) - 1
  {
    var t := RunAudit(s, p);
    assert t.procs.Keys == s.procs.Keys;
  }

  lemma OnTrackFinalAudit(s: State, p: Ident, left: Option<LeaseRecord>)
    requires OnTrack(s, p, left)
    requires var pc := s.procs[p].pc; pc.FinalOwn? || pc.FinalRead? || pc.FinalLook? || pc.FinalAge?
    ensures OnTrack(RunFinal(s, p), p, left)
    ensures Remaining(RunFinal(s, p).procs[p].pc, left) == Remaining(s.procs[p].pc, left) - 1
  {
    var t := RunFinal(s, p);
    assert t.procs.Keys == s.procs.Keys;
  }

  lemma OnTrackReplace(s: State, p: Ident, left: Option<LeaseRecord>)
    requires OnTrack(s, p, left)
    requires var pc := s.procs[p].pc; pc.Unlink? || pc.Reinstall? || pc.ReinstallWrite?
    ensures OnTrack(RunFinal(s, p), p, left)
    ensures Remaining(RunFinal(s, p).procs[p].pc, left) == Remaining(s.procs[p].pc, left) - 1
  {
    var t := RunFinal(s, p);
    assert t.procs.Keys == s.procs.Keys;
  }

  lemma OnTrackEnter(s: State, p: Ident, left: Option<LeaseRecord>)
    requires OnTrack(s, p, left) && Waiting(s.procs[p].pc)
    ensures OnTrack(Enter(s, p), p, left)
    ensures Remaining(Enter(s, p).procs[p].pc, left) == Remaining(s.procs[p].pc, left) - 1
  {
    var t := Enter(s, p);
    assert t.procs.Keys == s.procs.Keys;
  }

  lemma OnTrackEnds(s: State, p: Ident, left: Option<LeaseRecord>)
    requires OnTrack(s, p, left) && (s.procs[p].pc.Idle? || s.procs[p].pc.Cleanup?)
    ensures OnTrack(RunOf(s, p), p, left)
    ensures Remaining(RunOf(s, p).procs[p].pc, left) == Remaining(s.procs[p].pc, left) - 1
  {
    var t := RunOf(s, p);
    assert t.procs.Keys == s.procs.Keys;
  }

  lemma OnTrackRun(s: State, p: Ident, left: Option<LeaseRecord>)
    requires OnTrack(s, p, left) && Enabled(s, Run(p))
    ensures OnTrack(RunOf(s, p), p, left)
    ensures Remaining(RunOf(s, p).procs[p].pc, left) == Remaining(s.procs[p].pc, left) - 1
  {
    var pc := s.procs[p].pc;
    if pc.Idle? || pc.Cleanup? {
      OnTrackEnds(s, p, left);
    } else if Waiting(pc) {
      OnTrackEnter(s, p, left);
    } else if pc.FinalOwn? || pc.FinalRead? || pc.FinalLook? || pc.FinalAge? {
      OnTrackFinalAudit(s, p, left);
    } else if pc.Unlink? || pc.Reinstall? || pc.ReinstallWrite? {
      OnTrackReplace(s, p, left);
    } else if pc.AuditRead? || pc.AuditLook? || pc.AuditAge? {
      OnTrackAudit(s, p, left);
    } else if pc.Install? || pc.InstallWrite? {
      OnTrackInstall(s, p, left);
    } else {
      OnTrackClaim(s, p, left);
    }
  }

  /** Only p acts; time may pass at will between its actions. */
  ghost predicate Alone(es: seq<Event>, p: Ident) {
    forall e | e in es :: e.Tick? || e == Run(p)
  }

  function Actions(es: seq<Event>, p: Ident): nat {
    if es == [] then 0 else (if es[0] == Run(p) then 1 else 0) + Actions(es[1..], p)
  }

  lemma {:induction false} OnTrackExec(s: State, p: Ident, left: Option<LeaseRecord>, es: seq<Event>)
    requires OnTrack(s, p, left) && Legal(s, es) && Alone(es, p)
    ensures OnTrack(Exec(s, es), p, left)
    ensures Remaining(Exec(s, es).procs[p].pc, left) == Remaining(s.procs[p].pc, left) - Actions(es, p)
    decreases |es|
  {
    if es == [] {
    } else {
      assert es[0] in es;
      if es[0] == Run(p) {
        OnTrackRun(s, p, left);
      }
      OnTrackExec(Apply(s, es[0]), p, left, es[1..]);
    }
  }

  lemma OnTrackMeans(s: State, p: Ident, left: Option<LeaseRecord>)
    requires OnTrack(s, p, left)
    ensures s.procs[p].pc == Holding(Abandoned(left)) <==> Remaining(s.procs[p].pc, left) == 0
    ensures Remaining(s.procs[p].pc, left) > 0 ==> Enabled(s, Run(p))
    ensures s.procs[p].pc.Holding? ==> Names(s.lease, p, s.procs[p].token) && s.marker.NoMarker?
  {
  }

  /** From any crash state with well-formed files and no recorded pid in use, `acquire` alone cannot
      be refused: at every point it has returned the abandoned token (or none, when there was no
      lease) or its next action is possible, and it returns after exactly 5 or 18 actions. */
  lemma RecoveryAlwaysWins(s: State, p: Ident, es: seq<Event>)
    requires CrashState(s, p)
    requires Legal(s, es) && Alone(es, p)
    ensures var t := Exec(s, es);
            && p in t.procs
            && (t.procs[p].pc == Holding(Abandoned(Left(s))) || Enabled(t, Run(p)))
            && (t.procs[p].pc == Holding(Abandoned(Left(s))) <==>
                  Actions(es, p) == (if s.lease.Lease? then 18 else 5))
            && (t.procs[p].pc.Holding? ==> Names(t.lease, p, t.procs[p].token) && t.marker.NoMarker?)
  {
    OnTrackExec(s, p, Left(s), es);
    OnTrackMeans(Exec(s, es), p, Left(s));
  }

  // ----- the crash that nothing recovers from

  /** The lease file exists without a document, and no process is about to write one. */
  ghost predicate TornLease(s: State) {
    s.lease.BrokenLease? && forall p | p in s.procs :: !s.procs[p].pc.InstallWrite? && !s.procs[p].pc.ReinstallWrite?
  }

  /** A process that stops between the exclusive creation of the lease and its document leaves that
      state behind. */
  lemma StopTearsLease(s: State, p: Ident)
    requires Reachable(s) && p in s.procs && (s.procs[p].pc.InstallWrite? || s.procs[p].pc.ReinstallWrite?)
    ensures TornLease(Apply(s, Crash(p))) && TornLease(Apply(s, Raise(p)))
  {
    ReachableInv(s);
    assert ProcInv(s, p, s.procs[p].token, s.procs[p].pc);
    forall q | q in s.procs && q != p
      ensures !Guarded(s.procs[q].pc)
    {
      assert s.guard == Some(p);
    }
  }

  lemma TornKept(s: State, e: Event)
    requires Inv(s) && Enabled(s, e) && TornLease(s)
    ensures TornLease(Apply(s, e))
  {
    if e.Run? || e.Raise? || e.Late? || e.Beat? || e.Quit? {
      var pc := s.procs[e.p].pc;
      assert ProcInv(s, e.p, s.procs[e.p].token, pc);
      if e.Run? { TornRun(s, e.p); }
    }
  }

  lemma TornRun(s: State, p: Ident)
    requires Enabled(s, Run(p)) && TornLease(s) && ProcInv(s, p, s.procs[p].token, s.procs[p].pc)
    ensures TornLease(RunOf(s, p))
  {
    var t := RunOf(s, p);
    assert t.lease.BrokenLease?;
    assert p in t.procs ==> !t.procs[p].pc.InstallWrite? && !t.procs[p].pc.ReinstallWrite?;
    assert forall q | q in t.procs && q != p :: t.procs[q] == s.procs[q];
  }

  /** From then on, whatever processes do, the file stays as it is and none of them ever holds the
      lease. `CrashState` leaves out exactly the unreadable files. */
  lemma {:induction false} TornForever(s: State, es: seq<Event>)
    requires Inv(s) && TornLease(s) && Legal(s, es)
    ensures TornLease(Exec(s, es))
    ensures forall p | p in Exec(s, es).procs :: !Holder(Exec(s, es).procs[p].pc)
    decreases |es|
  {
    if es == [] {
      forall p | p in s.procs
        ensures !Holder(s.procs[p].pc)
      {
        assert ProcInv(s, p, s.procs[p].token, s.procs[p].pc);
      }
    } else {
      InvKept(s, es[0]);
      TornKept(s, es[0]);
      TornForever(Apply(s, es[0]), es[1..]);
    }
  }

  // ----- the final audit decides

  /** For a holder that is still live, the final audit refuses exactly when the heartbeat now in the
      lease file is at most thirty seconds old; otherwise it goes on to the kill. */
  lemma FinalAuditVerdict(s: State, c: Ident)
    requires Reachable(s) && c in s.procs && s.procs[c].pc.FinalAge?
    requires s.procs[c].pc.cur.who in s.procs
    ensures s.lease.Lease? && s.lease.rec.mono.Some?
    ensures var recent := s.mono - s.lease.rec.mono.value <= 30.0;
            Apply(s, Run(c)).procs[c].pc == if recent then WaitCleanup(Lose) else Kill(s.lease.rec)
  {
    ReachableInv(s);
    assert ProcInv(s, c, s.procs[c].token, s.procs[c].pc);
  }

  const H := Ident(1, "h")
  const C := Ident(2, "c")

  const OLD_LEASE := Lease(LeaseRecord(H, "a", Some(0.0), 0.0))
  const NEW_LEASE := Lease(LeaseRecord(H, "a", Some(100.0), 100.0))
  const CLAIMED := Marker(Claim(C, "b"))

  function One(h: PC, guard: Option<Ident>, lease: LeaseFile, now: real): State {
    State(map[H := Proc("a", h)], {H}, guard, lease, NoMarker, now, now)
  }

  /** H holds the lease and waits; C is at program point c. */
  function Both(c: PC, guard: Option<Ident>, lease: LeaseFile, marker: MarkerFile, now: real): State {
    State(map[H := Proc("a", Holding(None)), C := Proc("b", c)], {H, C}, guard, lease, marker, now, now)
  }

  /** C has finished its first audit; H is at program point h of a heartbeat. */
  function Beating(h: PC, guard: Option<Ident>): State {
    State(map[H := Proc("a", h), C := Proc("b", WaitFinal(OLD_LEASE.rec))], {H, C},
          guard, OLD_LEASE, CLAIMED, 100.0, 100.0)
  }

  /** Each state follows from the one before by the event between them. */
  ghost predicate Linked(ss: seq<State>, es: seq<Event>) {
    |ss| == |es| + 1 && forall i | 0 <= i < |es| :: Link(ss[i], es[i], ss[i + 1])
  }

  ghost predicate Link(s: State, e: Event, t: State) {
    Enabled(s, e) && Apply(s, e) == t
  }

  lemma {:induction false} LinkedReachable(ss: seq<State>, es: seq<Event>, n: nat)
    requires Linked(ss, es) && Reachable(ss[0]) && n <= |es|
    ensures Reachable(ss[n])
  {
    if n > 0 {
      LinkedReachable(ss, es, n - 1);
      assert Link(ss[n - 1], es[n - 1], ss[n - 1 + 1]);
      ReachableStep(ss[n - 1], es[n - 1]);
    }
  }

  /** H acquires at time 0. */
  const STARTING := [
    State(map[], {}, None, NoLease, NoMarker, 0.0, 0.0),
    One(Idle, None, NoLease, 0.0), One(WaitFirst, None, NoLease, 0.0), One(Recover, Some(H), NoLease, 0.0),
    One(Install, Some(H), NoLease, 0.0)]

  /** C starts at time 100. */
  const HELD := [
    One(Install, Some(H), NoLease, 0.0), One(InstallWrite, Some(H), BrokenLease, 0.0),
    One(Holding(None), None, OLD_LEASE, 0.0), One(Holding(None), None, OLD_LEASE, 100.0),
    Both(Idle, None, OLD_LEASE, NoMarker, 100.0)]

  /** C publishes its marker. */
  const CLAIMING := [
    Both(Idle, None, OLD_LEASE, NoMarker, 100.0), Both(WaitFirst, None, OLD_LEASE, NoMarker, 100.0),
    Both(Recover, Some(C), OLD_LEASE, NoMarker, 100.0), Both(Install, Some(C), OLD_LEASE, NoMarker, 100.0),
    Both(Claiming, Some(C), OLD_LEASE, NoMarker, 100.0)]

  /** C's first audit finds a stale holder. */
  const AUDITING := [
    Both(Claiming, Some(C), OLD_LEASE, NoMarker, 100.0), Both(AuditRead, None, OLD_LEASE, CLAIMED, 100.0),
    Both(AuditLook(OLD_LEASE.rec), None, OLD_LEASE, CLAIMED, 100.0),
    Both(AuditAge(OLD_LEASE.rec, Same), None, OLD_LEASE, CLAIMED, 100.0),
    Both(WaitFinal(OLD_LEASE.rec), None, OLD_LEASE, CLAIMED, 100.0)]

  /** H writes a heartbeat; forty seconds later C is still waiting for the guard. */
  const BEATING := [
    Both(WaitFinal(OLD_LEASE.rec), None, OLD_LEASE, CLAIMED, 100.0),
    Beating(WaitBeat(None), None), Beating(BeatRead(None), Some(H)), Beating(BeatWrite(None), Some(H)),
    Both(WaitFinal(OLD_LEASE.rec), None, NEW_LEASE, CLAIMED, 100.0),
    Both(WaitFinal(OLD_LEASE.rec), None, NEW_LEASE, CLAIMED, 140.0)]

  /** C's final audit finds the holder stale again. */
  const DECIDING := [
    Both(WaitFinal(OLD_LEASE.rec), None, NEW_LEASE, CLAIMED, 140.0),
    Both(FinalOwn(OLD_LEASE.rec), Some(C), NEW_LEASE, CLAIMED, 140.0),
    Both(FinalRead(OLD_LEASE.rec), Some(C), NEW_LEASE, CLAIMED, 140.0),
    Both(FinalLook(NEW_LEASE.rec), Some(C), NEW_LEASE, CLAIMED, 140.0),
    Both(FinalAge(NEW_LEASE.rec, Same), Some(C), NEW_LEASE, CLAIMED, 140.0),
    Both(Kill(NEW_LEASE.rec), Some(C), NEW_LEASE, CLAIMED, 140.0)]

  lemma StartingLinked()
    ensures Linked(STARTING, [Spawn(H, "a"), Run(H), Run(H), Run(H)])
  {
    assert Link(STARTING[0], Spawn(H, "a"), STARTING[1]);
    assert Link(STARTING[1], Run(H), STARTING[2]);
    assert Link(STARTING[2], Run(H), STARTING[3]);
    assert Link(STARTING[3], Run(H), STARTING[4]);
  }

  lemma HeldLinked()
    ensures Linked(HELD, [Run(H), Run(H), Tick(100.0, 100.0), Spawn(C, "b")])
  {
    assert Link(HELD[0], Run(H), HELD[1]);
    assert Link(HELD[1], Run(H), HELD[2]);
    assert Link(HELD[2], Tick(100.0, 100.0), HELD[3]);
    assert Link(HELD[3], Spawn(C, "b"), HELD[4]);
  }

  lemma ClaimingLinked()
    ensures Linked(CLAIMING, [Run(C), Run(C), Run(C), Run(C)])
  {
    assert Link(CLAIMING[0], Run(C), CLAIMING[1]);
    assert Link(CLAIMING[1], Run(C), CLAIMING[2]);
    assert Link(CLAIMING[2], Run(C), CLAIMING[3]);
    assert Link(CLAIMING[3], Run(C), CLAIMING[4]);
  }

  lemma AuditSees()
    ensures Link(AUDITING[2], Run(C), AUDITING[3])
    ensures Link(AUDITING[3], Run(C), AUDITING[4])
  {
  }

  lemma AuditingLinked()
    ensures Linked(AUDITING, [Run(C), Run(C), Run(C), Run(C)])
  {
    AuditReads();
    AuditSees();
  }

  lemma AuditReads()
    ensures Link(AUDITING[0], Run(C), AUDITING[1])
    ensures Link(AUDITING[1], Run(C), AUDITING[2])
  {
  }

  lemma BeatStarts()
    ensures Link(BEATING[0], Beat(H), BEATING[1])
  {
  }

  lemma BeatEnters()
    ensures Link(BEATING[1], Run(H), BEATING[2])
  {
  }

  lemma BeatReads()
    ensures Link(BEATING[2], Run(H), BEATING[3])
  {
  }

  lemma BeatLands()
    ensures Link(BEATING[3], Run(H), BEATING[4])
    ensures Link(BEATING[4], Tick(140.0, 140.0), BEATING[5])
  {
  }

  lemma BeatingLinked()
    ensures Linked(BEATING, [Beat(H), Run(H), Run(H), Run(H), Tick(140.0, 140.0)])
  {
    BeatStarts();
    BeatEnters();
    BeatReads();
    BeatLands();
  }

  lemma DecidingLinked()
    ensures Linked(DECIDING, [Run(C), Run(C), Run(C), Run(C), Run(C)])
  {
    FinalEnters();
    FinalReads();
    FinalSees();
  }

  lemma FinalEnters()
    ensures Link(DECIDING[0], Run(C), DECIDING[1])
    ensures Link(DECIDING[1], Run(C), DECIDING[2])
  {
  }

  lemma FinalReads()
    ensures Link(DECIDING[2], Run(C), DECIDING[3])
  {
  }

  lemma FinalSees()
    ensures Link(DECIDING[3], Run(C), DECIDING[4])
    ensures Link(DECIDING[4], Run(C), DECIDING[5])
  {
  }

  lemma StartingReachable()
    ensures Reachable(HELD[0])
  {
    assert Exec(STARTING[0], []) == STARTING[0];
    StartingLinked();
    LinkedReachable(STARTING, [Spawn(H, "a"), Run(H), Run(H), Run(H)], 4);
  }

  lemma HeldReachable()
    ensures Reachable(CLAIMING[0])
  {
    StartingReachable();
    HeldLinked();
    LinkedReachable(HELD, [Run(H), Run(H), Tick(100.0, 100.0), Spawn(C, "b")], 4);
  }

  lemma ClaimingReachable()
    ensures Reachable(AUDITING[0])
  {
    HeldReachable();
    ClaimingLinked();
    LinkedReachable(CLAIMING, [Run(C), Run(C), Run(C), Run(C)], 4);
  }

  lemma AuditingReachable()
    ensures Reachable(BEATING[0])
  {
    ClaimingReachable();
    AuditingLinked();
    LinkedReachable(AUDITING, [Run(C), Run(C), Run(C), Run(C)], 4);
  }

  lemma BeatingReachable()
    ensures Reachable(DECIDING[0]) && Reachable(BEATING[3])
  {
    AuditingReachable();
    BeatingLinked();
    LinkedReachable(BEATING, [Beat(H), Run(H), Run(H), Run(H), Tick(140.0, 140.0)], 3);
    LinkedReachable(BEATING, [Beat(H), Run(H), Run(H), Run(H), Tick(140.0, 140.0)], 5);
  }

  lemma DecidingReachable()
    ensures Reachable(DECIDING[5])
  {
    BeatingReachable();
    DecidingLinked();
    LinkedReachable(DECIDING, [Run(C), Run(C), Run(C), Run(C), Run(C)], 5);
  }

  lemma KillLands()
    ensures BEATING[3].procs[C].pc.WaitFinal? && BEATING[3].procs[H].pc.BeatWrite?
    ensures H in DECIDING[5].procs && Enabled(DECIDING[5], Run(C))
    ensures H !in Apply(DECIDING[5], Run(C)).procs
  {
  }

  /** A heartbeat between the two audits does not always win: H writes one at time 100, after C's
      first audit; C reaches its final audit only at time 140 and kills the live holder. */
  lemma LateTakeoverKills()
    ensures Reachable(BEATING[3]) && BEATING[3].procs[C].pc.WaitFinal? && BEATING[3].procs[H].pc.BeatWrite?
    ensures Link(BEATING[3], Run(H), BEATING[4])
    ensures Reachable(DECIDING[5]) && H in DECIDING[5].procs
    ensures Enabled(DECIDING[5], Run(C)) && H !in Apply(DECIDING[5], Run(C)).procs
  {
    BeatingReachable();
    DecidingReachable();
    BeatLands();
    KillLands();
  }
}
