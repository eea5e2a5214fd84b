/**
 The verifier lease of scripts/verify10_supervisor.py as a transition system.

 Any number of processes share three things: a lease file, a takeover marker file and a kernel
 guard (a mutex). A process runs `acquire`, then heartbeats, then `release`; it may stop at any
 point, and an operation of its own may raise at any point. Each `Run` event is one atomic action
 of one process; what happens between two actions of a process is any sequence of events of the
 others. Only the program points in `Guarded` exclude other guarded sections.

 Assumed of the operating system: a (pid, creation time) identity is never issued twice, at most
 one live process has a given pid, the guard of a dead process is released, and the identity check
 that precedes a kill is one action with the kill.
 */
module VerifierLease {
  import opened Wrappers

  const STALE_AFTER_SECONDS: real := 30.0

  /** An OS-issued process identity. */
  datatype Ident = Ident(pid: int, creation: string)

  /** A readable lease that passes `_validated_lease`; leases of older builds lack `mono`. */
  datatype LeaseRecord = LeaseRecord(who: Ident, token: string, mono: Option<real>, wall: real)

  /** `BrokenLease` is a file that cannot be read or validated, such as one created but not written. */
  datatype LeaseFile = NoLease | BrokenLease | Lease(rec: LeaseRecord)

  datatype Claim = Claim(who: Ident, token: string)

  datatype MarkerFile = NoMarker | BrokenMarker | Marker(claim: Claim)

  /** What `process_creation_time` tells about a recorded identity. */
  datatype Look = Same | Reused | Gone

  /** How the body of `acquire` ended before its `finally` block runs. */
  datatype Outcome = Won(abandoned: string) | Lose

  datatype PC =
    | Idle
    // first guarded section of acquire
    | WaitFirst | Recover | Install | InstallWrite | Claiming
    // unguarded first audit
    | AuditRead | AuditLook(rec: LeaseRecord) | AuditAge(rec: LeaseRecord, seen: Look)
    // second guarded section: final audit, kill, replacement
    | WaitFinal(rec: LeaseRecord) | FinalOwn(rec: LeaseRecord) | FinalRead(rec: LeaseRecord)
    | FinalLook(cur: LeaseRecord) | FinalAge(cur: LeaseRecord, seen: Look)
    | Kill(cur: LeaseRecord) | KillCheck(cur: LeaseRecord) | Unlink(cur: LeaseRecord)
    | Reinstall(stale: string) | ReinstallWrite(stale: string)
    // the finally block
    | WaitCleanup(outcome: Outcome) | Cleanup(outcome: Outcome)
    // acquire has returned
    | Holding(abandoned: Option<string>)
    | WaitBeat(abandoned: Option<string>) | BeatRead(abandoned: Option<string>) | BeatWrite(abandoned: Option<string>)
    | WaitRelease(abandoned: Option<string>) | ReleaseRead(abandoned: Option<string>)
    | ReleaseUnlink(abandoned: Option<string>)
    | Released | Failed
    // a heartbeat found another holder in the lease
    | Lost

  datatype Proc = Proc(token: string, pc: PC)

  /** `procs` holds the live processes, `born` every identity ever issued. */
  datatype State = State(
    procs: map<Ident, Proc>, born: set<Ident>, guard: Option<Ident>,
    lease: LeaseFile, marker: MarkerFile, mono: real, wall: real)

  datatype Event =
    | Spawn(p: Ident, token: string)
    | Crash(p: Ident)
    | Tick(mono: real, wall: real)
    | Run(p: Ident)          // the next action of p succeeds
    | Raise(p: Ident)        // the next action of p raises: I/O error, guard timeout, a kill that fails
    | Late(p: Ident)         // a file written by p raises once its bytes are in place, as a failing fsync does
    | Beat(p: Ident)         // a holder starts a heartbeat
    | Quit(p: Ident)         // a holder starts its release

  predicate Guarded(pc: PC) {
    pc.Recover? || pc.Install? || pc.InstallWrite? || pc.Claiming? || pc.FinalOwn? || pc.FinalRead? ||
    pc.FinalLook? || pc.FinalAge? || pc.Kill? || pc.KillCheck? || pc.Unlink? || pc.Reinstall? ||
    pc.ReinstallWrite? || pc.Cleanup? || pc.BeatRead? || pc.BeatWrite? || pc.ReleaseRead? || pc.ReleaseUnlink?
  }

  /** Program points that wait for the guard. */
  predicate Waiting(pc: PC) {
    pc.WaitFirst? || pc.WaitFinal? || pc.WaitCleanup? || pc.WaitBeat? || pc.WaitRelease?
  }

  /** Returned from `acquire` and not yet released. */
  predicate Holder(pc: PC) {
    pc.Holding? || pc.WaitBeat? || pc.BeatRead? || pc.BeatWrite? ||
    pc.WaitRelease? || pc.ReleaseRead? || pc.ReleaseUnlink?
  }

  /** Owns the lease: a holder, or a winner whose `finally` block is still to run. */
  predicate Owner(pc: PC) {
    Holder(pc) || ((pc.WaitCleanup? || pc.Cleanup?) && pc.outcome.Won?)
  }

  /** Between publishing the takeover marker and the end of the `finally` block. */
  predicate Contender(pc: PC) {
    pc.AuditRead? || pc.AuditLook? || pc.AuditAge? || pc.WaitFinal? || pc.FinalOwn? || pc.FinalRead? ||
    pc.FinalLook? || pc.FinalAge? || pc.Kill? || pc.KillCheck? || pc.Unlink? || pc.Reinstall? ||
    pc.ReinstallWrite? || pc.WaitCleanup? || pc.Cleanup?
  }

  /** Has not yet written a lease. */
  predicate Unarmed(pc: PC) {
    pc.Idle? || pc.WaitFirst? || pc.Recover? || pc.Install? || pc.InstallWrite? || pc.Claiming? ||
    (Contender(pc) && !pc.WaitCleanup? && !pc.Cleanup?)
  }

  function Observe(s: State, who: Ident): (r: Look) {
    if who in s.procs then Same
    else if exists p | p in s.procs :: p.pid == who.pid then Reused
    else Gone
  }

  /** `_heartbeat_age`: the monotonic clock when the record has one, else the wall clock. */
  function Age(s: State, rec: LeaseRecord): (r: real) {
    var delta := if rec.mono.Some? then s.mono - rec.mono.value else s.wall - rec.wall;
    if delta < 0.0 then 0.0 else delta
  }

  function Document(s: State, p: Ident, token: string): LeaseFile {
    Lease(LeaseRecord(p, token, Some(s.mono), s.wall))
  }

  predicate Names(lease: LeaseFile, p: Ident, token: string) {
    lease.Lease? && lease.rec.who == p && lease.rec.token == token
  }

  function Goto(s: State, p: Ident, pc: PC): State
    requires p in s.procs
  {
    s.(procs := s.procs[p := s.procs[p].(pc := pc)])
  }

  /** Leaves a guarded section. */
  function Unlock(s: State, p: Ident, pc: PC): State
    requires p in s.procs
  {
    Goto(s, p, pc).(guard := None)
  }

  /** An exception inside the `try` block of `acquire`: the guard goes, the `finally` block follows. */
  function Refuse(s: State, p: Ident): State
    requires p in s.procs
  {
    Goto(s, p, WaitCleanup(Lose)).(guard := if s.guard == Some(p) then None else s.guard)
  }

  /** Takes the guard and enters the section it protects. */
  function Enter(s: State, p: Ident): State
    requires p in s.procs && Waiting(s.procs[p].pc)
  {
    var next := match s.procs[p].pc {
      case WaitFirst => Recover
      case WaitFinal(rec) => FinalOwn(rec)
      case WaitCleanup(o) => Cleanup(o)
      case WaitBeat(a) => BeatRead(a)
      case WaitRelease(a) => ReleaseRead(a)
    };
    Goto(s, p, next).(guard := Some(p))
  }

  /** `_recover_or_refuse_takeover_unlocked`: no marker, or one whose owner is gone. */
  predicate Recoverable(s: State) {
    s.marker.NoMarker? || (s.marker.Marker? && s.marker.claim.who !in s.procs)
  }

  predicate Refusable(seen: Look, age: real) {
    (seen.Same? && age <= STALE_AFTER_SECONDS) || seen.Reused?
  }

  /** Actions of the first guarded section. */
  function RunFirst(s: State, p: Ident): State
    requires p in s.procs
    requires var pc := s.procs[p].pc; pc.Recover? || pc.Install? || pc.InstallWrite? || pc.Claiming?
  {
    var me := s.procs[p];
    match me.pc
    case Recover =>
      if Recoverable(s) then Goto(s, p, Install).(marker := NoMarker) else Unlock(s, p, Failed)
    case Install =>
      if s.lease.NoLease? then Goto(s, p, InstallWrite).(lease := BrokenLease) else Goto(s, p, Claiming)
    case InstallWrite =>
      Unlock(s, p, Holding(None)).(lease := Document(s, p, me.token))
    case Claiming =>
      if Recoverable(s) then Unlock(s, p, AuditRead).(marker := Marker(Claim(p, me.token)))
      else Unlock(s, p, Failed)
  }

  /** Actions of the unguarded first audit. */
  function RunAudit(s: State, p: Ident): State
    requires p in s.procs
    requires var pc := s.procs[p].pc; pc.AuditRead? || pc.AuditLook? || pc.AuditAge?
  {
    match s.procs[p].pc
    case AuditRead => if s.lease.Lease? then Goto(s, p, AuditLook(s.lease.rec)) else Refuse(s, p)
    case AuditLook(rec) => Goto(s, p, AuditAge(rec, Observe(s, rec.who)))
    case AuditAge(rec, seen) =>
      if Refusable(seen, Age(s, rec)) then Refuse(s, p) else Goto(s, p, WaitFinal(rec))
  }

  predicate InFinal(pc: PC) {
    pc.FinalOwn? || pc.FinalRead? || pc.FinalLook? || pc.FinalAge? || pc.Kill? || pc.KillCheck? ||
    pc.Unlink? || pc.Reinstall? || pc.ReinstallWrite?
  }

  /** Actions of the second guarded section. */
  function RunFinal(s: State, p: Ident): State
    requires p in s.procs && InFinal(s.procs[p].pc)
  {
    var me := s.procs[p];
    match me.pc
    case FinalOwn(rec) =>
      if s.marker == Marker(Claim(p, me.token)) then Goto(s, p, FinalRead(rec)) else Refuse(s, p)
    case FinalRead(rec) =>
      if Names(s.lease, rec.who, rec.token) then Goto(s, p, FinalLook(s.lease.rec)) else Refuse(s, p)
    case FinalLook(cur) => Goto(s, p, FinalAge(cur, Observe(s, cur.who)))
    case FinalAge(cur, seen) =>
      if Refusable(seen, Age(s, cur)) then Refuse(s, p)
      else if seen.Same? then Goto(s, p, Kill(cur))
      else Goto(s, p, Unlink(cur))
    case Kill(cur) =>
      if cur.who !in s.procs then Refuse(s, p)
      else if cur.who == p then s.(procs := s.procs - {p}, guard := None)
      else Goto(s, p, KillCheck(cur)).(procs := Goto(s, p, KillCheck(cur)).procs - {cur.who})
    case KillCheck(cur) => if cur.who in s.procs then Refuse(s, p) else Goto(s, p, Unlink(cur))
    case Unlink(cur) =>
      if s.lease.NoLease? then Refuse(s, p) else Goto(s, p, Reinstall(cur.token)).(lease := NoLease)
    case Reinstall(stale) =>
      if s.lease.NoLease? then Goto(s, p, ReinstallWrite(stale)).(lease := BrokenLease) else Refuse(s, p)
    case ReinstallWrite(stale) =>
      Unlock(s, p, WaitCleanup(Won(stale))).(lease := Document(s, p, me.token))
  }

  function Ended(o: Outcome): PC {
    match o
    case Won(token) => Holding(Some(token))
    case Lose => Failed
  }

  predicate InService(pc: PC) {
    pc.Cleanup? || pc.BeatRead? || pc.BeatWrite? || pc.ReleaseRead? || pc.ReleaseUnlink?
  }

  /** Actions of the `finally` block, of a heartbeat and of a release. */
  function RunService(s: State, p: Ident): State
    requires p in s.procs && InService(s.procs[p].pc)
  {
    var me := s.procs[p];
    match me.pc
    case Cleanup(o) =>
      Unlock(s, p, Ended(o)).(marker := if s.marker == Marker(Claim(p, me.token)) then NoMarker else s.marker)
    case BeatRead(a) =>
      if Names(s.lease, p, me.token) then Goto(s, p, BeatWrite(a)) else Unlock(s, p, Lost)
    case BeatWrite(a) => Unlock(s, p, Holding(a)).(lease := Document(s, p, me.token))
    case ReleaseRead(a) =>
      if Names(s.lease, p, me.token) then Goto(s, p, ReleaseUnlink(a)) else Unlock(s, p, Released)
    case ReleaseUnlink(a) => Unlock(s, p, Released).(lease := NoLease)
  }

  /** Program points with no action of their own. */
  predicate Quiet(pc: PC) { pc.Holding? || pc.Released? || pc.Failed? || pc.Lost? }

  function RunOf(s: State, p: Ident): State
    requires p in s.procs && !Quiet(s.procs[p].pc)
  {
    var pc := s.procs[p].pc;
    if pc.Idle? then Goto(s, p, WaitFirst)
    else if Waiting(pc) then Enter(s, p)
    else if InFinal(pc) then RunFinal(s, p)
    else if InService(pc) then RunService(s, p)
    else if pc.AuditRead? || pc.AuditLook? || pc.AuditAge? then RunAudit(s, p)
    else RunFirst(s, p)
  }

  /** Where an exception outside the `try` block of `acquire` leaves a process. The `finally` block
      and the release swallow theirs; a failed heartbeat leaves the holder a holder. */
  function AfterRaise(pc: PC): PC {
    match pc
    case Cleanup(o) => Ended(o)
    case WaitBeat(a) => Holding(a)
    case BeatRead(a) => Holding(a)
    case BeatWrite(a) => Holding(a)
    case WaitRelease(a) => Holding(a)
    case ReleaseRead(a) => Released
    case ReleaseUnlink(a) => Released
    case _ => Failed
  }

  /** The next action raises. What the action would have written is not written. */
  function RaiseOf(s: State, p: Ident): State
    requires p in s.procs && !Quiet(s.procs[p].pc)
  {
    var pc := s.procs[p].pc;
    if Contender(pc) && !pc.WaitCleanup? && !pc.Cleanup? then Refuse(s, p)
    else if Guarded(pc) then Unlock(s, p, AfterRaise(pc))
    else Goto(s, p, AfterRaise(pc))
  }

  /** Writes whose late failure differs both from failure and from success; elsewhere the next action's
      failure, or success itself, leaves the same state. */
  predicate WritesLast(pc: PC) { pc.InstallWrite? || pc.Claiming? || pc.ReinstallWrite? }

  /** The files are as after the action, the program point and the guard as after an exception. */
  function LateOf(s: State, p: Ident): State
    requires p in s.procs && WritesLast(s.procs[p].pc)
  {
    RaiseOf(s, p).(lease := RunOf(s, p).lease, marker := RunOf(s, p).marker)
  }

  predicate Enabled(s: State, e: Event) {
    match e
    case Spawn(p, _) => p !in s.born && 0 < p.pid && forall q | q in s.procs :: q.pid != p.pid
    case Tick(m, w) => s.mono <= m
    case Crash(p) => p in s.procs
    case Run(p) => p in s.procs && !Quiet(s.procs[p].pc) && (Waiting(s.procs[p].pc) ==> s.guard.None?)
    case Raise(p) => p in s.procs && !Quiet(s.procs[p].pc)
    case Late(p) => p in s.procs && WritesLast(s.procs[p].pc)
    case Beat(p) => p in s.procs && s.procs[p].pc.Holding?
    case Quit(p) => p in s.procs && s.procs[p].pc.Holding?
  }

  function Apply(s: State, e: Event): State
    requires Enabled(s, e)
  {
    match e
    case Spawn(p, token) => s.(procs := s.procs[p := Proc(token, Idle)], born := s.born + {p})
    case Crash(p) => s.(procs := s.procs - {p}, guard := if s.guard == Some(p) then None else s.guard)
    case Tick(m, w) => s.(mono := m, wall := w)
    case Run(p) => RunOf(s, p)
    case Raise(p) => RaiseOf(s, p)
    case Late(p) => LateOf(s, p)
    case Beat(p) => Goto(s, p, WaitBeat(s.procs[p].pc.abandoned))
    case Quit(p) => Goto(s, p, WaitRelease(s.procs[p].pc.abandoned))
  }

  /** A start of the machine: no process, any files, every recorded identity already used. */
  ghost predicate Init(s: State) {
    && s.procs == map[]
    && s.guard.None?
    && (s.lease.Lease? ==> s.lease.rec.who in s.born)
    && (s.marker.Marker? ==> s.marker.claim.who in s.born)
  }

  ghost predicate Legal(s: State, es: seq<Event>)
    decreases |es|
  {
    es != [] ==> Enabled(s, es[0]) && Legal(Apply(s, es[0]), es[1..])
  }

  ghost function Exec(s: State, es: seq<Event>): State
    requires Legal(s, es)
    decreases |es|
  {
    if es == [] then s else Exec(Apply(s, es[0]), es[1..])
  }

  // ----- the inductive invariant

  /** What one process may rely on at its program point. */
  ghost predicate ProcInv(s: State, p: Ident, token: string, pc: PC) {
    && (Owner(pc) ==> Names(s.lease, p, token))
    && (Contender(pc) ==> s.marker == Marker(Claim(p, token)))
    && (Unarmed(pc) ==> !(s.lease.Lease? && s.lease.rec.who == p))
    && (pc.Install? || pc.Claiming? ==> s.marker.NoMarker?)
    && (pc.InstallWrite? || pc.ReinstallWrite? ==> s.lease.BrokenLease?)
    && (pc.Reinstall? ==> s.lease.NoLease?)
    && (pc.FinalLook? || pc.FinalAge? || pc.Kill? || pc.KillCheck? || pc.Unlink? ==> s.lease == Lease(pc.cur))
    && (pc.FinalAge? && !pc.seen.Same? ==> pc.cur.who !in s.procs)
    && (pc.Kill? && pc.cur.mono.Some? ==> s.mono - pc.cur.mono.value > STALE_AFTER_SECONDS)
    && (pc.KillCheck? || pc.Unlink? ==> pc.cur.who !in s.procs)
    && (pc.BeatWrite? || pc.ReleaseUnlink? ==> Names(s.lease, p, token))
    && !pc.Lost?
  }

  ghost predicate FilesInv(s: State) {
    && (s.lease.Lease? ==> s.lease.rec.who in s.born)
    && (s.marker.Marker? ==> s.marker.claim.who in s.born)
    && (s.lease.Lease? && s.lease.rec.who in s.procs ==> s.lease.rec.mono.Some? && s.lease.rec.mono.value <= s.mono)
  }

  ghost predicate GuardInv(s: State) {
    && (s.guard.Some? ==> s.guard.value in s.procs)
    && forall p | p in s.procs :: Guarded(s.procs[p].pc) <==> s.guard == Some(p)
  }

  ghost predicate Inv(s: State) {
    && s.procs.Keys <= s.born
    && (forall p, q | p in s.procs && q in s.procs && p != q :: p.pid != q.pid)
    && FilesInv(s)
    && GuardInv(s)
    && forall p | p in s.procs :: ProcInv(s, p, s.procs[p].token, s.procs[p].pc)
  }

  /** The state after p moves to a program point and sets the guard and the two files. */
  function Shift(s: State, p: Ident, pc: PC, guard: Option<Ident>, lease: LeaseFile, marker: MarkerFile): State
    requires p in s.procs
  {
    Goto(s.(guard := guard, lease := lease, marker := marker), p, pc)
  }

  /** p enters, leaves or stays in its guarded section; it changes a file only inside one, and only
      when no other process depends on that file. */
  ghost predicate Sound(s: State, p: Ident, pc: PC, guard: Option<Ident>, lease: LeaseFile, marker: MarkerFile)
    requires p in s.procs
  {
    && (|| (guard == s.guard && Guarded(pc) == Guarded(s.procs[p].pc))
        || (s.guard.None? && guard == Some(p) && Guarded(pc))
        || (s.guard == Some(p) && guard.None? && !Guarded(pc)))
    && (|| lease == s.lease
        || (&& s.guard == Some(p)
            && (s.lease.Lease? && s.lease.rec.who != p ==> s.lease.rec.who !in s.procs)
            && (lease.Lease? ==> lease.rec == LeaseRecord(p, s.procs[p].token, Some(s.mono), s.wall))))
    && (|| marker == s.marker
        || (&& s.guard == Some(p)
            && (s.marker.Marker? && s.marker.claim.who != p ==> s.marker.claim.who !in s.procs)
            && (marker.Marker? ==> marker.claim.who == p)))
  }

  lemma ShiftKeeps(s: State, p: Ident, pc: PC, guard: Option<Ident>, lease: LeaseFile, marker: MarkerFile)
    requires Inv(s) && p in s.procs
    requires Sound(s, p, pc, guard, lease, marker)
    requires ProcInv(s.(lease := lease, marker := marker), p, s.procs[p].token, pc)
    ensures Inv(Shift(s, p, pc, guard, lease, marker))
  {
    var t := Shift(s, p, pc, guard, lease, marker);
    forall q | q in t.procs
      ensures ProcInv(t, q, t.procs[q].token, t.procs[q].pc)
      ensures Guarded(t.procs[q].pc) <==> t.guard == Some(q)
    {
      if q != p {
        assert ProcInv(s, q, s.procs[q].token, s.procs[q].pc);
      }
    }
  }

  lemma StayKeeps(s: State, p: Ident, pc: PC)
    requires Inv(s) && p in s.procs && Guarded(pc) == Guarded(s.procs[p].pc)
    requires ProcInv(s, p, s.procs[p].token, pc)
    ensures Inv(Goto(s, p, pc))
  {
    ShiftKeeps(s, p, pc, s.guard, s.lease, s.marker);
  }

  lemma UnlockKeeps(s: State, p: Ident, pc: PC)
    requires Inv(s) && p in s.procs && Guarded(s.procs[p].pc) && !Guarded(pc)
    requires ProcInv(s, p, s.procs[p].token, pc)
    ensures Inv(Unlock(s, p, pc))
  {
    ShiftKeeps(s, p, pc, None, s.lease, s.marker);
  }

  lemma RefuseKeeps(s: State, p: Ident)
    requires Inv(s) && p in s.procs && Contender(s.procs[p].pc)
    ensures Inv(Refuse(s, p))
  {
    assert ProcInv(s, p, s.procs[p].token, s.procs[p].pc);
    if Guarded(s.procs[p].pc) {
      UnlockKeeps(s, p, WaitCleanup(Lose));
    } else {
      StayKeeps(s, p, WaitCleanup(Lose));
    }
  }

  lemma EnterKeeps(s: State, p: Ident)
    requires Inv(s) && p in s.procs && Waiting(s.procs[p].pc) && s.guard.None?
    ensures Inv(Enter(s, p))
  {
    assert ProcInv(s, p, s.procs[p].token, s.procs[p].pc);
    ShiftKeeps(s, p, Enter(s, p).procs[p].pc, Some(p), s.lease, s.marker);
  }

  lemma ClaimKeeps(s: State, p: Ident)
    requires Inv(s) && p in s.procs && (s.procs[p].pc.Recover? || s.procs[p].pc.Claiming?)
    ensures Inv(RunFirst(s, p))
  {
    var me := s.procs[p];
    assert ProcInv(s, p, me.token, me.pc);
    if !Recoverable(s) {
      UnlockKeeps(s, p, Failed);
    } else if me.pc.Recover? {
      ShiftKeeps(s, p, Install, s.guard, s.lease, NoMarker);
    } else {
      ShiftKeeps(s, p, AuditRead, None, s.lease, Marker(Claim(p, me.token)));
    }
  }

  lemma InstallKeeps(s: State, p: Ident)
    requires Inv(s) && p in s.procs && (s.procs[p].pc.Install? || s.procs[p].pc.InstallWrite?)
    ensures Inv(RunFirst(s, p))
  {
    var me := s.procs[p];
    assert ProcInv(s, p, me.token, me.pc);
    if me.pc.InstallWrite? {
      ShiftKeeps(s, p, Holding(None), None, Document(s, p, me.token), s.marker);
    } else if s.lease.NoLease? {
      ShiftKeeps(s, p, InstallWrite, s.guard, BrokenLease, s.marker);
    } else {
      StayKeeps(s, p, Claiming);
    }
  }

  lemma AuditKeeps(s: State, p: Ident)
    requires Inv(s) && p in s.procs
    requires var pc := s.procs[p].pc; pc.AuditRead? || pc.AuditLook? || pc.AuditAge?
    ensures Inv(RunAudit(s, p))
  {
    assert ProcInv(s, p, s.procs[p].token, s.procs[p].pc);
    match s.procs[p].pc
    case AuditRead =>
      if s.lease.Lease? { StayKeeps(s, p, AuditLook(s.lease.rec)); } else { RefuseKeeps(s, p); }
    case AuditLook(rec) => StayKeeps(s, p, AuditAge(rec, Observe(s, rec.who)));
    case AuditAge(rec, seen) =>
      if Refusable(seen, Age(s, rec)) { RefuseKeeps(s, p); } else { StayKeeps(s, p, WaitFinal(rec)); }
  }

  /** The final audit, up to the decision to kill or to replace. */
  lemma FinalAuditKeeps(s: State, p: Ident)
    requires Inv(s) && p in s.procs
    requires var pc := s.procs[p].pc; pc.FinalOwn? || pc.FinalRead? || pc.FinalLook? || pc.FinalAge?
    ensures Inv(RunFinal(s, p))
  {
    assert ProcInv(s, p, s.procs[p].token, s.procs[p].pc);
    match s.procs[p].pc
    case FinalOwn(rec) => StayKeeps(s, p, FinalRead(rec));
    case FinalRead(rec) =>
      if Names(s.lease, rec.who, rec.token) { StayKeeps(s, p, FinalLook(s.lease.rec)); } else { RefuseKeeps(s, p); }
    case FinalLook(cur) => StayKeeps(s, p, FinalAge(cur, Observe(s, cur.who)));
    case FinalAge(cur, seen) =>
      if Refusable(seen, Age(s, cur)) { RefuseKeeps(s, p); }
      else if seen.Same? { StayKeeps(s, p, Kill(cur)); }
      else { StayKeeps(s, p, Unlink(cur)); }
  }

  /** A kill removes one process other than the killer and touches no file. */
  lemma KillKeeps(s: State, p: Ident)
    requires Inv(s) && p in s.procs && s.procs[p].pc.Kill?
    ensures Inv(RunFinal(s, p))
  {
    var cur := s.procs[p].pc.cur;
    var t := RunFinal(s, p);
    assert ProcInv(s, p, s.procs[p].token, s.procs[p].pc);
    if cur.who !in s.procs {
      RefuseKeeps(s, p);
    } else {
      assert cur.who != p;
      forall q | q in t.procs
        ensures ProcInv(t, q, t.procs[q].token, t.procs[q].pc)
        ensures Guarded(t.procs[q].pc) <==> t.guard == Some(q)
      {
        assert ProcInv(s, q, s.procs[q].token, s.procs[q].pc);
      }
    }
  }

  /** Replacing the lease of a process that is gone. */
  lemma ReplaceKeeps(s: State, p: Ident)
    requires Inv(s) && p in s.procs
    requires var pc := s.procs[p].pc; pc.KillCheck? || pc.Unlink? || pc.Reinstall? || pc.ReinstallWrite?
    ensures Inv(RunFinal(s, p))
  {
    var me := s.procs[p];
    assert ProcInv(s, p, me.token, me.pc);
    match me.pc
    case KillCheck(cur) => StayKeeps(s, p, Unlink(cur));
    case Unlink(cur) => ShiftKeeps(s, p, Reinstall(cur.token), s.guard, NoLease, s.marker);
    case Reinstall(stale) => ShiftKeeps(s, p, ReinstallWrite(stale), s.guard, BrokenLease, s.marker);
    case ReinstallWrite(stale) =>
      ShiftKeeps(s, p, WaitCleanup(Won(stale)), None, Document(s, p, me.token), s.marker);
  }

  lemma ServiceKeeps(s: State, p: Ident)
    requires Inv(s) && p in s.procs && InService(s.procs[p].pc)
    ensures Inv(RunService(s, p))
  {
    var me := s.procs[p];
    assert ProcInv(s, p, me.token, me.pc);
    match me.pc
    case Cleanup(o) => ShiftKeeps(s, p, Ended(o), None, s.lease, NoMarker);
    case BeatRead(a) => StayKeeps(s, p, BeatWrite(a));
    case BeatWrite(a) => ShiftKeeps(s, p, Holding(a), None, Document(s, p, me.token), s.marker);
    case ReleaseRead(a) => StayKeeps(s, p, ReleaseUnlink(a));
    case ReleaseUnlink(a) => ShiftKeeps(s, p, Released, None, NoLease, s.marker);
  }

  lemma RaiseKeeps(s: State, p: Ident)
    requires Inv(s) && p in s.procs && !Quiet(s.procs[p].pc)
    ensures Inv(RaiseOf(s, p))
  {
    var pc := s.procs[p].pc;
    assert ProcInv(s, p, s.procs[p].token, pc);
    if Contender(pc) && !pc.WaitCleanup? && !pc.Cleanup? {
      RefuseKeeps(s, p);
    } else if Guarded(pc) {
      UnlockKeeps(s, p, AfterRaise(pc));
    } else {
      StayKeeps(s, p, AfterRaise(pc));
    }
  }

  lemma LateInstallKeeps(s: State, p: Ident)
    requires Inv(s) && p in s.procs && (s.procs[p].pc.InstallWrite? || s.procs[p].pc.ReinstallWrite?)
    ensures Inv(LateOf(s, p))
  {
    var me := s.procs[p];
    assert ProcInv(s, p, me.token, me.pc);
    ShiftKeeps(s, p, RaiseOf(s, p).procs[p].pc, None, Document(s, p, me.token), s.marker);
  }

  lemma LateClaimKeeps(s: State, p: Ident)
    requires Inv(s) && p in s.procs && s.procs[p].pc.Claiming?
    ensures Inv(LateOf(s, p))
  {
    var me := s.procs[p];
    assert ProcInv(s, p, me.token, me.pc);
    ShiftKeeps(s, p, Failed, None, s.lease, Marker(Claim(p, me.token)));
  }

  lemma RunKeeps(s: State, p: Ident)
    requires Inv(s) && Enabled(s, Run(p))
    ensures Inv(RunOf(s, p))
  {
    var pc := s.procs[p].pc;
    if pc.Idle? {
      assert ProcInv(s, p, s.procs[p].token, pc);
      StayKeeps(s, p, WaitFirst);
    } else if Waiting(pc) {
      EnterKeeps(s, p);
    } else if pc.Kill? {
      KillKeeps(s, p);
    } else if pc.FinalOwn? || pc.FinalRead? || pc.FinalLook? || pc.FinalAge? {
      FinalAuditKeeps(s, p);
    } else if InFinal(pc) {
      ReplaceKeeps(s, p);
    } else if InService(pc) {
      ServiceKeeps(s, p);
    } else if pc.AuditRead? || pc.AuditLook? || pc.AuditAge? {
      AuditKeeps(s, p);
    } else if pc.Install? || pc.InstallWrite? {
      InstallKeeps(s, p);
    } else {
      ClaimKeeps(s, p);
    }
  }

  /** Births, deaths and the passage of time touch no file and no program point. */
  lemma OutsideKeeps(s: State, e: Event)
    requires Inv(s) && Enabled(s, e) && (e.Spawn? || e.Crash? || e.Tick?)
    ensures Inv(Apply(s, e))
  {
    var t := Apply(s, e);
    forall q | q in t.procs
      ensures ProcInv(t, q, t.procs[q].token, t.procs[q].pc)
      ensures Guarded(t.procs[q].pc) <==> t.guard == Some(q)
    {
      if q in s.procs {
        assert ProcInv(s, q, s.procs[q].token, s.procs[q].pc);
      }
    }
  }

  lemma InvKept(s: State, e: Event)
    requires Inv(s) && Enabled(s, e)
    ensures Inv(Apply(s, e))
  {
    match e
    case Run(p) => RunKeeps(s, p);
    case Raise(p) => RaiseKeeps(s, p);
    case Late(p) => if s.procs[p].pc.Claiming? { LateClaimKeeps(s, p); } else { LateInstallKeeps(s, p); }
    case Beat(p) =>
      assert ProcInv(s, p, s.procs[p].token, s.procs[p].pc);
      StayKeeps(s, p, WaitBeat(s.procs[p].pc.abandoned));
    case Quit(p) =>
      assert ProcInv(s, p, s.procs[p].token, s.procs[p].pc);
      StayKeeps(s, p, WaitRelease(s.procs[p].pc.abandoned));
    case _ => OutsideKeeps(s, e);
  }

  lemma InitInv(s: State)
    requires Init(s)
    ensures Inv(s)
  {
  }

  lemma {:induction false} ExecInv(s: State, es: seq<Event>)
    requires Inv(s) && Legal(s, es)
    ensures Inv(Exec(s, es))
    decreases |es|
  {
    if es == [] {
    } else {
      InvKept(s, es[0]);
      ExecInv(Apply(s, es[0]), es[1..]);
    }
  }

  /** A state of some run from some start of the machine. */
  ghost predicate Reachable(s: State) {
    exists s0, es | Init(s0) && Legal(s0, es) :: Exec(s0, es) == s
  }

  lemma ReachableInv(s: State)
    requires Reachable(s)
    ensures Inv(s)
  {
    var s0, es :| Init(s0) && Legal(s0, es) && Exec(s0, es) == s;
    InitInv(s0);
    ExecInv(s0, es);
  }

  // ----- what every run keeps

  /** In every run at most one live process has returned from `acquire` and not released, and the
      lease file holds exactly its pid, creation time and token. */
  lemma MutualExclusion(s: State)
    requires Reachable(s)
    ensures forall p, q | p in s.procs && q in s.procs && Holder(s.procs[p].pc) && Holder(s.procs[q].pc) :: p == q
    ensures forall p | p in s.procs && Holder(s.procs[p].pc) ::
              s.lease.Lease? && s.lease.rec.who == p && s.lease.rec.token == s.procs[p].token
  {
    ReachableInv(s);
    forall p | p in s.procs && Holder(s.procs[p].pc)
      ensures s.lease.Lease? && s.lease.rec.who == p && s.lease.rec.token == s.procs[p].token
    {
      assert ProcInv(s, p, s.procs[p].token, s.procs[p].pc);
    }
  }

  /** No heartbeat of a live holder ever finds that the lease was lost. */
  lemma HolderNeverLoses(s: State, p: Ident)
    requires Reachable(s) && p in s.procs
    ensures !s.procs[p].pc.Lost?
  {
    ReachableInv(s);
    assert ProcInv(s, p, s.procs[p].token, s.procs[p].pc);
  }

  /** A live process disappears only by its own crash or by a justified kill: the killer holds the
      guard and the takeover marker, the lease file names the victim at that moment, and the
      victim's monotonic heartbeat is more than thirty seconds old. */
  lemma KillJustified(s: State, e: Event, h: Ident)
    requires Reachable(s) && Enabled(s, e)
    requires h in s.procs && h !in Apply(s, e).procs
    ensures || e == Crash(h)
            || (&& e.Run? && e.p != h && e.p in s.procs
                && s.guard == Some(e.p)
                && s.marker == Marker(Claim(e.p, s.procs[e.p].token))
                && s.lease.Lease? && s.lease.rec.who == h && s.lease.rec.mono.Some?
                && s.mono - s.lease.rec.mono.value > 30.0)
  {
    if e != Crash(h) {
      OnlyKillRemoves(s, e, h);
      ReachableInv(s);
      assert ProcInv(s, e.p, s.procs[e.p].token, s.procs[e.p].pc);
    }
  }

  lemma OnlyKillRemoves(s: State, e: Event, h: Ident)
    requires Enabled(s, e) && h in s.procs && h !in Apply(s, e).procs && e != Crash(h)
    ensures e.Run? && s.procs[e.p].pc.Kill? && s.procs[e.p].pc.cur.who == h
  {
  }

  /** While a process is live, only that process removes or replaces a marker naming it. */
  lemma LiveMarkerProtected(s: State, e: Event)
    requires Reachable(s) && Enabled(s, e)
    requires s.marker.Marker? && s.marker.claim.who in s.procs
    requires Apply(s, e).marker != s.marker
    ensures e == Run(s.marker.claim.who)
  {
    ReachableInv(s);
    if e.Run? || e.Late? {
      assert ProcInv(s, e.p, s.procs[e.p].token, s.procs[e.p].pc);
    }
  }

  /** At most one live process is inside the takeover, and the marker names it. */
  lemma OneContender(s: State, p: Ident, q: Ident)
    requires Reachable(s) && p in s.procs && q in s.procs
    requires Contender(s.procs[p].pc) && Contender(s.procs[q].pc)
    ensures p == q && s.marker == Marker(Claim(p, s.procs[p].token))
  {
    ReachableInv(s);
    assert ProcInv(s, p, s.procs[p].token, s.procs[p].pc);
    assert ProcInv(s, q, s.procs[q].token, s.procs[q].pc);
  }

  // ----- heartbeats against takeovers

  /** The last heartbeat of h in the lease is no older than t. */
  ghost predicate BeatSince(s: State, h: Ident, t: real) {
    && t <= s.mono
    && (s.lease.Lease? && s.lease.rec.who == h ==> s.lease.rec.mono.Some? && t <= s.lease.rec.mono.value)
  }

  lemma {:induction false} BeatSinceKept(s: State, es: seq<Event>, h: Ident, t: real)
    requires Legal(s, es) && BeatSince(s, h, t)
    ensures BeatSince(Exec(s, es), h, t)
    decreases |es|
  {
    if es == [] {
    } else {
      BeatSinceKept(Apply(s, es[0]), es[1..], h, t);
    }
  }

  /** A heartbeat written at time t protects its holder from every takeover for thirty seconds,
      whatever a contender had audited before, and whatever runs in between. */
  lemma HeartbeatProtects(s: State, h: Ident, es: seq<Event>, e: Event)
    requires Reachable(s)
    requires h in s.procs && s.procs[h].pc.BeatWrite?
    requires Legal(Apply(s, Run(h)), es)
    requires var t := Exec(Apply(s, Run(h)), es);
             Enabled(t, e) && e != Crash(h) && h in t.procs && h !in Apply(t, e).procs
    ensures Exec(Apply(s, Run(h)), es).mono > s.mono + 30.0
  {
    var s1 := Apply(s, Run(h));
    BeatSinceKept(s1, es, h, s.mono);
    var t := Exec(s1, es);
    ReachableStep(s, Run(h));
    ReachableRun(s1, es);
    KillJustified(t, e, h);
  }

  lemma {:induction false} LegalAppend(s: State, es: seq<Event>, fs: seq<Event>)
    requires Legal(s, es) && Legal(Exec(s, es), fs)
    ensures Legal(s, es + fs) && Exec(s, es + fs) == Exec(Exec(s, es), fs)
    decreases |es|
  {
    if es == [] {
      assert es + fs == fs;
    } else {
      LegalAppend(Apply(s, es[0]), es[1..], fs);
      assert (es + fs)[1..] == es[1..] + fs;
    }
  }

  lemma ReachableRun(s: State, es: seq<Event>)
    requires Reachable(s) && Legal(s, es)
    ensures Reachable(Exec(s, es))
  {
    var s0, ds :| Init(s0) && Legal(s0, ds) && Exec(s0, ds) == s;
    LegalAppend(s0, ds, es);
  }

  lemma ReachableStep(s: State, e: Event)
    requires Reachable(s) && Enabled(s, e)
    ensures Reachable(Apply(s, e))
  {
    assert Exec(s, [e]) == Apply(s, e);
    ReachableRun(s, [e]);
  }
}
