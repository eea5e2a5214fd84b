/**
 When a lease may be taken, on the fields of the files and the table of processes alone: what the
 undisturbed `acquire` of scripts/verify10_supervisor.py answers, and what each of the two audits decides.
 */
module LeaseRules {
  import opened Wrappers
  import opened VerifierLease

  /** More than thirty seconds without a heartbeat, by the monotonic clock when the lease has one. */
  ghost predicate Stale(s: State, rec: LeaseRecord) {
    match rec.mono
    case Some(beat) => s.mono - beat > 30.0
    case None => s.wall - rec.wall > 30.0
  }

  /** Some live process has the pid, whichever its creation time. */
  ghost predicate PidInUse(s: State, pid: int) {
    exists q | q in s.procs :: q.pid == pid
  }

  /** The holder is gone and its pid free, or it lives and is stale. A reused pid is never taken for the
      holder's end. */
  ghost predicate Takeable(s: State, rec: LeaseRecord) {
    if rec.who in s.procs then Stale(s, rec) else !PidInUse(s, rec.who.pid)
  }

  /** No takeover is under way: no marker, or one whose exact process is gone. */
  ghost predicate NoTakeover(s: State) {
    match s.marker
    case NoMarker => true
    case BrokenMarker => false
    case Marker(claim) => claim.who !in s.procs
  }

  lemma RefusableIff(s: State, rec: LeaseRecord)
    ensures Refusable(Observe(s, rec.who), Age(s, rec)) <==> !Takeable(s, rec)
  {
  }

  lemma RecoverableIff(s: State)
    ensures Recoverable(s) <==> NoTakeover(s)
  {
  }

  /** The outcome of an undisturbed `acquire`, read off the files it finds: nothing to abandon for a free
      lease, the old token for a lease that may be taken, and a refusal otherwise; unreadable files refuse. */
  ghost function Verdict(s: State): Result<Option<string>> {
    match s.lease
    case NoLease => if NoTakeover(s) then Ok(None) else Refused
    case BrokenLease => Refused
    case Lease(rec) => if NoTakeover(s) && Takeable(s, rec) then Ok(Some(rec.token)) else Refused
  }

  /** A lease whose holder is gone but whose pid another live process has is never taken over. */
  lemma ReusedPidRefused(s: State, rec: LeaseRecord, q: Ident)
    requires s.lease == Lease(rec) && rec.who !in s.procs && q in s.procs && q.pid == rec.who.pid
    ensures Verdict(s) == Refused && Refusable(Observe(s, rec.who), Age(s, rec))
  {
    RefusableIff(s, rec);
  }

  // ----- the audits, step by step

  /** The first audit goes on exactly with a readable lease that may be taken at the moments it looks. */
  lemma FirstAuditDecides(s: State, p: Ident)
    requires p in s.procs && (s.procs[p].pc.AuditRead? || s.procs[p].pc.AuditLook? || s.procs[p].pc.AuditAge?)
    ensures var next := Apply(s, Run(p)).procs[p].pc;
            match s.procs[p].pc
            case AuditRead => next == if s.lease.Lease? then AuditLook(s.lease.rec) else WaitCleanup(Lose)
            case AuditLook(rec) =>
              next == AuditAge(rec, if rec.who in s.procs then Same
                                    else if PidInUse(s, rec.who.pid) then Reused else Gone)
            case AuditAge(rec, seen) =>
              next == if seen == Gone || (seen == Same && Stale(s, rec)) then WaitFinal(rec) else WaitCleanup(Lose)
            case _ => false
    ensures Apply(s, Run(p)).lease == s.lease && Apply(s, Run(p)).marker == s.marker
    ensures Apply(s, Run(p)).procs.Keys == s.procs.Keys
  {
  }

  /** The final audit needs its own marker and the audited holder in the lease, and kills exactly a stale
      live holder; a reused pid ends the takeover with the lease as it was. */
  lemma FinalAuditDecides(s: State, p: Ident)
    requires p in s.procs
    requires var pc := s.procs[p].pc; pc.FinalOwn? || pc.FinalRead? || pc.FinalLook? || pc.FinalAge?
    ensures var next := Apply(s, Run(p)).procs[p].pc;
            match s.procs[p].pc
            case FinalOwn(rec) =>
              next == if s.marker == Marker(Claim(p, s.procs[p].token)) then FinalRead(rec) else WaitCleanup(Lose)
            case FinalRead(rec) =>
              next == if s.lease.Lease? && s.lease.rec.who == rec.who && s.lease.rec.token == rec.token
                      then FinalLook(s.lease.rec) else WaitCleanup(Lose)
            case FinalLook(cur) =>
              next == FinalAge(cur, if cur.who in s.procs then Same
                                    else if PidInUse(s, cur.who.pid) then Reused else Gone)
            case FinalAge(cur, seen) =>
              (match seen
               case Same => next == if Stale(s, cur) then Kill(cur) else WaitCleanup(Lose)
               case Reused => next == WaitCleanup(Lose)
               case Gone => next == Unlink(cur))
            case _ => false
    ensures Apply(s, Run(p)).lease == s.lease && Apply(s, Run(p)).marker == s.marker
    ensures Apply(s, Run(p)).procs.Keys == s.procs.Keys
  {
  }

  /** What a heartbeat, an installation and a reinstallation write: this process, its token and both clocks
      as they are now. */
  lemma WritesNow(s: State, p: Ident)
    requires p in s.procs
    requires var pc := s.procs[p].pc; pc.InstallWrite? || pc.ReinstallWrite? || pc.BeatWrite?
    ensures var lease := Apply(s, Run(p)).lease;
            && lease.Lease? && lease.rec.who == p && lease.rec.token == s.procs[p].token
            && lease.rec.mono == Some(s.mono) && lease.rec.wall == s.wall
  {
  }

  /** The age is the difference of the clock that the lease carries, and never negative. */
  lemma AgeIs(s: State, rec: LeaseRecord)
    ensures var beat := if rec.mono.Some? then rec.mono.value else rec.wall;
            var now := if rec.mono.Some? then s.mono else s.wall;
            (now >= beat ==> Age(s, rec) == now - beat) && (now < beat ==> Age(s, rec) == 0.0)
  {
  }

  // ----- from acquire to release

  /** Holding begins only with the written document of a free lease or at the end of a won takeover. */
  lemma HoldingBegins(s: State, e: Event, p: Ident)
    requires Enabled(s, e) && p in s.procs && p in Apply(s, e).procs
    requires !Holder(s.procs[p].pc) && Holder(Apply(s, e).procs[p].pc)
    ensures || (e == Run(p) && s.procs[p].pc == InstallWrite)
            || ((e == Run(p) || e == Raise(p)) && s.procs[p].pc.Cleanup? && s.procs[p].pc.outcome.Won?)
  {
  }

  /** While its process lives, holding ends only with a release of its own that it asked for, or where a
      heartbeat finds the lease lost. */
  lemma HoldingEnds(s: State, e: Event, p: Ident)
    requires Enabled(s, e) && p in s.procs && p in Apply(s, e).procs
    requires Holder(s.procs[p].pc) && !Holder(Apply(s, e).procs[p].pc)
    ensures e == Run(p) || e == Raise(p)
    ensures || (Apply(s, e).procs[p].pc == Released && (s.procs[p].pc.ReleaseRead? || s.procs[p].pc.ReleaseUnlink?))
            || (Apply(s, e).procs[p].pc == Lost && s.procs[p].pc.BeatRead? && e == Run(p))
  {
  }

  // ----- exceptions

  /** An exception leaves the files and the other processes alone and gives the guard back. It ends
      `acquire` before its `try` block, leads to the `finally` block inside it, is swallowed by the work of
      that block and of a release, and leaves the holder a holder during a heartbeat. */
  lemma RaiseGoes(s: State, p: Ident)
    requires Enabled(s, Raise(p))
    ensures var t := Apply(s, Raise(p));
            && t.lease == s.lease && t.marker == s.marker && t.procs.Keys == s.procs.Keys
            && (forall q | q in s.procs && q != p :: t.procs[q] == s.procs[q])
            && (s.guard == Some(p) && Guarded(s.procs[p].pc) ==> t.guard == None)
            && t.procs[p].token == s.procs[p].token
            && match s.procs[p].pc
               case Idle | WaitFirst | Recover | Install | InstallWrite | Claiming => t.procs[p].pc == Failed
               case WaitCleanup(_) => t.procs[p].pc == Failed
               case Cleanup(Won(stale)) => t.procs[p].pc == Holding(Some(stale))
               case Cleanup(Lose) => t.procs[p].pc == Failed
               case WaitBeat(a) => t.procs[p].pc == Holding(a)
               case BeatRead(a) => t.procs[p].pc == Holding(a)
               case BeatWrite(a) => t.procs[p].pc == Holding(a)
               case WaitRelease(a) => t.procs[p].pc == Holding(a)
               case ReleaseRead(_) | ReleaseUnlink(_) => t.procs[p].pc == Released
               case _ => t.procs[p].pc == WaitCleanup(Lose)
  {
  }
}
