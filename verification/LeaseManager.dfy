/**
 `LeaseManager` of scripts/verify10_supervisor.py as the object it is: methods that change the lease
 file, the marker file and the guard in place, here while nobody else acts. Every write of a field is
 one event of the transition system: `Act` and `EndProcess` perform a `Run` event, `Start` a `Beat` or
 a `Quit` event, and no other method writes.
 The contract of `Acquire` says exactly when it succeeds and what it leaves behind.
 */
module LeaseManagers {
  import opened Wrappers
  import opened VerifierLease
  import opened LeaseRules

  class LeaseManager {
    const me: Ident
    const token: string
    var procs: map<Ident, Proc>
    var guard: Option<Ident>
    var lease: LeaseFile
    var marker: MarkerFile
    const born: set<Ident>
    const mono: real
    const wall: real

    function Shared(): State
      reads this
    {
      State(procs, born, guard, lease, marker, mono, wall)
    }

    predicate At(pc: PC)
      reads this
    {
      me in procs && procs[me] == Proc(token, pc)
    }

    constructor (s: State, p: Ident)
      requires p in s.procs && s.procs[p].pc.Idle?
      ensures me == p && Shared() == s && At(Idle)
    {
      me, token := p, s.procs[p].token;
      procs, guard, lease, marker := s.procs, s.guard, s.lease, s.marker;
      born, mono, wall := s.born, s.mono, s.wall;
    }

    /** One action: moves on, and sets the guard and the files. */
    method Act(pc: PC, g: Option<Ident>, l: LeaseFile, m: MarkerFile)
      requires me in procs && Enabled(Shared(), Run(me))
      requires RunOf(Shared(), me) == Shift(Shared(), me, pc, g, l, m)
      modifies this`procs, this`guard, this`lease, this`marker
      ensures Shared() == RunOf(old(Shared()), me)
      ensures procs == old(procs)[me := old(procs)[me].(pc := pc)] && guard == g && lease == l && marker == m
    {
      procs := procs[me := procs[me].(pc := pc)];
      guard, lease, marker := g, l, m;
    }

    /** `process_creation_time` of the recorded pid, compared with the recorded creation time. */
    method LookAt(who: Ident) returns (seen: Look)
      ensures seen == Observe(Shared(), who)
    {
      if who in procs {
        seen := Same;
      } else if exists p | p in procs :: p.pid == who.pid {
        seen := Reused;
      } else {
        seen := Gone;
      }
    }

    /** `_recover_or_refuse_takeover_unlocked`, at the head of the first section. */
    method RecoverOrRefuse() returns (ok: bool)
      requires At(Idle) && guard.None?
      modifies this`procs, this`guard, this`lease, this`marker
      ensures ok == NoTakeover(old(Shared())) && lease == old(lease) && procs.Keys == old(procs.Keys)
      ensures ok ==> At(Install) && guard == Some(me) && marker.NoMarker?
      ensures !ok ==> At(Failed) && guard.None? && marker == old(marker)
    {
      Act(WaitFirst, None, lease, marker);
      Act(Recover, Some(me), lease, marker);
      ok := marker.NoMarker? || (marker.Marker? && marker.claim.who !in procs);
      if ok {
        Act(Install, guard, lease, NoMarker);
      } else {
        Act(Failed, None, lease, marker);
      }
    }

    /** `_install_new_unlocked`: exclusive creation, then the document. Fails when a lease exists. */
    method InstallNew() returns (created: bool)
      requires At(Install) && guard == Some(me)
      modifies this`procs, this`guard, this`lease, this`marker
      ensures created == old(lease).NoLease? && marker == old(marker) && procs.Keys == old(procs.Keys)
      ensures created ==> At(Holding(None)) && guard.None? && lease == Document(old(Shared()), me, token)
      ensures !created ==> At(Claiming) && guard == Some(me) && lease == old(lease)
    {
      created := lease.NoLease?;
      if created {
        CreateLease();
      } else {
        Act(Claiming, guard, lease, marker);
      }
    }

    method CreateLease()
      requires At(Install) && guard == Some(me) && lease.NoLease?
      modifies this`procs, this`guard, this`lease, this`marker
      ensures At(Holding(None)) && procs.Keys == old(procs.Keys)
      ensures guard.None? && lease == Document(old(Shared()), me, token) && marker == old(marker)
    {
      Act(InstallWrite, guard, BrokenLease, marker);
      Act(Holding(None), None, Document(Shared(), me, token), marker);
    }

    /** `_claim_takeover_unlocked`, then the unguarded audit: reads the lease, looks at the holder,
        computes the age. */
    method ClaimAndAudit() returns (found: Option<LeaseRecord>)
      requires At(Claiming) && guard == Some(me) && marker.NoMarker?
      modifies this`procs, this`guard, this`lease, this`marker
      ensures guard.None? && lease == old(lease) && marker == Marker(Claim(me, token)) && procs.Keys == old(procs.Keys)
      ensures var s := old(Shared());
              found == if lease.Lease? && Takeable(s, lease.rec) then Some(lease.rec) else None
      ensures At(if found.Some? then WaitFinal(found.value) else WaitCleanup(Lose))
    {
      Act(AuditRead, None, lease, Marker(Claim(me, token)));
      if !lease.Lease? {
        Act(WaitCleanup(Lose), None, lease, marker);
        return None;
      }
      found := Audit(lease.rec);
    }

    method Audit(rec: LeaseRecord) returns (found: Option<LeaseRecord>)
      requires At(AuditRead) && guard.None? && lease == Lease(rec)
      modifies this`procs, this`guard, this`lease, this`marker
      ensures guard.None? && lease == old(lease) && marker == old(marker) && procs.Keys == old(procs.Keys)
      ensures found == if Takeable(old(Shared()), rec) then Some(rec) else None
      ensures At(if found.Some? then WaitFinal(rec) else WaitCleanup(Lose))
    {
      Act(AuditLook(rec), None, lease, marker);
      var seen := LookAt(rec.who);
      Act(AuditAge(rec, seen), None, lease, marker);
      found := Judge(rec, seen);
    }

    method Judge(rec: LeaseRecord, seen: Look) returns (found: Option<LeaseRecord>)
      requires At(AuditAge(rec, seen)) && guard.None?
      modifies this`procs, this`guard, this`lease, this`marker
      ensures guard.None? && lease == old(lease) && marker == old(marker) && procs.Keys == old(procs.Keys)
      ensures found == if Refusable(seen, Age(old(Shared()), rec)) then None else Some(rec)
      ensures At(if found.Some? then WaitFinal(rec) else WaitCleanup(Lose))
    {
      found := if Refusable(seen, Age(Shared(), rec)) then None else Some(rec);
      Act(if found.Some? then WaitFinal(rec) else WaitCleanup(Lose), None, lease, marker);
    }

    /** The head of the second section: the marker must still be ours, the lease the one audited. */
    method Reread(rec: LeaseRecord)
      requires At(WaitFinal(rec)) && guard.None? && lease == Lease(rec) && marker == Marker(Claim(me, token))
      modifies this`procs, this`guard, this`lease, this`marker
      ensures At(FinalLook(rec)) && procs.Keys == old(procs.Keys)
      ensures guard == Some(me) && lease == old(lease) && marker == old(marker)
    {
      Act(FinalOwn(rec), Some(me), lease, marker);
      Act(FinalRead(rec), guard, lease, marker);
      Act(FinalLook(rec), guard, lease, marker);
    }

    /** The final audit's decision; true when a live stale holder must be killed first. */
    method Decide(rec: LeaseRecord) returns (alive: bool)
      requires At(FinalLook(rec)) && guard == Some(me)
      requires !Refusable(Observe(Shared(), rec.who), Age(Shared(), rec))
      modifies this`procs, this`guard, this`lease, this`marker
      ensures alive == (rec.who in old(procs)) && procs.Keys == old(procs.Keys)
      ensures guard == old(guard) && lease == old(lease) && marker == old(marker)
      ensures At(if alive then Kill(rec) else Unlink(rec))
    {
      var seen := LookAt(rec.who);
      Act(FinalAge(rec, seen), guard, lease, marker);
      alive := seen.Same?;
      Act(if alive then Kill(rec) else Unlink(rec), guard, lease, marker);
    }

    /** `_terminate_verified_process_tree` and the check that the holder is gone. */
    method Terminate(rec: LeaseRecord)
      requires At(Kill(rec)) && guard == Some(me) && rec.who in procs && rec.who != me
      modifies this`procs, this`guard, this`lease, this`marker
      ensures At(Unlink(rec)) && procs.Keys == old(procs.Keys) - {rec.who}
      ensures guard == old(guard) && lease == old(lease) && marker == old(marker)
    {
      EndProcess(rec);
      Act(Unlink(rec), guard, lease, marker);
    }

    /** The kill itself: the identity check and the end of the process are one action. */
    method EndProcess(rec: LeaseRecord)
      requires At(Kill(rec)) && guard == Some(me) && rec.who in procs && rec.who != me
      modifies this`procs
      ensures Shared() == RunOf(old(Shared()), me)
      ensures At(KillCheck(rec)) && procs.Keys == old(procs.Keys) - {rec.who}
    {
      procs := procs[me := Proc(token, KillCheck(rec))] - {rec.who};
    }

    /** Unlinks the stale lease and installs this manager's. */
    method Replace(rec: LeaseRecord)
      requires At(Unlink(rec)) && guard == Some(me) && lease == Lease(rec)
      modifies this`procs, this`guard, this`lease, this`marker
      ensures At(WaitCleanup(Won(rec.token))) && procs.Keys == old(procs.Keys)
      ensures guard.None? && lease == Document(old(Shared()), me, token) && marker == old(marker)
    {
      Act(Reinstall(rec.token), guard, NoLease, marker);
      InstallAgain(rec.token);
    }

    method InstallAgain(stale: string)
      requires At(Reinstall(stale)) && guard == Some(me) && lease.NoLease?
      modifies this`procs, this`guard, this`lease, this`marker
      ensures At(WaitCleanup(Won(stale))) && procs.Keys == old(procs.Keys)
      ensures guard.None? && lease == Document(old(Shared()), me, token) && marker == old(marker)
    {
      Act(ReinstallWrite(stale), guard, BrokenLease, marker);
      Act(WaitCleanup(Won(stale)), None, Document(Shared(), me, token), marker);
    }

    /** The `finally` block: removes the marker when it is still ours. */
    method Finally(o: Outcome)
      requires At(WaitCleanup(o)) && guard.None?
      modifies this`procs, this`guard, this`lease, this`marker
      ensures At(Ended(o)) && guard.None? && lease == old(lease) && procs.Keys == old(procs.Keys)
      ensures marker == if old(marker) == Marker(Claim(me, token)) then NoMarker else old(marker)
    {
      Act(Cleanup(o), Some(me), lease, marker);
      Act(Ended(o), None, lease, if marker == Marker(Claim(me, token)) then NoMarker else marker);
    }

    /** The second section and the `finally` block, for a lease that the first audit found stale. */
    method TakeOver(rec: LeaseRecord)
      requires At(WaitFinal(rec)) && guard.None? && lease == Lease(rec) && marker == Marker(Claim(me, token))
      requires Takeable(Shared(), rec) && rec.who != me
      modifies this`procs, this`guard, this`lease, this`marker
      ensures At(Holding(Some(rec.token))) && procs.Keys == old(procs.Keys) - {rec.who}
      ensures guard.None? && lease == Document(old(Shared()), me, token) && marker.NoMarker?
    {
      Reread(rec);
      var alive := Decide(rec);
      if alive {
        Terminate(rec);
      }
      Replace(rec);
      Finally(Won(rec.token));
    }

    /** `acquire`. It succeeds exactly when `Verdict` says so. On success the lease is ours with the
        current heartbeat, no marker remains, and the only process that may be gone is the stale
        holder; on refusal the lease and the processes are untouched. */
    method Acquire() returns (r: Result<Option<string>>)
      requires At(Idle) && guard.None? && (lease.Lease? ==> lease.rec.who != me)
      modifies this`procs, this`guard, this`lease, this`marker
      ensures guard.None? && r == Verdict(old(Shared()))
      ensures r.Ok? ==> At(Holding(r.value)) && lease == Document(old(Shared()), me, token) && marker.NoMarker?
      ensures r.Ok? ==> procs.Keys == old(procs.Keys) - (if old(lease).Lease? then {old(lease).rec.who} else {})
      ensures r.Refused? ==> At(Failed) && lease == old(lease) && procs.Keys == old(procs.Keys)
      ensures r.Refused? ==> marker == if NoTakeover(old(Shared())) then NoMarker else old(marker)
    {
      var ok := RecoverOrRefuse();
      if !ok {
        return Refused;
      }
      var created := InstallNew();
      if created {
        return Ok(None);
      }
      var found := ClaimAndAudit();
      if found.None? {
        Finally(Lose);
        return Refused;
      }
      TakeOver(found.value);
      return Ok(Some(found.value.token));
    }

    /** Starts a heartbeat or a release and takes the guard for it. */
    method Begin(e: Event, pc: PC)
      requires me in procs && Enabled(Shared(), e) && (e == Beat(me) || e == Quit(me)) && guard.None?
      requires At(procs[me].pc)
      requires pc == if e.Beat? then BeatRead(procs[me].pc.abandoned) else ReleaseRead(procs[me].pc.abandoned)
      modifies this`procs, this`guard, this`lease, this`marker
      ensures At(pc) && guard == Some(me) && lease == old(lease) && marker == old(marker)
    {
      Start(e);
      Act(pc, Some(me), lease, marker);
    }

    /** The event that starts a heartbeat or a release. */
    method Start(e: Event)
      requires me in procs && At(procs[me].pc) && Enabled(Shared(), e) && (e == Beat(me) || e == Quit(me))
      modifies this`procs
      ensures Shared() == Apply(old(Shared()), e)
      ensures At(if e.Beat? then WaitBeat(old(procs)[me].pc.abandoned) else WaitRelease(old(procs)[me].pc.abandoned))
    {
      procs := Apply(Shared(), e).procs;
    }

    /** A forced `heartbeat`: it renews the lease exactly when the lease still names this manager. */
    method Heartbeat() returns (ok: bool)
      requires me in procs && procs[me].pc.Holding? && At(procs[me].pc) && guard.None?
      modifies this`procs, this`guard, this`lease, this`marker
      ensures ok == Names(old(lease), me, token) && guard.None? && marker == old(marker)
      ensures lease == if ok then Document(old(Shared()), me, token) else old(lease)
      ensures At(if ok then old(procs)[me].pc else Lost)
    {
      var a := procs[me].pc.abandoned;
      Begin(Beat(me), BeatRead(a));
      ok := Names(lease, me, token);
      if ok {
        Act(BeatWrite(a), guard, lease, marker);
        Act(Holding(a), None, Document(Shared(), me, token), marker);
      } else {
        Act(Lost, None, lease, marker);
      }
    }

    /** `release`: unlinks the lease exactly when it names this manager. */
    method Release()
      requires me in procs && procs[me].pc.Holding? && At(procs[me].pc) && guard.None?
      modifies this`procs, this`guard, this`lease, this`marker
      ensures At(Released) && guard.None? && marker == old(marker)
      ensures lease == if Names(old(lease), me, token) then NoLease else old(lease)
    {
      var a := procs[me].pc.abandoned;
      Begin(Quit(me), ReleaseRead(a));
      if Names(lease, me, token) {
        UnlinkOwn(a);
      } else {
        Act(Released, None, lease, marker);
      }
    }

    method UnlinkOwn(a: Option<string>)
      requires At(ReleaseRead(a)) && guard == Some(me) && Names(lease, me, token)
      modifies this`procs, this`guard, this`lease, this`marker
      ensures At(Released) && guard.None? && marker == old(marker) && lease.NoLease?
    {
      Act(ReleaseUnlink(a), guard, lease, marker);
      Act(Released, None, NoLease, marker);
    }
  }
}
