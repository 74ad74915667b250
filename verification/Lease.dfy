/**
 The lease mutex of scripts/agentGateway.js: its pure decisions, what one undisturbed
 acquireLease or releaseLease call does to a lock, and the calls as they act on the gate
 directory. Times are milliseconds.
 */
module Lease {
  import opened Prelude

  datatype Lease = Lease(resource: string, owner: string, token: string, acquiredAt: int, ttlSec: int)

  /** A lock directory: absent, present without owner.json, or present with a readable lease. */
  datatype Lock = Free | NoOwner | Held(lease: Lease)

  /** Empty strings count as not given. */
  datatype Creds = Creds(token: string, owner: string, force: bool)

  const DEFAULT_TTL_SEC := 300

  predicate IsLeaseStale(lease: Lease, now: int) {
    lease.ttlSec != 0 && now - lease.acquiredAt > lease.ttlSec * 1000
  }

  datatype Decision = Decision(allowed: bool, reason: string)

  function CanRelease(holder: Option<Lease>, creds: Creds): Decision {
    if holder.None? then Decision(false, "not-held")
    else if creds.force then Decision(true, "force")
    else if creds.token != "" && holder.value.token == creds.token then Decision(true, "token")
    else if creds.owner != "" && holder.value.owner == creds.owner then Decision(true, "owner-match")
    else Decision(false, if creds.token != "" || creds.owner != "" then "credential-mismatch" else "no-credential")
  }

  function MakeLease(resource: string, owner: string, token: string, ttlSec: int, now: int): Lease {
    Lease(resource, owner, token, now, if ttlSec == 0 then DEFAULT_TTL_SEC else ttlSec)
  }

  /** readLease: a directory without a readable owner.json reads as no lease at all. */
  function Read(lock: Lock): Option<Lease> {
    if lock.Held? then Some(lock.lease) else None
  }

  datatype AcquireResult = Granted(token: string, reclaimedFrom: Option<string>) | Busy(holder: Option<Lease>)
  datatype ReleaseResult = Released(reason: string) | Refused(reason: string, holder: Option<Lease>)

  /** An undisturbed acquireLease. */
  function Acquire(lock: Lock, lease: Lease, now: int): (Lock, AcquireResult) {
    match lock
    case Free => (Held(lease), Granted(lease.token, None))
    case NoOwner => (NoOwner, Busy(None))
    case Held(held) =>
      if IsLeaseStale(held, now) then (Held(lease), Granted(lease.token, Some(held.owner)))
      else (lock, Busy(Some(held)))
  }

  /** An undisturbed releaseLease. */
  function Release(lock: Lock, creds: Creds): (Lock, ReleaseResult) {
    var decision := CanRelease(Read(lock), creds);
    if decision.allowed then (Free, Released(decision.reason))
    else (lock, Refused(decision.reason, Read(lock)))
  }

  /** The caller's own words, and five minutes when it gave no time to live. */
  predicate IsCallersLease(l: Lease, resource: string, owner: string, token: string, ttlSec: int, now: int) {
    && l.resource == resource && l.owner == owner && l.token == token && l.acquiredAt == now
    && l.ttlSec == if ttlSec == 0 then 300 else ttlSec
  }

  /** The gate directory; a resource that is not in `locks` has no lock directory. */
  class GateDir {
    var locks: map<string, Lock>

    ghost predicate Valid()
      reads this
    {
      forall r :: r in locks ==> locks[r] != Free
    }

    function LockOf(resource: string): (lock: Lock)
      reads this
    {
      if resource in locks then locks[resource] else Free
    }

    /** The primitive that decides who wins: it fails if the directory exists. */
    method Mkdir(resource: string) returns (created: bool)
      requires Valid()
      modifies this
      ensures Valid()
      ensures created <==> old(LockOf(resource)) == Free
      ensures locks == if created then old(locks)[resource := NoOwner] else old(locks)
    {
      created := resource !in locks;
      if created {
        locks := locks[resource := NoOwner];
      }
    }

    method RmDir(resource: string)
      requires Valid()
      modifies this
      ensures Valid() && locks == old(locks) - {resource}
    {
      locks := locks - {resource};
    }

    /** tryWrite: create the directory, then write owner.json into it. */
    method TryWrite(resource: string, lease: Lease) returns (created: bool)
      requires Valid()
      modifies this
      ensures Valid()
      ensures created <==> old(LockOf(resource)) == Free
      ensures locks == if created then old(locks)[resource := Held(lease)] else old(locks)
    {
      created := Mkdir(resource);
      if created {
        locks := locks[resource := Held(lease)];
      }
    }

    method AcquireLease(resource: string, owner: string, token: string, ttlSec: int, now: int) returns (r: AcquireResult)
      requires Valid()
      modifies this
      ensures Valid()
      ensures var (lock, result) := Acquire(old(LockOf(resource)), MakeLease(resource, owner, token, ttlSec, now), now);
        && r == result && LockOf(resource) == lock
        && forall other :: other != resource ==> LockOf(other) == old(LockOf(other))
      ensures r.Granted? ==> r.token == token
      ensures r.Granted? ==> LockOf(resource).Held?
      ensures r.Granted? ==> IsCallersLease(LockOf(resource).lease, resource, owner, token, ttlSec, now)
    {
      var lease := MakeLease(resource, owner, token, ttlSec, now);
      var created := TryWrite(resource, lease);
      if created {
        return Granted(token, None);
      }
      var held := Read(LockOf(resource));
      if held.Some? && IsLeaseStale(held.value, now) {
        RmDir(resource);
        created := TryWrite(resource, lease);
        return Granted(token, Some(held.value.owner));
      }
      return Busy(held);
    }

    method ReleaseLease(resource: string, creds: Creds) returns (r: ReleaseResult)
      requires Valid()
      modifies this
      ensures Valid()
      ensures var (lock, result) := Release(old(LockOf(resource)), creds);
        && r == result && LockOf(resource) == lock
        && forall other :: other != resource ==> LockOf(other) == old(LockOf(other))
    {
      var held := Read(LockOf(resource));
      var decision := CanRelease(held, creds);
      if !decision.allowed {
        return Refused(decision.reason, held);
      }
      RmDir(resource);
      return Released(decision.reason);
    }
  }

  // ---- whole runs of undisturbed calls on one resource ----

  datatype Call =
    | AcquireCall(owner: string, token: string, ttlSec: int, now: int)
    | ReleaseCall(creds: Creds, now: int)

  /** The lock, every lease granted so far in order, and the tokens of those released. */
  datatype World = World(lock: Lock, grants: seq<Lease>, released: set<string>, clock: int)

  function Perform(w: World, c: Call): World {
    match c
    case AcquireCall(owner, token, ttlSec, now) =>
      var lease := MakeLease("", owner, token, ttlSec, now);
      var (lock, result) := Acquire(w.lock, lease, now);
      World(lock, if result.Granted? then w.grants + [lease] else w.grants, w.released, now)
    case ReleaseCall(creds, now) =>
      var (lock, result) := Release(w.lock, creds);
      World(lock, w.grants, if result.Released? && w.lock.Held? then w.released + {w.lock.lease.token} else w.released, now)
  }

  function Run(calls: seq<Call>): World {
    if calls == [] then World(Free, [], {}, 0) else Perform(Run(calls[..|calls| - 1]), calls[|calls| - 1])
  }

  /** Clocks do not run backwards and every acquire brings a token no grant has used. */
  ghost predicate Proper(calls: seq<Call>) {
    calls != [] ==>
      var before, c := calls[..|calls| - 1], calls[|calls| - 1];
      && Proper(before)
      && Run(before).clock <= c.now
      && (c.AcquireCall? ==> forall g :: g in Run(before).grants ==> g.token != c.token)
  }

  /** The lock holds the latest grant exactly as long as that is not released, and nothing else. */
  ghost predicate HoldsLatest(w: World) {
    w.lock == if w.grants != [] && w.grants[|w.grants| - 1].token !in w.released then Held(w.grants[|w.grants| - 1]) else Free
  }

  ghost predicate Safe(w: World) {
    && HoldsLatest(w)
    && (forall g :: g in w.grants ==> g.token in w.released || w.lock == Held(g) || IsLeaseStale(g, w.clock))
    && (forall i, j :: 0 <= i < j < |w.grants| ==> w.grants[i].token != w.grants[j].token)
    && (forall t :: t in w.released ==> exists g :: g in w.grants && g.token == t)
  }

  lemma PerformSafe(w: World, c: Call)
    requires Safe(w) && w.clock <= c.now
    requires c.AcquireCall? ==> forall g :: g in w.grants ==> g.token != c.token
    ensures Safe(Perform(w, c))
  {
    var w' := Perform(w, c);
    assert w.grants != [] ==> w.grants[|w.grants| - 1] in w.grants;
    forall g | g in w'.grants ensures g.token in w'.released || w'.lock == Held(g) || IsLeaseStale(g, w'.clock) {
      if g in w.grants && w.lock == Held(g) && w'.lock != w.lock && c.ReleaseCall? {
        assert g.token in w'.released;
      }
    }
    forall t | t in w'.released ensures exists g :: g in w'.grants && g.token == t {
      if t in w.released {
        var g :| g in w.grants && g.token == t;
        assert g in w'.grants;
      } else {
        assert w.lock.lease in w'.grants;
      }
    }
  }

  /**
   After any series of calls the lock holds the latest grant if that was not released and is
   free otherwise, and every other grant that was not released is past its time to live.
   */
  lemma {:induction false} RunSafe(calls: seq<Call>)
    requires Proper(calls)
    ensures Safe(Run(calls))
  {
    if calls != [] {
      RunSafe(calls[..|calls| - 1]);
      PerformSafe(Run(calls[..|calls| - 1]), calls[|calls| - 1]);
    }
  }

  /** Of all grants never released, at most one is still within its time to live. */
  lemma OneLiveGrant(calls: seq<Call>, g: Lease, h: Lease)
    requires Proper(calls)
    requires g in Run(calls).grants && g.token !in Run(calls).released && !IsLeaseStale(g, Run(calls).clock)
    requires h in Run(calls).grants && h.token !in Run(calls).released && !IsLeaseStale(h, Run(calls).clock)
    ensures g == h && Run(calls).lock == Held(g)
  {
    RunSafe(calls);
  }

  lemma OtherGrantOtherToken(w: World, g: Lease)
    requires HoldsLatest(w) && g in w.grants && w.lock != Held(g)
    requires forall i, j :: 0 <= i < j < |w.grants| ==> w.grants[i].token != w.grants[j].token
    ensures w.lock.Held? ==> w.lock.lease.token != g.token
  {
    var i :| 0 <= i < |w.grants| && w.grants[i] == g;
  }

  lemma OtherTokenRefused(lock: Lock, token: string)
    requires lock.Held? ==> lock.lease.token != token
    ensures Release(lock, Creds(token, "", false)).0 == lock
    ensures Release(lock, Creds(token, "", false)).1.Refused?
  {
  }

  /** A holder whose lease was reclaimed cannot release the new holder's lease with its token. */
  lemma LateReleaseRefused(calls: seq<Call>, g: Lease)
    requires Proper(calls)
    requires g in Run(calls).grants && Run(calls).lock != Held(g)
    ensures Release(Run(calls).lock, Creds(g.token, "", false)).0 == Run(calls).lock
    ensures Release(Run(calls).lock, Creds(g.token, "", false)).1.Refused?
  {
    RunSafe(calls);
    OtherGrantOtherToken(Run(calls), g);
    hide *;
    OtherTokenRefused(Run(calls).lock, g.token);
  }

  // ---- two acquires in a row ----

  /** The call adds a grant. */
  ghost predicate Grants(calls: seq<Call>, c: Call) {
    Run(calls + [c]).grants != Run(calls).grants
  }

  lemma RunPush(calls: seq<Call>, c: Call)
    ensures Run(calls + [c]) == Perform(Run(calls), c)
  {
    assert (calls + [c])[..|calls|] == calls;
  }

  lemma GrantIsLast(calls: seq<Call>, c: Call)
    requires c.AcquireCall? && Grants(calls, c)
    ensures var grants := Run(calls + [c]).grants;
            grants != [] && IsCallersLease(grants[|grants| - 1], "", c.owner, c.token, c.ttlSec, c.now)
  {
    RunPush(calls, c);
  }

  lemma PerformGrants(w: World, d: Call)
    requires d.AcquireCall? && w.lock.Held?
    ensures Perform(w, d).grants != w.grants <==> w.lock.lease.ttlSec != 0 && d.now > w.lock.lease.acquiredAt + w.lock.lease.ttlSec * 1000
  {
    hide MakeLease;
    if Perform(w, d).grants != w.grants {
      assert IsLeaseStale(w.lock.lease, d.now);
    }
    if IsLeaseStale(w.lock.lease, d.now) {
      assert |Perform(w, d).grants| == |w.grants| + 1;
    }
  }

  lemma GrantedOver(calls: seq<Call>, d: Call)
    requires Proper(calls) && d.AcquireCall? && Run(calls).grants != []
    requires Run(calls).grants[|Run(calls).grants| - 1].token !in Run(calls).released
    ensures var held := Run(calls).grants[|Run(calls).grants| - 1];
            Grants(calls, d) <==> held.ttlSec != 0 && d.now > held.acquiredAt + held.ttlSec * 1000
  {
    RunSafe(calls);
    RunPush(calls, d);
    hide Run, Proper;
    PerformGrants(Run(calls), d);
  }

  /**
   After a grant at `c.now` that was neither released nor followed by another, the next acquire is
   granted if and only if the time to live the first one asked for, or else five minutes, has passed.
   */
  lemma NextAcquireExactlyWhen(before: seq<Call>, c: Call, between: seq<Call>, d: Call)
    requires c.AcquireCall? && d.AcquireCall? && Proper(before + [c] + between) && Grants(before, c)
    requires Run(before + [c] + between).grants == Run(before + [c]).grants
    requires c.token !in Run(before + [c] + between).released
    ensures Grants(before + [c] + between, d) <==> d.now > c.now + 1000 * if c.ttlSec == 0 then 300 else c.ttlSec
  {
    GrantIsLast(before, c);
    GrantedOver(before + [c] + between, d);
    hide Run, Proper, Grants;
  }

  /** A release frees the lock exactly for a force, the lease's token or its owner, and says which, in this order. */
  lemma ReleasedExactlyWhen(lock: Lock, creds: Creds)
    ensures var (after, result) := Release(lock, creds);
            var mine := lock.Held? && creds.token != "" && creds.token == lock.lease.token;
            var ours := lock.Held? && creds.owner != "" && creds.owner == lock.lease.owner;
            && (result.Released? <==> lock.Held? && (creds.force || mine || ours))
            && after == (if result.Released? then Free else lock)
            && (result.Released? ==> result.reason == if creds.force then "force" else if mine then "token" else "owner-match")
            && (result.Refused? ==> result.holder == if lock.Held? then Some(lock.lease) else None)
            && (result.Refused? ==>
                  result.reason == if !lock.Held? then "not-held"
                                      else if creds.token == "" && creds.owner == "" then "no-credential"
                                      else "credential-mismatch")
  {
  }

  /** What an acquire answers: whom it took the lock from, or who holds it. */
  lemma AcquireAnswers(lock: Lock, lease: Lease, now: int)
    ensures var result := Acquire(lock, lease, now).1;
            && (result.Granted? ==> result.token == lease.token)
            && (result.Granted? ==> result.reclaimedFrom == if lock.Held? then Some(lock.lease.owner) else None)
            && (result.Busy? ==> result.holder == if lock.Held? then Some(lock.lease) else None)
  {
  }

  /** An undisturbed acquire is granted exactly when no lock exists or the written lease is past its time to live. */
  lemma GrantedExactlyWhen(lock: Lock, lease: Lease, now: int)
    ensures Acquire(lock, lease, now).1.Granted?
      <==> lock == Free || (lock.Held? && lock.lease.ttlSec != 0 && now > lock.lease.acquiredAt + lock.lease.ttlSec * 1000)
    ensures Acquire(lock, lease, now).0 == if Acquire(lock, lease, now).1.Granted? then Held(lease) else lock
  {
  }
}
