/**
 acquireLease and releaseLease as any number of processes run them at once on one resource:
 making the directory, writing owner.json, reading it, deciding, and the two file-system
 operations of a recursive removal are separate steps that interleave freely. A process may
 stop for good between any two of its steps.
 */
module LeaseMachine {
  import opened Prelude
  import opened Lease

  type Pid = nat

  /** What follows a removal: the second attempt of an acquire that reclaims, or nothing. */
  datatype Next = ThenMkdir(lease: Lease) | ThenDone

  /** The point a process has reached; `lease` is the lease it is acquiring or holds. */
  datatype Pc =
    | Idle
    | ToMkdir(lease: Lease)
    | ToWrite(lease: Lease)
    | Holding(lease: Lease)
    | ToInspect(lease: Lease)
    | ToUnlink(seen: Lease, next: Next)
    | ToRmdir(seen: Lease, next: Next)
    | ToMkdirAgain(lease: Lease)
    | ToCheck(creds: Creds, mine: Option<Lease>)

  datatype Grant = Grant(pid: Pid, lease: Lease)

  /** `issued` and `evicted` are history: who got which token, and which leases were reclaimed. */
  datatype State = State(lock: Lock, pcs: map<Pid, Pc>, clock: int, issued: map<string, Grant>, evicted: set<string>)

  datatype Event =
    | StartAcquire(pid: Pid, token: string, ttlSec: int)
    | StartRelease(pid: Pid, creds: Creds)
    | Step(pid: Pid)
    | Crash(pid: Pid)
    | Tick(ms: nat)

  /** The owner identity each process stamps on its leases. */
  type Identity = Pid -> string

  function PcOf(s: State, p: Pid): Pc {
    if p in s.pcs then s.pcs[p] else Idle
  }

  function At(s: State, p: Pid, pc: Pc): State {
    s.(pcs := s.pcs[p := pc])
  }

  /** One step of process `p`; errors the file system reports end the call. */
  function StepOf(s: State, p: Pid): State {
    match PcOf(s, p)
    case Idle => s
    case Holding(_) => s
    case ToMkdir(lease) =>
      if s.lock.Free? then At(s, p, ToWrite(lease)).(lock := NoOwner) else At(s, p, ToInspect(lease))
    case ToWrite(lease) =>
      if s.lock.Free? then At(s, p, Idle) else At(s, p, Holding(lease)).(lock := Held(lease))
    case ToInspect(lease) =>
      if s.lock.Held? && IsLeaseStale(s.lock.lease, lease.acquiredAt)
      then At(s, p, ToUnlink(s.lock.lease, ThenMkdir(lease)))
      else At(s, p, Idle)
    case ToUnlink(seen, next) =>
      var evicted := if s.lock.Held? && next.ThenMkdir? then s.evicted + {s.lock.lease.token} else s.evicted;
      At(s, p, ToRmdir(seen, next)).(lock := if s.lock.Held? then NoOwner else s.lock, evicted := evicted)
    case ToRmdir(seen, next) =>
      if s.lock.Held? then At(s, p, Idle)
      else At(s, p, if next.ThenMkdir? then ToMkdirAgain(next.lease) else Idle).(lock := Free)
    case ToMkdirAgain(lease) =>
      if s.lock.Free? then At(s, p, ToWrite(lease)).(lock := NoOwner) else At(s, p, Idle)
    case ToCheck(creds, mine) =>
      if CanRelease(Read(s.lock), creds).allowed then At(s, p, ToUnlink(s.lock.lease, ThenDone))
      else At(s, p, if mine.Some? then Holding(mine.value) else Idle)
  }

  /** Events that are not possible in a state leave it as it is; tokens are never used twice. */
  function Do(id: Identity, s: State, e: Event): State {
    match e
    case StartAcquire(p, token, ttlSec) =>
      if PcOf(s, p).Idle? && token !in s.issued then
        var lease := MakeLease("", id(p), token, ttlSec, s.clock);
        At(s, p, ToMkdir(lease)).(issued := s.issued[token := Grant(p, lease)])
      else s
    case StartRelease(p, creds) =>
      if PcOf(s, p).Idle? then At(s, p, ToCheck(creds, None))
      else if PcOf(s, p).Holding? then At(s, p, ToCheck(creds, Some(PcOf(s, p).lease)))
      else s
    case Step(p) => StepOf(s, p)
    case Crash(p) => At(s, p, Idle)
    case Tick(ms) => s.(clock := s.clock + ms)
  }

  function Run(id: Identity, s: State, events: seq<Event>): State {
    if events == [] then s else Do(id, Run(id, s, events[..|events| - 1]), events[|events| - 1])
  }

  const INIT := State(Free, map[], 0, map[], {})

  // ---- what callers do ----

  ghost predicate DistinctIdentities(id: Identity) {
    forall p, q :: id(p) == id(q) ==> p == q
  }

  /** A release without force, by a token issued to the caller or by an identity nobody shares. */
  ghost predicate OwnCredentials(id: Identity, s: State, p: Pid, creds: Creds) {
    && !creds.force
    && (creds.token != "" ==> creds.token in s.issued && s.issued[creds.token].pid == p)
    && (creds.owner != "" ==> creds.owner == id(p) && DistinctIdentities(id))
  }

  /** A removal that starts finds the very lease the decision to remove was based on. */
  ghost predicate Guarded(s: State, e: Event) {
    e.Step? && PcOf(s, e.pid).ToUnlink? ==> s.lock == Held(PcOf(s, e.pid).seen)
  }

  /** The event is a process finding a lease it may reclaim. */
  predicate SeesStale(s: State, e: Event) {
    && e.Step? && PcOf(s, e.pid).ToInspect?
    && s.lock.Held? && IsLeaseStale(s.lock.lease, PcOf(s, e.pid).lease.acquiredAt)
  }

  ghost predicate Polite(id: Identity, s: State, e: Event) {
    e.StartRelease? ==> OwnCredentials(id, s, e.pid, e.creds)
  }

  ghost predicate GuardedRun(id: Identity, events: seq<Event>) {
    events != [] ==>
      var before, e := events[..|events| - 1], events[|events| - 1];
      var s := Run(id, INIT, before);
      GuardedRun(id, before) && Polite(id, s, e) && Guarded(s, e)
  }

  ghost predicate NoReclaimRun(id: Identity, events: seq<Event>) {
    events != [] ==>
      var before, e := events[..|events| - 1], events[|events| - 1];
      var s := Run(id, INIT, before);
      NoReclaimRun(id, before) && Polite(id, s, e) && !SeesStale(s, e)
  }

  // ---- the invariant ----

  /** The lease a process is in the course of acquiring, not yet written. */
  function Pending(pc: Pc): Option<Lease> {
    match pc
    case ToMkdir(l) => Some(l)
    case ToWrite(l) => Some(l)
    case ToInspect(l) => Some(l)
    case ToMkdirAgain(l) => Some(l)
    case ToUnlink(_, ThenMkdir(l)) => Some(l)
    case ToRmdir(_, ThenMkdir(l)) => Some(l)
    case _ => None
  }

  /** The lease a process has been granted and not yet begun to remove. */
  function Owned(pc: Pc): Option<Lease> {
    match pc
    case Holding(l) => Some(l)
    case ToCheck(_, Some(l)) => Some(l)
    case ToUnlink(l, ThenDone) => Some(l)
    case _ => None
  }

  /** Between making or emptying the directory and filling or removing it. */
  predicate InDirectory(pc: Pc) {
    pc.ToWrite? || pc.ToRmdir?
  }

  /** Between a successful mkdir and the end of the removal: the token of the lease concerned. */
  function Inside(pc: Pc): Option<string> {
    match pc
    case ToWrite(l) => Some(l.token)
    case Holding(l) => Some(l.token)
    case ToCheck(_, Some(l)) => Some(l.token)
    case ToUnlink(l, ThenDone) => Some(l.token)
    case ToRmdir(l, ThenDone) => Some(l.token)
    case _ => None
  }

  predicate Issued(s: State, p: Pid, l: Lease) {
    l.token in s.issued && s.issued[l.token] == Grant(p, l)
  }

  /** A lease still to be written is the process's own, unlisted anywhere else and not from the future. */
  ghost predicate PendingOk(s: State, p: Pid) {
    var l := Pending(PcOf(s, p));
    l.Some? ==> Issued(s, p, l.value) && l.value.token !in s.evicted && s.lock != Held(l.value) && l.value.acquiredAt <= s.clock
  }

  /** A lease held is the process's own and in the lock, unless it was reclaimed. */
  ghost predicate OwnedOk(s: State, p: Pid) {
    var l := Owned(PcOf(s, p));
    l.Some? ==> Issued(s, p, l.value) && (l.value.token !in s.evicted ==> s.lock == Held(l.value))
  }

  /** A process in the directory has the directory without owner.json to itself. */
  ghost predicate DirectoryOk(s: State, p: Pid) {
    && (InDirectory(PcOf(s, p)) ==> s.lock == NoOwner)
    && (PcOf(s, p).ToRmdir? && PcOf(s, p).next.ThenDone? ==> Issued(s, p, PcOf(s, p).seen))
  }

  /** A lease about to be reclaimed is past its time to live. */
  ghost predicate ReclaimOk(s: State, p: Pid) {
    var pc := PcOf(s, p);
    pc.ToUnlink? && pc.next.ThenMkdir? ==>
      pc.seen.token in s.issued && s.issued[pc.seen.token].lease == pc.seen && IsLeaseStale(pc.seen, s.clock)
  }

  ghost predicate CheckOk(id: Identity, s: State, p: Pid) {
    PcOf(s, p).ToCheck? ==> OwnCredentials(id, s, p, PcOf(s, p).creds)
  }

  ghost predicate ProcessOk(id: Identity, s: State, p: Pid) {
    PendingOk(s, p) && OwnedOk(s, p) && DirectoryOk(s, p) && ReclaimOk(s, p) && CheckOk(id, s, p)
  }

  ghost predicate AllOk(id: Identity, s: State) {
    forall p :: ProcessOk(id, s, p)
  }

  ghost predicate OneInDirectory(s: State) {
    forall p, q :: InDirectory(PcOf(s, p)) && InDirectory(PcOf(s, q)) ==> p == q
  }

  ghost predicate RecordsOk(id: Identity, s: State) {
    && (s.lock.Held? ==>
          s.lock.lease.token in s.issued && s.lock.lease.token !in s.evicted
          && s.issued[s.lock.lease.token].lease == s.lock.lease)
    && (forall t :: t in s.issued ==> s.issued[t].lease.token == t && s.issued[t].lease.owner == id(s.issued[t].pid))
    && (forall t :: t in s.evicted ==> t in s.issued && IsLeaseStale(s.issued[t].lease, s.clock))
  }

  ghost predicate Inv(id: Identity, s: State) {
    AllOk(id, s) && OneInDirectory(s) && RecordsOk(id, s)
  }

  lemma InitInv(id: Identity)
    ensures Inv(id, INIT)
  {
  }

  /** What one guarded step does to the shared state, the stepping process set aside. */
  ghost predicate StepEffect(s: State, s': State, p: Pid) {
    && s'.clock == s.clock && s'.issued == s.issued
    && (forall q :: q != p ==> PcOf(s', q) == PcOf(s, q))
    && (|| (s'.lock == s.lock && s'.evicted == s.evicted)
        || (s.lock == Free && s'.lock == NoOwner && s'.evicted == s.evicted)
        || (s.lock == NoOwner && InDirectory(PcOf(s, p)) && s'.evicted == s.evicted
            && (s'.lock == Free || (s'.lock.Held? && Pending(PcOf(s, p)) == Some(s'.lock.lease))))
        || (s.lock.Held? && s'.lock == NoOwner && s'.evicted == s.evicted + {s.lock.lease.token})
        || (s.lock.Held? && s'.lock == NoOwner && s'.evicted == s.evicted && Issued(s, p, s.lock.lease)))
  }

  lemma StepHasEffect(id: Identity, s: State, p: Pid)
    requires Inv(id, s) && Guarded(s, Step(p))
    ensures StepEffect(s, StepOf(s, p), p)
  {
    assert ProcessOk(id, s, p);
  }

  lemma StepKeepsMine(id: Identity, s: State, p: Pid)
    requires Inv(id, s) && Guarded(s, Step(p))
    ensures ProcessOk(id, StepOf(s, p), p)
  {
    if PcOf(s, p).ToCheck? {
      CheckKeepsMine(id, s, p);
    } else if PcOf(s, p).ToUnlink? || PcOf(s, p).ToRmdir? {
      RemovalKeepsMine(id, s, p);
    } else {
      AcquireKeepsMine(id, s, p);
    }
  }

  lemma AcquireKeepsMine(id: Identity, s: State, p: Pid)
    requires Inv(id, s) && !PcOf(s, p).ToCheck? && !PcOf(s, p).ToUnlink? && !PcOf(s, p).ToRmdir?
    ensures ProcessOk(id, StepOf(s, p), p)
  {
    assert ProcessOk(id, s, p);
  }

  lemma RemovalKeepsMine(id: Identity, s: State, p: Pid)
    requires Inv(id, s) && Guarded(s, Step(p)) && (PcOf(s, p).ToUnlink? || PcOf(s, p).ToRmdir?)
    ensures ProcessOk(id, StepOf(s, p), p)
  {
    assert ProcessOk(id, s, p);
  }

  lemma CheckKeepsMine(id: Identity, s: State, p: Pid)
    requires Inv(id, s) && PcOf(s, p).ToCheck?
    ensures ProcessOk(id, StepOf(s, p), p)
  {
    assert ProcessOk(id, s, p);
    if CanRelease(Read(s.lock), PcOf(s, p).creds).allowed {
      CheckLeadsToOwn(id, s, p);
    }
  }

  /** A release is decided on the caller's own lease only. */
  lemma CheckLeadsToOwn(id: Identity, s: State, p: Pid)
    requires Inv(id, s) && PcOf(s, p).ToCheck? && CanRelease(Read(s.lock), PcOf(s, p).creds).allowed
    ensures s.lock.Held? && Issued(s, p, s.lock.lease)
  {
    assert ProcessOk(id, s, p);
  }

  lemma StepKeepsOthers(id: Identity, s: State, s': State, p: Pid, q: Pid)
    requires AllOk(id, s) && RecordsOk(id, s) && OneInDirectory(s) && StepEffect(s, s', p) && q != p
    ensures ProcessOk(id, s', q)
  {
    assert ProcessOk(id, s, p) && ProcessOk(id, s, q);
    assert PcOf(s', q) == PcOf(s, q);
    assert PendingOk(s', q);
    assert OwnedOk(s', q);
  }

  lemma StepKeepsOneInDirectory(id: Identity, s: State, p: Pid)
    requires Inv(id, s) && Guarded(s, Step(p))
    ensures OneInDirectory(StepOf(s, p))
  {
    var s' := StepOf(s, p);
    assert ProcessOk(id, s, p);
    forall a, b | InDirectory(PcOf(s', a)) && InDirectory(PcOf(s', b)) ensures a == b {
      assert ProcessOk(id, s, a);
      assert ProcessOk(id, s, b);
    }
  }

  lemma StepKeepsRecords(id: Identity, s: State, p: Pid)
    requires Inv(id, s) && Guarded(s, Step(p))
    ensures RecordsOk(id, StepOf(s, p))
  {
    if PcOf(s, p).ToUnlink? || PcOf(s, p).ToWrite? {
      WritingKeepsRecords(id, s, p);
    }
  }

  lemma WritingKeepsRecords(id: Identity, s: State, p: Pid)
    requires Inv(id, s) && Guarded(s, Step(p)) && (PcOf(s, p).ToUnlink? || PcOf(s, p).ToWrite?)
    ensures RecordsOk(id, StepOf(s, p))
  {
    assert ProcessOk(id, s, p);
  }

  /** Every event callers may cause keeps the invariant, as long as removals are guarded. */
  lemma EventKeepsInv(id: Identity, s: State, e: Event)
    requires Inv(id, s) && Polite(id, s, e) && Guarded(s, e)
    ensures Inv(id, Do(id, s, e))
  {
    var s' := Do(id, s, e);
    if e.Step? {
      StepKeepsMine(id, s, e.pid);
      StepHasEffect(id, s, e.pid);
      forall q | q != e.pid ensures ProcessOk(id, s', q) {
        StepKeepsOthers(id, s, s', e.pid, q);
      }
      StepKeepsOneInDirectory(id, s, e.pid);
      StepKeepsRecords(id, s, e.pid);
    } else if e.StartAcquire? {
      StartAcquireKeepsInv(id, s, e);
    } else {
      OtherEventKeepsInv(id, s, e);
    }
  }

  lemma StartAcquireKeepsInv(id: Identity, s: State, e: Event)
    requires Inv(id, s) && e.StartAcquire?
    ensures Inv(id, Do(id, s, e))
  {
    var s' := Do(id, s, e);
    if s' != s {
      assert Pending(PcOf(s', e.pid)).value.token == e.token;
      forall q ensures ProcessOk(id, s', q) {
        assert ProcessOk(id, s, q);
      }
      forall q ensures q != e.pid ==> PcOf(s', q) == PcOf(s, q) {
      }
    }
  }

  lemma OtherEventKeepsInv(id: Identity, s: State, e: Event)
    requires Inv(id, s) && Polite(id, s, e) && !e.Step? && !e.StartAcquire?
    ensures Inv(id, Do(id, s, e))
  {
    var s' := Do(id, s, e);
    forall q ensures ProcessOk(id, s', q) && (InDirectory(PcOf(s', q)) ==> InDirectory(PcOf(s, q))) {
      OtherEventKeepsProcess(id, s, e, q);
    }
  }

  lemma OtherEventKeepsProcess(id: Identity, s: State, e: Event, q: Pid)
    requires Inv(id, s) && Polite(id, s, e) && !e.Step? && !e.StartAcquire?
    ensures ProcessOk(id, Do(id, s, e), q)
    ensures InDirectory(PcOf(Do(id, s, e), q)) ==> InDirectory(PcOf(s, q))
  {
    assert ProcessOk(id, s, q);
    hide CanRelease, MakeLease, OneInDirectory, RecordsOk, AllOk;
    if e.Tick? || e.pid != q {
      assert PcOf(Do(id, s, e), q) == PcOf(s, q);
    }
  }

  lemma {:induction false} RunKeepsInv(id: Identity, events: seq<Event>)
    requires GuardedRun(id, events)
    ensures Inv(id, Run(id, INIT, events))
  {
    if events == [] {
      InitInv(id);
    } else {
      RunKeepsInv(id, events[..|events| - 1]);
      EventKeepsInv(id, Run(id, INIT, events[..|events| - 1]), events[|events| - 1]);
    }
  }

  // ---- exclusion ----

  /** Two processes inside at once: one of them holds a reclaimed lease. */
  lemma OneInside(id: Identity, s: State, p: Pid, q: Pid)
    requires Inv(id, s) && p != q
    requires Inside(PcOf(s, p)).Some? && Inside(PcOf(s, q)).Some?
    ensures Inside(PcOf(s, p)).value in s.evicted || Inside(PcOf(s, q)).value in s.evicted
  {
    assert ProcessOk(id, s, p);
    assert ProcessOk(id, s, q);
  }

  /**
   Exclusion over every interleaving in which removals are guarded, reclaims included: of two
   processes that are between their mkdir and the end of their removal at the same time,
   one holds a lease that was reclaimed and is past its time to live.
   */
  lemma GuardedExclusion(id: Identity, events: seq<Event>, p: Pid, q: Pid)
    requires GuardedRun(id, events) && p != q
    requires Inside(PcOf(Run(id, INIT, events), p)).Some? && Inside(PcOf(Run(id, INIT, events), q)).Some?
    ensures var s := Run(id, INIT, events);
      exists t :: t in s.evicted && t in s.issued && IsLeaseStale(s.issued[t].lease, s.clock)
        && (t == Inside(PcOf(s, p)).value || t == Inside(PcOf(s, q)).value)
  {
    var s := Run(id, INIT, events);
    RunKeepsInv(id, events);
    OneInside(id, s, p, q);
    var t := if Inside(PcOf(s, p)).value in s.evicted then Inside(PcOf(s, p)).value else Inside(PcOf(s, q)).value;
    assert t in s.evicted;
  }

  /** While no lease read is ever stale, nobody is reclaiming and every removal is guarded. */
  lemma {:induction false} NoReclaimIsGuarded(id: Identity, events: seq<Event>)
    requires NoReclaimRun(id, events)
    ensures GuardedRun(id, events)
    ensures Run(id, INIT, events).evicted == {}
    ensures forall p :: NotReclaiming(PcOf(Run(id, INIT, events), p))
  {
    if events != [] {
      var before, e := events[..|events| - 1], events[|events| - 1];
      var s := Run(id, INIT, before);
      NoReclaimIsGuarded(id, before);
      RunKeepsInv(id, before);
      if e.Step? {
        assert ProcessOk(id, s, e.pid) && NotReclaiming(PcOf(s, e.pid));
      }
      var s' := Do(id, s, e);
      forall p ensures NotReclaiming(PcOf(s', p)) {
        assert NotReclaiming(PcOf(s, p));
      }
    }
  }

  predicate NotReclaiming(pc: Pc) {
    !(pc.ToUnlink? && pc.next.ThenMkdir?) && !(pc.ToRmdir? && pc.next.ThenMkdir?) && !pc.ToMkdirAgain?
  }

  /**
   Exclusion over every interleaving without reclaim: at most one process is between its
   successful mkdir and the end of its removal, whatever the others do and wherever
   processes die.
   */
  lemma Exclusion(id: Identity, events: seq<Event>, p: Pid, q: Pid)
    requires NoReclaimRun(id, events)
    requires Inside(PcOf(Run(id, INIT, events), p)).Some? && Inside(PcOf(Run(id, INIT, events), q)).Some?
    ensures p == q
  {
    NoReclaimIsGuarded(id, events);
    RunKeepsInv(id, events);
    if p != q {
      OneInside(id, Run(id, INIT, events), p, q);
    }
  }

  /** Without reclaim nobody ever removes the lock of another process. */
  lemma NobodyRemovesAnothersLock(id: Identity, events: seq<Event>, p: Pid)
    requires NoReclaimRun(id, events)
    ensures var s := Run(id, INIT, events);
      PcOf(s, p).ToUnlink? ==> s.lock.Held? && Issued(s, p, s.lock.lease)
  {
    NoReclaimIsGuarded(id, events);
    RunKeepsInv(id, events);
    var s := Run(id, INIT, events);
    assert ProcessOk(id, s, p) && NotReclaiming(PcOf(s, p));
  }

  // ---- a directory without owner.json ----

  ghost predicate Orphaned(s: State) {
    && s.lock == NoOwner
    && forall p :: !PcOf(s, p).ToWrite? && !PcOf(s, p).ToUnlink? && !PcOf(s, p).ToRmdir?
  }

  /**
   A process that dies between making the directory and writing owner.json leaves a lock
   that no later event, not even a forced release or a reclaim, ever removes, and that
   lets nobody in.
   */
  lemma {:induction false} OrphanIsPermanent(id: Identity, s: State, events: seq<Event>)
    requires Orphaned(s)
    ensures Orphaned(Run(id, s, events))
    ensures forall p :: Owned(PcOf(Run(id, s, events), p)).Some? ==> Owned(PcOf(Run(id, s, events), p)) == Owned(PcOf(s, p))
  {
    if events != [] {
      var before, e := events[..|events| - 1], events[|events| - 1];
      OrphanIsPermanent(id, s, before);
      var t := Run(id, s, before);
      var t' := Do(id, t, e);
      forall p ensures !PcOf(t', p).ToWrite? && !PcOf(t', p).ToUnlink? && !PcOf(t', p).ToRmdir?
          && (Owned(PcOf(t', p)).Some? ==> Owned(PcOf(t', p)) == Owned(PcOf(t, p))) {
        assert !PcOf(t, p).ToWrite? && !PcOf(t, p).ToUnlink? && !PcOf(t, p).ToRmdir?;
      }
    }
  }

  /** Such a death leaves exactly that, unless some process has already decided to remove the lock. */
  lemma DeathOrphansExactlyWhen(id: Identity, s: State, p: Pid)
    requires Inv(id, s) && PcOf(s, p).ToWrite?
    ensures Orphaned(Do(id, s, Crash(p))) <==> forall q :: !PcOf(s, q).ToUnlink?
  {
    var s' := Do(id, s, Crash(p));
    assert ProcessOk(id, s, p) && s'.lock == NoOwner;
    forall q ensures !PcOf(s', q).ToWrite? && !PcOf(s', q).ToRmdir? && (PcOf(s', q).ToUnlink? <==> PcOf(s, q).ToUnlink?) {
      assert q != p ==> PcOf(s', q) == PcOf(s, q);
    }
    hide Do;
  }

  // ---- what holds in every state, however calls interleave ----

  /** Leases carry the token and the identity they were issued with, in the lock and wherever one is still to be written. */
  ghost predicate TokensOk(id: Identity, s: State) {
    && (s.lock.Held? ==> s.lock.lease.token in s.issued && s.issued[s.lock.lease.token].lease == s.lock.lease)
    && (forall t :: t in s.issued ==> s.issued[t].lease.token == t && s.issued[t].lease.owner == id(s.issued[t].pid))
    && (forall p :: Pending(PcOf(s, p)).Some? ==> Issued(s, p, Pending(PcOf(s, p)).value))
  }

  lemma StepKeepsTokens(id: Identity, s: State, p: Pid)
    requires TokensOk(id, s)
    ensures TokensOk(id, StepOf(s, p))
  {
    var s' := StepOf(s, p);
    assert s'.issued == s.issued && forall q :: q != p ==> PcOf(s', q) == PcOf(s, q);
    assert Pending(PcOf(s', p)).Some? ==> Pending(PcOf(s', p)) == Pending(PcOf(s, p));
    assert s'.lock.Held? ==> s'.lock == s.lock || Pending(PcOf(s, p)) == Some(s'.lock.lease);
  }

  lemma EventKeepsTokens(id: Identity, s: State, e: Event)
    requires TokensOk(id, s)
    ensures TokensOk(id, Do(id, s, e))
  {
    if e.Step? {
      StepKeepsTokens(id, s, e.pid);
    } else {
      var s' := Do(id, s, e);
      forall q ensures Pending(PcOf(s', q)).Some? ==> Issued(s', q, Pending(PcOf(s', q)).value) {
        assert Pending(PcOf(s, q)).Some? ==> Issued(s, q, Pending(PcOf(s, q)).value);
      }
    }
  }

  /** Every run reaches only such states, forced releases, foreign credentials and racing reclaims included. */
  lemma {:induction false} RunKeepsTokens(id: Identity, events: seq<Event>)
    ensures TokensOk(id, Run(id, INIT, events))
  {
    if events != [] {
      RunKeepsTokens(id, events[..|events| - 1]);
      EventKeepsTokens(id, Run(id, INIT, events[..|events| - 1]), events[|events| - 1]);
    }
  }

  // ---- calls that nobody disturbs ----

  /** `n` steps of one process in a row. */
  function Steps(s: State, p: Pid, n: nat): State {
    if n == 0 then s else StepOf(Steps(s, p, n - 1), p)
  }

  lemma TwoSteps(s: State, p: Pid, n: nat)
    ensures Steps(s, p, n + 2) == StepOf(StepOf(Steps(s, p, n), p), p)
  {
    assert Steps(s, p, n + 1) == StepOf(Steps(s, p, n), p);
  }

  lemma StaleAcquire(id: Identity, s: State, p: Pid, token: string, ttlSec: int)
    requires PcOf(s, p).Idle? && token !in s.issued && s.lock.Held? && IsLeaseStale(s.lock.lease, s.clock)
    ensures var lease := MakeLease("", id(p), token, ttlSec, s.clock);
      var s' := Steps(Do(id, s, StartAcquire(p, token, ttlSec)), p, 6);
      s'.lock == Held(lease) && PcOf(s', p) == Holding(lease)
  {
    var s0 := Do(id, s, StartAcquire(p, token, ttlSec));
    MeetStale(id, s, p, token, ttlSec);
    hide Do, Steps, IsLeaseStale, MakeLease;
    FourSteps(Steps(s0, p, 2), p);
    StepsAdd(s0, p, 2, 4);
  }

  lemma {:induction false} IdleStays(s: State, p: Pid, n: nat)
    requires PcOf(s, p).Idle? || PcOf(s, p).Holding?
    ensures Steps(s, p, n) == s
  {
    if n > 0 {
      IdleStays(s, p, n - 1);
    }
  }

  lemma PromptAcquire(id: Identity, s: State, p: Pid, token: string, ttlSec: int)
    requires PcOf(s, p).Idle? && token !in s.issued && !(s.lock.Held? && IsLeaseStale(s.lock.lease, s.clock))
    ensures var lease := MakeLease("", id(p), token, ttlSec, s.clock);
      var s' := Steps(Do(id, s, StartAcquire(p, token, ttlSec)), p, 2);
      if s.lock.Free? then s'.lock == Held(lease) && PcOf(s', p) == Holding(lease)
      else s'.lock == s.lock && PcOf(s', p) == Idle
  {
    var s0 := Do(id, s, StartAcquire(p, token, ttlSec));
    TwoSteps(s0, p, 0);
  }

  /** Six steps are enough for an acquire; Lease.Acquire is what they do undisturbed. */
  lemma UndisturbedAcquire(id: Identity, s: State, p: Pid, token: string, ttlSec: int)
    requires PcOf(s, p).Idle? && token !in s.issued
    ensures var lease := MakeLease("", id(p), token, ttlSec, s.clock);
      var (lock, result) := Acquire(s.lock, lease, s.clock);
      var s' := Steps(Do(id, s, StartAcquire(p, token, ttlSec)), p, 6);
      s'.lock == lock && PcOf(s', p) == if result.Granted? then Holding(lease) else Idle
  {
    hide Do, Steps, IsLeaseStale, MakeLease;
    if s.lock.Held? && IsLeaseStale(s.lock.lease, s.clock) {
      StaleAcquire(id, s, p, token, ttlSec);
    } else {
      var s0 := Do(id, s, StartAcquire(p, token, ttlSec));
      PromptAcquire(id, s, p, token, ttlSec);
      IdleStays(Steps(s0, p, 2), p, 4);
      StepsAdd(s0, p, 2, 4);
    }
  }

  lemma {:induction false} StepsAdd(s: State, p: Pid, m: nat, n: nat)
    ensures Steps(Steps(s, p, m), p, n) == Steps(s, p, m + n)
  {
    if n > 0 {
      StepsAdd(s, p, m, n - 1);
    }
  }

  lemma {:induction false} OthersStay(s: State, p: Pid, q: Pid, n: nat)
    requires q != p
    ensures PcOf(Steps(s, p, n), q) == PcOf(s, q)
  {
    if n > 0 {
      OthersStay(s, p, q, n - 1);
    }
  }

  /** A holder that died stands in the way until its time to live has passed, and no longer. */
  lemma DeadHolderIsReplacedExactlyWhen(id: Identity, s: State, holder: Pid, p: Pid, token: string, ttlSec: int, ms: nat)
    requires s.lock.Held? && holder != p && PcOf(s, p).Idle? && token !in s.issued
    ensures var died := Do(id, Do(id, s, Crash(holder)), Tick(ms));
      var s' := Steps(Do(id, died, StartAcquire(p, token, ttlSec)), p, 6);
      var held := s.lock.lease;
      && PcOf(s', holder) == Idle
      && (PcOf(s', p).Holding? <==> held.ttlSec != 0 && s.clock + ms > held.acquiredAt + held.ttlSec * 1000)
      && (if PcOf(s', p).Holding? then s'.lock == Held(PcOf(s', p).lease) else s'.lock == Held(held))
  {
    var died := Do(id, Do(id, s, Crash(holder)), Tick(ms));
    var s0 := Do(id, died, StartAcquire(p, token, ttlSec));
    assert died.lock == s.lock && died.clock == s.clock + ms && PcOf(died, holder) == Idle && PcOf(s0, holder) == Idle;
    UndisturbedAcquire(id, died, p, token, ttlSec);
    OthersStay(s0, p, holder, 6);
    GrantedExactlyWhen(died.lock, MakeLease("", id(p), token, ttlSec, died.clock), died.clock);
    hide Do, Steps, MakeLease;
  }

  lemma UndisturbedRelease(id: Identity, s: State, p: Pid, creds: Creds)
    requires PcOf(s, p).Idle? || PcOf(s, p).Holding?
    ensures var s' := Steps(Do(id, s, StartRelease(p, creds)), p, 3);
      var (lock, result) := Release(s.lock, creds);
      s'.lock == lock && PcOf(s', p) == if result.Released? then Idle else PcOf(s, p)
  {
    var s0 := Do(id, s, StartRelease(p, creds));
    TwoSteps(s0, p, 0);
    assert Steps(s0, p, 3) == StepOf(Steps(s0, p, 2), p);
  }

  // ---- where exclusion fails ----

  lemma RunPush(id: Identity, s: State, events: seq<Event>, e: Event)
    ensures Run(id, s, events + [e]) == Do(id, Run(id, s, events), e)
  {
    assert (events + [e])[..|events|] == events;
  }

  lemma {:induction false} RunSteps(id: Identity, s: State, events: seq<Event>, p: Pid, n: nat)
    ensures Run(id, s, events + Repeat(Step(p), n)) == Steps(Run(id, s, events), p, n)
  {
    if n == 0 {
      assert events + Repeat(Step(p), 0) == events;
    } else {
      RunSteps(id, s, events, p, n - 1);
      RunPush(id, s, events + Repeat(Step(p), n - 1), Step(p));
      assert events + Repeat(Step(p), n) == (events + Repeat(Step(p), n - 1)) + [Step(p)];
    }
  }

  /**
   Every change of the lock, in any state: a free one is only ever made by a mkdir, a lease only
   ever appears in an existing directory and by the process it is for, and removing is two
   operations, the second of which fails on a directory that was filled again.
   */
  lemma LockChangesExactly(id: Identity, s: State, e: Event)
    requires Do(id, s, e).lock != s.lock
    ensures e.Step?
    ensures var before, after := PcOf(s, e.pid), PcOf(Do(id, s, e), e.pid);
      match Do(id, s, e).lock
      case NoOwner =>
        || (s.lock.Free? && (before.ToMkdir? || before.ToMkdirAgain?) && after == ToWrite(before.lease))
        || (s.lock.Held? && before.ToUnlink? && after == ToRmdir(before.seen, before.next))
      case Held(lease) => before == ToWrite(lease) && after == Holding(lease) && !s.lock.Free?
      case Free =>
        && before.ToRmdir? && s.lock.NoOwner?
        && after == if before.next.ThenMkdir? then ToMkdirAgain(before.next.lease) else Idle
  {
    hide IsLeaseStale, CanRelease, MakeLease;
  }

  // ---- calls end ----

  /** The most steps a call may still take. */
  function StepsLeft(pc: Pc): nat {
    match pc
    case Idle => 0
    case Holding(_) => 0
    case ToWrite(_) => 1
    case ToMkdirAgain(_) => 2
    case ToRmdir(_, _) => 3
    case ToUnlink(_, _) => 4
    case ToInspect(_) => 5
    case ToCheck(_, _) => 5
    case ToMkdir(_) => 6
  }

  lemma EventBringsCloser(id: Identity, s: State, e: Event, p: Pid)
    requires !(e.StartAcquire? && e.pid == p) && !(e.StartRelease? && e.pid == p)
    ensures var before, after := StepsLeft(PcOf(s, p)), StepsLeft(PcOf(Do(id, s, e), p));
            after <= before && (e == Step(p) ==> after == 0 || after < before)
  {
    hide CanRelease, IsLeaseStale, MakeLease;
  }

  lemma {:induction false} RunBringsCloser(id: Identity, s: State, events: seq<Event>, p: Pid)
    requires forall e :: e in events ==> !(e.StartAcquire? && e.pid == p) && !(e.StartRelease? && e.pid == p)
    ensures StepsLeft(PcOf(Run(id, s, events), p)) <= Max(0, StepsLeft(PcOf(s, p)) - multiset(events)[Step(p)])
  {
    if events != [] {
      var init, last := events[..|events| - 1], events[|events| - 1];
      RunBringsCloser(id, s, init, p);
      EventBringsCloser(id, Run(id, s, init), last, p);
      assert events == init + [last];
      assert multiset(events) == multiset(init) + multiset{last};
      hide Do, StepsLeft;
    }
  }

  /**
   Nobody waits: whatever the other processes do between its steps, a call is over after at
   most six of its own, from any state, reachable or not.
   */
  lemma CallsEnd(id: Identity, s: State, events: seq<Event>, p: Pid)
    requires forall e :: e in events ==> !(e.StartAcquire? && e.pid == p) && !(e.StartRelease? && e.pid == p)
    requires multiset(events)[Step(p)] >= 6
    ensures PcOf(Run(id, s, events), p).Idle? || PcOf(Run(id, s, events), p).Holding?
  {
    RunBringsCloser(id, s, events, p);
    assert StepsLeft(PcOf(s, p)) <= 6;
  }

  /** An acquire that meets a stale lease is two steps away from removing it. */
  lemma MeetStale(id: Identity, s: State, p: Pid, token: string, ttlSec: int)
    requires PcOf(s, p).Idle? && token !in s.issued && s.lock.Held? && IsLeaseStale(s.lock.lease, s.clock)
    ensures var lease := MakeLease("", id(p), token, ttlSec, s.clock);
      var s' := Steps(Do(id, s, StartAcquire(p, token, ttlSec)), p, 2);
      && s'.lock == s.lock && s'.clock == s.clock && PcOf(s', p) == ToUnlink(s.lock.lease, ThenMkdir(lease))
      && s'.issued == s.issued[token := Grant(p, lease)]
      && forall q :: q != p ==> PcOf(s', q) == PcOf(s, q)
  {
    var s0 := Do(id, s, StartAcquire(p, token, ttlSec));
    assert Steps(s0, p, 1) == StepOf(s0, p);
  }

  /** A process about to reclaim takes the lock in four steps, whoever holds it by then. */
  lemma FourSteps(s: State, p: Pid)
    requires PcOf(s, p).ToUnlink? && PcOf(s, p).next.ThenMkdir? && s.lock.Held?
    ensures var s' := Steps(s, p, 4); var lease := PcOf(s, p).next.lease;
      && s'.lock == Held(lease) && PcOf(s', p) == Holding(lease) && s'.clock == s.clock
      && forall q :: q != p ==> PcOf(s', q) == PcOf(s, q)
  {
    var s1 := StepOf(s, p);
    assert Steps(s, p, 1) == s1;
    var s2 := StepOf(s1, p);
    assert Steps(s, p, 2) == s2;
    var s3 := StepOf(s2, p);
    assert Steps(s, p, 3) == s3;
    assert Steps(s, p, 4) == StepOf(s3, p);
  }

  /**
   Reclaiming is not atomic. In every state whose lock is stale, any two idle processes can
   both end up holding the lock with leases of any positive time to live, although nobody
   calls release: both read the stale lease, one reclaims it, and the other then removes
   the new lock.
   */
  lemma RacingReclaim(id: Identity, s: State, p: Pid, q: Pid, tokenP: string, tokenQ: string, ttlSec: int)
      returns (events: seq<Event>)
    requires s.lock.Held? && IsLeaseStale(s.lock.lease, s.clock) && ttlSec > 0
    requires p != q && PcOf(s, p).Idle? && PcOf(s, q).Idle?
    requires tokenP != tokenQ && tokenP !in s.issued && tokenQ !in s.issued
    ensures forall e :: e in events ==> !e.StartRelease?
    ensures BothHold(Run(id, s, events), p, q)
  {
    events := [StartAcquire(p, tokenP, ttlSec)] + Repeat(Step(p), 2) + [StartAcquire(q, tokenQ, ttlSec)] + Repeat(Step(q), 2)
      + Repeat(Step(p), 4) + Repeat(Step(q), 4);
    CallSteps(id, s, [], StartAcquire(p, tokenP, ttlSec), p, 2);
    assert [] + [StartAcquire(p, tokenP, ttlSec)] == [StartAcquire(p, tokenP, ttlSec)];
    CallSteps(id, s, [StartAcquire(p, tokenP, ttlSec)] + Repeat(Step(p), 2), StartAcquire(q, tokenQ, ttlSec), q, 2);
    RunSteps(id, s, events[..6], p, 4);
    RunSteps(id, s, events[..10], q, 4);
    assert events[..6] == [StartAcquire(p, tokenP, ttlSec)] + Repeat(Step(p), 2) + [StartAcquire(q, tokenQ, ttlSec)] + Repeat(Step(q), 2);
    assert events[..10] == events[..6] + Repeat(Step(p), 4) && events == events[..10] + Repeat(Step(q), 4);
    RacingStates(id, s, p, q, tokenP, tokenQ, ttlSec);
  }

  ghost predicate BothHold(s: State, p: Pid, q: Pid) {
    && PcOf(s, p).Holding? && !IsLeaseStale(PcOf(s, p).lease, s.clock)
    && PcOf(s, q).Holding? && !IsLeaseStale(PcOf(s, q).lease, s.clock)
  }

  lemma CallSteps(id: Identity, s: State, events: seq<Event>, e: Event, p: Pid, n: nat)
    ensures Run(id, s, events + [e] + Repeat(Step(p), n)) == Steps(Do(id, Run(id, s, events), e), p, n)
  {
    RunPush(id, s, events, e);
    RunSteps(id, s, events + [e], p, n);
  }

  lemma RacingStates(id: Identity, s: State, p: Pid, q: Pid, tokenP: string, tokenQ: string, ttlSec: int)
    requires s.lock.Held? && IsLeaseStale(s.lock.lease, s.clock) && ttlSec > 0
    requires p != q && PcOf(s, p).Idle? && PcOf(s, q).Idle?
    requires tokenP != tokenQ && tokenP !in s.issued && tokenQ !in s.issued
    ensures var s1 := Steps(Do(id, s, StartAcquire(p, tokenP, ttlSec)), p, 2);
      var s2 := Steps(Do(id, s1, StartAcquire(q, tokenQ, ttlSec)), q, 2);
      BothHold(Steps(Steps(s2, p, 4), q, 4), p, q)
  {
    var s1 := Steps(Do(id, s, StartAcquire(p, tokenP, ttlSec)), p, 2);
    MeetStale(id, s, p, tokenP, ttlSec);
    var s2 := Steps(Do(id, s1, StartAcquire(q, tokenQ, ttlSec)), q, 2);
    MeetStale(id, s1, q, tokenQ, ttlSec);
    FourSteps(s2, p);
    FourSteps(Steps(s2, p, 4), q);
  }

  /**
   With a shared identity the owner fallback removes a lock the caller never held: whoever
   holds it, a process of the same identity that was never granted anything removes it.
   */
  lemma SharedIdentityEvicts(id: Identity, s: State, holder: Pid, p: Pid)
    requires Inv(id, s) && holder != p && id(p) == id(holder) && id(p) != ""
    requires s.lock.Held? && PcOf(s, holder) == Holding(s.lock.lease) && PcOf(s, p).Idle?
    ensures var s' := Steps(Do(id, s, StartRelease(p, Creds("", id(p), false))), p, 3);
      s'.lock == Free && PcOf(s', holder) == PcOf(s, holder)
  {
    assert ProcessOk(id, s, holder);
    UndisturbedRelease(id, s, p, Creds("", id(p), false));
    var s0 := Do(id, s, StartRelease(p, Creds("", id(p), false)));
    assert Steps(s0, p, 1) == StepOf(s0, p);
    assert Steps(s0, p, 2) == StepOf(StepOf(s0, p), p);
    assert PcOf(Steps(s0, p, 2), holder) == PcOf(s, holder);
  }
}
