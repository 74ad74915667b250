/**
 The clients of the lease: the bounded acquire loops of scripts/prePushGate.js and
 scripts/agentLaunchGate.js and the credentials they release with. The answers of the gate,
 the clock and the capability sampler are parameters.
 */
module LeaseClients {
  import opened Prelude
  import opened Lease
  import LeaseMachine

  function Pow2(n: nat): (p: nat)
    ensures p >= 1
  {
    if n == 0 then 1 else 2 * Pow2(n - 1)
  }

  function BackoffMs(attempt: int, base: int, cap: int): int {
    Min(cap, base * Pow2(Max(0, attempt)))
  }

  datatype Outcome = Outcome(done: bool, mode: string)

  function Classify(granted: bool, attempt: nat, maxAttempts: int): Outcome {
    if granted then Outcome(true, "acquired")
    else if attempt + 1 >= maxAttempts then Outcome(true, "advisory-degraded")
    else Outcome(false, "retry")
  }

  const DEFAULT_MAX_ATTEMPTS := 6
  const DEFAULT_LAUNCH_MAX_ATTEMPTS := 5

  /** `raw` is None when the environment value is not an integer. */
  function ResolveMaxAttempts(raw: Option<int>, def: Option<int>): (n: int)
    ensures n >= 1
    ensures raw.Some? && raw.value >= 1 ==> n == raw.value
    ensures !(raw.Some? && raw.value >= 1) && def.Some? && def.value >= 1 ==> n == def.value
    ensures !(raw.Some? && raw.value >= 1) && !(def.Some? && def.value >= 1) ==> n == 6
  {
    var fallback := if def.Some? && def.value >= 1 then def.value else DEFAULT_MAX_ATTEMPTS;
    if raw.Some? && raw.value >= 1 then raw.value else fallback
  }

  datatype Record<S> = Record(event: string, attempt: nat, waitedMs: int, sample: S)

  /** How a client goes on: with the lease, without it, or not at all because an error went uncaught. */
  datatype Mode = Acquired(token: string) | Advisory | Skipped | Thrown

  predicate IsGrant(r: AcquireResult) {
    r.Granted?
  }

  /** The gate answered with a refusal, or threw. */
  predicate NotGranted(r: Option<AcquireResult>) {
    r.None? || !IsGrant(r.value)
  }

  /** The attempts `0..n` that were answered without a grant, as the ledger keeps them. */
  ghost predicate Contended<S>(ledger: seq<Record<S>>, n: nat, maxAttempts: int) {
    && |ledger| == n
    && forall i :: 0 <= i < n ==>
         ledger[i].attempt == i && ledger[i].event == if i + 1 >= maxAttempts then "advisory-degraded" else "retry"
  }

  /** One wait before every attempt but the first. */
  ghost predicate Waits(slept: seq<int>, n: nat, base: int, cap: int) {
    |slept| == n && forall i :: 0 <= i < n ==> slept[i] == BackoffMs(i, base, cap)
  }

  /** The gate answered, with a refusal. */
  predicate IsRefusal(r: Option<AcquireResult>) {
    r.Some? && !IsGrant(r.value)
  }

  /** One of the first `max` answers throws, and all before it are refusals. */
  ghost predicate ThrowsFirst(answers: nat -> Option<AcquireResult>, max: int) {
    exists i: nat :: i < max && answers(i).None? && forall j: nat :: j < i ==> IsRefusal(answers(j))
  }

  /**
   cliAcquire. The loop stops at the first grant; without one it degrades to advisory after
   exactly maxAttempts attempts, and it leaves one ledger record for every refused attempt.
   It does not catch what acquireLease throws: an error before the first grant ends it at once.
   */
  method CliAcquire<S>(enforce: bool, raw: Option<int>, answers: nat -> Option<AcquireResult>, clock: nat -> int, sample: nat -> S)
      returns (mode: Mode, ledger: seq<Record<S>>, slept: seq<int>)
    ensures var max := ResolveMaxAttempts(raw, Some(DEFAULT_MAX_ATTEMPTS)); var n := |ledger|;
      && Contended(ledger, n, max)
      && (forall i :: 0 <= i < n ==> IsRefusal(answers(i)) && ledger[i].sample == sample(i) && ledger[i].waitedMs == clock(i) - clock(0))
      && (mode.Skipped? <==> !enforce)
      && (mode.Skipped? ==> n == 0 && slept == [])
      && (mode.Acquired? ==> n < max && answers(n).Some? && answers(n).value.Granted? && mode.token == answers(n).value.token
                             && Waits(slept, n, 250, 4000))
      && (mode.Thrown? ==> n < max && answers(n).None? && Waits(slept, n, 250, 4000))
      && (mode.Advisory? ==> n == max && Waits(slept, n - 1, 250, 4000))
    ensures mode.Thrown? <==> enforce && ThrowsFirst(answers, ResolveMaxAttempts(raw, Some(DEFAULT_MAX_ATTEMPTS)))
    ensures mode.Advisory? ==> |ledger| == if raw.Some? && raw.value >= 1 then raw.value else 6
  {
    hide BackoffMs;
    ledger, slept := [], [];
    if !enforce {
      return Skipped, ledger, slept;
    }
    var maxAttempts := ResolveMaxAttempts(raw, Some(DEFAULT_MAX_ATTEMPTS));
    var start := clock(0);
    for attempt := 0 to maxAttempts
      invariant Contended(ledger, attempt, maxAttempts)
      invariant forall i :: 0 <= i < attempt ==>
        IsRefusal(answers(i)) && ledger[i].sample == sample(i) && ledger[i].waitedMs == clock(i) - clock(0)
      invariant attempt < maxAttempts && Waits(slept, attempt, 250, 4000)
    {
      var answer := answers(attempt);
      if answer.None? {
        return Thrown, ledger, slept;
      }
      var r := answer.value;
      var outcome := Classify(r.Granted?, attempt, maxAttempts);
      if r.Granted? {
        return Acquired(r.token), ledger, slept;
      }
      var event := if outcome.mode == "advisory-degraded" then "advisory-degraded" else "retry";
      ledger := ledger + [Record(event, attempt, clock(attempt) - start, sample(attempt))];
      if outcome.done {
        return Advisory, ledger, slept;
      }
      slept := slept + [BackoffMs(attempt, 250, 4000)];
    }
    return Advisory, ledger, slept;
  }

  /**
   runLaunchAcquire. As above, and an answer that throws counts as a refusal; the capability is
   sampled at most once, so all records of one acquire carry the same sample.
   */
  method RunLaunchAcquire<S>(serialize: bool, maxOption: Option<int>, answers: nat -> Option<AcquireResult>,
                             clock: nat -> int, sampler: () -> S)
      returns (mode: Mode, ledger: seq<Record<S>>, slept: seq<int>, samplings: nat)
    ensures var max := ResolveMaxAttempts(maxOption, Some(DEFAULT_LAUNCH_MAX_ATTEMPTS)); var n := |ledger|;
      && Contended(ledger, n, max)
      && (forall i :: 0 <= i < n ==> NotGranted(answers(i)) && ledger[i].sample == sampler() && ledger[i].waitedMs == clock(i) - clock(0))
      && samplings == (if n == 0 then 0 else 1)
      && !mode.Thrown?
      && (mode.Advisory? ==> n == if maxOption.Some? && maxOption.value >= 1 then maxOption.value else 5)
      && (mode.Skipped? <==> !serialize)
      && (mode.Skipped? ==> n == 0 && slept == [])
      && (mode.Acquired? ==> n < max && answers(n).Some? && answers(n).value.Granted? && mode.token == answers(n).value.token
                             && Waits(slept, n, 200, 3000))
      && (mode.Advisory? ==> n == max && Waits(slept, n - 1, 200, 3000))
  {
    hide BackoffMs;
    ledger, slept, samplings := [], [], 0;
    if !serialize {
      return Skipped, ledger, slept, samplings;
    }
    var maxAttempts := ResolveMaxAttempts(maxOption, Some(DEFAULT_LAUNCH_MAX_ATTEMPTS));
    var start := clock(0);
    var snapshot: Option<S> := None;
    for attempt := 0 to maxAttempts
      invariant Contended(ledger, attempt, maxAttempts)
      invariant forall i :: 0 <= i < attempt ==>
        NotGranted(answers(i)) && ledger[i].sample == sampler() && ledger[i].waitedMs == clock(i) - clock(0)
      invariant samplings == (if attempt == 0 then 0 else 1)
      invariant snapshot == if attempt == 0 then None else Some(sampler())
      invariant attempt < maxAttempts && Waits(slept, attempt, 200, 3000)
    {
      var r := answers(attempt);
      var granted := r.Some? && r.value.Granted?;
      var outcome := Classify(granted, attempt, maxAttempts);
      if granted {
        return Acquired(r.value.token), ledger, slept, samplings;
      }
      if snapshot.None? {
        snapshot, samplings := Some(sampler()), samplings + 1;
      }
      var event := if outcome.mode == "advisory-degraded" then "advisory-degraded" else "retry";
      ledger := ledger + [Record(event, attempt, clock(attempt) - start, snapshot.value)];
      if outcome.done {
        return Advisory, ledger, slept, samplings;
      }
      slept := slept + [BackoffMs(attempt, 200, 3000)];
    }
    return Advisory, ledger, slept, samplings;
  }

  function Total(slept: seq<int>): int {
    if slept == [] then 0 else Total(slept[..|slept| - 1]) + slept[|slept| - 1]
  }

  lemma BackoffInRange(attempt: int, base: int, cap: int)
    requires 0 < base <= cap
    ensures 0 < BackoffMs(attempt, base, cap) <= cap
  {
    var p := Pow2(Max(0, attempt));
    assert base * p >= base by { Scale(base, p); }
  }

  /** The first wait is the base, and every further one twice the one before, up to the cap. */
  lemma WaitsDouble(slept: seq<int>, n: nat, base: int, cap: int)
    requires Waits(slept, n, base, cap) && 0 < base <= cap
    ensures n > 0 ==> slept[0] == base
    ensures forall i :: 0 < i < n ==> slept[i] == Min(cap, 2 * slept[i - 1])
  {
    forall i | 0 < i < n ensures slept[i] == Min(cap, 2 * slept[i - 1]) {
      assert slept[i] == BackoffMs(i, base, cap) && slept[i - 1] == BackoffMs(i - 1, base, cap);
      TwiceAsLong(i - 1, base, cap);
      hide BackoffMs;
    }
    assert n > 0 ==> slept[0] == BackoffMs(0, base, cap);
  }

  lemma TwiceAsLong(attempt: nat, base: int, cap: int)
    requires 0 < base <= cap
    ensures BackoffMs(attempt + 1, base, cap) == Min(cap, 2 * BackoffMs(attempt, base, cap))
  {
    assert base * (2 * Pow2(attempt)) == 2 * (base * Pow2(attempt));
  }

  lemma Scale(base: int, p: nat)
    requires base > 0 && p >= 1
    ensures base * p >= base
  {
    assert base * p == base + base * (p - 1);
  }

  lemma OneMore(n: int, cap: int)
    ensures n * cap == (n - 1) * cap + cap
  {
  }

  /** A client never waits longer than its number of attempts allows. */
  lemma {:induction false} WaitBounded(slept: seq<int>, n: nat, base: int, cap: int)
    requires Waits(slept, n, base, cap) && 0 < base <= cap
    ensures 0 <= Total(slept) <= n * cap
  {
    if n > 0 {
      BackoffInRange(n - 1, base, cap);
      hide BackoffMs;
      WaitBounded(slept[..n - 1], n - 1, base, cap);
      OneMore(n, cap);
    }
  }

  /** cliRelease: the token of this invocation if it left one behind, the identity otherwise. */
  function HookCreds(selfToken: string, identity: string): Creds {
    if selfToken != "" then Creds(selfToken, "", false) else Creds("", identity, false)
  }

  /**
   What the hook's release does when nobody disturbs it: it frees the lock if and only if its
   token is the one in the lock or, without a token, its identity is the holder's. So it frees
   the lock of another process exactly when it has no token and shares that process's
   identity, or has that process's token.
   */
  lemma HookFreesExactlyWhen(id: LeaseMachine.Identity, s: LeaseMachine.State, p: LeaseMachine.Pid, q: LeaseMachine.Pid, selfToken: string)
    requires LeaseMachine.TokensOk(id, s) && s.lock.Held? && s.issued[s.lock.lease.token].pid == q
    requires LeaseMachine.PcOf(s, p).Idle? || LeaseMachine.PcOf(s, p).Holding?
    ensures var s' := LeaseMachine.Steps(LeaseMachine.Do(id, s, LeaseMachine.StartRelease(p, HookCreds(selfToken, id(p)))), p, 3);
      && (s'.lock == Free <==> if selfToken != "" then selfToken == s.lock.lease.token else id(p) == id(q) != "")
      && (s'.lock != Free ==> s'.lock == s.lock)
  {
    LeaseMachine.UndisturbedRelease(id, s, p, HookCreds(selfToken, id(p)));
    assert s.lock.lease.owner == id(q);
  }

  /** With a token issued to the hook itself, or none, it evicts another process exactly when it has none and the identity is shared. */
  lemma HookEvictsExactlyWhen(id: LeaseMachine.Identity, s: LeaseMachine.State, p: LeaseMachine.Pid, q: LeaseMachine.Pid, selfToken: string)
    requires LeaseMachine.TokensOk(id, s) && s.lock.Held? && s.issued[s.lock.lease.token].pid == q && q != p
    requires LeaseMachine.PcOf(s, p).Idle? || LeaseMachine.PcOf(s, p).Holding?
    requires selfToken in s.issued ==> s.issued[selfToken].pid == p
    ensures LeaseMachine.Steps(LeaseMachine.Do(id, s, LeaseMachine.StartRelease(p, HookCreds(selfToken, id(p)))), p, 3).lock == Free
      <==> selfToken == "" && id(p) == id(q) != ""
  {
    HookFreesExactlyWhen(id, s, p, q, selfToken);
  }
}
