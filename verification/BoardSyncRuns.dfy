/**
 Running the board sync of scripts/controlPlaneWrite.js against a board: one run whose applier
 or logger may fail at any step, and any series of such runs.
 */
module BoardSyncRuns {
  import opened Prelude
  import opened Ordering
  import opened BoardSync

  /** What goes wrong at a step; the applier may throw although its edit took effect. */
  datatype Fault = Fine | ApplyThrows(effect: bool) | LogThrows

  datatype LogEntry = LogEntry(update: Update, timestamp: int)

  datatype Outcome =
    | NotExecuted(reason: Reason, planned: nat)
    | DryRun(planned: nat)
    | Executed(planned: nat, applied: nat)
    | Threw

  /** The live applier refuses what does not resolve before it edits anything. */
  function FaultAt(u: Update, fault: Fault): Fault {
    if ResolveBoardFieldEdit(u).Err? then ApplyThrows(false) else fault
  }

  /** The step a run stops at: the first with a fault, or the end of the plan. */
  function StopAt(plan: seq<Update>, faults: nat -> Fault, i: nat): (stop: nat)
    requires i <= |plan|
    ensures i <= stop <= |plan|
    ensures forall j :: i <= j < stop ==> FaultAt(plan[j], faults(j)).Fine?
    ensures stop < |plan| ==> !FaultAt(plan[stop], faults(stop)).Fine?
    decreases |plan| - i
  {
    if i < |plan| && FaultAt(plan[i], faults(i)).Fine? then StopAt(plan, faults, i + 1) else i
  }

  predicate TakesEffect(fault: Fault) {
    fault.LogThrows? || (fault.ApplyThrows? && fault.effect)
  }

  function LoggedCount(plan: seq<Update>, faults: nat -> Fault): (n: nat)
    ensures n <= |plan|
  {
    StopAt(plan, faults, 0)
  }

  function AppliedCount(plan: seq<Update>, faults: nat -> Fault): (n: nat)
    ensures n <= |plan|
  {
    var stop := LoggedCount(plan, faults);
    if stop < |plan| && TakesEffect(FaultAt(plan[stop], faults(stop))) then stop + 1 else stop
  }

  function LogOf(us: seq<Update>, now: nat -> int): (log: seq<LogEntry>)
    ensures |log| == |us|
  {
    seq(|us|, i requires 0 <= i < |us| => LogEntry(us[i], now(i)))
  }

  lemma EmptyPrefix(plan: seq<Update>, now: nat -> int, board: seq<Item>)
    ensures plan[..0] == [] && ApplyAll(board, plan[..0]) == board && LogOf(plan[..0], now) == []
  {
  }

  lemma ApplyOneMore(board: seq<Item>, plan: seq<Update>, k: nat)
    requires k < |plan|
    ensures ApplyAll(board, plan[..k + 1]) == ApplyUpdate(ApplyAll(board, plan[..k]), plan[k])
  {
    assert plan[..k + 1][..k] == plan[..k];
  }

  lemma LogOneMore(plan: seq<Update>, k: nat, now: nat -> int)
    requires k < |plan|
    ensures LogOf(plan[..k + 1], now) == LogOf(plan[..k], now) + [LogEntry(plan[k], now(k))]
  {
  }

  lemma PushTaken<T>(s: seq<T>, t: seq<T>, k: nat)
    requires k < |t|
    ensures (s + t[..k]) + [t[k]] == s + t[..k + 1]
  {
  }

  /** The refusal of a run the gate does not authorize, with the gate's reason. */
  function RefusalOf(config: Option<Config>): Outcome
    requires !MaySync(config)
  {
    NotExecuted(AuthorizeWrite(config, BoardSyncTier, None, false).reason, 0)
  }

  /** The board, the edits that took effect on it, and the write log. */
  class ControlPlane {
    var board: seq<Item>
    var applied: seq<Update>
    var log: seq<LogEntry>

    method ApplyFieldUpdate(u: Update, fault: Fault) returns (threw: bool)
      modifies this`board, this`applied
      ensures threw <==> FaultAt(u, fault).ApplyThrows?
      ensures var done := FaultAt(u, fault).Fine? || TakesEffect(FaultAt(u, fault));
              && board == (if done then ApplyUpdate(old(board), u) else old(board))
              && applied == (if done then old(applied) + [u] else old(applied))
    {
      var edit := ResolveBoardFieldEdit(u);
      if edit.Err? {
        return true;
      }
      if !fault.ApplyThrows? || fault.effect {
        EditIsTheUpdate(board, u);
        board := EditBoard(board, edit.value);
        applied := applied + [u];
      }
      threw := fault.ApplyThrows?;
    }

    method AppendLog(entry: LogEntry, fault: Fault) returns (threw: bool)
      modifies this`log
      ensures threw <==> fault.LogThrows?
      ensures log == if threw then old(log) else old(log) + [entry]
    {
      threw := fault.LogThrows?;
      if !threw {
        log := log + [entry];
      }
    }

    /** The loop of a run: each update is applied, then logged, until something throws. */
    method ApplyPlanned(updates: seq<Update>, faults: nat -> Fault, now: nat -> int) returns (count: nat, threw: bool)
      modifies this
      ensures count == LoggedCount(updates, faults) && threw == (count < |updates|)
      ensures board == ApplyAll(old(board), updates[..AppliedCount(updates, faults)])
      ensures applied == old(applied) + updates[..AppliedCount(updates, faults)]
      ensures log == old(log) + LogOf(updates[..count], now)
    {
      hide ResolveBoardFieldEdit, ApplyAll, ApplyUpdate, Plan, LogOf;
      EmptyPrefix(updates, now, board);
      count := 0;
      while count < |updates|
        invariant count <= |updates|
        invariant StopAt(updates, faults, 0) == StopAt(updates, faults, count)
        invariant board == ApplyAll(old(board), updates[..count])
        invariant applied == old(applied) + updates[..count]
        invariant log == old(log) + LogOf(updates[..count], now)
      {
        var update := updates[count];
        ApplyOneMore(old(board), updates, count);
        PushTaken(old(applied), updates, count);
        threw := ApplyFieldUpdate(update, faults(count));
        if threw {
          return;
        }
        LogOneMore(updates, count, now);
        Assoc(old(log), LogOf(updates[..count], now), [LogEntry(update, now(count))]);
        threw := AppendLog(LogEntry(update, now(count)), faults(count));
        if threw {
          return;
        }
        count := count + 1;
      }
      threw := false;
    }

    method RunBoardSync(items: seq<Item>, config: Option<Config>, hasExecutor: bool, faults: nat -> Fault, now: nat -> int)
      returns (out: Outcome)
      modifies this
      ensures !MaySync(config) ==> out == RefusalOf(config)
      ensures MaySync(config) && !hasExecutor ==> out == NotExecuted(NoExecutor, |Plan(items)|)
      ensures !(MaySync(config) && hasExecutor) ==> board == old(board) && applied == old(applied) && log == old(log)
      ensures MaySync(config) && hasExecutor ==>
                var plan := Plan(items);
                var a, l := AppliedCount(plan, faults), LoggedCount(plan, faults);
                && board == ApplyAll(old(board), plan[..a])
                && applied == old(applied) + plan[..a]
                && log == old(log) + LogOf(plan[..l], now)
                && out == if l == |plan| then Executed(|plan|, |plan|) else Threw
    {
      var auth := AuthorizeWrite(config, BoardSyncTier, None, false);
      if auth.Refused? {
        return NotExecuted(auth.reason, 0);
      }
      var updates := PlanBoardSync(items);
      if !hasExecutor {
        return NotExecuted(NoExecutor, |updates|);
      }
      var count, threw := ApplyPlanned(updates, faults, now);
      out := if threw then Threw else Executed(|updates|, count);
    }

    /** The command: it plans from the board as it is, and edits only with `--apply`. */
    method RunBoardSyncCli(call: Call) returns (out: Outcome)
      modifies this
      ensures World(board, applied, log) == Invoke(old(World(board, applied, log)), call)
      ensures !MaySync(call.config) ==> out == RefusalOf(call.config)
      ensures MaySync(call.config) && !call.apply ==> out == DryRun(|Plan(old(board))|)
      ensures Writes(call) ==>
                var plan := Plan(old(board));
                out == if LoggedCount(plan, call.faults) == |plan| then Executed(|plan|, |plan|) else Threw
    {
      var auth := AuthorizeWrite(call.config, BoardSyncTier, None, false);
      if auth.Refused? {
        return NotExecuted(auth.reason, 0);
      }
      var items := board;
      var updates := PlanBoardSync(items);
      if !call.apply {
        return DryRun(|updates|);
      }
      out := RunBoardSync(items, call.config, true, call.faults, call.now);
    }
  }

  // ---- series of invocations ----

  datatype Call = Call(config: Option<Config>, apply: bool, faults: nat -> Fault, now: nat -> int)

  datatype World = World(board: seq<Item>, applied: seq<Update>, log: seq<LogEntry>)

  predicate Writes(call: Call) {
    MaySync(call.config) && call.apply
  }

  function Invoke(w: World, call: Call): World {
    if !Writes(call) then w
    else
      var plan := Plan(w.board);
      var a, l := AppliedCount(plan, call.faults), LoggedCount(plan, call.faults);
      World(ApplyAll(w.board, plan[..a]), w.applied + plan[..a], w.log + LogOf(plan[..l], call.now))
  }

  function Run(w: World, calls: seq<Call>): World {
    if calls == [] then w else Invoke(Run(w, calls[..|calls| - 1]), calls[|calls| - 1])
  }

  function Start(board: seq<Item>): World {
    World(board, [], [])
  }

  lemma TakePrefixOfRest<T>(s: seq<T>, n: nat, a: nat)
    requires n <= |s| && a <= |s[n..]|
    ensures s[..n] + s[n..][..a] == s[..n + a] && s[n..][a..] == s[n + a..]
  {
  }

  /** What was applied is a prefix of the board's plan, and the rest of that plan is what is left to plan. */
  ghost predicate OnCourse(board: seq<Item>, w: World) {
    var plan := Plan(board);
    && |w.applied| <= |plan| && w.applied == plan[..|w.applied|]
    && w.board == ApplyAll(board, w.applied)
    && Plan(w.board) == plan[|w.applied|..]
  }

  lemma Advance(board: seq<Item>, w: World, a: nat)
    requires OneEach(Plan(board)) && OnCourse(board, w) && a <= |Plan(w.board)|
    ensures var more := Plan(w.board)[..a];
            var n := |w.applied + more|;
            && n <= |Plan(board)| && w.applied + more == Plan(board)[..n]
            && ApplyAll(w.board, more) == ApplyAll(board, w.applied + more)
            && Plan(ApplyAll(w.board, more)) == Plan(board)[n..]
  {
    var plan := Plan(board);
    ReplanExactlyWhen(board);
    hide Plan, ApplyAll, OneEach;
    TakePrefixOfRest(plan, |w.applied|, a);
    ApplyAllAppend(board, w.applied, plan[|w.applied|..][..a]);
  }

  lemma InvokeStaysOnCourse(board: seq<Item>, w: World, call: Call)
    requires OneEach(Plan(board)) && OnCourse(board, w)
    ensures OnCourse(board, Invoke(w, call))
  {
    hide Plan, ApplyAll, OneEach, AppliedCount, LoggedCount, Writes, LogOf;
    if Writes(call) {
      Advance(board, w, AppliedCount(Plan(w.board), call.faults));
    }
  }

  /**
   However often runs are interrupted, what they apply concatenates to a prefix of the first
   plan, and what is left to plan is the rest of it.
   */
  lemma {:induction false} InterruptedRunsConverge(board: seq<Item>, calls: seq<Call>)
    requires OneEach(Plan(board))
    ensures OnCourse(board, Run(Start(board), calls))
  {
    if calls == [] {
      assert Plan(board)[..0] == [] && ApplyAll(board, []) == board;
    } else {
      InterruptedRunsConverge(board, calls[..|calls| - 1]);
      InvokeStaysOnCourse(board, Run(Start(board), calls[..|calls| - 1]), calls[|calls| - 1]);
    }
  }

  /** A run that meets no fault leaves nothing to plan and every merged item Done and Proven, whatever the board. */
  lemma CompletedRunLeavesNothing(w: World, call: Call)
    requires Writes(call)
    requires forall u :: u in Plan(w.board) ==> u.itemId != ""
    requires forall i :: call.faults(i).Fine?
    ensures Plan(Invoke(w, call).board) == []
    ensures forall i :: 0 <= i < |Invoke(w, call).board| ==> Mirrors(Invoke(w, call).board[i])
  {
    var plan := Plan(w.board);
    var stop := LoggedCount(plan, call.faults);
    PlanMirrors(w.board);
    if stop < |plan| {
      PlannedResolves(w.board, plan[stop]);
    }
    TakeAll(plan);
    ReplanAll(w.board, plan);
    forall i | 0 <= i < |plan| ensures !Untouched(plan[i], plan) {
      assert !Differs(plan[i], plan[i]);
    }
    FilterNone(plan, v => Untouched(v, plan));
    PlanEmptyExactlyWhen(Invoke(w, call).board);
  }

  // ---- the audit trail ----

  /** The invocations that stopped after an edit took effect and before it was logged. */
  function Unlogged(w: World, calls: seq<Call>): nat {
    if calls == [] then 0
    else
      var before, call := Run(w, calls[..|calls| - 1]), calls[|calls| - 1];
      var plan := Plan(before.board);
      Unlogged(w, calls[..|calls| - 1])
      + if Writes(call) then AppliedCount(plan, call.faults) - LoggedCount(plan, call.faults) else 0
  }

  ghost predicate Subsequence<T(!new)>(s: seq<T>, t: seq<T>) {
    if s == [] then true
    else if t == [] then false
    else
      || (s[|s| - 1] == t[|t| - 1] && Subsequence(s[..|s| - 1], t[..|t| - 1]))
      || Subsequence(s, t[..|t| - 1])
  }

  function Entries(log: seq<LogEntry>): (us: seq<Update>)
    ensures |us| == |log|
  {
    Map(log, (e: LogEntry) => e.update)
  }

  lemma {:induction false} SubsequenceAppend<T(!new)>(s: seq<T>, t: seq<T>, more: seq<T>, k: nat)
    requires Subsequence(s, t) && k <= |more|
    ensures Subsequence(s + more[..k], t + more)
    decreases |more|
  {
    if more == [] {
      assert s + more[..k] == s && t + more == t;
    } else {
      var init := more[..|more| - 1];
      assert (t + more)[..|t + more| - 1] == t + init;
      if k < |more| {
        SubsequenceAppend(s, t, init, k);
        assert init[..k] == more[..k];
      } else {
        SubsequenceAppend(s, t, init, |init|);
        assert init[..|init|] == init && more[..k] == more;
        assert (s + more)[..|s + more| - 1] == s + init;
      }
    }
  }

  lemma EntriesOfLog(log: seq<LogEntry>, us: seq<Update>, now: nat -> int)
    ensures Entries(log + LogOf(us, now)) == Entries(log) + us
  {
  }

  /** The log holds the writes in order, all but `missing` of them, and every write resolved. */
  ghost predicate Audited(w: World, missing: nat) {
    && Subsequence(Entries(w.log), w.applied) && |w.applied| == |w.log| + missing
    && forall u :: u in w.applied ==> ResolveBoardFieldEdit(u).Ok?
  }

  lemma InvokeAudited(w: World, call: Call, missing: nat)
    requires Audited(w, missing) && Writes(call)
    ensures var plan := Plan(w.board);
            var gap := AppliedCount(plan, call.faults) - LoggedCount(plan, call.faults);
            0 <= gap <= 1 && Audited(Invoke(w, call), missing + gap)
  {
    var plan := Plan(w.board);
    var a, l := AppliedCount(plan, call.faults), LoggedCount(plan, call.faults);
    AppliedResolves(plan, call.faults);
    hide Plan, AppliedCount, LoggedCount, Subsequence, ResolveBoardFieldEdit, Writes, ApplyAll;
    SubsequenceAppend(Entries(w.log), w.applied, plan[..a], l);
    assert plan[..a][..l] == plan[..l];
    EntriesOfLog(w.log, plan[..l], call.now);
  }

  lemma {:induction false} OnlyWritingCallsWrite(w: World, calls: seq<Call>)
    requires forall i :: 0 <= i < |calls| ==> !Writes(calls[i])
    ensures Run(w, calls) == w
  {
    if calls != [] {
      OnlyWritingCallsWrite(w, calls[..|calls| - 1]);
    }
  }

  lemma StartAudited(board: seq<Item>)
    ensures Audited(Start(board), 0)
  {
    assert Entries([]) == [];
  }

  lemma CallAudited(w: World, calls: seq<Call>)
    requires calls != [] && Audited(Run(w, calls[..|calls| - 1]), Unlogged(w, calls[..|calls| - 1]))
    ensures Audited(Run(w, calls), Unlogged(w, calls))
    ensures Unlogged(w, calls) <= Unlogged(w, calls[..|calls| - 1]) + 1
  {
    hide Plan, AppliedCount, LoggedCount, Writes, Audited, Invoke;
    var before, call := Run(w, calls[..|calls| - 1]), calls[|calls| - 1];
    if Writes(call) {
      InvokeAudited(before, call, Unlogged(w, calls[..|calls| - 1]));
    } else {
      RefusedCall(before, call);
    }
  }

  lemma RefusedCall(w: World, call: Call)
    requires !Writes(call)
    ensures Invoke(w, call) == w
  {
  }

  lemma {:induction false} RunAudited(board: seq<Item>, calls: seq<Call>)
    ensures Audited(Run(Start(board), calls), Unlogged(Start(board), calls))
    ensures Unlogged(Start(board), calls) <= |calls|
  {
    if calls == [] {
      StartAudited(board);
    } else {
      RunAudited(board, calls[..|calls| - 1]);
      hide Audited, Run, Unlogged;
      CallAudited(Start(board), calls);
    }
  }

  /**
   Nothing is written but by an authorized call with `--apply`; every write resolved; and the log
   holds every write in order, less one for each run that stopped between an edit and its entry.
   */
  lemma LogMirrorsWrites(board: seq<Item>, calls: seq<Call>)
    ensures Audited(Run(Start(board), calls), Unlogged(Start(board), calls))
    ensures Unlogged(Start(board), calls) <= |calls|
    ensures (forall i :: 0 <= i < |calls| ==> !Writes(calls[i])) ==> Run(Start(board), calls) == Start(board)
  {
    RunAudited(board, calls);
    if forall i :: 0 <= i < |calls| ==> !Writes(calls[i]) {
      OnlyWritingCallsWrite(Start(board), calls);
    }
  }

  lemma AppliedResolves(plan: seq<Update>, faults: nat -> Fault)
    ensures LoggedCount(plan, faults) <= AppliedCount(plan, faults) <= LoggedCount(plan, faults) + 1
    ensures forall u :: u in plan[..AppliedCount(plan, faults)] ==> ResolveBoardFieldEdit(u).Ok?
  {
    hide ResolveBoardFieldEdit;
  }

  // ---- an update that never resolves ----

  /** The updates of `plan` that none of `us` has taken care of. */
  function Open(plan: seq<Update>, us: seq<Update>): seq<Update> {
    Filter(plan, v => Untouched(v, us))
  }

  /** What was applied took an update each from the first `k` planned ones, and left the empty id alone. */
  ghost predicate Stuck(board: seq<Item>, k: nat, w: World)
    requires k <= |Plan(board)|
  {
    && w.board == ApplyAll(board, w.applied)
    && (forall u :: u in w.applied ==> IsMirror(u) && u.itemId != "" && u in Plan(board)[..k])
    && |w.applied| + |Open(Plan(board)[..k], w.applied)| <= k
  }

  /** An open update stands right behind the open ones planned before it. */
  lemma OpenAt(plan: seq<Update>, us: seq<Update>, k: nat)
    requires k < |plan| && Untouched(plan[k], us)
    ensures var q := Open(plan[..k], us);
            |q| < |Open(plan, us)| && Open(plan, us)[..|q|] == q && Open(plan, us)[|q|] == plan[k]
  {
    var p := (v: Update) => Untouched(v, us);
    assert plan == plan[..k] + ([plan[k]] + plan[k + 1..]);
    FilterAppend(plan[..k], [plan[k]] + plan[k + 1..], p);
    FilterAppend([plan[k]], plan[k + 1..], p);
    FilterPair(plan[k], plan[k], p);
    hide Filter, Untouched;
  }

  lemma EmptyIdIsOpen(v: Update, us: seq<Update>)
    requires v.itemId == "" && forall u :: u in us ==> u.itemId != ""
    ensures Untouched(v, us)
  {
  }

  /** The next plan holds the open updates of the first `k`, and right behind them one that never resolves. */
  lemma NextPlan(board: seq<Item>, k: nat, w: World)
    requires k < |Plan(board)| && Plan(board)[k].itemId == "" && Stuck(board, k, w)
    ensures var q := Open(Plan(board)[..k], w.applied);
            |q| < |Plan(w.board)| && Plan(w.board)[..|q|] == q && Plan(w.board)[|q|].itemId == ""
  {
    ReplanAll(board, w.applied);
    EmptyIdIsOpen(Plan(board)[k], w.applied);
    OpenAt(Plan(board), w.applied, k);
    hide Filter, Plan, ApplyAll, Untouched;
  }

  /** A run gets no further than an update that does not resolve. */
  lemma StopsAtEmptyId(plan: seq<Update>, faults: nat -> Fault, n: nat)
    requires n < |plan| && plan[n].itemId == ""
    ensures AppliedCount(plan, faults) <= n
  {
  }

  lemma UntouchedAppend(v: Update, us: seq<Update>, more: seq<Update>)
    ensures Untouched(v, us + more) <==> Untouched(v, us) && Untouched(v, more)
  {
    if Untouched(v, us + more) {
      assert forall i :: 0 <= i < |us| ==> (us + more)[i] == us[i];
      assert forall i :: 0 <= i < |more| ==> (us + more)[|us| + i] == more[i];
    }
  }

  lemma TakenFromOpen(plan: seq<Update>, us: seq<Update>, a: nat)
    requires a <= |Open(plan, us)|
    ensures var q := Open(plan, us); |Open(plan, us + q[..a])| <= |q| - a
  {
    var q := Open(plan, us);
    var more := q[..a];
    forall v ensures Untouched(v, us + more) <==> Untouched(v, us) && Untouched(v, more) {
      UntouchedAppend(v, us, more);
    }
    FilterFilter(plan, v => Untouched(v, us), v => Untouched(v, more), v => Untouched(v, us + more));
    assert q == more + q[a..];
    FilterAppend(more, q[a..], v => Untouched(v, more));
    assert more[..a] == more;
    TouchedPrefix(more, a);
  }

  lemma OpenMember(plan: seq<Update>, us: seq<Update>)
    ensures forall u :: u in Open(plan, us) ==> u in plan
  {
    forall u | u in Open(plan, us) ensures u in plan {
      FilterMember(plan, v => Untouched(v, us), u);
    }
  }

  lemma StuckStep(board: seq<Item>, k: nat, w: World, a: nat, log: seq<LogEntry>)
    requires k <= |Plan(board)| && Stuck(board, k, w)
    requires a <= |Open(Plan(board)[..k], w.applied)|
    requires forall u :: u in Open(Plan(board)[..k], w.applied)[..a] ==> IsMirror(u) && u.itemId != ""
    ensures var more := Open(Plan(board)[..k], w.applied)[..a];
            Stuck(board, k, World(ApplyAll(w.board, more), w.applied + more, log))
  {
    OpenMember(Plan(board)[..k], w.applied);
    hide Plan, ApplyAll, Open, IsMirror;
    TakenFromOpen(Plan(board)[..k], w.applied, a);
    ApplyAllAppend(board, w.applied, Open(Plan(board)[..k], w.applied)[..a]);
  }

  /** Nothing applied in one run has an empty id, and all of it is of the planned kind. */
  lemma AppliedIsSound(items: seq<Item>, faults: nat -> Fault)
    ensures forall u :: u in Plan(items)[..AppliedCount(Plan(items), faults)] ==> IsMirror(u) && u.itemId != ""
  {
    AppliedResolves(Plan(items), faults);
    PlanMirrors(items);
    hide Plan, AppliedCount, IsMirror;
  }

  lemma InvokeStaysStuck(board: seq<Item>, k: nat, w: World, call: Call)
    requires k < |Plan(board)| && Plan(board)[k].itemId == "" && Stuck(board, k, w)
    ensures Stuck(board, k, Invoke(w, call))
  {
    var plan, q := Plan(w.board), Open(Plan(board)[..k], w.applied);
    NextPlan(board, k, w);
    StopsAtEmptyId(plan, call.faults, |q|);
    AppliedIsSound(w.board, call.faults);
    hide Plan, ApplyAll, Open, AppliedCount, LoggedCount, IsMirror, Writes, Stuck, LogOf;
    if Writes(call) {
      var a := AppliedCount(plan, call.faults);
      assert plan[..a] == plan[..|q|][..a] == q[..a];
      StuckStep(board, k, w, a, Invoke(w, call).log);
    }
  }

  lemma {:induction false} RunStaysStuck(board: seq<Item>, k: nat, calls: seq<Call>)
    requires k < |Plan(board)| && Plan(board)[k].itemId == ""
    ensures Stuck(board, k, Run(Start(board), calls))
  {
    if calls == [] {
    } else {
      RunStaysStuck(board, k, calls[..|calls| - 1]);
      InvokeStaysStuck(board, k, Run(Start(board), calls[..|calls| - 1]), calls[|calls| - 1]);
    }
  }

  /** On any board no series of runs applies an update with an empty id, nor more than the updates planned before it. */
  lemma EmptyIdBlocks(board: seq<Item>, calls: seq<Call>, k: nat)
    requires k < |Plan(board)| && Plan(board)[k].itemId == ""
    ensures |Run(Start(board), calls).applied| <= k
    ensures forall u :: u in Run(Start(board), calls).applied ==> u.itemId != "" && u in Plan(board)[..k]
  {
    RunStaysStuck(board, k, calls);
  }
}
