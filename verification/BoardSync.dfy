/**
 The governed board sync of scripts/controlPlaneWrite.js: authorization, the plan, the
 apply-and-log loop that may fail at any step, and re-running it after a failure.
 */
module BoardSync {
  import opened Prelude
  import opened Ordering

  // ---- authorization ----

  datatype WriteTier = BoardSyncTier | Annotate | MergeQueue | CreateWork

  datatype Config = Config(enabled: bool, approvers: seq<string>, tiers: set<WriteTier>)

  datatype Reason = WritePathDisabled | TierDisabled | ApproverNotAuthorized | ApproverNotVerified | NoExecutor

  datatype Authorization = Authorized | Refused(reason: Reason)

  /** `tiers` holds the tiers whose switch is exactly true. */
  function AuthorizeWrite(config: Option<Config>, tier: WriteTier, approver: Option<string>, verified: bool)
    : (a: Authorization)
    ensures a.Authorized? <==>
              && config.Some? && config.value.enabled && tier in config.value.tiers
              && (tier.BoardSyncTier? || (verified && approver.Some? && approver.value in config.value.approvers))
    ensures a == Refused(WritePathDisabled) <==> !(config.Some? && config.value.enabled)
    ensures a == Refused(TierDisabled) <==> config.Some? && config.value.enabled && tier !in config.value.tiers
    ensures a == Refused(ApproverNotVerified) ==> approver.Some? && approver.value in config.value.approvers && !verified
    ensures a == Refused(ApproverNotAuthorized) ==> approver.None? || approver.value !in config.value.approvers
    ensures a != Refused(NoExecutor)
  {
    if config.None? || !config.value.enabled then Refused(WritePathDisabled)
    else if tier !in config.value.tiers then Refused(TierDisabled)
    else if tier.BoardSyncTier? then Authorized
    else if approver.None? || approver.value !in config.value.approvers then Refused(ApproverNotAuthorized)
    else if !verified then Refused(ApproverNotVerified)
    else Authorized
  }

  predicate MaySync(config: Option<Config>): (may: bool)
    ensures may <==> config.Some? && config.value.enabled && BoardSyncTier in config.value.tiers
  {
    AuthorizeWrite(config, BoardSyncTier, None, false).Authorized?
  }

  // ---- the plan ----

  datatype Item = Item(itemId: Option<string>, number: int, status: string, evidence: string, linkedPrMerged: bool)

  datatype Update = Update(itemId: string, number: int, field: string, value: string)

  const STATUS := "Status"
  const DONE := "Done"
  const EVIDENCE := "Evidence State"
  const PROVEN := "Proven"

  /** What is missing for the item's status, and for its evidence, to mirror a merged pull request. */
  function StatusUpdates(item: Item, id: string): seq<Update> {
    if item.status != DONE then [Update(id, item.number, STATUS, DONE)] else []
  }

  function EvidenceUpdates(item: Item, id: string): seq<Update> {
    if item.evidence != PROVEN then [Update(id, item.number, EVIDENCE, PROVEN)] else []
  }

  function PlanItem(item: Item): seq<Update> {
    if item.itemId.None? || !item.linkedPrMerged then []
    else StatusUpdates(item, item.itemId.value) + EvidenceUpdates(item, item.itemId.value)
  }

  function Plan(items: seq<Item>): seq<Update> {
    if items == [] then [] else Plan(items[..|items| - 1]) + PlanItem(items[|items| - 1])
  }

  lemma PlanNext(items: seq<Item>, k: nat)
    requires k < |items|
    ensures Plan(items[..k + 1]) == Plan(items[..k]) + PlanItem(items[k])
  {
    assert items[..k + 1][..k] == items[..k];
  }

  method PlanBoardSync(items: seq<Item>) returns (updates: seq<Update>)
    ensures updates == Plan(items)
  {
    updates := [];
    for i := 0 to |items|
      invariant updates == Plan(items[..i])
    {
      var item := items[i];
      PlanNext(items, i);
      ghost var before := updates;
      if item.itemId.None? {
        continue;
      }
      if item.linkedPrMerged {
        if item.status != DONE {
          updates := updates + [Update(item.itemId.value, item.number, STATUS, DONE)];
        }
        if item.evidence != PROVEN {
          updates := updates + [Update(item.itemId.value, item.number, EVIDENCE, PROVEN)];
        }
      }
      assert updates == before + PlanItem(item);
    }
    TakeAll(items);
  }

  // ---- resolving an update ----

  const PROJECT_ID := "PVT_kwDODQiayc4Bd5Rq"
  const STATUS_FIELD_ID := "PVTSSF_lADODQiayc4Bd5RqzhYXb_U"
  const DONE_OPTION_ID := "98236657"
  const EVIDENCE_FIELD_ID := "PVTSSF_lADODQiayc4Bd5RqzhYXcAU"
  const PROVEN_OPTION_ID := "0c635d9f"

  /** The arguments of the edit command, field by field. */
  datatype Edit = Edit(itemId: string, projectId: string, fieldId: string, optionId: string)

  function ResolveBoardFieldEdit(u: Update): Result<Edit> {
    if u.itemId == "" then Err("item id")
    else if u.field == STATUS then
      if u.value == DONE then Ok(Edit(u.itemId, PROJECT_ID, STATUS_FIELD_ID, DONE_OPTION_ID)) else Err("value")
    else if u.field == EVIDENCE then
      if u.value == PROVEN then Ok(Edit(u.itemId, PROJECT_ID, EVIDENCE_FIELD_ID, PROVEN_OPTION_ID)) else Err("value")
    else Err("field")
  }

  /** What the planner proposes, and nothing else: a known field set to its mirrored value. */
  predicate IsMirror(u: Update) {
    (u.field == STATUS && u.value == DONE) || (u.field == EVIDENCE && u.value == PROVEN)
  }

  lemma {:induction false} PlanMirrors(items: seq<Item>)
    ensures forall u :: u in Plan(items) ==> IsMirror(u)
  {
    if items != [] {
      PlanMirrors(items[..|items| - 1]);
    }
  }

  /** A planned update resolves if and only if its item id is not the empty string. */
  lemma PlannedResolves(items: seq<Item>, u: Update)
    requires u in Plan(items)
    ensures ResolveBoardFieldEdit(u).Ok? <==> u.itemId != ""
    ensures ResolveBoardFieldEdit(u).Ok? ==> ResolveBoardFieldEdit(u).value.itemId == u.itemId
  {
    PlanMirrors(items);
  }

  /** The planner accepts an item with an empty id, which the resolver refuses. */
  lemma EmptyIdIsPlannedButNotResolved()
    ensures exists items, u :: u in Plan(items) && ResolveBoardFieldEdit(u).Err?
  {
    var item := Item(Some(""), 1, DONE, "", true);
    assert [item][..0] == [] && Plan([]) == [];
    assert Plan([item]) == [] + PlanItem(item);
    var u := Update("", 1, EVIDENCE, PROVEN);
    assert PlanItem(item)[0] == u;
    assert u in Plan([item]) && ResolveBoardFieldEdit(u).Err?;
  }

  // ---- what an update does to the board, and to the plan ----

  function Set(item: Item, u: Update): Item {
    if item.itemId != Some(u.itemId) then item
    else if u.field == STATUS then item.(status := u.value)
    else if u.field == EVIDENCE then item.(evidence := u.value)
    else item
  }

  function ApplyUpdate(board: seq<Item>, u: Update): seq<Item> {
    Map(board, item => Set(item, u))
  }

  /** What the board makes of an edit: it knows its project, its fields and their options by their ids only. */
  function EditItem(item: Item, e: Edit): Item {
    if e.projectId != "PVT_kwDODQiayc4Bd5Rq" || item.itemId != Some(e.itemId) then item
    else if e.fieldId == "PVTSSF_lADODQiayc4Bd5RqzhYXb_U" && e.optionId == "98236657" then item.(status := "Done")
    else if e.fieldId == "PVTSSF_lADODQiayc4Bd5RqzhYXcAU" && e.optionId == "0c635d9f" then item.(evidence := "Proven")
    else item
  }

  function EditBoard(board: seq<Item>, e: Edit): seq<Item> {
    Map(board, item => EditItem(item, e))
  }

  lemma FieldIdsDiffer()
    ensures "PVTSSF_lADODQiayc4Bd5RqzhYXb_U" != "PVTSSF_lADODQiayc4Bd5RqzhYXcAU"
  {
    assert "PVTSSF_lADODQiayc4Bd5RqzhYXb_U"[27] == 'b' && "PVTSSF_lADODQiayc4Bd5RqzhYXcAU"[27] == 'c';
  }

  /** The edit a planned update resolves to sets the field it names to the value it names, on the item it names, and nothing else. */
  lemma EditDoesWhatTheUpdateSays(u: Update, item: Item)
    requires ResolveBoardFieldEdit(u).Ok?
    ensures u.field == "Status" || u.field == "Evidence State"
    ensures EditItem(item, ResolveBoardFieldEdit(u).value)
         == if item.itemId != Some(u.itemId) then item
            else if u.field == "Status" then item.(status := u.value)
            else item.(evidence := u.value)
    ensures EditItem(item, ResolveBoardFieldEdit(u).value) == Set(item, u)
  {
    FieldIdsDiffer();
  }

  lemma EditIsTheUpdate(board: seq<Item>, u: Update)
    requires ResolveBoardFieldEdit(u).Ok?
    ensures EditBoard(board, ResolveBoardFieldEdit(u).value) == ApplyUpdate(board, u)
  {
    forall i | 0 <= i < |board| ensures EditItem(board[i], ResolveBoardFieldEdit(u).value) == Set(board[i], u) {
      EditDoesWhatTheUpdateSays(u, board[i]);
    }
    hide EditItem, Set, ResolveBoardFieldEdit;
  }

  function ApplyAll(board: seq<Item>, us: seq<Update>): seq<Item> {
    if us == [] then board else ApplyUpdate(ApplyAll(board, us[..|us| - 1]), us[|us| - 1])
  }

  /** Updates of different items or of different fields. */
  predicate Differs(u: Update, v: Update) {
    u.itemId != v.itemId || u.field != v.field
  }

  /** None of `us` is of the item and field of `v`. */
  predicate Untouched(v: Update, us: seq<Update>) {
    forall i :: 0 <= i < |us| ==> Differs(v, us[i])
  }

  lemma FieldsDiffer()
    ensures STATUS != EVIDENCE
  {
    assert |STATUS| == 6 && |EVIDENCE| == 14;
  }

  lemma ReplanStatus(item: Item, id: string, u: Update)
    requires IsMirror(u) && item.itemId == Some(id)
    ensures StatusUpdates(Set(item, u), id) == Filter(StatusUpdates(item, id), v => Differs(v, u))
  {
    FieldsDiffer();
    var v := Update(id, item.number, STATUS, DONE);
    FilterPair(v, v, w => Differs(w, u));
    hide Filter;
  }

  lemma ReplanEvidence(item: Item, id: string, u: Update)
    requires IsMirror(u) && item.itemId == Some(id)
    ensures EvidenceUpdates(Set(item, u), id) == Filter(EvidenceUpdates(item, id), v => Differs(v, u))
  {
    FieldsDiffer();
    var v := Update(id, item.number, EVIDENCE, PROVEN);
    FilterPair(v, v, w => Differs(w, u));
    hide Filter;
  }

  lemma SetKeeps(item: Item, u: Update)
    ensures Set(item, u).itemId == item.itemId && Set(item, u).linkedPrMerged == item.linkedPrMerged
  {
  }

  lemma ReplanItem(item: Item, u: Update)
    requires IsMirror(u)
    ensures PlanItem(Set(item, u)) == Filter(PlanItem(item), v => Differs(v, u))
  {
    SetKeeps(item, u);
    FilterPair(u, u, v => Differs(v, u));
    hide Filter, Set, StatusUpdates, EvidenceUpdates, IsMirror;
    if item.itemId.Some? {
      var id := item.itemId.value;
      ReplanStatus(item, id, u);
      ReplanEvidence(item, id, u);
      FilterAppend(StatusUpdates(item, id), EvidenceUpdates(item, id), v => Differs(v, u));
    }
  }

  /** After an update the plan is what it was, less every update of that item and field. */
  lemma {:induction false} ReplanFilters(board: seq<Item>, u: Update)
    requires IsMirror(u)
    ensures Plan(ApplyUpdate(board, u)) == Filter(Plan(board), v => Differs(v, u))
  {
    if board != [] {
      var init, last := board[..|board| - 1], board[|board| - 1];
      ReplanFilters(init, u);
      ReplanItem(last, u);
      FilterAppend(Plan(init), PlanItem(last), v => Differs(v, u));
      assert ApplyUpdate(board, u)[..|init|] == ApplyUpdate(init, u);
      assert ApplyUpdate(board, u)[|init|] == Set(last, u);
      hide PlanItem, Set, Differs, Filter;
    }
  }

  /** After any updates the plan is what it was, less every update of an item and field among them. */
  lemma {:induction false} ReplanAll(board: seq<Item>, us: seq<Update>)
    requires forall u :: u in us ==> IsMirror(u)
    ensures Plan(ApplyAll(board, us)) == Filter(Plan(board), v => Untouched(v, us))
  {
    if us == [] {
      FilterAll(Plan(board), v => Untouched(v, us));
    } else {
      var init, last := us[..|us| - 1], us[|us| - 1];
      ReplanAll(board, init);
      ReplanFilters(ApplyAll(board, init), last);
      FilterFilter(Plan(board), v => Untouched(v, init), v => Differs(v, last), v => Untouched(v, us));
    }
  }

  lemma {:induction false} ApplyAllAppend(board: seq<Item>, us: seq<Update>, more: seq<Update>)
    ensures ApplyAll(board, us + more) == ApplyAll(ApplyAll(board, us), more)
  {
    if more == [] {
      assert us + more == us;
    } else {
      ApplyAllAppend(board, us, more[..|more| - 1]);
      InitOfAppend(us, more);
    }
  }

  /** No two planned updates are of the same item and field. */
  ghost predicate OneEach(plan: seq<Update>) {
    forall i, j :: 0 <= i < j < |plan| ==> Differs(plan[j], plan[i])
  }

  lemma TouchedPrefix(plan: seq<Update>, k: nat)
    requires k <= |plan|
    ensures Filter(plan[..k], v => Untouched(v, plan[..k])) == []
  {
    forall i | 0 <= i < k ensures !Untouched(plan[..k][i], plan[..k]) {
      assert !Differs(plan[..k][i], plan[..k][i]);
    }
    FilterNone(plan[..k], v => Untouched(v, plan[..k]));
  }

  lemma UntouchedRest(plan: seq<Update>, k: nat)
    requires OneEach(plan) && k <= |plan|
    ensures Filter(plan[k..], v => Untouched(v, plan[..k])) == plan[k..]
  {
    FilterAll(plan[k..], v => Untouched(v, plan[..k]));
  }

  lemma SuffixUntouched(plan: seq<Update>, k: nat)
    requires OneEach(plan) && k <= |plan|
    ensures Filter(plan, v => Untouched(v, plan[..k])) == plan[k..]
  {
    assert plan == plan[..k] + plan[k..];
    TouchedPrefix(plan, k);
    UntouchedRest(plan, k);
    FilterAppend(plan[..k], plan[k..], v => Untouched(v, plan[..k]));
    hide Filter, Untouched, OneEach;
    assert [] + plan[k..] == plan[k..];
  }

  /** Re-planning after any prefix gives the rest of the plan, if and only if the plan has one update per item and field. */
  lemma ReplanExactlyWhen(board: seq<Item>)
    ensures (forall k :: 0 <= k <= |Plan(board)| ==> Plan(ApplyAll(board, Plan(board)[..k])) == Plan(board)[k..])
            <==> OneEach(Plan(board))
  {
    var plan := Plan(board);
    PlanMirrors(board);
    forall k | 0 <= k <= |plan|
      ensures Plan(ApplyAll(board, plan[..k])) == Filter(plan, v => Untouched(v, plan[..k]))
    {
      ReplanAll(board, plan[..k]);
    }
    if OneEach(plan) {
      forall k | 0 <= k <= |plan| ensures Plan(ApplyAll(board, plan[..k])) == plan[k..] {
        SuffixUntouched(plan, k);
      }
    } else {
      var i, j :| 0 <= i < j < |plan| && !Differs(plan[j], plan[i]);
      NotTheRest(plan, i, j);
      assert Plan(ApplyAll(board, plan[..i + 1])) != plan[i + 1..];
    }
  }

  lemma NotTheRest(plan: seq<Update>, i: nat, j: nat)
    requires i < j < |plan| && !Differs(plan[j], plan[i])
    ensures Filter(plan, v => Untouched(v, plan[..i + 1])) != plan[i + 1..]
  {
    var p := (v: Update) => Untouched(v, plan[..i + 1]);
    FilterMember(plan, p, plan[j]);
    assert !Differs(plan[j], plan[..i + 1][i]);
    assert plan[i + 1..][j - i - 1] == plan[j];
  }

  /** Items with pairwise different ids make such a plan. */
  lemma {:induction false} DistinctIdsPlanOneEach(board: seq<Item>)
    requires forall i, j :: 0 <= i < j < |board| && board[i].itemId.Some? ==> board[i].itemId != board[j].itemId
    ensures OneEach(Plan(board))
    ensures forall u :: u in Plan(board) ==> exists i :: 0 <= i < |board| && board[i].itemId == Some(u.itemId)
  {
    if board != [] {
      var n := |board| - 1;
      var init, last := board[..n], board[n];
      DistinctIdsPlanOneEach(init);
      var a, b := Plan(init), PlanItem(last);
      assert |b| <= 2 && forall u :: u in b ==> last.itemId == Some(u.itemId);
      assert |STATUS| == 6 && |EVIDENCE| == 14;
      assert |b| == 2 ==> Differs(b[1], b[0]);
      forall u | u in a ensures last.itemId != Some(u.itemId) && exists i :: 0 <= i < |board| && board[i].itemId == Some(u.itemId) {
        var i :| 0 <= i < |init| && init[i].itemId == Some(u.itemId);
        assert board[i] == init[i];
      }
      forall i, j | 0 <= i < j < |a + b| ensures Differs((a + b)[j], (a + b)[i]) {
        if j >= |a| && i < |a| {
          assert (a + b)[j] == b[j - |a|] && b[j - |a|] in b && (a + b)[i] == a[i] && a[i] in a;
        }
      }
    }
  }

  // ---- the plan against the board ----

  /** A merged item shows what was verified about it; any other item is left alone. */
  predicate Mirrors(item: Item) {
    item.itemId.Some? && item.linkedPrMerged ==> item.status == DONE && item.evidence == PROVEN
  }

  /** There is nothing to plan exactly when every merged item is Done and Proven. */
  lemma {:induction false} PlanEmptyExactlyWhen(board: seq<Item>)
    ensures Plan(board) == [] <==> forall i :: 0 <= i < |board| ==> Mirrors(board[i])
  {
    if board != [] {
      var k := |board| - 1;
      PlanEmptyExactlyWhen(board[..k]);
      assert forall i :: 0 <= i < k ==> board[..k][i] == board[i];
      assert PlanItem(board[k]) == [] <==> Mirrors(board[k]);
    }
  }

  /** Every planned update is of a merged item. */
  lemma {:induction false} PlanOnlyMerged(board: seq<Item>, u: Update)
    requires u in Plan(board)
    ensures exists i :: 0 <= i < |board| && board[i].itemId == Some(u.itemId) && board[i].linkedPrMerged
  {
    var k := |board| - 1;
    if u in Plan(board[..k]) {
      PlanOnlyMerged(board[..k], u);
      var i :| 0 <= i < k && board[..k][i].itemId == Some(u.itemId) && board[..k][i].linkedPrMerged;
      assert board[i].linkedPrMerged;
    } else {
      assert u in PlanItem(board[k]);
    }
  }

  lemma {:induction false} OtherItemsStay(board: seq<Item>, us: seq<Update>, k: nat)
    requires k < |board| && forall u :: u in us ==> board[k].itemId != Some(u.itemId)
    ensures |ApplyAll(board, us)| == |board| && ApplyAll(board, us)[k] == board[k]
  {
    if us != [] {
      OtherItemsStay(board, us[..|us| - 1], k);
    }
  }

  /** No prefix of the plan touches an item that shares its id with no merged item. */
  lemma OnlyMergedItemsChange(board: seq<Item>, n: nat, k: nat)
    requires n <= |Plan(board)| && k < |board|
    requires forall i :: 0 <= i < |board| && board[i].linkedPrMerged && board[i].itemId.Some? ==> board[i].itemId != board[k].itemId
    ensures |ApplyAll(board, Plan(board)[..n])| == |board| && ApplyAll(board, Plan(board)[..n])[k] == board[k]
  {
    forall u | u in Plan(board)[..n] ensures board[k].itemId != Some(u.itemId) {
      PlanOnlyMerged(board, u);
    }
    OtherItemsStay(board, Plan(board)[..n], k);
  }

  // ---- the merge-queue planner ----

  /** A proposed action; `number` is None when it is not an integer. */
  datatype QueueAction = QueueAction(op: string, number: Option<int>)

  predicate WellFormed(a: QueueAction) {
    (a.op == "arm" || a.op == "dequeue") && a.number.Some? && a.number.value > 0
  }

  lemma FirstAppearancesPush<T>(s: seq<T>, x: T)
    ensures FirstAppearances(s + [x]) == FirstAppearances(s) + if x in FirstAppearances(s) then [] else [x]
  {
    assert (s + [x])[..|s|] == s;
  }

  method PlanMergeQueue(actions: seq<QueueAction>) returns (planned: seq<QueueAction>)
    ensures planned == FirstAppearances(Filter(actions, WellFormed))
  {
    planned := [];
    var seen := {};
    for i := 0 to |actions|
      invariant planned == FirstAppearances(Filter(actions[..i], WellFormed))
      invariant forall a :: a in seen <==> a in planned
    {
      var action := actions[i];
      TakeNext(actions, i);
      FilterPush(actions[..i], action, WellFormed);
      if !WellFormed(action) {
        continue;
      }
      FirstAppearancesPush(Filter(actions[..i], WellFormed), action);
      if action in seen {
        continue;
      }
      seen := seen + {action};
      planned := planned + [action];
    }
    TakeAll(actions);
  }

  /** The plan holds every well-formed action once and no other. */
  lemma QueuePlanIsEachOnce(actions: seq<QueueAction>)
    ensures Unique(FirstAppearances(Filter(actions, WellFormed)))
    ensures forall a :: a in FirstAppearances(Filter(actions, WellFormed))
              <==> a in actions && a.op in {"arm", "dequeue"} && a.number.Some? && a.number.value >= 1
  {
    FirstAppearancesUnique(Filter(actions, WellFormed));
    forall a ensures a in Filter(actions, WellFormed) <==> a in actions && WellFormed(a) {
      FilterMember(actions, WellFormed, a);
    }
  }
}
