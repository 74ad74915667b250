/**
 The mirror-benchmark ledger of scripts/recordMirrorBenchmark.js: what a record must be to be
 accepted, the upsert it causes, and what a whole history of records leaves behind.
 */
module MirrorLedger {
  import opened Prelude
  import opened Ordering

  // ---- data ----

  /** A fingerprint as supplied; a number is absent when it is missing or not finite. */
  datatype FingerprintInput = FingerprintInput(
    actor: Option<string>, role: Option<string>, capturedFrom: Option<string>, os: Option<string>,
    cpuModel: Option<string>, cpuLogical: Option<real>, ramTotalMb: Option<real>, diskFreeGb: Option<real>,
    labviewBuild: Option<string>, labviewBitness: Option<string>)

  datatype Fingerprint = Fingerprint(
    actor: string, role: string, capturedFrom: string, os: string, cpuModel: string,
    cpuLogical: real, ramTotalMb: real, diskFreeGb: real, labviewBuild: string, labviewBitness: string)

  datatype Record = Record(
    parityKey: string, actorRef: string, sourceRevision: string, viPath: string, fixtureSha: string,
    recipe: string, mode: string, outcome: string, reportSha256: string,
    previewImageCount: Option<real>, wallMs: Option<real>, fingerprint: FingerprintInput)

  datatype Row = Row(
    parityKey: string, actorRef: string, sourceRevision: string, viPath: string, fixtureSha: string,
    recipe: string, mode: string, outcome: string, reportSha256: string,
    previewImageCount: real, wallMs: real)

  datatype Ledger = Ledger(schema: string, version: int, actors: map<string, Fingerprint>, runs: seq<Row>)

  /** What the caller passes for the existing ledger. */
  datatype Stored = Absent | Malformed | Present(ledger: Ledger)

  datatype Outcome = Outcome(ledger: Ledger, changed: bool)

  const SCHEMA_ID := "vi-history-suite/mirror-benchmark@v1"
  const SCHEMA_VERSION := 1
  const EMPTY := Ledger(SCHEMA_ID, SCHEMA_VERSION, map[], [])

  // ---- validation ----

  /** What a record or a ledger can be refused for, named after the field at fault. */
  datatype Fault =
    | LedgerMalformed | LedgerEnvelope
    | ParityKey | ActorRef | ReportSha256 | SourceRevision | Mode | Outcomes | Reference
    | ViPath | FixtureSha | Recipe | PreviewImageCount | WallMs
    | Actor | Role | CapturedFrom | Os | CpuModel | CpuLogical | RamTotalMb | DiskFreeGb
    | LabviewBuild | LabviewBitness

  datatype Checked<+T> = Valid(value: T) | Refused(fault: Fault) {
    predicate IsFailure() {
      Refused?
    }

    function PropagateFailure<U>(): Checked<U>
      requires IsFailure()
    {
      Refused(fault)
    }

    function Extract(): T
      requires !IsFailure()
    {
      value
    }
  }

  predicate IsMode(s: string) {
    s == "cold" || s == "warm"
  }

  predicate IsOutcome(s: string) {
    s == "ok" || s == "failed" || s == "blocked"
  }

  predicate IsRole(s: string) {
    s == "tangled-left" || s == "tangled-right" || s == "decoupled"
  }

  predicate IsCapturedFrom(s: string) {
    s == "in-guest" || s == "in-container" || s == "host"
  }

  predicate IsBitness(s: string) {
    s == "x86" || s == "x64"
  }

  function LowerChar(c: char): char {
    if 'A' <= c <= 'Z' then c - 'A' + 'a' else c
  }

  function Lower(s: string): (r: string)
    ensures |r| == |s| && forall i :: 0 <= i < |s| ==> r[i] == LowerChar(s[i])
  {
    seq(|s|, i requires 0 <= i < |s| => LowerChar(s[i]))
  }

  predicate IsDigest(s: string) {
    |s| == 64 && forall i :: 0 <= i < |s| ==> '0' <= s[i] <= '9' || 'a' <= s[i] <= 'f'
  }

  function RequireSha256(fault: Fault, value: string): Checked<string> {
    var normalized := Lower(Trim(value));
    if IsDigest(normalized) then Valid(normalized) else Refused(fault)
  }

  function RequireNonEmpty(fault: Fault, value: string): Checked<string> {
    if Trim(value) == [] then Refused(fault) else Valid(Trim(value))
  }

  function RequireNumber(fault: Fault, value: real): Checked<real> {
    if value >= 0.0 then Valid(value) else Refused(fault)
  }

  function RequireInteger(fault: Fault, value: real): Checked<real> {
    if value >= 0.0 && value.Floor as real == value then Valid(value) else Refused(fault)
  }

  function RequireField<T>(fault: Fault, value: Option<T>): Checked<T> {
    if value.Some? then Valid(value.value) else Refused(fault)
  }

  function RequireThat(fault: Fault, holds: bool): Checked<()> {
    if holds then Valid(()) else Refused(fault)
  }

  /** Every field is there. */
  function RequireAllFields(f: FingerprintInput): Checked<Fingerprint> {
    var actor :- RequireField(Actor, f.actor);
    var role :- RequireField(Role, f.role);
    var capturedFrom :- RequireField(CapturedFrom, f.capturedFrom);
    var os :- RequireField(Os, f.os);
    var cpuModel :- RequireField(CpuModel, f.cpuModel);
    var cpuLogical :- RequireField(CpuLogical, f.cpuLogical);
    var ramTotalMb :- RequireField(RamTotalMb, f.ramTotalMb);
    var diskFreeGb :- RequireField(DiskFreeGb, f.diskFreeGb);
    var labviewBuild :- RequireField(LabviewBuild, f.labviewBuild);
    var labviewBitness :- RequireField(LabviewBitness, f.labviewBitness);
    Valid(Fingerprint(actor, role, capturedFrom, os, cpuModel, cpuLogical, ramTotalMb, diskFreeGb,
                      labviewBuild, labviewBitness))
  }

  /** Every field holds what it should. */
  function RequireGoodFields(f: Fingerprint): Checked<Fingerprint> {
    var _ :- RequireThat(Role, IsRole(f.role));
    var _ :- RequireThat(CapturedFrom, IsCapturedFrom(f.capturedFrom));
    var _ :- RequireThat(LabviewBitness, IsBitness(f.labviewBitness));
    var actor :- RequireNonEmpty(Actor, f.actor);
    var os :- RequireNonEmpty(Os, f.os);
    var cpuModel :- RequireNonEmpty(CpuModel, f.cpuModel);
    var cpuLogical :- RequireInteger(CpuLogical, f.cpuLogical);
    var ramTotalMb :- RequireNumber(RamTotalMb, f.ramTotalMb);
    var diskFreeGb :- RequireNumber(DiskFreeGb, f.diskFreeGb);
    var labviewBuild :- RequireNonEmpty(LabviewBuild, f.labviewBuild);
    Valid(f.(actor := actor, os := os, cpuModel := cpuModel, labviewBuild := labviewBuild))
  }

  function NormalizeFingerprint(f: FingerprintInput): Checked<Fingerprint> {
    var raw :- RequireAllFields(f);
    RequireGoodFields(raw)
  }

  /** A record that passed every check: its row and its fingerprint. */
  datatype Entry = Entry(row: Row, fingerprint: Fingerprint)

  datatype Head = Head(parityKey: string, actorRef: string, reportSha256: string, sourceRevision: string,
                       mode: string, outcome: string)

  datatype Measured = Measured(viPath: string, fixtureSha: string, recipe: string,
                               previewImageCount: real, wallMs: real)

  function RequireHead(record: Record): Checked<Head> {
    var parityKey :- RequireSha256(ParityKey, record.parityKey);
    var actorRef :- RequireSha256(ActorRef, record.actorRef);
    var reportSha256 :- RequireSha256(ReportSha256, record.reportSha256);
    var sourceRevision :- RequireNonEmpty(SourceRevision, record.sourceRevision);
    var mode :- RequireNonEmpty(Mode, record.mode);
    var _ :- RequireThat(Mode, IsMode(mode));
    var outcome :- RequireNonEmpty(Outcomes, record.outcome);
    var _ :- RequireThat(Outcomes, IsOutcome(outcome));
    Valid(Head(parityKey, actorRef, reportSha256, sourceRevision, mode, outcome))
  }

  function RequireMeasured(record: Record): Checked<Measured> {
    var viPath :- RequireNonEmpty(ViPath, record.viPath);
    var fixtureSha :- RequireSha256(FixtureSha, record.fixtureSha);
    var recipe :- RequireNonEmpty(Recipe, record.recipe);
    var count :- RequireField(PreviewImageCount, record.previewImageCount);
    var previewImageCount :- RequireInteger(PreviewImageCount, count);
    var elapsed :- RequireField(WallMs, record.wallMs);
    var wallMs :- RequireNumber(WallMs, elapsed);
    Valid(Measured(ToPosix(viPath), fixtureSha, recipe, previewImageCount, wallMs))
  }

  function RowOf(h: Head, m: Measured): Row {
    Row(h.parityKey, h.actorRef, h.sourceRevision, m.viPath, m.fixtureSha, m.recipe, h.mode, h.outcome,
        h.reportSha256, m.previewImageCount, m.wallMs)
  }

  /** The checks on a record, in the source's order; `id` derives an actor's reference from its fingerprint. */
  function Accept(record: Record, id: Fingerprint -> string): Checked<Entry> {
    var head :- RequireHead(record);
    var fingerprint :- NormalizeFingerprint(record.fingerprint);
    var _ :- RequireThat(Reference, head.actorRef == id(fingerprint));
    var measured :- RequireMeasured(record);
    Valid(Entry(RowOf(head, measured), fingerprint))
  }

  // ---- the upsert ----

  /** A run's identity. */
  datatype Key = Key(parityKey: string, actorRef: string, mode: string, sourceRevision: string)

  function KeyOf(row: Row): Key {
    Key(row.parityKey, row.actorRef, row.mode, row.sourceRevision)
  }

  /** The first run with the identity, or `|runs|` when there is none. */
  function FindIndex(runs: seq<Row>, key: Key): (i: nat)
    ensures i <= |runs|
    ensures i < |runs| ==> KeyOf(runs[i]) == key
    ensures forall j :: 0 <= j < i ==> KeyOf(runs[j]) != key
  {
    if runs == [] || KeyOf(runs[0]) == key then 0 else 1 + FindIndex(runs[1..], key)
  }

  function Merge(base: Ledger, e: Entry): Outcome {
    var ref := e.row.actorRef;
    var actors := base.actors[ref := e.fingerprint];
    var i := FindIndex(base.runs, KeyOf(e.row));
    if i == |base.runs| then
      Outcome(Ledger(SCHEMA_ID, SCHEMA_VERSION, actors, base.runs + [e.row]), true)
    else if base.runs[i] == e.row && ref in base.actors && base.actors[ref] == e.fingerprint then
      Outcome(base, false)
    else
      Outcome(Ledger(SCHEMA_ID, SCHEMA_VERSION, actors, base.runs[i := e.row]), true)
  }

  predicate HasEnvelope(l: Ledger) {
    l.schema == SCHEMA_ID && l.version == SCHEMA_VERSION
  }

  function Base(stored: Stored): Checked<Ledger> {
    match stored
    case Absent => Valid(EMPTY)
    case Malformed => Refused(LedgerMalformed)
    case Present(l) => if HasEnvelope(l) then Valid(l) else Refused(LedgerEnvelope)
  }

  function Apply(stored: Stored, record: Record, id: Fingerprint -> string): Checked<Outcome> {
    var base :- Base(stored);
    var e :- Accept(record, id);
    Valid(Merge(base, e))
  }

  /** One invocation of the recorder: the file is rewritten only when the ledger changed. */
  function AfterRecording(stored: Stored, record: Record, id: Fingerprint -> string): Stored {
    match Apply(stored, record, id)
    case Refused(_) => stored
    case Valid(out) => if out.changed then Present(out.ledger) else stored
  }

  // ---- one record ----

  /** `changed` says whether the ledger is a different one, and a second application never changes it. */
  lemma ApplyIsIdempotent(stored: Stored, record: Record, id: Fingerprint -> string)
    requires Apply(stored, record, id).Valid?
    ensures var out := Apply(stored, record, id).value;
            && (out.changed <==> Present(out.ledger) != (if stored.Absent? then Present(EMPTY) else stored))
            && Apply(Present(out.ledger), record, id) == Valid(Outcome(out.ledger, false))
  {
    var base, e := Base(stored).value, Accept(record, id).value;
    var out := Merge(base, e);
    hide Accept;
    var i := FindIndex(base.runs, KeyOf(e.row));
    var next := out.ledger.runs;
    assert next[i] == e.row;
    assert forall j :: 0 <= j < i ==> next[j] == base.runs[j];
    assert FindIndex(next, KeyOf(e.row)) == i;
    if out.changed && i < |base.runs| {
      assert next[i] != base.runs[i] || out.ledger.actors[e.row.actorRef] == e.fingerprint;
    }
  }

  // ---- whole histories, against a latest-wins reading of them ----

  function Keys(h: seq<Entry>): (r: seq<Key>)
    ensures |r| == |h| && forall i :: 0 <= i < |h| ==> r[i] == KeyOf(h[i].row)
  {
    seq(|h|, i requires 0 <= i < |h| => KeyOf(h[i].row))
  }

  function LatestRow(h: seq<Entry>, key: Key): Option<Row> {
    if h == [] then None
    else if KeyOf(h[|h| - 1].row) == key then Some(h[|h| - 1].row)
    else LatestRow(h[..|h| - 1], key)
  }

  function LatestFingerprint(h: seq<Entry>, ref: string): Option<Fingerprint> {
    if h == [] then None
    else if h[|h| - 1].row.actorRef == ref then Some(h[|h| - 1].fingerprint)
    else LatestFingerprint(h[..|h| - 1], ref)
  }

  /** The ledger a history of accepted records folds to. */
  function Fold(h: seq<Entry>): Ledger {
    if h == [] then EMPTY else Merge(Fold(h[..|h| - 1]), h[|h| - 1]).ledger
  }

  /** The latest-wins reading of a history as a ledger. */
  ghost predicate Reads(l: Ledger, h: seq<Entry>) {
    && HasEnvelope(l)
    && |l.runs| == |FirstAppearances(Keys(h))|
    && (forall i :: 0 <= i < |l.runs| ==> KeyOf(l.runs[i]) == FirstAppearances(Keys(h))[i])
    && (forall i :: 0 <= i < |l.runs| ==> LatestRow(h, KeyOf(l.runs[i])) == Some(l.runs[i]))
    && (forall ref :: ref in l.actors <==> LatestFingerprint(h, ref).Some?)
    && (forall ref :: ref in l.actors ==> LatestFingerprint(h, ref) == Some(l.actors[ref]))
  }

  lemma MergeReads(l: Ledger, h: seq<Entry>, e: Entry)
    requires Reads(l, h)
    ensures Reads(Merge(l, e).ledger, h + [e])
  {
    var all := h + [e];
    assert all[..|h|] == h && Keys(all)[..|h|] == Keys(h);
    FirstAppearancesUnique(Keys(h));
    var firsts, k := FirstAppearances(Keys(h)), KeyOf(e.row);
    var i := FindIndex(l.runs, k);
    assert i == |l.runs| <==> k !in firsts by {
      if i < |l.runs| {
        assert firsts[i] == k;
      }
    }
    var next := Merge(l, e).ledger;
    forall j | 0 <= j < |next.runs|
      ensures KeyOf(next.runs[j]) == FirstAppearances(Keys(all))[j]
      ensures LatestRow(all, KeyOf(next.runs[j])) == Some(next.runs[j])
    {
      if j < |l.runs| {
        assert KeyOf(l.runs[j]) == firsts[j];
        assert LatestRow(h, KeyOf(l.runs[j])) == Some(l.runs[j]);
      }
    }
  }

  /** A history leaves exactly its latest-wins reading: one run per identity, in order of first appearance. */
  lemma {:induction false} FoldReads(h: seq<Entry>)
    ensures Reads(Fold(h), h)
  {
    if h != [] {
      FoldReads(h[..|h| - 1]);
      MergeReads(Fold(h[..|h| - 1]), h[..|h| - 1], h[|h| - 1]);
      InitAndLast(h);
    }
  }

  lemma RunsAreUnique(h: seq<Entry>)
    ensures forall i, j :: 0 <= i < j < |Fold(h).runs| ==> KeyOf(Fold(h).runs[i]) != KeyOf(Fold(h).runs[j])
  {
    FoldReads(h);
    FirstAppearancesUnique(Keys(h));
  }

  /** Two ledgers that read the same history are the same ledger. */
  lemma ReadingIsOne(a: Ledger, b: Ledger, h: seq<Entry>)
    requires Reads(a, h) && Reads(b, h)
    ensures a == b
  {
    forall i | 0 <= i < |a.runs| ensures a.runs[i] == b.runs[i] {
      assert KeyOf(a.runs[i]) == KeyOf(b.runs[i]);
    }
    assert a.runs == b.runs;
    forall ref ensures ref in a.actors <==> ref in b.actors {
      assert ref in a.actors <==> LatestFingerprint(h, ref).Some?;
    }
    assert a.actors == b.actors;
  }

  // ---- what the derived reference adds ----

  ghost predicate Derived(h: seq<Entry>, id: Fingerprint -> string) {
    forall i :: 0 <= i < |h| ==> h[i].row.actorRef == id(h[i].fingerprint)
  }

  lemma {:induction false} LatestFingerprintIsRecorded(h: seq<Entry>, ref: string)
    ensures LatestFingerprint(h, ref).Some? <==> exists i :: 0 <= i < |h| && h[i].row.actorRef == ref
    ensures LatestFingerprint(h, ref).Some? ==>
              exists i :: 0 <= i < |h| && h[i].row.actorRef == ref && h[i].fingerprint == LatestFingerprint(h, ref).value
  {
    if h != [] {
      var k := |h| - 1;
      LatestFingerprintIsRecorded(h[..k], ref);
      assert forall i :: 0 <= i < k ==> h[..k][i] == h[i];
      if h[k].row.actorRef != ref && LatestFingerprint(h[..k], ref).Some? {
        var i :| 0 <= i < k && h[..k][i].row.actorRef == ref && h[..k][i].fingerprint == LatestFingerprint(h[..k], ref).value;
        assert h[i].row.actorRef == ref;
      }
    }
  }

  lemma {:induction false} LatestRowIsRecorded(h: seq<Entry>, key: Key)
    requires LatestRow(h, key).Some?
    ensures exists i :: 0 <= i < |h| && h[i].row == LatestRow(h, key).value
  {
    if KeyOf(h[|h| - 1].row) != key {
      LatestRowIsRecorded(h[..|h| - 1], key);
      var i :| 0 <= i < |h| - 1 && h[..|h| - 1][i].row == LatestRow(h, key).value;
      assert h[i].row == LatestRow(h, key).value;
    }
  }

  /** Every run's actor is registered, and every actor under the reference its fingerprint derives. */
  lemma ActorsAreRegistered(h: seq<Entry>, id: Fingerprint -> string)
    requires Derived(h, id)
    ensures forall i :: 0 <= i < |Fold(h).runs| ==> Fold(h).runs[i].actorRef in Fold(h).actors
    ensures forall ref :: ref in Fold(h).actors ==> id(Fold(h).actors[ref]) == ref
  {
    FoldReads(h);
    forall i | 0 <= i < |Fold(h).runs| ensures Fold(h).runs[i].actorRef in Fold(h).actors {
      var row := Fold(h).runs[i];
      LatestRowIsRecorded(h, KeyOf(row));
      LatestFingerprintIsRecorded(h, row.actorRef);
    }
    forall ref | ref in Fold(h).actors ensures id(Fold(h).actors[ref]) == ref {
      LatestFingerprintIsRecorded(h, ref);
    }
  }

  /** No two recorded entries share a reference and differ in the fingerprint. */
  ghost predicate NoCollision(h: seq<Entry>) {
    forall i, j :: 0 <= i < j < |h| && h[i].row.actorRef == h[j].row.actorRef ==> h[i].fingerprint == h[j].fingerprint
  }

  /** What is registered after `m` records is registered, and the same, after `n`. */
  ghost predicate Keeps(h: seq<Entry>, m: nat, n: nat)
    requires m <= n <= |h|
  {
    forall ref :: ref in Fold(h[..m]).actors ==>
      ref in Fold(h[..n]).actors && Fold(h[..n]).actors[ref] == Fold(h[..m]).actors[ref]
  }

  lemma ActorsOf(h: seq<Entry>, n: nat, ref: string)
    requires n <= |h|
    ensures ref in Fold(h[..n]).actors <==> exists i :: 0 <= i < n && h[i].row.actorRef == ref
    ensures ref in Fold(h[..n]).actors ==>
              exists i :: 0 <= i < n && h[i].row.actorRef == ref && h[i].fingerprint == Fold(h[..n]).actors[ref]
  {
    FoldReads(h[..n]);
    hide Fold;
    LatestFingerprintIsRecorded(h[..n], ref);
    assert forall i :: 0 <= i < n ==> h[..n][i] == h[i];
  }

  lemma KeptWithoutCollision(h: seq<Entry>, m: nat, n: nat)
    requires m <= n <= |h| && NoCollision(h)
    ensures Keeps(h, m, n)
  {
    forall ref | ref in Fold(h[..m]).actors
      ensures ref in Fold(h[..n]).actors && Fold(h[..n]).actors[ref] == Fold(h[..m]).actors[ref]
    {
      ActorsOf(h, m, ref);
      ActorsOf(h, n, ref);
      hide Fold;
      var i :| 0 <= i < m && h[i].row.actorRef == ref && h[i].fingerprint == Fold(h[..m]).actors[ref];
      var j :| 0 <= j < n && h[j].row.actorRef == ref && h[j].fingerprint == Fold(h[..n]).actors[ref];
    }
  }

  lemma LastIsRegistered(h: seq<Entry>, i: nat)
    requires i < |h|
    ensures var actors, ref := Fold(h[..i + 1]).actors, h[i].row.actorRef; ref in actors && actors[ref] == h[i].fingerprint
  {
    FoldReads(h[..i + 1]);
  }

  /** No registered fingerprint ever changes if and only if no two recorded entries collide. */
  lemma RegisteredForGoodExactlyWhen(h: seq<Entry>)
    ensures (forall m, n :: 0 <= m <= n <= |h| ==> Keeps(h, m, n)) <==> NoCollision(h)
  {
    if NoCollision(h) {
      forall m, n | 0 <= m <= n <= |h| ensures Keeps(h, m, n) {
        KeptWithoutCollision(h, m, n);
      }
    } else {
      var i, j :| 0 <= i < j < |h| && h[i].row.actorRef == h[j].row.actorRef && h[i].fingerprint != h[j].fingerprint;
      LastIsRegistered(h, i);
      LastIsRegistered(h, j);
      assert !Keeps(h, i + 1, j + 1);
    }
  }

  /** As references are derived, nothing registered changes if and only if no two recorded fingerprints collide under the derivation. */
  lemma RegisteredForGood(h: seq<Entry>, id: Fingerprint -> string)
    requires Derived(h, id)
    ensures (forall m, n :: 0 <= m <= n <= |h| ==> Keeps(h, m, n))
      <==> forall i, j :: 0 <= i < j < |h| && id(h[i].fingerprint) == id(h[j].fingerprint) ==> h[i].fingerprint == h[j].fingerprint
  {
    RegisteredForGoodExactlyWhen(h);
    hide Keeps;
    if forall i, j :: 0 <= i < j < |h| && id(h[i].fingerprint) == id(h[j].fingerprint) ==> h[i].fingerprint == h[j].fingerprint {
      assert NoCollision(h);
    }
  }

  // ---- runs of the recorder, refused records included ----

  /** The file after a series of invocations, some of which may be refused. */
  function Recorded(records: seq<Record>, id: Fingerprint -> string): Stored {
    if records == [] then Absent
    else AfterRecording(Recorded(records[..|records| - 1], id), records[|records| - 1], id)
  }

  function Accepted(records: seq<Record>, id: Fingerprint -> string): seq<Entry> {
    if records == [] then []
    else
      var before := Accepted(records[..|records| - 1], id);
      match Accept(records[|records| - 1], id)
      case Valid(e) => before + [e]
      case Refused(_) => before
  }

  lemma AcceptDerives(record: Record, id: Fingerprint -> string)
    requires Accept(record, id).Valid?
    ensures var e := Accept(record, id).value; e.row.actorRef == id(e.fingerprint)
  {
    hide Trim, Lower, IsDigest;
  }

  lemma FoldPush(h: seq<Entry>, e: Entry)
    ensures Fold(h + [e]) == Merge(Fold(h), e).ledger
  {
    assert (h + [e])[..|h|] == h;
  }

  lemma AcceptedStep(stored: Stored, base: Ledger, record: Record, id: Fingerprint -> string)
    requires Base(stored) == Valid(base) && Accept(record, id).Valid?
    ensures AfterRecording(stored, record, id) == Present(Merge(base, Accept(record, id).value).ledger)
  {
    hide Accept;
  }

  lemma RefusedStep(stored: Stored, record: Record, id: Fingerprint -> string)
    requires Accept(record, id).Refused?
    ensures AfterRecording(stored, record, id) == stored
  {
    hide Accept;
  }

  /** After any series of invocations the file is the fold of the accepted records, the refused ones without trace. */
  lemma {:induction false} RecordedIsFold(records: seq<Record>, id: Fingerprint -> string)
    ensures Derived(Accepted(records, id), id)
    ensures Recorded(records, id)
         == if Accepted(records, id) == [] then Absent else Present(Fold(Accepted(records, id)))
  {
    if records != [] {
      var init, last := records[..|records| - 1], records[|records| - 1];
      RecordedIsFold(init, id);
      var before := Accepted(init, id);
      FoldReads(before);
      if Accept(last, id).Valid? {
        AcceptDerives(last, id);
        AcceptedStep(Recorded(init, id), Fold(before), last, id);
        hide Accept, AfterRecording, Merge;
        FoldPush(before, Accept(last, id).value);
      } else {
        RefusedStep(Recorded(init, id), last, id);
        hide Accept, AfterRecording;
      }
    }
  }

  // ---- what is stored is already in canonical form ----

  lemma {:induction false} TrimEndEnds(s: string)
    ensures var t := TrimEnd(s); t <= s && (t != [] ==> !IsSpace(t[|t| - 1]))
  {
    if s != [] && IsSpace(s[|s| - 1]) {
      TrimEndEnds(s[..|s| - 1]);
    }
  }

  lemma {:induction false} TrimStartStarts(s: string)
    ensures var t := TrimStart(s); t != [] ==> !IsSpace(t[0])
  {
    if s != [] && IsSpace(s[0]) {
      TrimStartStarts(s[1..]);
    }
  }

  lemma TrimTwice(s: string)
    ensures Trim(Trim(s)) == Trim(s)
    ensures Trim(ToPosix(Trim(s))) == ToPosix(Trim(s))
  {
    TrimStartStarts(s);
    TrimEndEnds(TrimStart(s));
    hide IsSpace;
    assert !IsSpace('/') by {
      SlashIsNoSpace();
    }
  }

  lemma SlashIsNoSpace()
    ensures !IsSpace('/')
  {
  }

  lemma DigestStays(fault: Fault, value: string)
    ensures var d := RequireSha256(fault, value); d.Valid? ==> RequireSha256(fault, d.value) == d
  {
    var d := Lower(Trim(value));
    if IsDigest(d) {
      assert Trim(d) == d by {
        assert !IsSpace(d[0]) && !IsSpace(d[|d| - 1]);
      }
      assert Lower(d) == d;
    }
  }

  function Supplied(f: Fingerprint): FingerprintInput {
    FingerprintInput(Some(f.actor), Some(f.role), Some(f.capturedFrom), Some(f.os), Some(f.cpuModel),
                     Some(f.cpuLogical), Some(f.ramTotalMb), Some(f.diskFreeGb), Some(f.labviewBuild),
                     Some(f.labviewBitness))
  }

  /** The record that spells out what an entry stores. */
  function RecordOf(e: Entry): Record {
    var r := e.row;
    Record(r.parityKey, r.actorRef, r.sourceRevision, r.viPath, r.fixtureSha, r.recipe, r.mode, r.outcome,
           r.reportSha256, Some(r.previewImageCount), Some(r.wallMs), Supplied(e.fingerprint))
  }

  lemma NonEmptyStays(fault: Fault, value: string)
    ensures var t := RequireNonEmpty(fault, value); t.Valid? ==> RequireNonEmpty(fault, t.value) == t
  {
    TrimTwice(value);
  }

  lemma PathStays(fault: Fault, value: string)
    ensures var t := RequireNonEmpty(fault, value);
            t.Valid? ==>
              var p := ToPosix(t.value);
              RequireNonEmpty(fault, p) == Valid(p) && ToPosix(p) == p
  {
    TrimTwice(value);
    hide Trim;
    SlashesStay(Trim(value));
  }

  lemma GoodFieldsStay(f: Fingerprint)
    requires RequireGoodFields(f).Valid?
    ensures RequireGoodFields(RequireGoodFields(f).value) == RequireGoodFields(f)
  {
    NonEmptyStays(Actor, f.actor);
    NonEmptyStays(Os, f.os);
    NonEmptyStays(CpuModel, f.cpuModel);
    NonEmptyStays(LabviewBuild, f.labviewBuild);
    hide RequireNonEmpty, IsRole, IsCapturedFrom, IsBitness;
  }

  lemma AllFieldsSupplied(f: Fingerprint)
    ensures RequireAllFields(Supplied(f)) == Valid(f)
  {
  }

  lemma FingerprintIsCanonical(f: FingerprintInput)
    requires NormalizeFingerprint(f).Valid?
    ensures NormalizeFingerprint(Supplied(NormalizeFingerprint(f).value)) == NormalizeFingerprint(f)
  {
    GoodFieldsStay(RequireAllFields(f).value);
    AllFieldsSupplied(NormalizeFingerprint(f).value);
    hide RequireAllFields, RequireGoodFields;
  }

  /** A record whose head fields are those of an accepted head. */
  lemma HeadStays(record: Record, again: Record)
    requires RequireHead(record).Valid?
    requires var h := RequireHead(record).value;
             Head(again.parityKey, again.actorRef, again.reportSha256, again.sourceRevision, again.mode, again.outcome) == h
    ensures RequireHead(again) == RequireHead(record)
  {
    DigestStays(ParityKey, record.parityKey);
    DigestStays(ActorRef, record.actorRef);
    DigestStays(ReportSha256, record.reportSha256);
    NonEmptyStays(SourceRevision, record.sourceRevision);
    NonEmptyStays(Mode, record.mode);
    NonEmptyStays(Outcomes, record.outcome);
    hide IsMode, IsOutcome, RequireNonEmpty, RequireSha256;
  }

  lemma MeasuredStays(record: Record, again: Record)
    requires RequireMeasured(record).Valid?
    requires var m := RequireMeasured(record).value;
             && again.viPath == m.viPath && again.fixtureSha == m.fixtureSha && again.recipe == m.recipe
             && again.previewImageCount == Some(m.previewImageCount) && again.wallMs == Some(m.wallMs)
    ensures RequireMeasured(again) == RequireMeasured(record)
  {
    DigestStays(FixtureSha, record.fixtureSha);
    NonEmptyStays(Recipe, record.recipe);
    PathStays(ViPath, record.viPath);
    hide RequireNonEmpty, RequireSha256, ToPosix;
  }

  /** Recording what is stored again stores the same: normalizing a second time changes nothing. */
  lemma AcceptedIsCanonical(record: Record, id: Fingerprint -> string)
    requires Accept(record, id).Valid?
    ensures Accept(RecordOf(Accept(record, id).value), id) == Accept(record, id)
  {
    var again := RecordOf(Accept(record, id).value);
    FingerprintIsCanonical(record.fingerprint);
    hide NormalizeFingerprint, RequireHead, RequireMeasured;
    HeadStays(record, again);
    MeasuredStays(record, again);
  }

  lemma SlashesStay(s: string)
    ensures ToPosix(ToPosix(s)) == ToPosix(s)
    ensures s != [] ==> ToPosix(s) != []
  {
  }

  // ---- what the ledger can hold ----

  predicate IsTrimmed(s: string) {
    s != [] && Trim(s) == s
  }

  predicate IsCount(x: real) {
    x >= 0.0 && x.Floor as real == x
  }

  predicate GoodFingerprint(f: Fingerprint) {
    && IsRole(f.role) && IsCapturedFrom(f.capturedFrom) && IsBitness(f.labviewBitness)
    && IsTrimmed(f.actor) && IsTrimmed(f.os) && IsTrimmed(f.cpuModel) && IsTrimmed(f.labviewBuild)
    && IsCount(f.cpuLogical) && f.ramTotalMb >= 0.0 && f.diskFreeGb >= 0.0
  }

  predicate GoodHead(r: Row) {
    && IsDigest(r.parityKey) && IsDigest(r.actorRef) && IsDigest(r.reportSha256)
    && IsTrimmed(r.sourceRevision) && IsMode(r.mode) && IsOutcome(r.outcome)
  }

  predicate GoodMeasured(r: Row) {
    && IsTrimmed(r.viPath) && '\\' !in r.viPath && IsDigest(r.fixtureSha) && IsTrimmed(r.recipe)
    && IsCount(r.previewImageCount) && r.wallMs >= 0.0
  }

  predicate GoodEntry(e: Entry, id: Fingerprint -> string) {
    GoodHead(e.row) && GoodMeasured(e.row) && GoodFingerprint(e.fingerprint) && e.row.actorRef == id(e.fingerprint)
  }

  lemma DigestFixed(fault: Fault, s: string)
    ensures RequireSha256(fault, s) == Valid(s) <==> IsDigest(s)
  {
    if IsDigest(s) {
      assert !IsSpace(s[0]) && !IsSpace(s[|s| - 1]);
      assert Trim(s) == s && Lower(s) == s;
    }
  }

  lemma TrimmedFixed(fault: Fault, s: string)
    ensures RequireNonEmpty(fault, s) == Valid(s) <==> IsTrimmed(s)
    ensures RequireNonEmpty(fault, s).Valid? ==> IsTrimmed(RequireNonEmpty(fault, s).value)
  {
    TrimTwice(s);
  }

  lemma NamesAreTrimmed(s: string)
    ensures IsMode(s) || IsOutcome(s) ==> IsTrimmed(s)
  {
    if IsMode(s) || IsOutcome(s) {
      assert !IsSpace(s[0]) && !IsSpace(s[|s| - 1]);
    }
  }

  lemma GoodFieldsExactly(f: Fingerprint)
    ensures RequireGoodFields(f) == Valid(f) <==> GoodFingerprint(f)
  {
    TrimmedFixed(Actor, f.actor);
    TrimmedFixed(Os, f.os);
    TrimmedFixed(CpuModel, f.cpuModel);
    TrimmedFixed(LabviewBuild, f.labviewBuild);
    hide RequireNonEmpty, IsTrimmed, IsRole, IsCapturedFrom, IsBitness;
  }

  function HeadOf(r: Row): Head {
    Head(r.parityKey, r.actorRef, r.reportSha256, r.sourceRevision, r.mode, r.outcome)
  }

  function MeasuredOf(r: Row): Measured {
    Measured(r.viPath, r.fixtureSha, r.recipe, r.previewImageCount, r.wallMs)
  }

  lemma GoodHeadExactly(e: Entry)
    ensures RequireHead(RecordOf(e)) == Valid(HeadOf(e.row)) <==> GoodHead(e.row)
  {
    var r := e.row;
    DigestFixed(ParityKey, r.parityKey);
    DigestFixed(ActorRef, r.actorRef);
    DigestFixed(ReportSha256, r.reportSha256);
    TrimmedFixed(SourceRevision, r.sourceRevision);
    TrimmedFixed(Mode, r.mode);
    TrimmedFixed(Outcomes, r.outcome);
    NamesAreTrimmed(r.mode);
    NamesAreTrimmed(r.outcome);
    hide RequireSha256, RequireNonEmpty, IsDigest, IsTrimmed, IsMode, IsOutcome, Supplied;
  }

  lemma PathFixed(path: string)
    ensures (exists p :: RequireNonEmpty(ViPath, path) == Valid(p) && ToPosix(p) == path)
            <==> IsTrimmed(path) && '\\' !in path
  {
    if IsTrimmed(path) && '\\' !in path {
      assert ToPosix(path) == path;
      assert RequireNonEmpty(ViPath, path) == Valid(path);
    }
    if RequireNonEmpty(ViPath, path).Valid? && ToPosix(Trim(path)) == path {
      PathStays(ViPath, path);
      assert forall i :: 0 <= i < |path| ==> path[i] != '\\';
    }
  }

  lemma GoodMeasuredExactly(e: Entry)
    ensures RequireMeasured(RecordOf(e)) == Valid(MeasuredOf(e.row)) <==> GoodMeasured(e.row)
  {
    var r := e.row;
    PathFixed(r.viPath);
    DigestFixed(FixtureSha, r.fixtureSha);
    TrimmedFixed(Recipe, r.recipe);
    hide RequireSha256, RequireNonEmpty, IsDigest, IsTrimmed, ToPosix, Supplied;
  }

  /**
   The entries a record can leave are exactly the good ones: digests of 64 hex digits, trimmed names, a known
   mode and outcome, plain slashes, non-negative figures, and a reference derived from a good fingerprint.
   */
  lemma EntriesExactly(e: Entry, id: Fingerprint -> string)
    ensures (exists record :: Accept(record, id) == Valid(e)) <==> GoodEntry(e, id)
  {
    var again := RecordOf(e);
    assert Accept(again, id) == Valid(e) <==> GoodEntry(e, id) by {
      SpelledOutExactly(e, id);
    }
    hide Accept, GoodEntry;
    if record :| Accept(record, id) == Valid(e) {
      AcceptedIsCanonical(record, id);
    }
  }

  lemma SpelledOutExactly(e: Entry, id: Fingerprint -> string)
    ensures Accept(RecordOf(e), id) == Valid(e) <==> GoodEntry(e, id)
  {
    GoodHeadExactly(e);
    GoodMeasuredExactly(e);
    GoodFieldsExactly(e.fingerprint);
    AllFieldsSupplied(e.fingerprint);
    hide RequireHead, RequireMeasured, RequireAllFields, RequireGoodFields, GoodHead, GoodMeasured, GoodFingerprint, Supplied;
  }

  // ---- which record is accepted as which entry, spelled out ----

  predicate IsHex64(d: string) {
    |d| == 64 && forall i :: 0 <= i < |d| ==> d[i] in "0123456789abcdef"
  }

  ghost predicate LowersTo(t: string, d: string) {
    && |t| == |d|
    && forall i :: 0 <= i < |d| ==> d[i] == t[i] || ('A' <= t[i] <= 'F' && d[i] as int == t[i] as int + 32)
  }

  /** `d` is 64 lower-case hex digits: the text of `s` between its white space, in lower case. */
  ghost predicate SpellsDigest(s: string, d: string) {
    IsHex64(d) && exists t :: TrimsTo(s, t) && LowersTo(t, d)
  }

  ghost predicate SpellsText(s: string, t: string) {
    t != [] && TrimsTo(s, t)
  }

  ghost predicate SlashesTo(t: string, p: string) {
    |t| == |p| && forall i :: 0 <= i < |p| ==> p[i] == if t[i] == '\\' then '/' else t[i]
  }

  /** `p` is the text of `s` between its white space, with slashes for backslashes. */
  ghost predicate SpellsPath(s: string, p: string) {
    exists t :: SpellsText(s, t) && SlashesTo(t, p)
  }

  ghost predicate SpellsCount(x: Option<real>, n: real) {
    x == Some(n) && n >= 0.0 && n.Floor as real == n
  }

  ghost predicate SpellsFigure(x: Option<real>, n: real) {
    x == Some(n) && n >= 0.0
  }

  ghost predicate SpellsHead(r: Record, h: Head) {
    && SpellsDigest(r.parityKey, h.parityKey) && SpellsDigest(r.actorRef, h.actorRef)
    && SpellsDigest(r.reportSha256, h.reportSha256) && SpellsText(r.sourceRevision, h.sourceRevision)
    && SpellsText(r.mode, h.mode) && h.mode in {"cold", "warm"}
    && SpellsText(r.outcome, h.outcome) && h.outcome in {"ok", "failed", "blocked"}
  }

  ghost predicate SpellsMeasured(r: Record, m: Measured) {
    && SpellsPath(r.viPath, m.viPath) && SpellsDigest(r.fixtureSha, m.fixtureSha) && SpellsText(r.recipe, m.recipe)
    && SpellsCount(r.previewImageCount, m.previewImageCount) && SpellsFigure(r.wallMs, m.wallMs)
  }

  ghost predicate SpellsField(s: Option<string>, t: string) {
    s.Some? && SpellsText(s.value, t)
  }

  ghost predicate SpellsFingerprint(f: FingerprintInput, g: Fingerprint) {
    && SpellsField(f.actor, g.actor) && SpellsField(f.os, g.os)
    && SpellsField(f.cpuModel, g.cpuModel) && SpellsField(f.labviewBuild, g.labviewBuild)
    && f.role == Some(g.role) && g.role in {"tangled-left", "tangled-right", "decoupled"}
    && f.capturedFrom == Some(g.capturedFrom) && g.capturedFrom in {"in-guest", "in-container", "host"}
    && f.labviewBitness == Some(g.labviewBitness) && g.labviewBitness in {"x86", "x64"}
    && SpellsCount(f.cpuLogical, g.cpuLogical) && SpellsFigure(f.ramTotalMb, g.ramTotalMb)
    && SpellsFigure(f.diskFreeGb, g.diskFreeGb)
  }

  lemma HexDigit(c: char)
    ensures '0' <= c <= '9' || 'a' <= c <= 'f' <==> c in "0123456789abcdef"
  {
  }

  lemma DigestIsHex64(d: string)
    ensures IsDigest(d) <==> IsHex64(d)
  {
    forall i | 0 <= i < |d| ensures '0' <= d[i] <= '9' || 'a' <= d[i] <= 'f' <==> d[i] in "0123456789abcdef" {
      HexDigit(d[i]);
    }
  }

  lemma LoweredTo(c: char, t: char)
    requires '0' <= c <= '9' || 'a' <= c <= 'f'
    ensures c == LowerChar(t) <==> c == t || ('A' <= t <= 'F' && c as int == t as int + 32)
  {
  }

  lemma LowersExactly(t: string, d: string)
    requires IsDigest(d)
    ensures d == Lower(t) <==> LowersTo(t, d)
  {
    if |t| == |d| {
      forall i | 0 <= i < |d|
        ensures d[i] == LowerChar(t[i]) <==> d[i] == t[i] || ('A' <= t[i] <= 'F' && d[i] as int == t[i] as int + 32)
      {
        LoweredTo(d[i], t[i]);
      }
      hide IsDigest, LowerChar;
    }
  }

  lemma DigestExactly(fault: Fault, s: string, d: string)
    ensures RequireSha256(fault, s) == Valid(d) <==> SpellsDigest(s, d)
  {
    DigestIsHex64(d);
    hide IsDigest, IsHex64, Lower, Trim, TrimsTo, LowersTo;
    if IsDigest(d) {
      TrimIsUnique(s, Trim(s));
      LowersExactly(Trim(s), d);
      if t :| TrimsTo(s, t) && LowersTo(t, d) {
        TrimIsUnique(s, t);
      }
    }
  }

  lemma TextExactly(fault: Fault, s: string, t: string)
    ensures RequireNonEmpty(fault, s) == Valid(t) <==> SpellsText(s, t)
  {
    TrimIsUnique(s, t);
    hide Trim, TrimsTo;
  }

  lemma PathExactly(s: string, p: string)
    ensures RequireNonEmpty(ViPath, s).Valid? && ToPosix(RequireNonEmpty(ViPath, s).value) == p <==> SpellsPath(s, p)
  {
    TextExactly(ViPath, s, Trim(s));
    hide Trim, SpellsText;
    if t :| SpellsText(s, t) && SlashesTo(t, p) {
      TextExactly(ViPath, s, t);
      assert ToPosix(t) == p;
    }
  }

  lemma HeadExactly(r: Record, h: Head)
    ensures RequireHead(r) == Valid(h) <==> SpellsHead(r, h)
  {
    DigestExactly(ParityKey, r.parityKey, h.parityKey);
    DigestExactly(ActorRef, r.actorRef, h.actorRef);
    DigestExactly(ReportSha256, r.reportSha256, h.reportSha256);
    TextExactly(SourceRevision, r.sourceRevision, h.sourceRevision);
    TextExactly(Mode, r.mode, h.mode);
    TextExactly(Outcomes, r.outcome, h.outcome);
    assert IsMode(h.mode) <==> h.mode in {"cold", "warm"};
    assert IsOutcome(h.outcome) <==> h.outcome in {"ok", "failed", "blocked"};
    hide RequireSha256, RequireNonEmpty, SpellsDigest, SpellsText, IsMode, IsOutcome;
  }

  lemma MeasuredExactly(r: Record, m: Measured)
    ensures RequireMeasured(r) == Valid(m) <==> SpellsMeasured(r, m)
  {
    PathExactly(r.viPath, m.viPath);
    DigestExactly(FixtureSha, r.fixtureSha, m.fixtureSha);
    TextExactly(Recipe, r.recipe, m.recipe);
    hide RequireSha256, RequireNonEmpty, SpellsDigest, SpellsText, SpellsPath, ToPosix;
  }

  lemma GoodFieldsSpelledOut(raw: Fingerprint, g: Fingerprint)
    ensures RequireGoodFields(raw) == Valid(g) <==> SpellsFingerprint(Supplied(raw), g)
  {
    TextExactly(Actor, raw.actor, g.actor);
    TextExactly(Os, raw.os, g.os);
    TextExactly(CpuModel, raw.cpuModel, g.cpuModel);
    TextExactly(LabviewBuild, raw.labviewBuild, g.labviewBuild);
    assert IsRole(raw.role) <==> raw.role in {"tangled-left", "tangled-right", "decoupled"};
    assert IsCapturedFrom(raw.capturedFrom) <==> raw.capturedFrom in {"in-guest", "in-container", "host"};
    assert IsBitness(raw.labviewBitness) <==> raw.labviewBitness in {"x86", "x64"};
    hide RequireNonEmpty, SpellsText, IsRole, IsCapturedFrom, IsBitness;
  }

  lemma FieldsSupplied(f: FingerprintInput, raw: Fingerprint)
    ensures RequireAllFields(f) == Valid(raw) <==> f == Supplied(raw)
  {
  }

  lemma SomeFieldMissing(f: FingerprintInput, g: Fingerprint)
    requires SpellsFingerprint(f, g)
    ensures RequireAllFields(f).Valid?
  {
    hide SpellsText;
  }

  lemma FingerprintExactly(f: FingerprintInput, g: Fingerprint)
    ensures NormalizeFingerprint(f) == Valid(g) <==> SpellsFingerprint(f, g)
  {
    if RequireAllFields(f).Valid? {
      var raw := RequireAllFields(f).value;
      FieldsSupplied(f, raw);
      GoodFieldsSpelledOut(raw, g);
      hide RequireAllFields, RequireGoodFields, SpellsFingerprint, Supplied;
    } else if SpellsFingerprint(f, g) {
      SomeFieldMissing(f, g);
    }
  }

  /** Everything a record must spell out to be accepted as the entry. */
  ghost predicate Spells(r: Record, e: Entry, id: Fingerprint -> string) {
    && SpellsHead(r, HeadOf(e.row)) && SpellsMeasured(r, MeasuredOf(e.row))
    && SpellsFingerprint(r.fingerprint, e.fingerprint) && e.row.actorRef == id(e.fingerprint)
  }

  /** A record is accepted as an entry if and only if it spells the entry out. */
  lemma AcceptedExactlyWhen(r: Record, e: Entry, id: Fingerprint -> string)
    ensures Accept(r, id) == Valid(e) <==> Spells(r, e, id)
  {
    HeadExactly(r, HeadOf(e.row));
    MeasuredExactly(r, MeasuredOf(e.row));
    FingerprintExactly(r.fingerprint, e.fingerprint);
    RowIsParts(e.row);
    hide RequireHead, RequireMeasured, NormalizeFingerprint, SpellsHead, SpellsMeasured, SpellsFingerprint;
  }

  lemma RowIsParts(row: Row)
    ensures RowOf(HeadOf(row), MeasuredOf(row)) == row
    ensures forall h, m :: RowOf(h, m) == row <==> h == HeadOf(row) && m == MeasuredOf(row)
  {
  }

  // ---- what is refused, and what is left, spelled out ----

  /** A malformed ledger or one with another envelope is refused before the record is looked at. */
  lemma LedgerRefusedExactlyWhen(stored: Stored, record: Record, id: Fingerprint -> string)
    ensures Apply(stored, record, id) == Refused(LedgerMalformed) ==> stored.Malformed?
    ensures stored.Malformed? ==> Apply(stored, record, id) == Refused(LedgerMalformed)
    ensures Apply(stored, record, id) == Refused(LedgerEnvelope) ==> stored.Present?
    ensures stored.Present? ==>
              (Apply(stored, record, id) == Refused(LedgerEnvelope)
               <==> stored.ledger.schema != "vi-history-suite/mirror-benchmark@v1" || stored.ledger.version != 1)
  {
    AcceptFaults(record, id);
    hide Accept, Merge;
  }

  lemma AcceptFaults(record: Record, id: Fingerprint -> string)
    ensures Accept(record, id) != Refused(LedgerMalformed) && Accept(record, id) != Refused(LedgerEnvelope)
  {
    HeadFaults(record);
    MeasuredFaults(record);
    FingerprintFaults(record.fingerprint);
    hide RequireHead, RequireMeasured, NormalizeFingerprint;
  }

  lemma HeadFaults(record: Record)
    ensures RequireHead(record) != Refused(LedgerMalformed) && RequireHead(record) != Refused(LedgerEnvelope)
  {
    hide Trim, Lower, IsDigest, IsMode, IsOutcome;
  }

  lemma MeasuredFaults(record: Record)
    ensures RequireMeasured(record) != Refused(LedgerMalformed) && RequireMeasured(record) != Refused(LedgerEnvelope)
  {
    hide Trim, Lower, IsDigest, ToPosix;
  }

  lemma FingerprintFaults(f: FingerprintInput)
    ensures NormalizeFingerprint(f) != Refused(LedgerMalformed) && NormalizeFingerprint(f) != Refused(LedgerEnvelope)
  {
    hide Trim, IsRole, IsCapturedFrom, IsBitness;
  }

  ghost predicate SameRun(a: Row, b: Row) {
    a.parityKey == b.parityKey && a.actorRef == b.actorRef && a.mode == b.mode && a.sourceRevision == b.sourceRevision
  }

  /** Entry `i` is the last of its run, by parity key, actor, mode and source revision. */
  ghost predicate IsLastOfRun(h: seq<Entry>, i: nat) {
    i < |h| && forall j :: i < j < |h| ==> !SameRun(h[j].row, h[i].row)
  }

  lemma {:induction false} LatestIsLast(h: seq<Entry>, i: nat)
    requires IsLastOfRun(h, i)
    ensures LatestRow(h, KeyOf(h[i].row)) == Some(h[i].row)
  {
    var k := |h| - 1;
    if i < k {
      assert !SameRun(h[k].row, h[i].row);
      assert forall j :: 0 <= j < k ==> h[..k][j] == h[j];
      LatestIsLast(h[..k], i);
    }
  }

  lemma {:induction false} LastOfRun(h: seq<Entry>, key: Key) returns (i: nat)
    requires LatestRow(h, key).Some?
    ensures IsLastOfRun(h, i) && LatestRow(h, key) == Some(h[i].row) && KeyOf(h[i].row) == key
  {
    var k := |h| - 1;
    if KeyOf(h[k].row) == key {
      i := k;
    } else {
      i := LastOfRun(h[..k], key);
      assert forall j :: 0 <= j < k ==> h[..k][j] == h[j];
    }
  }

  /** The runs left by a history are exactly the rows last recorded for their run, each once. */
  lemma RunsAreExactlyTheLatest(h: seq<Entry>, row: Row)
    ensures row in Fold(h).runs <==> exists i: nat :: IsLastOfRun(h, i) && h[i].row == row
    ensures forall i, j :: 0 <= i < j < |Fold(h).runs| ==> !SameRun(Fold(h).runs[i], Fold(h).runs[j])
  {
    FoldReads(h);
    RunsAreUnique(h);
    FirstAppearancesUnique(Keys(h));
    var runs := Fold(h).runs;
    hide Fold;
    if row in runs {
      var n :| 0 <= n < |runs| && runs[n] == row;
      var i := LastOfRun(h, KeyOf(row));
    }
    if i: nat :| IsLastOfRun(h, i) && h[i].row == row {
      LatestIsLast(h, i);
      assert Keys(h)[i] == KeyOf(row);
      assert KeyOf(row) in FirstAppearances(Keys(h));
      var n :| 0 <= n < |runs| && FirstAppearances(Keys(h))[n] == KeyOf(row);
      assert LatestRow(h, KeyOf(runs[n])) == Some(runs[n]);
    }
  }
}
