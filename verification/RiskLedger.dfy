/**
 The risk ledger of scripts/buildRiskLedger.js: entry scores, the coverage builder, the
 ranking, and the strict failure test.
 */
module RiskLedger {
  import opened Prelude
  import opened Ordering

  /** `Other` stands for a tier missing from the table of base scores. */
  datatype Tier = Critical | High | Medium | Low | Info | Other

  datatype Dimension =
    | Verification | RequirementQuality | Coverage | RuntimeFidelity | BoxProvenance | RequirementsDrift
    | PlatformProof | Unlisted

  datatype Entry = Entry(id: string, dimension: Dimension, tier: Tier, score: int, requirementIds: seq<string>,
                         linuxExecutable: bool, selectable: bool)

  const LARGEST_SAFE_INTEGER := 0x1F_FFFF_FFFF_FFFF

  function BaseScore(tier: Tier): nat {
    match tier
    case Critical => 1000
    case High => 800
    case Medium => 500
    case Low => 200
    case Info => 50
    case Other => 0
  }

  function DimensionOrder(d: Dimension): nat {
    match d
    case Verification => 0
    case RequirementQuality => 1
    case Coverage => 2
    case RuntimeFidelity => 3
    case BoxProvenance => 4
    case RequirementsDrift => 5
    case PlatformProof => 6
    case Unlisted => LARGEST_SAFE_INTEGER
  }

  /** To the nearest integer, halves upwards. */
  function Round(x: real): int {
    (x + 0.5).Floor
  }

  /** A value that is not finite is `None`. */
  function ClampSubScore(value: Option<real>): (s: nat)
    ensures s <= 99
    ensures value.None? || value.value <= 0.0 ==> s == 0
    ensures value.Some? && value.value >= 98.5 ==> s == 99
    ensures value.Some? && 0.0 < value.value < 98.5 ==> s as real - 0.5 <= value.value < s as real + 0.5
  {
    if value.None? || value.value <= 0.0 then 0 else Min(99, Round(value.value))
  }

  function MakeEntry(id: string, dimension: Dimension, tier: Tier, subScore: Option<real>,
                     requirementIds: seq<string>, selectable: bool, linuxExecutable: bool): (e: Entry)
    ensures InBand(e)
    ensures IsSelectable(e) <==> selectable && linuxExecutable && dimension != PlatformProof
    ensures dimension == PlatformProof ==> !e.selectable && !e.linuxExecutable
    ensures dimension != PlatformProof ==> e.selectable == selectable && e.linuxExecutable == linuxExecutable
    ensures e.id == id && e.dimension == dimension && e.tier == tier && e.requirementIds == requirementIds
    ensures subScore.None? || subScore.value <= 0.0 ==> e.score in {1000, 800, 500, 200, 50, 0}
  {
    Entry(id, dimension, tier, BaseScore(tier) + ClampSubScore(subScore), requirementIds,
          linuxExecutable && dimension != PlatformProof, selectable && dimension != PlatformProof)
  }

  // ---- the coverage builder ----

  datatype FileRow = FileRow(path: string, requirementIds: seq<string>)

  datatype DebtRow = DebtRow(reqId: string, missingLines: int, missingBranches: int, missingFunctions: int)

  datatype CoverageMap = CoverageMap(mappedBelowThreshold: seq<FileRow>, zeroCoverage: seq<FileRow>,
                                     byRequirement: seq<DebtRow>)

  function DebtOf(row: DebtRow): int {
    row.missingLines + row.missingBranches + row.missingFunctions
  }

  /** Largest debt first, then by requirement id. */
  predicate DebtLe(a: DebtRow, b: DebtRow, collate: (string, string) -> bool) {
    DebtOf(a) > DebtOf(b) || (DebtOf(a) == DebtOf(b) && collate(a.reqId, b.reqId))
  }

  function MappedEntry(file: FileRow): Entry {
    MakeEntry("coverage/mapped-below/" + file.path, Coverage, High, Some(0.0), file.requirementIds, true, true)
  }

  function ZeroEntry(file: FileRow): Entry {
    MakeEntry("coverage/zero-supporting/" + file.path, Coverage, Medium, Some(0.0), file.requirementIds, true, true)
  }

  function DebtShare(debt: int, maxDebt: int): real {
    if maxDebt > 0 then (99 * debt) as real / maxDebt as real else 0.0
  }

  function DebtEntry(row: DebtRow, maxDebt: int): Entry {
    MakeEntry("coverage/debt/" + row.reqId, Coverage, Medium, Some(DebtShare(DebtOf(row), maxDebt)), [row.reqId],
              true, true)
  }

  /** The requirements by falling debt. */
  function Ranked(rows: seq<DebtRow>, collate: (string, string) -> bool): (r: seq<DebtRow>)
    ensures |r| == |rows|
  {
    StableSort(rows, (a, b) => DebtLe(a, b, collate))
  }

  function Largest(ranked: seq<DebtRow>): int {
    if ranked == [] then 0 else DebtOf(ranked[0])
  }

  function Kept(ranked: seq<DebtRow>, limit: nat): seq<DebtRow> {
    ranked[..Min(limit, |ranked|)]
  }

  function DebtEntries(rows: seq<DebtRow>, maxDebt: int): seq<Entry> {
    Map(Filter(rows, row => DebtOf(row) > 0), row => DebtEntry(row, maxDebt))
  }

  function CoverageEntries(coverage: Option<CoverageMap>, limit: nat, collate: (string, string) -> bool): seq<Entry> {
    match coverage
    case None => []
    case Some(m) =>
      var ranked := Ranked(m.byRequirement, collate);
      Map(m.mappedBelowThreshold, MappedEntry) + Map(m.zeroCoverage, ZeroEntry)
      + DebtEntries(Kept(ranked, limit), Largest(ranked))
  }

  lemma DebtEntriesNext(rows: seq<DebtRow>, k: nat, maxDebt: int)
    requires k < |rows|
    ensures DebtEntries(rows[..k + 1], maxDebt)
         == DebtEntries(rows[..k], maxDebt) + if DebtOf(rows[k]) > 0 then [DebtEntry(rows[k], maxDebt)] else []
  {
    TakeNext(rows, k);
    FilterPush(rows[..k], rows[k], row => DebtOf(row) > 0);
    hide DebtEntry;
  }

  method BuildFileEntries(files: seq<FileRow>, f: FileRow -> Entry) returns (entries: seq<Entry>)
    ensures entries == Map(files, f)
  {
    entries := [];
    for i := 0 to |files|
      invariant entries == Map(files[..i], f)
    {
      TakeNext(files, i);
      MapAppend(files[..i], [files[i]], f);
      entries := entries + [f(files[i])];
    }
    TakeAll(files);
  }

  method BuildDebtEntries(rows: seq<DebtRow>, maxDebt: int) returns (entries: seq<Entry>)
    ensures entries == DebtEntries(rows, maxDebt)
  {
    entries := [];
    for i := 0 to |rows|
      invariant entries == DebtEntries(rows[..i], maxDebt)
    {
      DebtEntriesNext(rows, i, maxDebt);
      if DebtOf(rows[i]) <= 0 {
        continue;
      }
      entries := entries + [DebtEntry(rows[i], maxDebt)];
    }
    TakeAll(rows);
  }

  method BuildCoverageEntries(coverage: Option<CoverageMap>, maxCoverageDebtEntries: nat,
                              collate: (string, string) -> bool)
    returns (entries: seq<Entry>)
    ensures entries == CoverageEntries(coverage, maxCoverageDebtEntries, collate)
  {
    if coverage.None? {
      return [];
    }
    var m := coverage.value;
    var mapped := BuildFileEntries(m.mappedBelowThreshold, MappedEntry);
    var zero := BuildFileEntries(m.zeroCoverage, ZeroEntry);
    var byRequirement := Ranked(m.byRequirement, collate);
    var debts := BuildDebtEntries(Kept(byRequirement, maxCoverageDebtEntries), Largest(byRequirement));
    entries := mapped + zero + debts;
  }

  lemma DebtLeIsPreorder(collate: (string, string) -> bool)
    requires TotalPreorder(collate)
    ensures TotalPreorder((a: DebtRow, b: DebtRow) => DebtLe(a, b, collate))
  {
  }

  lemma SplitSorted<T(!new)>(s: seq<T>, k: nat, le: (T, T) -> bool)
    requires SortedBy(le, s) && k <= |s|
    ensures multiset(s[..k]) + multiset(s[k..]) == multiset(s)
    ensures forall a, b :: a in s[..k] && b in s[k..] ==> le(a, b)
  {
    assert s == s[..k] + s[k..];
    forall a, b | a in s[..k] && b in s[k..] ensures le(a, b) {
      var i :| 0 <= i < k && s[i] == a;
      var j :| k <= j < |s| && s[j] == b;
    }
  }

  lemma FirstIsLeast<T(!new)>(s: seq<T>, le: (T, T) -> bool)
    requires TotalPreorder(le) && SortedBy(le, s) && s != []
    ensures forall a :: a in s ==> le(s[0], a)
  {
    assert le(s[0], s[0]);
  }

  /** The rows kept carry the largest debts, and the divisor is the largest of all. */
  lemma KeepsTheLargestDebts(rows: seq<DebtRow>, limit: nat, collate: (string, string) -> bool)
    requires TotalPreorder(collate)
    ensures var ranked := Ranked(rows, collate);
            var kept, dropped := Kept(ranked, limit), ranked[Min(limit, |rows|)..];
            && multiset(kept) + multiset(dropped) == multiset(rows)
            && (forall a, b :: a in kept && b in dropped ==> DebtOf(a) >= DebtOf(b))
            && (forall a, b :: a in kept && b in dropped && DebtOf(a) == DebtOf(b) ==> collate(a.reqId, b.reqId))
            && (forall a :: a in rows ==> DebtOf(a) <= Largest(ranked))
            && (rows != [] ==> exists a :: a in rows && DebtOf(a) == Largest(ranked))
  {
    var le := (a: DebtRow, b: DebtRow) => DebtLe(a, b, collate);
    DebtLeIsPreorder(collate);
    SortSorts(rows, le);
    var ranked := Ranked(rows, collate);
    hide StableSort;
    SplitSorted(ranked, Min(limit, |rows|), le);
    SameMembers(ranked, rows);
    if rows != [] {
      FirstIsLeast(ranked, le);
      assert ranked[0] in rows;
    }
  }

  lemma ShareBounds(debt: int, other: int, maxDebt: int)
    requires 0 < debt <= other <= maxDebt
    ensures 0.0 < DebtShare(debt, maxDebt) <= DebtShare(other, maxDebt) <= 99.0
    ensures debt == maxDebt ==> DebtShare(debt, maxDebt) == 99.0
  {
  }

  /** Among requirements with debt the score follows the debt, and the largest debt scores the top of its band. */
  lemma ScoreFollowsDebt(a: DebtRow, b: DebtRow, maxDebt: int)
    requires 0 < DebtOf(a) <= DebtOf(b) <= maxDebt
    ensures 500 <= DebtEntry(a, maxDebt).score <= DebtEntry(b, maxDebt).score <= 599
    ensures DebtOf(b) == maxDebt ==> DebtEntry(b, maxDebt).score == 599
  {
    ShareBounds(DebtOf(a), DebtOf(b), maxDebt);
    ShareBounds(DebtOf(b), DebtOf(b), maxDebt);
    hide DebtShare;
  }

  /** A debt is the sum of what is missing: each missing line, branch and function counts one. */
  lemma DebtCountsEachUnit(row: DebtRow, n: int)
    ensures DebtOf(DebtRow(row.reqId, 0, 0, 0)) == 0
    ensures DebtOf(row.(missingLines := row.missingLines + n)) == DebtOf(row) + n
    ensures DebtOf(row.(missingBranches := row.missingBranches + n)) == DebtOf(row) + n
    ensures DebtOf(row.(missingFunctions := row.missingFunctions + n)) == DebtOf(row) + n
  {
  }

  ghost predicate IsMappedEntry(e: Entry, file: FileRow) {
    && e.id == "coverage/mapped-below/" + file.path && e.dimension == Coverage && e.tier == High && e.score == 800
    && e.requirementIds == file.requirementIds && e.selectable && e.linuxExecutable
  }

  ghost predicate IsZeroEntry(e: Entry, file: FileRow) {
    && e.id == "coverage/zero-supporting/" + file.path && e.dimension == Coverage && e.tier == Medium && e.score == 500
    && e.requirementIds == file.requirementIds && e.selectable && e.linuxExecutable
  }

  /** The score of a debt: 500, and the nearest whole number to 99 parts of its share of the largest debt. */
  ghost predicate IsDebtEntry(e: Entry, row: DebtRow, largest: int) {
    var debt := row.missingLines + row.missingBranches + row.missingFunctions;
    && e.id == "coverage/debt/" + row.reqId && e.dimension == Coverage && e.tier == Medium
    && e.requirementIds == [row.reqId] && e.selectable && e.linuxExecutable
    && 0 < debt <= largest && 500 <= e.score <= 599
    && (2 * (e.score - 500) - 1) * largest <= 198 * debt < (2 * (e.score - 500) + 1) * largest
  }

  lemma MappedEntryIs(file: FileRow)
    ensures IsMappedEntry(MappedEntry(file), file)
  {
  }

  lemma ZeroEntryIs(file: FileRow)
    ensures IsZeroEntry(ZeroEntry(file), file)
  {
  }

  lemma ProductAsReal(k: int, n: int)
    ensures (k * n) as real == k as real * n as real
  {
  }

  lemma ShareRounds(debt: int, largest: int)
    requires 0 < debt <= largest
    ensures var s := ClampSubScore(Some(DebtShare(debt, largest)));
            (2 * s - 1) * largest <= 198 * debt < (2 * s + 1) * largest
  {
    var x := DebtShare(debt, largest);
    var s: int := ClampSubScore(Some(x));
    var lo, hi := 2 * s - 1, 2 * s + 1;
    ShareBounds(debt, debt, largest);
    ShareTimes(debt, largest);
    hide DebtShare, ClampSubScore;
    ScaledInts(lo, x, hi, largest, 198 * debt);
  }

  lemma ScaledInts(lo: int, x: real, hi: int, largest: int, n: int)
    requires lo as real <= 2.0 * x < hi as real && largest > 0
    requires 2.0 * (x * largest as real) == n as real
    ensures lo * largest <= n < hi * largest
  {
    ScaledBounds(lo, x, hi, largest as real);
    ProductAsReal(lo, largest);
    ProductAsReal(hi, largest);
    var a, b := lo * largest, hi * largest;
    FromReals(a, n, b);
  }

  lemma ShareTimes(debt: int, largest: int)
    requires largest > 0
    ensures DebtShare(debt, largest) * largest as real == (99 * debt) as real
    ensures 2.0 * (DebtShare(debt, largest) * largest as real) == (198 * debt) as real
  {
  }

  lemma FromReals(a: int, b: int, c: int)
    requires a as real <= b as real < c as real
    ensures a <= b < c
  {
  }

  lemma ScaledBounds(a: int, x: real, b: int, l: real)
    requires a as real <= 2.0 * x < b as real && l > 0.0
    ensures a as real * l <= 2.0 * (x * l) < b as real * l
  {
    TimesPositive(a as real, 2.0 * x, l);
    TimesPositiveStrict(2.0 * x, b as real, l);
    assert (2.0 * x) * l == 2.0 * (x * l);
  }

  lemma TimesPositive(a: real, b: real, l: real)
    requires a <= b && l > 0.0
    ensures a * l <= b * l
  {
  }

  lemma TimesPositiveStrict(a: real, b: real, l: real)
    requires a < b && l > 0.0
    ensures a * l < b * l
  {
  }

  lemma DebtEntryIs(row: DebtRow, largest: int)
    requires 0 < DebtOf(row) <= largest
    ensures IsDebtEntry(DebtEntry(row, largest), row, largest)
  {
    ShareRounds(DebtOf(row), largest);
    hide DebtShare, ClampSubScore;
  }

  lemma MemberOfMap<A, B>(s: seq<A>, f: A -> B, y: B)
    ensures y in Map(s, f) <==> exists i :: 0 <= i < |s| && f(s[i]) == y
  {
    if y in Map(s, f) {
      var i :| 0 <= i < |s| && Map(s, f)[i] == y;
    }
    if exists i :: 0 <= i < |s| && f(s[i]) == y {
      var i :| 0 <= i < |s| && f(s[i]) == y;
      assert Map(s, f)[i] == y;
    }
  }

  lemma DebtEntriesAre(rows: seq<DebtRow>, largest: int)
    requires forall row :: row in rows ==> DebtOf(row) <= largest
    ensures forall e :: e in DebtEntries(rows, largest) ==> exists row :: row in rows && IsDebtEntry(e, row, largest)
    ensures forall row :: row in rows && DebtOf(row) > 0 ==>
              exists e :: e in DebtEntries(rows, largest) && IsDebtEntry(e, row, largest)
  {
    var kept := Filter(rows, row => DebtOf(row) > 0);
    hide Filter;
    forall e | e in DebtEntries(rows, largest) ensures exists row :: row in rows && IsDebtEntry(e, row, largest) {
      MemberOfMap(kept, row => DebtEntry(row, largest), e);
      var i :| 0 <= i < |kept| && DebtEntry(kept[i], largest) == e;
      FilterMember(rows, row => DebtOf(row) > 0, kept[i]);
      DebtEntryIs(kept[i], largest);
    }
    forall row | row in rows && DebtOf(row) > 0
      ensures exists e :: e in DebtEntries(rows, largest) && IsDebtEntry(e, row, largest)
    {
      FilterMember(rows, row => DebtOf(row) > 0, row);
      var i :| 0 <= i < |kept| && kept[i] == row;
      MemberOfMap(kept, row => DebtEntry(row, largest), DebtEntry(row, largest));
      DebtEntryIs(row, largest);
    }
  }

  /** An entry for a mapped file below the threshold, for an uncovered file, or for a requirement with debt. */
  ghost predicate IsExplained(e: Entry, m: CoverageMap, kept: seq<DebtRow>, largest: int) {
    || (exists file :: file in m.mappedBelowThreshold && IsMappedEntry(e, file))
    || (exists file :: file in m.zeroCoverage && IsZeroEntry(e, file))
    || (exists row :: row in kept && IsDebtEntry(e, row, largest))
  }

  lemma CoverageExplained(m: CoverageMap, kept: seq<DebtRow>, largest: int, e: Entry)
    requires forall row :: row in kept ==> DebtOf(row) <= largest
    requires e in Map(m.mappedBelowThreshold, MappedEntry) || e in Map(m.zeroCoverage, ZeroEntry) || e in DebtEntries(kept, largest)
    ensures IsExplained(e, m, kept, largest)
  {
    DebtEntriesAre(kept, largest);
    FileEntriesAre(m);
    hide DebtEntries, IsMappedEntry, IsZeroEntry, IsDebtEntry, MappedEntry, ZeroEntry, DebtOf;
  }

  lemma KeptAreRows(rows: seq<DebtRow>, limit: nat, collate: (string, string) -> bool)
    requires TotalPreorder(collate)
    ensures forall row :: row in Kept(Ranked(rows, collate), limit) ==> row in rows
  {
    DebtLeIsPreorder(collate);
    SortSorts(rows, (a: DebtRow, b: DebtRow) => DebtLe(a, b, collate));
    SameMembers(Ranked(rows, collate), rows);
  }

  lemma KeptDebts(m: CoverageMap, limit: nat, collate: (string, string) -> bool)
    requires TotalPreorder(collate)
    ensures var ranked := Ranked(m.byRequirement, collate);
            forall row :: row in Kept(ranked, limit) ==> DebtOf(row) <= Largest(ranked)
  {
    KeepsTheLargestDebts(m.byRequirement, limit, collate);
    KeptAreRows(m.byRequirement, limit, collate);
  }

  /** The coverage builder emits nothing but such entries. */
  lemma CoverageEntriesAreExplained(m: CoverageMap, limit: nat, collate: (string, string) -> bool)
    requires TotalPreorder(collate)
    ensures var ranked := Ranked(m.byRequirement, collate);
            forall e :: e in CoverageEntries(Some(m), limit, collate) ==> IsExplained(e, m, Kept(ranked, limit), Largest(ranked))
  {
    var ranked := Ranked(m.byRequirement, collate);
    KeptDebts(m, limit, collate);
    CoverageParts(m, limit, collate);
    forall e | e in CoverageEntries(Some(m), limit, collate) ensures IsExplained(e, m, Kept(ranked, limit), Largest(ranked)) {
      hide *;
      CoverageExplained(m, Kept(ranked, limit), Largest(ranked), e);
    }
  }

  /** And it emits one for every mapped file below the threshold, every uncovered file, and every kept requirement with debt. */
  lemma CoverageEntriesAreComplete(m: CoverageMap, limit: nat, collate: (string, string) -> bool)
    requires TotalPreorder(collate)
    ensures var entries, ranked := CoverageEntries(Some(m), limit, collate), Ranked(m.byRequirement, collate);
            && (forall file :: file in m.mappedBelowThreshold ==> exists e :: e in entries && IsMappedEntry(e, file))
            && (forall file :: file in m.zeroCoverage ==> exists e :: e in entries && IsZeroEntry(e, file))
            && (forall row :: row in Kept(ranked, limit) && DebtOf(row) > 0 ==>
                  exists e :: e in entries && IsDebtEntry(e, row, Largest(ranked)))
  {
    var entries, ranked := CoverageEntries(Some(m), limit, collate), Ranked(m.byRequirement, collate);
    var kept, largest := Kept(ranked, limit), Largest(ranked);
    KeptDebts(m, limit, collate);
    CoverageParts(m, limit, collate);
    DebtEntriesAre(kept, largest);
    FileEntriesAre(m);
    hide *;
    forall file | file in m.mappedBelowThreshold ensures exists e :: e in entries && IsMappedEntry(e, file) {
      var e :| e in Map(m.mappedBelowThreshold, MappedEntry) && IsMappedEntry(e, file);
    }
    forall file | file in m.zeroCoverage ensures exists e :: e in entries && IsZeroEntry(e, file) {
      var e :| e in Map(m.zeroCoverage, ZeroEntry) && IsZeroEntry(e, file);
    }
    forall row | row in kept && DebtOf(row) > 0 ensures exists e :: e in entries && IsDebtEntry(e, row, largest) {
      var e :| e in DebtEntries(kept, largest) && IsDebtEntry(e, row, largest);
    }
  }

  lemma CoverageParts(m: CoverageMap, limit: nat, collate: (string, string) -> bool)
    ensures var ranked := Ranked(m.byRequirement, collate);
            forall e :: e in CoverageEntries(Some(m), limit, collate)
              <==> || e in Map(m.mappedBelowThreshold, MappedEntry) || e in Map(m.zeroCoverage, ZeroEntry)
                   || e in DebtEntries(Kept(ranked, limit), Largest(ranked))
  {
    hide Ranked, Kept, Largest, MappedEntry, ZeroEntry, DebtEntries;
  }

  lemma FileEntriesAre(m: CoverageMap)
    ensures forall e :: e in Map(m.mappedBelowThreshold, MappedEntry) ==>
              exists file :: file in m.mappedBelowThreshold && IsMappedEntry(e, file)
    ensures forall e :: e in Map(m.zeroCoverage, ZeroEntry) ==> exists file :: file in m.zeroCoverage && IsZeroEntry(e, file)
    ensures forall file :: file in m.mappedBelowThreshold ==>
              exists e :: e in Map(m.mappedBelowThreshold, MappedEntry) && IsMappedEntry(e, file)
    ensures forall file :: file in m.zeroCoverage ==> exists e :: e in Map(m.zeroCoverage, ZeroEntry) && IsZeroEntry(e, file)
  {
    forall file ensures IsMappedEntry(MappedEntry(file), file) && IsZeroEntry(ZeroEntry(file), file) {
      MappedEntryIs(file);
      ZeroEntryIs(file);
    }
    hide MappedEntry, ZeroEntry, IsMappedEntry, IsZeroEntry;
    forall e | e in Map(m.mappedBelowThreshold, MappedEntry)
      ensures exists file :: file in m.mappedBelowThreshold && IsMappedEntry(e, file)
    {
      MemberOfMap(m.mappedBelowThreshold, MappedEntry, e);
    }
    forall e | e in Map(m.zeroCoverage, ZeroEntry) ensures exists file :: file in m.zeroCoverage && IsZeroEntry(e, file) {
      MemberOfMap(m.zeroCoverage, ZeroEntry, e);
    }
    forall file | file in m.mappedBelowThreshold
      ensures exists e :: e in Map(m.mappedBelowThreshold, MappedEntry) && IsMappedEntry(e, file)
    {
      MemberOfMap(m.mappedBelowThreshold, MappedEntry, MappedEntry(file));
    }
    forall file | file in m.zeroCoverage ensures exists e :: e in Map(m.zeroCoverage, ZeroEntry) && IsZeroEntry(e, file) {
      MemberOfMap(m.zeroCoverage, ZeroEntry, ZeroEntry(file));
    }
  }

  lemma CoverageEntriesInBand(coverage: Option<CoverageMap>, limit: nat, collate: (string, string) -> bool)
    ensures forall e :: e in CoverageEntries(coverage, limit, collate) ==> InBand(e) && IsSelectable(e)
  {
  }

  /** A mapped file below the threshold outscores every debt, and no debt scores below an uncovered file. */
  lemma CoverageScoresInOrder(mapped: FileRow, zero: FileRow, row: DebtRow, maxDebt: int)
    ensures MappedEntry(mapped).score > DebtEntry(row, maxDebt).score >= ZeroEntry(zero).score
  {
    assert Round(0.0) == 0;
  }

  // ---- bands ----

  function Rank(tier: Tier): nat {
    match tier
    case Critical => 0
    case High => 1
    case Medium => 2
    case Low => 3
    case Info => 4
    case Other => 5
  }

  /** The score is the tier's base and at most 99 more. */
  predicate InBand(e: Entry) {
    BaseScore(e.tier) <= e.score <= BaseScore(e.tier) + 99
  }

  /** Where the bands are. */
  lemma BandsAre(e: Entry)
    requires InBand(e)
    ensures e.tier == Critical ==> 1000 <= e.score <= 1099
    ensures e.tier == High ==> 800 <= e.score <= 899
    ensures e.tier == Medium ==> 500 <= e.score <= 599
    ensures e.tier == Low ==> 200 <= e.score <= 299
    ensures e.tier == Info ==> 50 <= e.score <= 149
    ensures e.tier == Other ==> 0 <= e.score <= 99
  {
  }

  /** Bands never meet, and a higher tier always outscores a lower one, unless an unlisted tier meets INFO. */
  lemma BandsAreOrdered(a: Entry, b: Entry)
    requires InBand(a) && InBand(b)
    requires !(a.tier in {Info, Other} && b.tier in {Info, Other})
    ensures a.score > b.score ==> Rank(a.tier) <= Rank(b.tier)
    ensures Rank(a.tier) < Rank(b.tier) ==> a.score > b.score
  {
  }

  /** An unlisted tier can outscore INFO. */
  lemma UnlistedTierOverlapsInfo()
    ensures exists a, b :: InBand(a) && InBand(b) && a.tier == Other && b.tier == Info && a.score > b.score
  {
    var a := MakeEntry("a", Verification, Other, Some(99.0), [], true, true);
    var b := MakeEntry("b", Verification, Info, Some(0.0), [], true, true);
    assert InBand(a) && InBand(b) && a.score > b.score;
  }

  // ---- the ranking ----

  /** A comparison that says `a` does not come after `b`. */
  predicate EntryLe(a: Entry, b: Entry, collate: (string, string) -> bool) {
    if a.score != b.score then a.score > b.score
    else if DimensionOrder(a.dimension) != DimensionOrder(b.dimension) then
      DimensionOrder(a.dimension) < DimensionOrder(b.dimension)
    else collate(a.id, b.id)
  }

  predicate IsSelectable(e: Entry) {
    e.selectable && e.linuxExecutable && e.dimension != PlatformProof
  }

  datatype Ledger = Ledger(entries: seq<Entry>, nextTarget: Option<string>, selectable: seq<string>,
                           parked: seq<string>, countsByDimension: map<Dimension, nat>,
                           countsByTier: map<Tier, nat>)

  function Sorted(entries: seq<Entry>, collate: (string, string) -> bool): (r: seq<Entry>)
    ensures |r| == |entries|
  {
    StableSort(entries, (a, b) => EntryLe(a, b, collate))
  }

  function Ids(entries: seq<Entry>): seq<string> {
    Map(entries, (e: Entry) => e.id)
  }

  function Selectable(entries: seq<Entry>): seq<Entry> {
    Filter(entries, IsSelectable)
  }

  function Parked(entries: seq<Entry>): seq<Entry> {
    Filter(entries, e => !IsSelectable(e))
  }

  /** Every key that occurs, with the number of times it does. */
  ghost predicate Tallies<K(!new)>(counts: map<K, nat>, keys: seq<K>) {
    && (forall k :: k in counts <==> k in keys)
    && (forall k :: k in counts ==> counts[k] == multiset(keys)[k])
  }

  method TallyBy<K(==, !new)>(keys: seq<K>) returns (counts: map<K, nat>)
    ensures Tallies(counts, keys)
  {
    counts := map[];
    for i := 0 to |keys|
      invariant Tallies(counts, keys[..i])
    {
      var value := keys[i];
      TakeNext(keys, i);
      assert multiset(keys[..i + 1]) == multiset(keys[..i]) + multiset{value};
      assert value !in keys[..i] ==> multiset(keys[..i])[value] == 0;
      counts := counts[value := (if value in counts then counts[value] else 0) + 1];
    }
    TakeAll(keys);
  }

  predicate IsHighRisk(e: Entry) {
    e.tier == Critical || e.tier == High
  }

  predicate HasSelectableHighRisk(entries: seq<Entry>): (fails: bool)
    ensures fails <==> exists e :: e in entries && e.selectable && e.linuxExecutable && e.dimension != PlatformProof
                         && e.tier in {Critical, High}
  {
    exists i :: 0 <= i < |entries| && IsSelectable(entries[i]) && IsHighRisk(entries[i])
  }

  lemma EntryLeIsPreorder(collate: (string, string) -> bool)
    requires TotalPreorder(collate)
    ensures TotalPreorder((a: Entry, b: Entry) => EntryLe(a, b, collate))
  {
    hide DimensionOrder;
  }

  /** Ranking loses and invents no entry: the selectable and the parked ones together are those put in. */
  lemma RankingConserves(entries: seq<Entry>, collate: (string, string) -> bool)
    requires TotalPreorder(collate)
    ensures var r := Sorted(entries, collate); multiset(Selectable(r)) + multiset(Parked(r)) == multiset(entries)
  {
    EntryLeIsPreorder(collate);
    SortSorts(entries, (a: Entry, b: Entry) => EntryLe(a, b, collate));
    FilterPartitions(Sorted(entries, collate), IsSelectable, e => !IsSelectable(e));
  }

  /** The next target scores at least as high as every selectable entry and is no platform-proof entry. */
  lemma NextTargetIsMaximal(entries: seq<Entry>, collate: (string, string) -> bool)
    requires TotalPreorder(collate)
    ensures var s := Selectable(Sorted(entries, collate));
            && (s == [] <==> forall e :: e in entries ==> !IsSelectable(e))
            && (s != [] ==>
                  && s[0] in entries && IsSelectable(s[0]) && s[0].dimension != PlatformProof
                  && forall e :: e in entries && IsSelectable(e) ==> EntryLe(s[0], e, collate) && s[0].score >= e.score)
  {
    var le := (a: Entry, b: Entry) => EntryLe(a, b, collate);
    EntryLeIsPreorder(collate);
    SortSorts(entries, le);
    var sorted := Sorted(entries, collate);
    SameMembers(sorted, entries);
    FilterSorted(sorted, IsSelectable, le);
    var s := Selectable(sorted);
    forall e ensures e in s <==> e in entries && IsSelectable(e) {
      FilterMember(sorted, IsSelectable, e);
    }
    if s != [] {
      assert s[0] in s;
      forall e | e in s ensures EntryLe(s[0], e, collate) {
        assert le(s[0], s[0]);
      }
    } else {
      forall e | e in entries ensures !IsSelectable(e) {
        assert e !in s;
      }
    }
  }

  // ---- the ranking, spelled out ----

  /** The order in which dimensions break a tie; one that is not listed comes last. */
  const TIE_BREAK := [Verification, RequirementQuality, Coverage, RuntimeFidelity, BoxProvenance, RequirementsDrift, PlatformProof]

  /** Some start of the list holds `d` and not `e`. */
  ghost predicate Earlier(d: Dimension, e: Dimension) {
    exists k :: 0 <= k <= |TIE_BREAK| && d in TIE_BREAK[..k] && e !in TIE_BREAK[..k]
  }

  /** `e` does not belong before `a`: it scores no higher, and on equal scores neither its dimension nor then its id comes first. */
  ghost predicate NotOutranked(a: Entry, e: Entry, collate: (string, string) -> bool) {
    && a.score >= e.score
    && (a.score == e.score ==> !Earlier(e.dimension, a.dimension))
    && (a.score == e.score && a.dimension == e.dimension ==> collate(a.id, e.id))
  }

  lemma ListedAt(k: nat)
    requires k < 7
    ensures |TIE_BREAK| == 7 && DimensionOrder(TIE_BREAK[k]) == k
  {
  }

  lemma {:induction false} ListedBefore(d: Dimension, k: nat)
    requires k <= 7
    ensures d in TIE_BREAK[..k] <==> DimensionOrder(d) < k
  {
    if k > 0 {
      ListedBefore(d, k - 1);
      ListedAt(k - 1);
      TakeNext(TIE_BREAK, k - 1);
      SameOrderSameDimension(d, TIE_BREAK[k - 1]);
      hide DimensionOrder;
    }
  }

  lemma SameOrderSameDimension(d: Dimension, e: Dimension)
    ensures DimensionOrder(d) == DimensionOrder(e) <==> d == e
  {
  }

  lemma EarlierIs(d: Dimension, e: Dimension)
    ensures Earlier(d, e) <==> DimensionOrder(d) < DimensionOrder(e)
  {
    forall k | 0 <= k <= 7
      ensures (d in TIE_BREAK[..k] <==> DimensionOrder(d) < k) && (e in TIE_BREAK[..k] <==> DimensionOrder(e) < k)
    {
      ListedBefore(d, k);
      ListedBefore(e, k);
    }
    var k := DimensionOrder(d) + 1;
    assert d != Unlisted ==> k <= 7 && d in TIE_BREAK[..k];
    assert DimensionOrder(d) < DimensionOrder(e) ==> d != Unlisted && e !in TIE_BREAK[..k];
  }

  lemma LeIsNotOutranked(a: Entry, e: Entry, collate: (string, string) -> bool)
    requires EntryLe(a, e, collate)
    ensures NotOutranked(a, e, collate)
  {
    EarlierIs(e.dimension, a.dimension);
    hide Earlier;
  }

  /** No entry of the ranking is outranked by one behind it. */
  lemma RankingIsInOrder(entries: seq<Entry>, i: nat, j: nat, collate: (string, string) -> bool)
    requires TotalPreorder(collate) && i < j < |entries|
    ensures NotOutranked(Sorted(entries, collate)[i], Sorted(entries, collate)[j], collate)
  {
    var le := (a: Entry, b: Entry) => EntryLe(a, b, collate);
    EntryLeIsPreorder(collate);
    SortSorts(entries, le);
    LeIsNotOutranked(Sorted(entries, collate)[i], Sorted(entries, collate)[j], collate);
  }

  /** Selectable, can run on Linux, and is no platform proof. */
  ghost predicate IsOpenTarget(e: Entry) {
    e.selectable && e.linuxExecutable && e.dimension != PlatformProof
  }

  /** The next target is the id of an open target that no open target outranks, if there is any. */
  ghost predicate IsNextTarget(target: Option<string>, entries: seq<Entry>, collate: (string, string) -> bool) {
    match target
    case None => forall e :: e in entries ==> !IsOpenTarget(e)
    case Some(id) =>
      exists a :: a in entries && a.id == id && IsOpenTarget(a)
        && forall e :: e in entries && IsOpenTarget(e) && e != a ==> NotOutranked(a, e, collate)
  }

  lemma NextTargetSpelledOut(entries: seq<Entry>, collate: (string, string) -> bool)
    requires TotalPreorder(collate)
    ensures var s := Selectable(Sorted(entries, collate));
            IsNextTarget(if s == [] then None else Some(s[0].id), entries, collate)
  {
    var s := Selectable(Sorted(entries, collate));
    NextTargetIsMaximal(entries, collate);
    if s != [] {
      forall e | e in entries && IsOpenTarget(e) && e != s[0] ensures NotOutranked(s[0], e, collate) {
        LeIsNotOutranked(s[0], e, collate);
      }
      hide Sorted, Selectable, NotOutranked;
      assert s[0] in entries && IsOpenTarget(s[0]);
    }
  }

  /** The strict test fails exactly when the next target itself is CRITICAL or HIGH. */
  lemma StrictFailsOnTheNextTarget(entries: seq<Entry>, collate: (string, string) -> bool)
    requires TotalPreorder(collate)
    requires forall e :: e in entries ==> InBand(e)
    ensures var r := Sorted(entries, collate);
            HasSelectableHighRisk(r) <==> Selectable(r) != [] && IsHighRisk(Selectable(r)[0])
  {
    var r := Sorted(entries, collate);
    NextTargetIsMaximal(entries, collate);
    EntryLeIsPreorder(collate);
    SortSorts(entries, (a: Entry, b: Entry) => EntryLe(a, b, collate));
    SameMembers(r, entries);
    var s := Selectable(r);
    if HasSelectableHighRisk(r) {
      var i :| 0 <= i < |r| && IsSelectable(r[i]) && IsHighRisk(r[i]);
      assert r[i] in entries && s != [];
      BandsAreOrdered(s[0], r[i]);
    } else if s != [] {
      assert s[0] in r;
    }
  }

  /** Entries that tie in score, dimension and id are equal. */
  ghost predicate NoTies(a: seq<Entry>, collate: (string, string) -> bool) {
    forall x, y :: x in a && y in a && EntryLe(x, y, collate) && EntryLe(y, x, collate) ==> x == y
  }

  lemma DeterministicWithoutTies(a: seq<Entry>, b: seq<Entry>, collate: (string, string) -> bool)
    requires TotalPreorder(collate) && multiset(a) == multiset(b) && NoTies(a, collate)
    ensures Sorted(a, collate) == Sorted(b, collate)
  {
    var le := (x: Entry, y: Entry) => EntryLe(x, y, collate);
    EntryLeIsPreorder(collate);
    SortSorts(a, le);
    SortSorts(b, le);
    SameMembers(Sorted(a, collate), a);
    SortedUnique(Sorted(a, collate), Sorted(b, collate), le);
  }

  /** With ids that only tie when the entries are the same, the ranking does not depend on the order the builders emit entries in. */
  lemma RankingIsDeterministic(a: seq<Entry>, b: seq<Entry>, collate: (string, string) -> bool)
    requires TotalPreorder(collate) && multiset(a) == multiset(b)
    requires forall x, y :: x in a && y in a && collate(x.id, y.id) && collate(y.id, x.id) ==> x == y
    ensures Sorted(a, collate) == Sorted(b, collate)
  {
    DeterministicWithoutTies(a, b, collate);
  }

  lemma SortedTieKeepsOrder(x: Entry, y: Entry, rest: seq<Entry>, collate: (string, string) -> bool)
    requires TotalPreorder(collate) && EntryLe(x, y, collate) && EntryLe(y, x, collate)
    ensures Filter(Sorted([x, y] + rest, collate), e => e == x || e == y) == [x, y] + Filter(rest, e => e == x || e == y)
  {
    var p := (e: Entry) => e == x || e == y;
    EntryLeIsPreorder(collate);
    SortIsStable([x, y] + rest, (a: Entry, b: Entry) => EntryLe(a, b, collate), p);
    FilterAppend([x, y], rest, p);
    assert [x, y] == [x] + [y];
    FilterPair(x, y, p);
  }

  /** Two tied entries that differ are ranked in the order they were emitted in. */
  lemma TiesFollowTheBuilders(x: Entry, y: Entry, rest: seq<Entry>, collate: (string, string) -> bool)
    requires TotalPreorder(collate) && EntryLe(x, y, collate) && EntryLe(y, x, collate) && x != y
    ensures Sorted([x, y] + rest, collate) != Sorted([y, x] + rest, collate)
  {
    var p, q := (e: Entry) => e == x || e == y, (e: Entry) => e == y || e == x;
    SortedTieKeepsOrder(x, y, rest, collate);
    SortedTieKeepsOrder(y, x, rest, collate);
    SameFilter(Sorted([y, x] + rest, collate), p, q);
    hide Filter, Sorted;
    assert ([x, y] + Filter(rest, p))[0] == x && ([y, x] + Filter(rest, q))[0] == y;
  }

  lemma {:induction false} SameFilter(s: seq<Entry>, p: Entry -> bool, q: Entry -> bool)
    requires forall e :: p(e) == q(e)
    ensures Filter(s, p) == Filter(s, q)
  {
    if s != [] {
      SameFilter(s[..|s| - 1], p, q);
    }
  }

  lemma PullOut(a: seq<Entry>, x: Entry) returns (rest: seq<Entry>)
    requires x in a
    ensures multiset(a) == multiset(rest) + multiset{x}
  {
    var i :| 0 <= i < |a| && a[i] == x;
    MultisetWithout(a, i);
    rest := Without(a, i);
  }

  lemma PutTwo(x: Entry, y: Entry, rest: seq<Entry>)
    ensures multiset([x, y] + rest) == multiset(rest) + multiset{y} + multiset{x}
  {
    assert multiset([x, y]) == multiset{y} + multiset{x};
  }

  lemma TakeTwo(a: seq<Entry>, x: Entry, y: Entry) returns (rest: seq<Entry>)
    requires x in a && y in a && x != y
    ensures multiset([x, y] + rest) == multiset(a) && multiset([y, x] + rest) == multiset(a)
  {
    var one := PullOut(a, x);
    assert y in multiset(a) && y in multiset(one);
    rest := PullOut(one, y);
    PutTwo(x, y, rest);
    PutTwo(y, x, rest);
  }

  /** The ranking does not depend on the order of the entries if and only if no two different ones tie. */
  lemma RankingIsDeterministicExactlyWhen(a: seq<Entry>, collate: (string, string) -> bool)
    requires TotalPreorder(collate)
    ensures (forall b :: multiset(b) == multiset(a) ==> Sorted(b, collate) == Sorted(a, collate)) <==> NoTies(a, collate)
  {
    if NoTies(a, collate) {
      forall b | multiset(b) == multiset(a) ensures Sorted(b, collate) == Sorted(a, collate) {
        DeterministicWithoutTies(a, b, collate);
      }
    } else {
      var x, y :| x in a && y in a && EntryLe(x, y, collate) && EntryLe(y, x, collate) && x != y;
      var rest := TakeTwo(a, x, y);
      TiesFollowTheBuilders(x, y, rest, collate);
    }
  }

  ghost predicate AllInBand(entries: seq<Entry>) {
    forall e :: e in entries ==> InBand(e)
  }

  /** The strict test on the ledger that is built, when the other builders score in their bands as `MakeEntry` does. */
  lemma StrictFailsOnTheBuiltLedger(before: seq<Entry>, coverage: Option<CoverageMap>, limit: nat, after: seq<Entry>,
                                    collate: (string, string) -> bool)
    requires TotalPreorder(collate) && AllInBand(before) && AllInBand(after)
    ensures var r := Sorted(before + CoverageEntries(coverage, limit, collate) + after, collate);
            HasSelectableHighRisk(r) <==> Selectable(r) != [] && IsHighRisk(Selectable(r)[0])
  {
    CoverageEntriesInBand(coverage, limit, collate);
    hide CoverageEntries, InBand;
    StrictFailsOnTheNextTarget(before + CoverageEntries(coverage, limit, collate) + after, collate);
  }

  /** `before` and `after` are the entries of the builders that run before and after the coverage builder. */
  method BuildRiskLedger(before: seq<Entry>, coverage: Option<CoverageMap>, maxCoverageDebtEntries: nat,
                         after: seq<Entry>, collate: (string, string) -> bool)
    returns (ledger: Ledger)
    ensures ledger.entries
         == Sorted(before + CoverageEntries(coverage, maxCoverageDebtEntries, collate) + after, collate)
    ensures ledger.selectable == Ids(Selectable(ledger.entries)) && ledger.parked == Ids(Parked(ledger.entries))
    ensures ledger.nextTarget == if ledger.selectable == [] then None else Some(ledger.selectable[0])
    ensures Tallies(ledger.countsByDimension, Map(ledger.entries, (e: Entry) => e.dimension))
    ensures Tallies(ledger.countsByTier, Map(ledger.entries, (e: Entry) => e.tier))
    ensures TotalPreorder(collate) && AllInBand(before) && AllInBand(after) ==>
              (HasSelectableHighRisk(ledger.entries) <==> ledger.nextTarget.Some? && IsHighRisk(Selectable(ledger.entries)[0]))
    ensures TotalPreorder(collate) ==>
              && IsNextTarget(ledger.nextTarget, before + CoverageEntries(coverage, maxCoverageDebtEntries, collate) + after, collate)
              && forall i, j :: 0 <= i < j < |ledger.entries| ==> NotOutranked(ledger.entries[i], ledger.entries[j], collate)
  {
    if TotalPreorder(collate) {
      var all := before + CoverageEntries(coverage, maxCoverageDebtEntries, collate) + after;
      NextTargetSpelledOut(all, collate);
      forall i, j | 0 <= i < j < |all| ensures NotOutranked(Sorted(all, collate)[i], Sorted(all, collate)[j], collate) {
        RankingIsInOrder(all, i, j, collate);
      }
    }
    if TotalPreorder(collate) && AllInBand(before) && AllInBand(after) {
      StrictFailsOnTheBuiltLedger(before, coverage, maxCoverageDebtEntries, after, collate);
    }
    hide Sorted, CoverageEntries, Selectable, Parked, HasSelectableHighRisk, IsHighRisk, AllInBand, IsNextTarget, NotOutranked;
    var middle := BuildCoverageEntries(coverage, maxCoverageDebtEntries, collate);
    var entries := Sorted(before + middle + after, collate);
    var selectable := Ids(Selectable(entries));
    var parked := Ids(Parked(entries));
    var byDimension := TallyBy(Map(entries, (e: Entry) => e.dimension));
    var byTier := TallyBy(Map(entries, (e: Entry) => e.tier));
    ledger := Ledger(entries, if selectable == [] then None else Some(selectable[0]), selectable, parked,
                     byDimension, byTier);
  }
}
