/**
 The phase join of scripts/agentLaunchGate.js: which phase a time falls in, and how launch
 contention is counted by phase and resource pressure.
 */
module PhaseJoin {
  import opened Prelude
  import opened Ordering

  /** A `ts` field: absent or empty, present but no date, or a time. */
  datatype Stamp = Missing | Unparsable | At(time: int)

  datatype Marker = Marker(ts: Stamp, phase: string, name: string)

  const UNKNOWN := "unknown"

  function NameOf(m: Marker): string {
    if m.phase != "" then m.phase else if m.name != "" then m.name else UNKNOWN
  }

  predicate Timed(m: Marker) {
    m.ts.At?
  }

  predicate MarkerLe(a: Marker, b: Marker) {
    !Timed(a) || (Timed(b) && a.ts.time <= b.ts.time)
  }

  predicate By(m: Marker, t: int) {
    Timed(m) && m.ts.time <= t
  }

  method PhaseAt(ts: Stamp, phaseMarkers: seq<Marker>) returns (name: string)
    ensures name == Phase(ts, phaseMarkers)
  {
    if !ts.At? {
      return UNKNOWN;
    }
    var t := ts.time;
    var markers := StableSort(Filter(phaseMarkers, Timed), MarkerLe);
    ScanIsLatest(phaseMarkers, t);
    SortedMarkers(phaseMarkers);
    name := UNKNOWN;
    var i := 0;
    while i < |markers|
      invariant i <= |markers|
      invariant forall j :: 0 <= j < i ==> By(markers[j], t)
      invariant name == if i == 0 then UNKNOWN else NameOf(markers[i - 1])
    {
      if markers[i].ts.time <= t {
        name := NameOf(markers[i]);
      } else {
        break;
      }
      i := i + 1;
    }
    ScanStops(markers, i, t);
  }

  // ---- the phase without sorting ----

  /** Walks the markers as given and keeps the latest so far; a tie goes to the later one. */
  function Latest(markers: seq<Marker>, t: int): Option<Marker> {
    if markers == [] then None
    else
      var best, m := Latest(markers[..|markers| - 1], t), markers[|markers| - 1];
      if By(m, t) && (best.None? || MarkerLe(best.value, m)) then Some(m) else best
  }

  function Phase(ts: Stamp, markers: seq<Marker>): string {
    if !ts.At? then UNKNOWN
    else
      match Latest(markers, ts.time)
      case None => UNKNOWN
      case Some(m) => NameOf(m)
  }

  /** Marker `i` is in time, no marker in time is later, and none as late stands behind it. */
  ghost predicate IsLatest(markers: seq<Marker>, t: int, i: nat) {
    && i < |markers| && By(markers[i], t)
    && forall j :: 0 <= j < |markers| && By(markers[j], t) ==>
         markers[j].ts.time < markers[i].ts.time || (markers[j].ts.time == markers[i].ts.time && j <= i)
  }

  lemma {:induction false} NoneInTime(markers: seq<Marker>, t: int)
    ensures Latest(markers, t).None? <==> forall j :: 0 <= j < |markers| ==> !By(markers[j], t)
  {
    if markers != [] {
      NoneInTime(markers[..|markers| - 1], t);
    }
  }

  lemma {:induction false} LatestIndex(markers: seq<Marker>, t: int) returns (i: nat)
    requires Latest(markers, t).Some?
    ensures IsLatest(markers, t, i) && markers[i] == Latest(markers, t).value
  {
    var n := |markers| - 1;
    var init := markers[..n];
    NoneInTime(init, t);
    if Latest(init, t).None? {
      i := n;
    } else {
      i := LatestIndex(init, t);
      if By(markers[n], t) && MarkerLe(init[i], markers[n]) {
        i := n;
      }
    }
    assert forall j :: 0 <= j < n ==> markers[j] == init[j];
  }

  /** Marker `i` has a time not after `t`. */
  ghost predicate InTime(markers: seq<Marker>, t: int, i: nat) {
    i < |markers| && markers[i].ts.At? && markers[i].ts.time <= t
  }

  /** `name` is the phase, or else the name, of the last in-time marker with the greatest time; "unknown" without either, or without such a marker. */
  ghost predicate SpelledPhase(ts: Stamp, markers: seq<Marker>, name: string) {
    if ts.At? && exists i: nat :: InTime(markers, ts.time, i) then
      exists i: nat :: InTime(markers, ts.time, i)
        && (forall j: nat :: InTime(markers, ts.time, j) ==>
              markers[j].ts.time < markers[i].ts.time || (markers[j].ts.time == markers[i].ts.time && j <= i))
        && (markers[i].phase != "" ==> name == markers[i].phase)
        && (markers[i].phase == "" && markers[i].name != "" ==> name == markers[i].name)
        && (markers[i].phase == "" && markers[i].name == "" ==> name == "unknown")
    else name == "unknown"
  }

  /** The phase is the name of the last marker with the greatest time not after the query, or unknown. */
  lemma PhaseIsOfTheLatest(ts: Stamp, markers: seq<Marker>)
    ensures (exists i: nat :: ts.At? && IsLatest(markers, ts.time, i) && Phase(ts, markers) == NameOf(markers[i]))
         || ((ts.At? ==> forall j :: 0 <= j < |markers| ==> !By(markers[j], ts.time)) && Phase(ts, markers) == UNKNOWN)
    ensures SpelledPhase(ts, markers, Phase(ts, markers))
  {
    if ts.At? {
      NoneInTime(markers, ts.time);
      if Latest(markers, ts.time).Some? {
        var i := LatestIndex(markers, ts.time);
        assert InTime(markers, ts.time, i);
      }
    }
  }

  lemma MarkerLeIsPreorder()
    ensures TotalPreorder(MarkerLe)
  {
  }

  lemma SortedMarkers(markers: seq<Marker>)
    ensures var s := StableSort(Filter(markers, Timed), MarkerLe);
            SortedBy(MarkerLe, s) && forall i :: 0 <= i < |s| ==> Timed(s[i])
  {
    var f := Filter(markers, Timed);
    MarkerLeIsPreorder();
    SortSorts(f, MarkerLe);
    var s := StableSort(f, MarkerLe);
    SameMembers(s, f);
    forall i | 0 <= i < |s| ensures Timed(s[i]) {
      FilterMember(markers, Timed, s[i]);
      assert s[i] in s;
    }
  }

  /** The last marker in time of a sorted sequence. */
  function Scan(s: seq<Marker>, t: int): Option<Marker> {
    if s == [] then None
    else if By(s[|s| - 1], t) then Some(s[|s| - 1])
    else Scan(s[..|s| - 1], t)
  }

  lemma {:induction false} ScanStops(s: seq<Marker>, i: nat, t: int)
    requires i <= |s| && SortedBy(MarkerLe, s)
    requires forall j :: 0 <= j < |s| ==> Timed(s[j])
    requires forall j :: 0 <= j < i ==> By(s[j], t)
    requires i < |s| ==> !By(s[i], t)
    ensures Scan(s, t) == if i == 0 then None else Some(s[i - 1])
  {
    if i < |s| {
      assert i < |s| - 1 ==> MarkerLe(s[i], s[|s| - 1]);
      ScanStops(s[..|s| - 1], i, t);
    }
  }

  lemma ScanFinds(s: seq<Marker>, t: int)
    ensures Scan(s, t).Some? ==> Scan(s, t).value in s && By(Scan(s, t).value, t)
  {
  }

  lemma {:induction false} ScanInsert(s: seq<Marker>, m: Marker, t: int)
    requires SortedBy(MarkerLe, s) && Timed(m)
    ensures var best := Scan(s, t);
            Scan(Insert(s, m, MarkerLe), t)
            == if By(m, t) && (best.None? || MarkerLe(best.value, m)) then Some(m) else best
  {
    if s != [] {
      var init, last := s[..|s| - 1], s[|s| - 1];
      if MarkerLe(last, m) {
        ScanFinds(s, t);
        LastIsMaximalMarker(s);
        assert (s + [m])[..|s|] == s;
      } else {
        ScanInsert(init, m, t);
        var r := Insert(init, m, MarkerLe);
        assert (r + [last])[..|r|] == r;
      }
    }
  }

  lemma LastIsMaximalMarker(s: seq<Marker>)
    requires SortedBy(MarkerLe, s) && s != []
    ensures forall m :: m in s ==> MarkerLe(m, s[|s| - 1])
  {
  }

  /** Sorting and scanning finds what the walk finds. */
  lemma {:induction false} ScanIsLatest(markers: seq<Marker>, t: int)
    ensures Scan(StableSort(Filter(markers, Timed), MarkerLe), t) == Latest(markers, t)
  {
    if markers != [] {
      var init, m := markers[..|markers| - 1], markers[|markers| - 1];
      ScanIsLatest(init, t);
      if Timed(m) {
        var f := Filter(init, Timed);
        assert (f + [m])[..|f|] == f;
        SortedMarkers(init);
        ScanInsert(StableSort(f, MarkerLe), m, t);
      }
    }
  }

  // ---- bucketing ----

  datatype Record<D> = Record(ts: Stamp, event: string, resource: Option<string>, gpuPresent: bool,
                              gpuUtil: Option<real>, cpuLoadPerCore: Option<real>, disk: D)

  const LAUNCH_RESOURCE_PREFIX := "agent-launch:"
  const GPU_BUSY_UTIL := 50.0
  const CPU_BUSY_LOAD_PER_CORE := 0.7

  /** Overrides of the thresholds; `diskHeavy` stands for the disk classifier. */
  datatype Options<!D> = Options(gpuBusyUtil: Option<real>, cpuBusyLoadPerCore: Option<real>, diskHeavy: D -> bool)

  function Or(value: Option<real>, fallback: real): real {
    if value.Some? then value.value else fallback
  }

  predicate AtLeast(value: Option<real>, threshold: real) {
    value.Some? && value.value >= threshold
  }

  predicate IsContention<D>(r: Record<D>) {
    && !r.ts.Missing?
    && (r.event == "retry" || r.event == "advisory-degraded")
    && r.resource.Some? && LAUNCH_RESOURCE_PREFIX <= r.resource.value
  }

  /** A contention record, reduced to its phase and the pressures it shows. */
  datatype Load = Load(phase: string, gpu: bool, cpu: bool, disk: bool)

  function LoadOf<D>(r: Record<D>, markers: seq<Marker>, o: Options<D>): Load {
    Load(Phase(r.ts, markers),
         r.gpuPresent && AtLeast(r.gpuUtil, Or(o.gpuBusyUtil, GPU_BUSY_UTIL)),
         AtLeast(r.cpuLoadPerCore, Or(o.cpuBusyLoadPerCore, CPU_BUSY_LOAD_PER_CORE)),
         o.diskHeavy(r.disk))
  }

  function Loads<D>(records: seq<Record<D>>, markers: seq<Marker>, o: Options<D>): seq<Load> {
    Map(Filter(records, IsContention), r => LoadOf(r, markers, o))
  }

  datatype Bucket = Bucket(phase: string, total: nat, gpuHeavy: nat, cpuHeavy: nat, diskHeavy: nat, neither: nat)

  function Count(loads: seq<Load>, p: Load -> bool): nat {
    |Filter(loads, p)|
  }

  function Phases(loads: seq<Load>): seq<string> {
    Map(loads, (l: Load) => l.phase)
  }

  /** Each figure counted on its own over all the loads of a phase. */
  function BucketOf(phase: string, loads: seq<Load>): Bucket {
    Bucket(phase,
           Count(loads, (l: Load) => l.phase == phase),
           Count(loads, (l: Load) => l.phase == phase && l.gpu),
           Count(loads, (l: Load) => l.phase == phase && l.cpu),
           Count(loads, (l: Load) => l.phase == phase && l.disk),
           Count(loads, (l: Load) => l.phase == phase && !l.gpu && !l.cpu && !l.disk))
  }

  function Add(b: Bucket, l: Load): Bucket {
    b.(total := b.total + 1,
       gpuHeavy := b.gpuHeavy + if l.gpu then 1 else 0,
       cpuHeavy := b.cpuHeavy + if l.cpu then 1 else 0,
       diskHeavy := b.diskHeavy + if l.disk then 1 else 0,
       neither := b.neither + if !l.gpu && !l.cpu && !l.disk then 1 else 0)
  }

  lemma BucketPush(phase: string, loads: seq<Load>, l: Load)
    ensures BucketOf(phase, loads + [l])
         == if l.phase == phase then Add(BucketOf(phase, loads), l) else BucketOf(phase, loads)
  {
    FilterPush(loads, l, (k: Load) => k.phase == phase);
    FilterPush(loads, l, (k: Load) => k.phase == phase && k.gpu);
    FilterPush(loads, l, (k: Load) => k.phase == phase && k.cpu);
    FilterPush(loads, l, (k: Load) => k.phase == phase && k.disk);
    FilterPush(loads, l, (k: Load) => k.phase == phase && !k.gpu && !k.cpu && !k.disk);
    hide Filter;
  }

  lemma {:induction false} NoLoadNoCount(phase: string, loads: seq<Load>)
    requires phase !in Phases(loads)
    ensures BucketOf(phase, loads) == Bucket(phase, 0, 0, 0, 0, 0)
  {
    if loads != [] {
      var init := loads[..|loads| - 1];
      assert Phases(loads)[|init|] == loads[|init|].phase;
      assert forall i :: 0 <= i < |init| ==> Phases(init)[i] == Phases(loads)[i];
      NoLoadNoCount(phase, init);
      BucketPush(phase, init, loads[|init|]);
      InitAndLast(loads);
    }
  }

  lemma LoadsNext<D>(records: seq<Record<D>>, k: nat, markers: seq<Marker>, o: Options<D>)
    requires k < |records|
    ensures Loads(records[..k + 1], markers, o)
         == Loads(records[..k], markers, o) + if IsContention(records[k]) then [LoadOf(records[k], markers, o)] else []
  {
    TakeNext(records, k);
    FilterPush(records[..k], records[k], IsContention);
    hide LoadOf, IsContention;
  }

  /** The buckets, in the order their keys were first set. */
  ghost predicate Buckets(order: seq<string>, counts: map<string, Bucket>, loads: seq<Load>) {
    && order == FirstAppearances(Phases(loads))
    && (forall p :: p in counts <==> p in order)
    && (forall p :: p in counts ==> counts[p] == BucketOf(p, loads))
  }

  lemma PhasesPush(loads: seq<Load>, l: Load)
    ensures Phases(loads + [l])[..|loads|] == Phases(loads) && Phases(loads + [l])[|loads|] == l.phase
  {
    assert forall i :: 0 <= i < |loads| ==> (loads + [l])[i] == loads[i];
  }

  /** A phase's bucket takes the load; a phase without a bucket starts from nothing. */
  lemma BucketTakes(loads: seq<Load>, l: Load)
    ensures var b := BucketOf(l.phase, loads);
            && BucketOf(l.phase, loads + [l]) == Add(b, l)
            && (l.phase !in FirstAppearances(Phases(loads)) ==> b == Bucket(l.phase, 0, 0, 0, 0, 0))
  {
    BucketPush(l.phase, loads, l);
    FirstAppearancesUnique(Phases(loads));
    if l.phase !in Phases(loads) {
      NoLoadNoCount(l.phase, loads);
    }
  }

  lemma BucketsPush(order: seq<string>, counts: map<string, Bucket>, loads: seq<Load>, l: Load)
    requires Buckets(order, counts, loads)
    ensures var b := if l.phase in counts then counts[l.phase] else Bucket(l.phase, 0, 0, 0, 0, 0);
            Buckets(if l.phase in counts then order else order + [l.phase], counts[l.phase := Add(b, l)], loads + [l])
  {
    var all := loads + [l];
    PhasesPush(loads, l);
    BucketTakes(loads, l);
    forall p | p != l.phase ensures BucketOf(p, all) == BucketOf(p, loads) {
      BucketPush(p, loads, l);
    }
    hide BucketOf, Add, Phases;
  }

  lemma NoBuckets<D>(records: seq<Record<D>>, markers: seq<Marker>, o: Options<D>)
    ensures Loads(records[..0], markers, o) == [] && Buckets([], map[], [])
  {
    assert records[..0] == [];
  }

  lemma AllBuckets(order: seq<string>, counts: map<string, Bucket>, loads: seq<Load>)
    requires Buckets(order, counts, loads)
    ensures order == FirstAppearances(Phases(loads))
    ensures forall i :: 0 <= i < |order| ==> order[i] in counts && counts[order[i]] == BucketOf(order[i], loads)
  {
  }

  /** The phase of a contention record and the pressures it shows. */
  method Classify<D>(r: Record<D>, markers: seq<Marker>, o: Options<D>) returns (load: Load)
    ensures load == LoadOf(r, markers, o)
  {
    var phase := PhaseAt(r.ts, markers);
    var gpuHeavy := r.gpuPresent && AtLeast(r.gpuUtil, Or(o.gpuBusyUtil, GPU_BUSY_UTIL));
    var cpuHeavy := AtLeast(r.cpuLoadPerCore, Or(o.cpuBusyLoadPerCore, CPU_BUSY_LOAD_PER_CORE));
    var diskHeavy := o.diskHeavy(r.disk);
    load := Load(phase, gpuHeavy, cpuHeavy, diskHeavy);
  }

  // ---- the figures as counts of records ----

  /** A dated record of a refused launch, waiting or given up. */
  ghost predicate IsRefusedLaunch<D>(r: Record<D>) {
    && r.ts != Missing && r.event in {"retry", "advisory-degraded"}
    && r.resource.Some? && |r.resource.value| >= 13 && r.resource.value[..13] == "agent-launch:"
  }

  ghost predicate GpuBusy<D>(r: Record<D>, o: Options<D>) {
    r.gpuPresent && r.gpuUtil.Some? && (if o.gpuBusyUtil.Some? then o.gpuBusyUtil.value <= r.gpuUtil.value else 50.0 <= r.gpuUtil.value)
  }

  ghost predicate CpuBusy<D>(r: Record<D>, o: Options<D>) {
    r.cpuLoadPerCore.Some?
    && (if o.cpuBusyLoadPerCore.Some? then o.cpuBusyLoadPerCore.value <= r.cpuLoadPerCore.value else 0.7 <= r.cpuLoadPerCore.value)
  }

  /** The indices of the refused launches that have `q`. */
  ghost function Indices<D>(records: seq<Record<D>>, q: Record<D> -> bool): set<int> {
    set i | 0 <= i < |records| && IsRefusedLaunch(records[i]) && q(records[i])
  }

  lemma ContentionSpelledOut<D>(r: Record<D>, markers: seq<Marker>, o: Options<D>)
    ensures IsContention(r) <==> IsRefusedLaunch(r)
    ensures LoadOf(r, markers, o) == Load(Phase(r.ts, markers), GpuBusy(r, o), CpuBusy(r, o), o.diskHeavy(r.disk))
  {
    if r.resource.Some? && |r.resource.value| >= 13 {
      assert LAUNCH_RESOURCE_PREFIX <= r.resource.value <==> r.resource.value[..13] == "agent-launch:";
    }
  }

  lemma IndicesPush<D>(records: seq<Record<D>>, k: nat, q: Record<D> -> bool)
    requires k < |records|
    ensures |Indices(records[..k + 1], q)|
         == |Indices(records[..k], q)| + if IsRefusedLaunch(records[k]) && q(records[k]) then 1 else 0
  {
    hide *;
    var before, after := Indices(records[..k], q), Indices(records[..k + 1], q);
    var added: set<int> := if IsRefusedLaunch(records[k]) && q(records[k]) then {k} else {};
    forall i: int ensures i in after <==> i in before + added {
      IndexOf(records, k, q, i);
      IndexOf(records, k + 1, q, i);
    }
    assert after == before + added;
    IndexOf(records, k, q, k);
  }

  lemma IndexOf<D>(records: seq<Record<D>>, k: nat, q: Record<D> -> bool, i: int)
    requires k <= |records|
    ensures i in Indices(records[..k], q) <==> 0 <= i < k && IsRefusedLaunch(records[i]) && q(records[i])
  {
    hide IsRefusedLaunch;
    if 0 <= i < k {
      assert records[..k][i] == records[i];
    }
  }

  lemma NothingCounted<D>(records: seq<Record<D>>, markers: seq<Marker>, o: Options<D>, p: Load -> bool, q: Record<D> -> bool)
    ensures Count(Loads(records[..0], markers, o), p) == |Indices(records[..0], q)| == 0
  {
    assert records[..0] == [];
    assert Indices(records[..0], q) == {};
  }

  /** Counting loads is counting record indices. */
  lemma {:induction false} CountIsOfIndices<D>(records: seq<Record<D>>, k: nat, markers: seq<Marker>, o: Options<D>,
                                               p: Load -> bool, q: Record<D> -> bool)
    requires k <= |records|
    requires forall i :: 0 <= i < |records| ==> (q(records[i]) <==> p(LoadOf(records[i], markers, o)))
    ensures Count(Loads(records[..k], markers, o), p) == |Indices(records[..k], q)|
    decreases k
  {
    hide *;
    if k == 0 {
      NothingCounted(records, markers, o, p, q);
    } else {
      CountIsOfIndices(records, k - 1, markers, o, p, q);
      LoadsNext(records, k - 1, markers, o);
      IndicesPush(records, k - 1, q);
      ContentionSpelledOut(records[k - 1], markers, o);
      CountPush(Loads(records[..k - 1], markers, o), LoadOf(records[k - 1], markers, o), p);
      assert Loads(records[..k - 1], markers, o) + [] == Loads(records[..k - 1], markers, o);
    }
  }

  lemma CountPush(loads: seq<Load>, l: Load, p: Load -> bool)
    ensures Count(loads + [l], p) == Count(loads, p) + if p(l) then 1 else 0
  {
    FilterPush(loads, l, p);
  }

  /** Each figure of a phase's bucket counts record indices. */
  ghost predicate CountsRecords<D>(b: Bucket, records: seq<Record<D>>, markers: seq<Marker>, o: Options<D>) {
    && b.total == |Indices(records, (r: Record<D>) => Phase(r.ts, markers) == b.phase)|
    && b.gpuHeavy == |Indices(records, (r: Record<D>) => Phase(r.ts, markers) == b.phase && GpuBusy(r, o))|
    && b.cpuHeavy == |Indices(records, (r: Record<D>) => Phase(r.ts, markers) == b.phase && CpuBusy(r, o))|
    && b.diskHeavy == |Indices(records, (r: Record<D>) => Phase(r.ts, markers) == b.phase && o.diskHeavy(r.disk))|
    && b.neither == |Indices(records, (r: Record<D>) =>
         Phase(r.ts, markers) == b.phase && !GpuBusy(r, o) && !CpuBusy(r, o) && !o.diskHeavy(r.disk))|
  }

  lemma BucketCountsRecords<D>(phase: string, records: seq<Record<D>>, markers: seq<Marker>, o: Options<D>)
    ensures CountsRecords(BucketOf(phase, Loads(records, markers, o)), records, markers, o)
  {
    forall i | 0 <= i < |records|
      ensures LoadOf(records[i], markers, o)
           == Load(Phase(records[i].ts, markers), GpuBusy(records[i], o), CpuBusy(records[i], o), o.diskHeavy(records[i].disk))
    {
      ContentionSpelledOut(records[i], markers, o);
    }
    TakeAll(records);
    hide Loads, LoadOf, Indices, Count, Phase, GpuBusy, CpuBusy;
    var n := |records|;
    CountIsOfIndices(records, n, markers, o, (l: Load) => l.phase == phase, (r: Record<D>) => Phase(r.ts, markers) == phase);
    CountIsOfIndices(records, n, markers, o, (l: Load) => l.phase == phase && l.gpu,
                     (r: Record<D>) => Phase(r.ts, markers) == phase && GpuBusy(r, o));
    CountIsOfIndices(records, n, markers, o, (l: Load) => l.phase == phase && l.cpu,
                     (r: Record<D>) => Phase(r.ts, markers) == phase && CpuBusy(r, o));
    CountIsOfIndices(records, n, markers, o, (l: Load) => l.phase == phase && l.disk,
                     (r: Record<D>) => Phase(r.ts, markers) == phase && o.diskHeavy(r.disk));
    CountIsOfIndices(records, n, markers, o, (l: Load) => l.phase == phase && !l.gpu && !l.cpu && !l.disk,
                     (r: Record<D>) => Phase(r.ts, markers) == phase && !GpuBusy(r, o) && !CpuBusy(r, o) && !o.diskHeavy(r.disk));
  }

  method BucketContentionByPhase<D>(records: seq<Record<D>>, markers: seq<Marker>, o: Options<D>)
    returns (buckets: seq<Bucket>)
    ensures var loads := Loads(records, markers, o);
            buckets == Map(FirstAppearances(Phases(loads)), p => BucketOf(p, loads))
    ensures forall i, j :: 0 <= i < j < |buckets| ==> buckets[i].phase != buckets[j].phase
    ensures forall i :: 0 <= i < |buckets| ==> CountsRecords(buckets[i], records, markers, o)
    ensures SumOfTotals(buckets) == |Indices(records, (r: Record<D>) => true)|
  {
    hide Loads, LoadOf, IsContention, Buckets, BucketOf, Add, Phases, FirstAppearances;
    var order: seq<string>, counts: map<string, Bucket> := [], map[];
    ghost var loads := [];
    NoBuckets(records, markers, o);
    for i := 0 to |records|
      invariant loads == Loads(records[..i], markers, o)
      invariant Buckets(order, counts, loads)
    {
      var r := records[i];
      LoadsNext(records, i, markers, o);
      if !IsContention(r) {
        continue;
      }
      var load := Classify(r, markers, o);
      var phase := load.phase;
      BucketsPush(order, counts, loads, load);
      var b := if phase in counts then counts[phase] else Bucket(phase, 0, 0, 0, 0, 0);
      order := if phase in counts then order else order + [phase];
      counts := counts[phase := Add(b, load)];
      loads := loads + [load];
    }
    TakeAll(records);
    AllBuckets(order, counts, loads);
    buckets := seq(|order|, i requires 0 <= i < |order| && order[i] in counts => counts[order[i]]);
    BucketsCount(records, markers, o, buckets);
  }

  lemma BucketsCount<D>(records: seq<Record<D>>, markers: seq<Marker>, o: Options<D>, buckets: seq<Bucket>)
    requires var loads := Loads(records, markers, o);
             buckets == Map(FirstAppearances(Phases(loads)), p => BucketOf(p, loads))
    ensures forall i, j :: 0 <= i < j < |buckets| ==> buckets[i].phase != buckets[j].phase
    ensures forall i :: 0 <= i < |buckets| ==> CountsRecords(buckets[i], records, markers, o)
    ensures SumOfTotals(buckets) == |Indices(records, (r: Record<D>) => true)|
  {
    var loads := Loads(records, markers, o);
    var order := FirstAppearances(Phases(loads));
    FirstAppearancesUnique(Phases(loads));
    forall i | 0 <= i < |buckets| ensures buckets[i].phase == order[i] && CountsRecords(buckets[i], records, markers, o) {
      BucketCountsRecords(order[i], records, markers, o);
    }
    SumIsTotals(order, loads, buckets);
    TotalsAddUp(loads);
    TakeAll(records);
    CountIsOfIndices(records, |records|, markers, o, (l: Load) => true, (r: Record<D>) => true);
    FilterAll(loads, (l: Load) => true);
    hide Indices, CountsRecords, Loads, FirstAppearances, Phases, BucketOf, Totals, SumOfTotals, Filter;
  }

  function SumOfTotals(buckets: seq<Bucket>): nat {
    if buckets == [] then 0 else SumOfTotals(buckets[..|buckets| - 1]) + buckets[|buckets| - 1].total
  }

  lemma {:induction false} SumIsTotals(order: seq<string>, loads: seq<Load>, buckets: seq<Bucket>)
    requires |buckets| == |order| && forall i :: 0 <= i < |order| ==> buckets[i] == BucketOf(order[i], loads)
    ensures SumOfTotals(buckets) == Totals(order, loads)
  {
    if order != [] {
      SumIsTotals(order[..|order| - 1], loads, buckets[..|order| - 1]);
    }
  }

  // ---- conservation ----

  function Totals(phases: seq<string>, loads: seq<Load>): nat {
    if phases == [] then 0
    else Totals(phases[..|phases| - 1], loads) + BucketOf(phases[|phases| - 1], loads).total
  }

  lemma {:induction false} TotalsPush(phases: seq<string>, loads: seq<Load>, l: Load)
    requires Unique(phases)
    ensures Totals(phases, loads + [l]) == Totals(phases, loads) + if l.phase in phases then 1 else 0
  {
    if phases != [] {
      InitAndLast(phases);
      TotalsPush(phases[..|phases| - 1], loads, l);
      BucketPush(phases[|phases| - 1], loads, l);
      hide BucketOf;
    }
  }

  lemma TotalsOfOneMore(phases: seq<string>, loads: seq<Load>, l: Load)
    requires Unique(phases) && l.phase !in phases && l.phase !in Phases(loads)
    ensures Totals(phases + [l.phase], loads + [l]) == Totals(phases, loads) + 1
  {
    TotalsPush(phases, loads, l);
    NoLoadNoCount(l.phase, loads);
    BucketPush(l.phase, loads, l);
    assert (phases + [l.phase])[..|phases|] == phases;
    hide BucketOf, Phases;
  }

  /** The totals of all the buckets add up to the number of contention records. */
  lemma {:induction false} TotalsAddUp(loads: seq<Load>)
    ensures Totals(FirstAppearances(Phases(loads)), loads) == |loads|
  {
    if loads != [] {
      var init, l := loads[..|loads| - 1], loads[|loads| - 1];
      TotalsAddUp(init);
      InitAndLast(loads);
      PhasesPush(init, l);
      var before := FirstAppearances(Phases(init));
      assert FirstAppearances(Phases(loads)) == if l.phase in before then before else before + [l.phase];
      FirstAppearancesUnique(Phases(init));
      hide FirstAppearances, Totals, Phases;
      if l.phase in before {
        TotalsPush(before, init, l);
      } else {
        TotalsOfOneMore(before, init, l);
      }
    }
  }

  /** In every bucket the records that are not counted as neither are those with some pressure. */
  lemma {:induction false} NeitherIsTheRest(phase: string, loads: seq<Load>)
    ensures var b := BucketOf(phase, loads);
            && b.total == b.neither + Count(loads, (l: Load) => l.phase == phase && (l.gpu || l.cpu || l.disk))
            && b.gpuHeavy <= b.total - b.neither && b.cpuHeavy <= b.total - b.neither && b.diskHeavy <= b.total - b.neither
            && b.total - b.neither <= b.gpuHeavy + b.cpuHeavy + b.diskHeavy
  {
    if loads != [] {
      var init, l := loads[..|loads| - 1], loads[|loads| - 1];
      NeitherIsTheRest(phase, init);
      InitAndLast(loads);
      BucketPush(phase, init, l);
      FilterPush(init, l, (k: Load) => k.phase == phase && (k.gpu || k.cpu || k.disk));
      hide BucketOf, Filter;
    }
  }
}
