/** One scrape and runs of scrapes (nzbdav-exporter/exporter.py, `_scrape`).

    Fetches are arbitrary results: None for any failure. The wording of help texts is
    not part of the model. */
module Scrape {
  import opened Text
  import opened PrometheusFormat
  import opened MetricsRegistry

  // ------------------------------------------------------------ gauges

  datatype Gauge =
    | ActiveDownloads | QueueItems | QueueDepth | PerCategory | PerStatus
    | HistoryCompleted | HistoryFailed | SuccessRatio
    | ConfigSuccess | CacheEnabled | CacheMaxGb | WorkerCount | PipeliningDepth | RepairEnabled
    | WatchdogEnabled | PreflightMode | PreflightInfo | MaxConnections | Up | Healthy
    | QueueLatency | HistoryLatency | ConfigLatency | HealthLatency | ScrapeDuration

  function Name(g: Gauge): string {
    match g
    case ActiveDownloads => "nzbdav_queue_active_downloads"
    case QueueItems => "nzbdav_queue_items_total"
    case QueueDepth => "nzbdav_queue_depth_bytes"
    case PerCategory => "nzbdav_queue_per_category_bytes"
    case PerStatus => "nzbdav_queue_per_status_count"
    case HistoryCompleted => "nzbdav_history_completed_total"
    case HistoryFailed => "nzbdav_history_failed_total"
    case SuccessRatio => "nzbdav_history_success_ratio"
    case ConfigSuccess => "nzbdav_config_scrape_success"
    case CacheEnabled => "nzbdav_config_segment_cache_enabled"
    case CacheMaxGb => "nzbdav_config_segment_cache_max_gb"
    case WorkerCount => "nzbdav_config_queue_worker_count"
    case PipeliningDepth => "nzbdav_config_pipelining_depth"
    case RepairEnabled => "nzbdav_config_repair_enabled"
    case WatchdogEnabled => "nzbdav_config_watchdog_enabled"
    case PreflightMode => "nzbdav_config_preflight_mode"
    case PreflightInfo => "nzbdav_config_preflight_mode_info"
    case MaxConnections => "nzbdav_config_max_connections_per_stream"
    case Up => "nzbdav_up"
    case Healthy => "nzbdav_health_healthy"
    case QueueLatency => "nzbdav_api_latency_seconds"
    case HistoryLatency => "nzbdav_api_latency_seconds_history"
    case ConfigLatency => "nzbdav_api_latency_seconds_config"
    case HealthLatency => "nzbdav_api_latency_seconds_health"
    case ScrapeDuration => "nzbdav_scrape_duration_seconds"
  }

  /** Length and fifth-last character tell the names apart. */
  function Tag(s: string): (nat, char) {
    if |s| < 5 then (|s|, ' ') else (|s|, s[|s| - 5])
  }

  function TagOf(g: Gauge): (nat, char) {
    match g
    case ActiveDownloads => (29, 'l')
    case QueueItems => (24, 't')
    case QueueDepth => (24, 'b')
    case PerCategory => (31, 'b')
    case PerStatus => (29, 'c')
    case HistoryCompleted => (30, 't')
    case HistoryFailed => (27, 't')
    case SuccessRatio => (28, 'r')
    case ConfigSuccess => (28, 'c')
    case CacheEnabled => (35, 'a')
    case CacheMaxGb => (34, 'a')
    case WorkerCount => (32, 'c')
    case PipeliningDepth => (30, 'd')
    case RepairEnabled => (28, 'a')
    case WatchdogEnabled => (30, 'a')
    case PreflightMode => (28, '_')
    case PreflightInfo => (33, '_')
    case MaxConnections => (40, 't')
    case Up => (9, 'a')
    case Healthy => (21, 'a')
    case QueueLatency => (26, 'c')
    case HistoryLatency => (34, 's')
    case ConfigLatency => (33, 'o')
    case HealthLatency => (33, 'e')
    case ScrapeDuration => (30, 'c')
  }

  predicate NoBrace(s: string) {
    forall k | 0 <= k < |s| :: s[k] != '{'
  }

  predicate Fits(g: Gauge) {
    Tag(Name(g)) == TagOf(g) && NoBrace(Name(g))
  }

  lemma QueueNamesFit()
    ensures Fits(ActiveDownloads) && Fits(QueueItems) && Fits(QueueDepth)
  {
  }

  lemma LabelledNamesFit()
    ensures Fits(PerCategory) && Fits(PerStatus) && Fits(PreflightInfo)
  {
  }

  lemma HistoryNamesFit()
    ensures Fits(HistoryCompleted) && Fits(HistoryFailed) && Fits(SuccessRatio)
  {
  }

  lemma CacheNamesFit()
    ensures Fits(ConfigSuccess) && Fits(CacheEnabled) && Fits(CacheMaxGb)
  {
  }

  lemma WorkerNamesFit()
    ensures Fits(WorkerCount) && Fits(PipeliningDepth) && Fits(MaxConnections)
  {
  }

  lemma RepairNamesFit()
    ensures Fits(RepairEnabled) && Fits(WatchdogEnabled) && Fits(PreflightMode)
  {
  }

  lemma HealthNamesFit()
    ensures Fits(Up) && Fits(Healthy) && Fits(HealthLatency)
  {
  }

  lemma LatencyNamesFit()
    ensures Fits(QueueLatency) && Fits(HistoryLatency)
  {
  }

  lemma DurationNamesFit()
    ensures Fits(ConfigLatency) && Fits(ScrapeDuration)
  {
  }

  /** Every name has its tag and no brace. */
  lemma NamesFit(g: Gauge)
    ensures Fits(g)
  {
    match g
    case ActiveDownloads => QueueNamesFit();
    case QueueItems => QueueNamesFit();
    case QueueDepth => QueueNamesFit();
    case PerCategory => LabelledNamesFit();
    case PerStatus => LabelledNamesFit();
    case PreflightInfo => LabelledNamesFit();
    case HistoryCompleted => HistoryNamesFit();
    case HistoryFailed => HistoryNamesFit();
    case SuccessRatio => HistoryNamesFit();
    case ConfigSuccess => CacheNamesFit();
    case CacheEnabled => CacheNamesFit();
    case CacheMaxGb => CacheNamesFit();
    case WorkerCount => WorkerNamesFit();
    case PipeliningDepth => WorkerNamesFit();
    case MaxConnections => WorkerNamesFit();
    case RepairEnabled => RepairNamesFit();
    case WatchdogEnabled => RepairNamesFit();
    case PreflightMode => RepairNamesFit();
    case Up => HealthNamesFit();
    case Healthy => HealthNamesFit();
    case HealthLatency => HealthNamesFit();
    case QueueLatency => LatencyNamesFit();
    case HistoryLatency => LatencyNamesFit();
    case ConfigLatency => DurationNamesFit();
    case ScrapeDuration => DurationNamesFit();
  }

  lemma NamesDiffer(g: Gauge, h: Gauge)
    ensures Name(g) == Name(h) <==> g == h
  {
    NamesFit(g);
    NamesFit(h);
    if Name(g) == Name(h) {
      TagsDiffer(g, h);
    }
  }

  lemma TagsDiffer(g: Gauge, h: Gauge)
    requires TagOf(g) == TagOf(h)
    ensures g == h
  {
  }

  lemma NameIsPlain(g: Gauge)
    ensures MetricName(Name(g))
  {
    NamesFit(g);
  }

  // ------------------------------------------------------------ tallies

  /** What a dictionary of numbers holds under a key, 0 when it is absent. */
  function Get(d: seq<Sample>, key: string): real {
    if d == [] then 0.0 else if d[0].key == key then d[0].value else Get(d[1..], key)
  }

  /** `d[key] = d.get(key, 0) + amount` */
  function Add(d: seq<Sample>, key: string, amount: real): seq<Sample> {
    SetSample(d, key, Get(d, key) + amount)
  }

  /** A dictionary of totals, built up item by item. */
  function Tally(items: seq<Sample>): seq<Sample> {
    if items == [] then []
    else
      Add(Tally(items[..|items| - 1]), items[|items| - 1].key, items[|items| - 1].value)
  }

  function Sum(d: seq<Sample>): real {
    if d == [] then 0.0 else d[0].value + Sum(d[1..])
  }

  /** The amounts of one key. */
  function AmountOf(items: seq<Sample>, key: string): real {
    if items == [] then 0.0
    else AmountOf(items[..|items| - 1], key) + if items[|items| - 1].key == key then items[|items| - 1].value else 0.0
  }

  lemma {:induction false} GetAfterSet(d: seq<Sample>, key: string, value: real, other: string)
    ensures Get(SetSample(d, key, value), other) == if other == key then value else Get(d, other)
    ensures Sum(SetSample(d, key, value)) == Sum(d) - Get(d, key) + value
  {
    if d == [] {
      assert [Sample(key, value)][1..] == [];
    } else if d[0].key == key {
      assert SetSample(d, key, value)[1..] == d[1..];
    } else {
      GetAfterSet(d[1..], key, value, other);
      assert SetSample(d, key, value)[1..] == SetSample(d[1..], key, value);
    }
  }

  lemma {:induction false} SumLast(items: seq<Sample>)
    requires items != []
    ensures Sum(items) == Sum(items[..|items| - 1]) + items[|items| - 1].value
  {
    if |items| > 1 {
      SumLast(items[1..]);
      assert items[1..][..|items| - 2] == items[..|items| - 1][1..];
    }
  }

  /** A tally loses and invents nothing: the totals agree, and so does every key. */
  lemma {:induction false} TallyConserves(items: seq<Sample>)
    ensures Sum(Tally(items)) == Sum(items)
    ensures DistinctKeys(Tally(items))
  {
    if items != [] {
      var init, last := items[..|items| - 1], items[|items| - 1];
      TallyConserves(init);
      SumLast(items);
      AddKeepsDistinct(Tally(init), last.key, last.value);
    }
  }

  lemma AddKeepsDistinct(d: seq<Sample>, key: string, amount: real)
    requires DistinctKeys(d)
    ensures DistinctKeys(Add(d, key, amount)) && Sum(Add(d, key, amount)) == Sum(d) + amount
  {
    SetKeepsDistinct(d, key, Get(d, key) + amount);
    GetAfterSet(d, key, Get(d, key) + amount, key);
  }

  lemma {:induction false} TallyPerKey(items: seq<Sample>, key: string)
    ensures Get(Tally(items), key) == AmountOf(items, key)
  {
    if items != [] {
      var init, last := items[..|items| - 1], items[|items| - 1];
      TallyPerKey(init, key);
      GetAfterSet(Tally(init), last.key, Get(Tally(init), last.key) + last.value, key);
    }
  }

  ghost predicate NonNegative(d: seq<Sample>) {
    forall i | 0 <= i < |d| :: d[i].value >= 0.0
  }

  lemma {:induction false} GetNonNegative(d: seq<Sample>, key: string)
    requires NonNegative(d)
    ensures Get(d, key) >= 0.0
  {
    if d != [] {
      GetNonNegative(d[1..], key);
    }
  }

  lemma {:induction false} SetNonNegative(d: seq<Sample>, key: string, value: real)
    requires NonNegative(d) && value >= 0.0
    ensures NonNegative(SetSample(d, key, value))
  {
    if d != [] && d[0].key != key {
      SetNonNegative(d[1..], key, value);
    }
  }

  lemma {:induction false} TallyNonNegative(items: seq<Sample>)
    requires NonNegative(items)
    ensures NonNegative(Tally(items))
  {
    if items != [] {
      var init, last := items[..|items| - 1], items[|items| - 1];
      TallyNonNegative(init);
      GetNonNegative(Tally(init), last.key);
      SetNonNegative(Tally(init), last.key, Get(Tally(init), last.key) + last.value);
    }
  }

  function InUnits(megabytes: real): real {
    megabytes * 1048576.0
  }

  /** `int(x)` */
  function Truncate(x: real): int {
    if x >= 0.0 then x.Floor else -((-x).Floor)
  }

  function Bytes(megabytes: real): real {
    Truncate(InUnits(megabytes)) as real
  }

  function InBytes(d: seq<Sample>): (r: seq<Sample>)
    ensures |r| == |d| && forall i | 0 <= i < |r| :: r[i] == Sample(d[i].key, Bytes(d[i].value))
  {
    seq(|d|, i requires 0 <= i < |d| => Sample(d[i].key, Bytes(d[i].value)))
  }

  lemma TruncateBounds(x: real)
    requires x >= 0.0
    ensures Truncate(x) as real <= x < Truncate(x) as real + 1.0
  {
  }

  /** Truncating n parts loses less than n against the whole. */
  lemma {:induction false} TruncatedParts(d: seq<Sample>) returns (total: int)
    requires NonNegative(d)
    ensures Sum(InBytes(d)) == total as real
    ensures Sum(d) >= 0.0
    ensures InUnits(Sum(d)) - |d| as real <= total as real <= InUnits(Sum(d))
    ensures d != [] ==> InUnits(Sum(d)) - |d| as real < total as real
  {
    if d == [] {
      total := 0;
    } else {
      var rest := TruncatedParts(d[1..]);
      assert InBytes(d)[1..] == InBytes(d[1..]);
      TruncateBounds(InUnits(d[0].value));
      total := Truncate(InUnits(d[0].value)) + rest;
    }
  }

  /** Between depth - (n - 1) and depth bytes are reported over n categories. */
  lemma PartsNearDepth(d: seq<Sample>)
    requires NonNegative(d)
    ensures d == [] ==> Sum(InBytes(d)) == Bytes(Sum(d)) == 0.0
    ensures d != [] ==> Bytes(Sum(d)) - (|d| - 1) as real <= Sum(InBytes(d)) <= Bytes(Sum(d))
  {
    var total := TruncatedParts(d);
    var x := InUnits(Sum(d));
    TruncateBounds(x);
    if d != [] {
      WholeBounds(Truncate(x), total, |d|, x);
    }
  }

  lemma WholeBounds(depth: int, total: int, n: nat, x: real)
    requires depth as real <= x < depth as real + 1.0
    requires x - n as real < total as real <= x
    ensures depth - (n - 1) <= total <= depth
    ensures depth as real - (n - 1) as real <= total as real <= depth as real
  {
  }

  // ------------------------------------------------------------ the operations of a scrape

  /** Missing and empty strings are both "", and sizes that are no finite number are 0. */
  datatype Slot = Slot(status: string, category: string, mbleft: real)

  /** The requested configuration keys. */
  datatype ConfigKey =
    | SegmentCacheEnabled | SegmentCacheMaxGb | QueueWorkerCount | QueuePipeliningDepth | RepairEnable
    | WatchdogEnable | PreflightModeKey | MaxConnectionsPerStream

  type Config = map<ConfigKey, string>

  /** How long the four requests and the whole round took. */
  datatype Seconds = Seconds(queue: real, history: real, config: real, health: real, round: real)

  /** The four answers of one scrape; None is any failure of that fetch. */
  datatype Response = Response(queue: Option<seq<Slot>>, history: Option<seq<string>>, config: Option<Config>,
                               healthy: bool, seconds: Seconds)

  function Or(s: string, default: string): string {
    if s == "" then default else s
  }

  function Flag(b: bool): real {
    if b then 1.0 else 0.0
  }

  function CountOf(statuses: seq<string>, status: string): nat {
    if statuses == [] then 0
    else CountOf(statuses[..|statuses| - 1], status) + if statuses[|statuses| - 1] == status then 1 else 0
  }

  function Statuses(slots: seq<Slot>): (r: seq<string>)
    ensures |r| == |slots| && forall i | 0 <= i < |r| :: r[i] == slots[i].status
  {
    seq(|slots|, i requires 0 <= i < |slots| => slots[i].status)
  }

  function Sizes(slots: seq<Slot>): (r: seq<Sample>)
    ensures |r| == |slots|
    ensures forall i | 0 <= i < |r| :: r[i] == Sample(Or(slots[i].category, "unknown"), slots[i].mbleft)
  {
    seq(|slots|, i requires 0 <= i < |slots| => Sample(Or(slots[i].category, "unknown"), slots[i].mbleft))
  }

  function Ones(slots: seq<Slot>): (r: seq<Sample>)
    ensures |r| == |slots|
    ensures forall i | 0 <= i < |r| :: r[i] == Sample(Or(slots[i].status, "unknown"), 1.0)
  {
    seq(|slots|, i requires 0 <= i < |slots| => Sample(Or(slots[i].status, "unknown"), 1.0))
  }

  const HELP := "help"

  /** How gauges are named, how a labelled sample is keyed, and how a finite number
      is read from a text. `RealEnv` is the exporter's own environment. */
  datatype Env = Env(name: Gauge -> string, key: (string, string, string) -> string,
                     number: string -> Option<real>)

  ghost predicate GoodEnv(env: Env) {
    && (forall g, h :: env.name(g) == env.name(h) ==> g == h)
    && (forall g :: MetricName(env.name(g)))
    && (forall n, l, v :: env.key(n, l, v) == SampleKey(n, map[l := v]))
  }

  function RealEnv(number: string -> Option<real>): Env {
    Env(Name, (n, l, v) => SampleKey(n, map[l := v]), number)
  }

  lemma RealEnvIsGood(number: string -> Option<real>)
    ensures GoodEnv(RealEnv(number))
  {
    forall g, h ensures Name(g) == Name(h) ==> g == h {
      NamesDiffer(g, h);
    }
    forall g ensures MetricName(Name(g)) {
      NameIsPlain(g);
    }
  }

  function Plain(env: Env, g: Gauge, value: real): Op {
    Put(env.name(g), env.name(g), value, HELP)
  }

  function Labeled(env: Env, g: Gauge, name: string, s: Sample): Op {
    Put(env.name(g), env.key(env.name(g), name, s.key), s.value, HELP)
  }

  datatype Reading = Reading(g: Gauge, value: real)

  function PlainOps(env: Env, readings: seq<Reading>): seq<Op> {
    if readings == [] then []
    else PlainOps(env, readings[..|readings| - 1])
         + [Plain(env, readings[|readings| - 1].g, readings[|readings| - 1].value)]
  }

  function LabeledOps(env: Env, g: Gauge, name: string, d: seq<Sample>): seq<Op> {
    if d == [] then [] else LabeledOps(env, g, name, d[..|d| - 1]) + [Labeled(env, g, name, d[|d| - 1])]
  }

  /** Plain gauges set one after the other, or a labelled family cleared and then
      filled from a dictionary. */
  datatype Segment = Gauges(readings: seq<Reading>) | Labels(g: Gauge, name: string, d: seq<Sample>)

  function SegmentOps(env: Env, s: Segment): seq<Op> {
    match s
    case Gauges(readings) => PlainOps(env, readings)
    case Labels(g, name, d) => [Clear(env.name(g))] + LabeledOps(env, g, name, d)
  }

  function Parts(env: Env, segments: seq<Segment>): (r: seq<seq<Op>>)
    ensures |r| == |segments| && forall i | 0 <= i < |r| :: r[i] == SegmentOps(env, segments[i])
  {
    seq(|segments|, i requires 0 <= i < |segments| => SegmentOps(env, segments[i]))
  }

  function OpsOf(env: Env, segments: seq<Segment>): seq<Op> {
    Concat(Parts(env, segments))
  }

  lemma OpsJoin(env: Env, a: seq<Segment>, b: seq<Segment>)
    ensures OpsOf(env, a + b) == OpsOf(env, a) + OpsOf(env, b)
  {
    ConcatJoins(Parts(env, a), Parts(env, b));
    assert Parts(env, a + b) == Parts(env, a) + Parts(env, b);
  }

  lemma OpsNext(env: Env, segments: seq<Segment>, i: nat)
    requires i < |segments|
    ensures OpsOf(env, segments[..i + 1]) == OpsOf(env, segments[..i]) + SegmentOps(env, segments[i])
  {
    assert Parts(env, segments[..i + 1])[..i] == Parts(env, segments[..i]);
  }

  function QueueSlots(r: Response): seq<Slot> {
    if r.queue.Some? then r.queue.value else []
  }

  function QueueReadings(r: Response): seq<Reading> {
    var slots := QueueSlots(r);
    [Reading(QueueLatency, r.seconds.queue),
     Reading(ActiveDownloads, CountOf(Statuses(slots), "Downloading") as real),
     Reading(QueueItems, |slots| as real),
     Reading(QueueDepth, Bytes(Sum(Sizes(slots))))]
  }

  function Share(completed: nat, failed: nat): real {
    if completed + failed > 0 then completed as real / (completed + failed) as real else 0.0
  }

  /** `f"{x:.4f}"`: the nearest multiple of 0.0001, the even one in the middle. */
  function FourDigits(x: real): real {
    var n := (x * 10000.0).Floor;
    var over := x * 10000.0 - n as real;
    (if over < 0.5 || (over == 0.5 && n % 2 == 0) then n else n + 1) as real / 10000.0
  }

  function HistoryReadings(r: Response): seq<Reading> {
    var statuses := if r.history.Some? then r.history.value else [];
    var completed, failed := CountOf(statuses, "Completed"), CountOf(statuses, "Failed");
    [Reading(HistoryLatency, r.seconds.history),
     Reading(HistoryCompleted, completed as real),
     Reading(HistoryFailed, failed as real),
     Reading(SuccessRatio, FourDigits(Share(completed, failed)))]
  }

  /** `_bool_val` */
  function BoolVal(config: Config, key: ConfigKey): real {
    Flag(key in config && Lower(config[key]) == "true")
  }

  /** `_as_number(config.get(key))`; what is no finite number counts as 0. */
  function NumberVal(env: Env, config: Config, key: ConfigKey): real {
    if key in config && env.number(config[key]).Some? then env.number(config[key]).value else 0.0
  }

  function ConfigReadings(env: Env, r: Response, config: Config): seq<Reading> {
    [Reading(ConfigLatency, r.seconds.config),
     Reading(ConfigSuccess, Flag(r.config.Some?)),
     Reading(CacheEnabled, BoolVal(config, SegmentCacheEnabled)),
     Reading(CacheMaxGb, NumberVal(env, config, SegmentCacheMaxGb)),
     Reading(WorkerCount, NumberVal(env, config, QueueWorkerCount)),
     Reading(PipeliningDepth, NumberVal(env, config, QueuePipeliningDepth)),
     Reading(RepairEnabled, BoolVal(config, RepairEnable)),
     Reading(WatchdogEnabled, BoolVal(config, WatchdogEnable)),
     Reading(PreflightMode, 0.0)]
  }

  function Mode(config: Config): string {
    Or(if PreflightModeKey in config then config[PreflightModeKey] else "", "unknown")
  }

  function FinalReadings(r: Response, config: Config): seq<Reading> {
    [Reading(MaxConnections, BoolVal(config, MaxConnectionsPerStream)),
     Reading(Up, Flag(r.queue.Some? && r.history.Some? && r.config.Some?)),
     Reading(Healthy, Flag(r.healthy)),
     Reading(HealthLatency, r.seconds.health)]
  }

  function QueueSegments(r: Response): seq<Segment> {
    [Gauges(QueueReadings(r)),
     Labels(PerCategory, "cat", InBytes(Tally(Sizes(QueueSlots(r))))),
     Labels(PerStatus, "status", Tally(Ones(QueueSlots(r))))]
  }

  function ConfigSegments(env: Env, r: Response, config: Config): seq<Segment> {
    [Gauges(ConfigReadings(env, r, config)),
     Labels(PreflightInfo, "mode", [Sample(Mode(config), 1.0)]),
     Gauges(FinalReadings(r, config))]
  }

  /** One scrape, as a sequence of writes. */
  function ScrapeSegments(env: Env, r: Response, config: Config): seq<Segment> {
    QueueSegments(r) + [Gauges(HistoryReadings(r))] + ConfigSegments(env, r, config)
  }

  function DurationSegment(r: Response): seq<Segment> {
    [Gauges([Reading(ScrapeDuration, r.seconds.round)])]
  }

  /** One round of the loop: a scrape, then its duration. */
  function Segments(env: Env, r: Response, config: Config): seq<Segment> {
    ScrapeSegments(env, r, config) + DurationSegment(r)
  }

  /** The configuration in use after a run: that of the last answered config fetch. */
  function ConfigAfter(rs: seq<Response>): Config {
    if rs == [] then map[]
    else if rs[|rs| - 1].config.Some? then rs[|rs| - 1].config.value
    else ConfigAfter(rs[..|rs| - 1])
  }

  function RunSegments(env: Env, rs: seq<Response>): seq<Segment> {
    if rs == [] then []
    else RunSegments(env, rs[..|rs| - 1]) + Segments(env, rs[|rs| - 1], ConfigAfter(rs))
  }

  // ------------------------------------------------------------ the source's loops

  /** The `cat_bytes` loop. */
  method CatBytes(slots: seq<Slot>) returns (catBytes: seq<Sample>)
    ensures catBytes == Tally(Sizes(slots))
  {
    ghost var sizes := Sizes(slots);
    catBytes := [];
    for i := 0 to |slots|
      invariant catBytes == Tally(sizes[..i])
    {
      TallyNext(sizes, i);
      catBytes := Add(catBytes, Or(slots[i].category, "unknown"), slots[i].mbleft);
    }
    assert sizes[..|slots|] == sizes;
  }

  /** The `status_counts` loop. */
  method StatusCounts(slots: seq<Slot>) returns (statusCounts: seq<Sample>)
    ensures statusCounts == Tally(Ones(slots))
  {
    ghost var ones := Ones(slots);
    statusCounts := [];
    for i := 0 to |slots|
      invariant statusCounts == Tally(ones[..i])
    {
      TallyNext(ones, i);
      statusCounts := Add(statusCounts, Or(slots[i].status, "unknown"), 1.0);
    }
    assert ones[..|slots|] == ones;
  }

  lemma TallyNext(items: seq<Sample>, i: nat)
    requires i < |items|
    ensures Tally(items[..i + 1]) == Add(Tally(items[..i]), items[i].key, items[i].value)
  {
    assert items[..i + 1][..i] == items[..i];
  }

  class Exporter {
    const env: Env
    const registry: Registry
    var lastConfig: Config

    ghost predicate Valid()
      reads this, registry
    {
      registry.Valid() && GoodEnv(env)
    }

    constructor (env: Env)
      requires GoodEnv(env)
      ensures this.env == env
      ensures Valid() && fresh(registry) && registry.log == [] && lastConfig == map[]
    {
      this.env := env;
      registry := new Registry();
      lastConfig := map[];
    }

    method SetPlain(readings: seq<Reading>)
      requires Valid()
      modifies registry
      ensures Valid() && registry.log == old(registry.log) + PlainOps(env, readings)
    {
      ghost var log := registry.log;
      for i := 0 to |readings|
        invariant Valid() && registry.log == log + PlainOps(env, readings[..i])
      {
        assert readings[..i + 1][..i] == readings[..i];
        registry.Set(env.name(readings[i].g), readings[i].value, HELP, map[]);
        BareKey(env.name(readings[i].g));
      }
      assert readings[..|readings|] == readings;
    }

    method SetLabel(g: Gauge, name: string, s: Sample)
      requires Valid()
      modifies registry
      ensures Valid() && registry.log == old(registry.log) + [Labeled(env, g, name, s)]
    {
      registry.Set(env.name(g), s.value, HELP, map[name := s.key]);
      assert env.key(env.name(g), name, s.key) == SampleKey(env.name(g), map[name := s.key]);
    }

    method SetLabeled(g: Gauge, name: string, d: seq<Sample>)
      requires Valid()
      modifies registry
      ensures Valid() && registry.log == old(registry.log) + SegmentOps(env, Labels(g, name, d))
    {
      ghost var log := registry.log;
      registry.RemoveFamily(env.name(g));
      for i := 0 to |d|
        invariant Valid() && registry.log == log + SegmentOps(env, Labels(g, name, d[..i]))
      {
        SetLabel(g, name, d[i]);
        LabelsNext(env, log, g, name, d, i);
      }
      assert d[..|d|] == d;
    }

    /** The plain gauges, or the labelled family, of one segment. */
    method WriteOne(segment: Segment)
      requires Valid()
      modifies registry
      ensures Valid() && registry.log == old(registry.log) + SegmentOps(env, segment)
    {
      match segment
      case Gauges(readings) => SetPlain(readings);
      case Labels(g, name, d) => SetLabeled(g, name, d);
    }

    /** A stretch of `_set` and `_remove_family` calls in their order. */
    method Write(segments: seq<Segment>)
      requires Valid()
      modifies registry
      ensures Valid() && registry.log == old(registry.log) + OpsOf(env, segments)
    {
      ghost var log := registry.log;
      for i := 0 to |segments|
        invariant Valid() && registry.log == log + OpsOf(env, segments[..i])
      {
        OpsNext(env, segments, i);
        WriteOne(segments[i]);
        Assoc(log, OpsOf(env, segments[..i]), SegmentOps(env, segments[i]));
      }
      assert segments[..|segments|] == segments;
    }

    method ScrapeQueue(r: Response)
      requires Valid()
      modifies registry
      ensures Valid() && registry.log == old(registry.log) + OpsOf(env, QueueSegments(r))
    {
      var slots := QueueSlots(r);
      var catBytes := CatBytes(slots);
      var statusCounts := StatusCounts(slots);
      Write([Gauges(QueueReadings(r)),
             Labels(PerCategory, "cat", InBytes(catBytes)),
             Labels(PerStatus, "status", statusCounts)]);
    }

    /** `_scrape` */
    method ScrapeOnce(r: Response)
      requires Valid()
      modifies this, registry
      ensures Valid()
      ensures lastConfig == if r.config.Some? then r.config.value else old(lastConfig)
      ensures registry.log == old(registry.log) + OpsOf(env, ScrapeSegments(env, r, lastConfig))
    {
      ghost var log := registry.log;
      ScrapeQueue(r);
      Write([Gauges(HistoryReadings(r))]);
      if r.config.Some? {
        lastConfig := r.config.value;
      }
      Write(ConfigSegments(env, r, lastConfig));
      ThreeParts(env, log, QueueSegments(r), [Gauges(HistoryReadings(r))], ConfigSegments(env, r, lastConfig));
    }

    /** One round of `_scraper`. */
    method Round(r: Response)
      requires Valid()
      modifies this, registry
      ensures Valid()
      ensures lastConfig == if r.config.Some? then r.config.value else old(lastConfig)
      ensures registry.log == old(registry.log) + OpsOf(env, Segments(env, r, lastConfig))
    {
      ghost var log := registry.log;
      ScrapeOnce(r);
      Write(DurationSegment(r));
      OpsJoin(env, ScrapeSegments(env, r, lastConfig), DurationSegment(r));
      Assoc(log, OpsOf(env, ScrapeSegments(env, r, lastConfig)), OpsOf(env, DurationSegment(r)));
    }

    /** The scrape loop, for as many rounds as there are responses. */
    method Scraper(rs: seq<Response>)
      requires Valid() && registry.log == [] && lastConfig == map[]
      modifies this, registry
      ensures Valid() && registry.log == OpsOf(env, RunSegments(env, rs)) && lastConfig == ConfigAfter(rs)
    {
      for i := 0 to |rs|
        invariant Valid() && registry.log == OpsOf(env, RunSegments(env, rs[..i]))
        invariant lastConfig == ConfigAfter(rs[..i])
      {
        NextRound(rs, i);
      }
      assert rs[..|rs|] == rs;
    }

    method NextRound(rs: seq<Response>, i: nat)
      requires i < |rs| && Valid()
      requires registry.log == OpsOf(env, RunSegments(env, rs[..i])) && lastConfig == ConfigAfter(rs[..i])
      modifies this, registry
      ensures Valid() && lastConfig == ConfigAfter(rs[..i + 1])
      ensures registry.log == OpsOf(env, RunSegments(env, rs[..i + 1]))
    {
      RunNext(env, rs, i);
      Round(rs[i]);
    }
  }

  lemma LabelsNext(env: Env, log: seq<Op>, g: Gauge, name: string, d: seq<Sample>, i: nat)
    requires i < |d|
    ensures log + SegmentOps(env, Labels(g, name, d[..i + 1]))
         == log + SegmentOps(env, Labels(g, name, d[..i])) + [Labeled(env, g, name, d[i])]
  {
    assert d[..i + 1][..i] == d[..i];
  }

  lemma ThreeParts(env: Env, log: seq<Op>, a: seq<Segment>, b: seq<Segment>, c: seq<Segment>)
    ensures log + OpsOf(env, a) + OpsOf(env, b) + OpsOf(env, c) == log + OpsOf(env, a + b + c)
  {
    OpsJoin(env, a, b);
    OpsJoin(env, a + b, c);
    Assoc(log, OpsOf(env, a), OpsOf(env, b));
    Assoc(log, OpsOf(env, a) + OpsOf(env, b), OpsOf(env, c));
  }

  lemma BareKey(name: string)
    ensures SampleKey(name, map[]) == name
  {
  }

  lemma RunNext(env: Env, rs: seq<Response>, i: nat)
    requires i < |rs|
    ensures ConfigAfter(rs[..i + 1]) == if rs[i].config.Some? then rs[i].config.value else ConfigAfter(rs[..i])
    ensures OpsOf(env, RunSegments(env, rs[..i + 1]))
            == OpsOf(env, RunSegments(env, rs[..i])) + OpsOf(env, Segments(env, rs[i], ConfigAfter(rs[..i + 1])))
  {
    assert rs[..i + 1][..i] == rs[..i];
    OpsJoin(env, RunSegments(env, rs[..i]), Segments(env, rs[i], ConfigAfter(rs[..i + 1])));
  }
}
