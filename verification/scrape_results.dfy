/** What the exporter publishes after any run of scrapes and at every moment in
    between (nzbdav-exporter/exporter.py, `_scrape` and `render_metrics`). */
module ScrapeResults {
  import opened Text
  import opened PrometheusFormat
  import opened MetricsRegistry
  import opened Scrape
  import opened Selection

  // ------------------------------------------------------------ which operations touch a gauge

  function OfGauge(g: Gauge): Reading -> bool {
    (reading: Reading) => reading.g == g
  }

  /** The readings of one gauge. */
  function ReadingsOf(readings: seq<Reading>, g: Gauge): seq<Reading> {
    Filter(readings, OfGauge(g))
  }

  predicate Reads(readings: seq<Reading>, g: Gauge) {
    exists i :: 0 <= i < |readings| && readings[i].g == g
  }

  predicate Mentions(s: Segment, g: Gauge) {
    if s.Gauges? then Reads(s.readings, g) else s.g == g
  }

  lemma {:induction false} PlainTouching(env: Env, readings: seq<Reading>, g: Gauge)
    requires GoodEnv(env)
    ensures Touching(PlainOps(env, readings), env.name(g)) == PlainOps(env, ReadingsOf(readings, g))
  {
    if readings != [] {
      var init, last := readings[..|readings| - 1], readings[|readings| - 1];
      PlainTouching(env, init, g);
      var ops := PlainOps(env, readings);
      assert ops[..|ops| - 1] == PlainOps(env, init);
      if last.g == g {
        var picked := ReadingsOf(readings, g);
        assert picked[..|picked| - 1] == ReadingsOf(init, g);
      }
    }
  }

  lemma {:induction false} LabeledTouching(env: Env, h: Gauge, label_: string, d: seq<Sample>, g: Gauge)
    requires GoodEnv(env)
    ensures Touching(LabeledOps(env, h, label_, d), env.name(g)) == if g == h then LabeledOps(env, h, label_, d) else []
  {
    if d != [] {
      LabeledTouching(env, h, label_, d[..|d| - 1], g);
      var ops := LabeledOps(env, h, label_, d);
      assert ops[..|ops| - 1] == LabeledOps(env, h, label_, d[..|d| - 1]);
    }
  }

  lemma SegmentTouching(env: Env, s: Segment, g: Gauge)
    requires GoodEnv(env)
    ensures Touching(SegmentOps(env, s), env.name(g))
            == if s.Gauges? then PlainOps(env, ReadingsOf(s.readings, g))
               else if s.g == g then SegmentOps(env, s)
               else []
  {
    match s
    case Gauges(readings) => PlainTouching(env, readings, g);
    case Labels(h, name, d) =>
      var clear := [Clear(env.name(h))];
      LabeledTouching(env, h, name, d, g);
      TouchingJoins(clear, LabeledOps(env, h, name, d), env.name(g));
      assert clear[..0] == [];
      assert Touching(clear, env.name(g)) == if g == h then clear else [];
  }

  lemma SegmentUntouched(env: Env, s: Segment, g: Gauge)
    requires GoodEnv(env) && !Mentions(s, g)
    ensures Touching(SegmentOps(env, s), env.name(g)) == []
  {
    SegmentTouching(env, s, g);
    if s.Gauges? {
      PickNothing(s.readings, OfGauge(g), Same);
    }
  }

  lemma {:induction false} Untouched(env: Env, segments: seq<Segment>, g: Gauge)
    requires GoodEnv(env) && forall i | 0 <= i < |segments| :: !Mentions(segments[i], g)
    ensures Touching(OpsOf(env, segments), env.name(g)) == []
  {
    if segments != [] {
      var init, last := segments[..|segments| - 1], segments[|segments| - 1];
      Untouched(env, init, g);
      assert segments[..|init| + 1] == segments;
      OpsNext(env, segments, |init|);
      TouchingJoins(OpsOf(env, init), SegmentOps(env, last), env.name(g));
      SegmentUntouched(env, last, g);
    }
  }

  /** A gauge mentioned by one segment only is touched by that segment only. */
  lemma TouchedByOne(env: Env, segments: seq<Segment>, k: nat, g: Gauge)
    requires GoodEnv(env) && k < |segments|
    requires forall i | 0 <= i < |segments| && i != k :: !Mentions(segments[i], g)
    ensures Touching(OpsOf(env, segments), env.name(g)) == Touching(SegmentOps(env, segments[k]), env.name(g))
  {
    var front, back := segments[..k + 1], segments[k + 1..];
    assert front + back == segments;
    OpsJoin(env, front, back);
    OpsNext(env, segments, k);
    TouchingJoins(OpsOf(env, front), OpsOf(env, back), env.name(g));
    TouchingJoins(OpsOf(env, segments[..k]), SegmentOps(env, segments[k]), env.name(g));
    Untouched(env, segments[..k], g);
    Untouched(env, back, g);
  }

  ghost predicate DistinctGauges(readings: seq<Reading>) {
    forall i, j | 0 <= i < j < |readings| :: readings[i].g != readings[j].g
  }

  lemma {:induction false} PickOne(readings: seq<Reading>, i: nat)
    requires i < |readings| && DistinctGauges(readings)
    ensures ReadingsOf(readings, readings[i].g) == [readings[i]]
  {
    var init := readings[..|readings| - 1];
    if i < |init| {
      PickOne(init, i);
    } else {
      PickNothing(init, OfGauge(readings[i].g), Same);
    }
  }

  // ------------------------------------------------------------ keys

  lemma {:induction false} SetContains(samples: seq<Sample>, key: string, value: real)
    ensures Sample(key, value) in SetSample(samples, key, value)
  {
    if samples != [] && samples[0].key != key {
      SetContains(samples[1..], key, value);
    }
  }

  lemma {:induction false} FamilyWithin(samples: seq<Sample>, name: string)
    ensures forall s | s in Family(samples, name) :: s in samples
  {
    if samples != [] {
      FamilyWithin(samples[1..], name);
    }
  }

  lemma {:induction false} OpsAreKeyed(env: Env, readings: seq<Reading>)
    requires GoodEnv(env)
    ensures WellKeyed(PlainOps(env, readings))
  {
    if readings != [] {
      OpsAreKeyed(env, readings[..|readings| - 1]);
      var name := env.name(readings[|readings| - 1].g);
      FamilyOfKey(name, map[]);
      BareKey(name);
    }
  }

  lemma {:induction false} LabeledAreKeyed(env: Env, g: Gauge, label_: string, d: seq<Sample>)
    requires GoodEnv(env)
    ensures WellKeyed(LabeledOps(env, g, label_, d))
  {
    if d != [] {
      LabeledAreKeyed(env, g, label_, d[..|d| - 1]);
      var key := d[|d| - 1].key;
      FamilyOfKey(env.name(g), map[label_ := key]);
      assert env.key(env.name(g), label_, key) == SampleKey(env.name(g), map[label_ := key]);
    }
  }

  lemma KeyedJoin(a: seq<Op>, b: seq<Op>)
    requires WellKeyed(a) && WellKeyed(b)
    ensures WellKeyed(a + b)
  {
  }

  lemma {:induction false} SegmentsAreKeyed(env: Env, segments: seq<Segment>)
    requires GoodEnv(env)
    ensures WellKeyed(OpsOf(env, segments))
  {
    if segments != [] {
      var init, last := segments[..|segments| - 1], segments[|segments| - 1];
      SegmentsAreKeyed(env, init);
      assert segments[..|init| + 1] == segments;
      OpsNext(env, segments, |init|);
      SegmentIsKeyed(env, last);
      KeyedJoin(OpsOf(env, init), SegmentOps(env, last));
    }
  }

  lemma SegmentIsKeyed(env: Env, s: Segment)
    requires GoodEnv(env)
    ensures WellKeyed(SegmentOps(env, s))
  {
    match s
    case Gauges(readings) => OpsAreKeyed(env, readings);
    case Labels(g, name, d) =>
      LabeledAreKeyed(env, g, name, d);
      KeyedJoin([Clear(env.name(g))], LabeledOps(env, g, name, d));
  }

  // ------------------------------------------------------------ the layout of a scrape

  /** Which of the eight segments of a round writes a gauge. */
  function Home(g: Gauge): nat {
    match g
    case QueueLatency => 0 case ActiveDownloads => 0 case QueueItems => 0 case QueueDepth => 0
    case PerCategory => 1
    case PerStatus => 2
    case HistoryLatency => 3 case HistoryCompleted => 3 case HistoryFailed => 3 case SuccessRatio => 3
    case PreflightInfo => 5
    case MaxConnections => 6 case Up => 6 case Healthy => 6 case HealthLatency => 6
    case ScrapeDuration => 7
    case _ => 4
  }

  predicate IsFamily(g: Gauge) {
    g.PerCategory? || g.PerStatus? || g.PreflightInfo?
  }

  lemma Layout(env: Env, r: Response, config: Config)
    ensures var s := Segments(env, r, config);
            && |s| == 8
            && s[0] == Gauges(QueueReadings(r))
            && s[1] == Labels(PerCategory, "cat", InBytes(Tally(Sizes(QueueSlots(r)))))
            && s[2] == Labels(PerStatus, "status", Tally(Ones(QueueSlots(r))))
            && s[3] == Gauges(HistoryReadings(r))
            && s[4] == Gauges(ConfigReadings(env, r, config))
            && s[5] == Labels(PreflightInfo, "mode", [Sample(Mode(config), 1.0)])
            && s[6] == Gauges(FinalReadings(r, config))
            && s[7] == Gauges([Reading(ScrapeDuration, r.seconds.round)])
  {
  }

  /** Eight segments, each of which mentions only the gauges at home in it. */
  ghost predicate AtHome(segments: seq<Segment>) {
    && |segments| == 8
    && forall k: nat, g: Gauge | k < 8 && Mentions(segments[k], g) :: Home(g) == k
  }

  ghost predicate ReadAt(readings: seq<Reading>, k: nat) {
    forall i | 0 <= i < |readings| :: Home(readings[i].g) == k
  }

  lemma ReadingsAtHome(env: Env, r: Response, config: Config)
    ensures ReadAt(QueueReadings(r), 0) && ReadAt(HistoryReadings(r), 3)
    ensures ReadAt(ConfigReadings(env, r, config), 4) && ReadAt(FinalReadings(r, config), 6)
  {
    QueueAtHome(r);
    HistoryAtHome(r);
    ConfigAtHome(env, r, config);
    FinalAtHome(r, config);
  }

  lemma QueueAtHome(r: Response)
    ensures ReadAt(QueueReadings(r), 0)
  {
  }

  lemma HistoryAtHome(r: Response)
    ensures ReadAt(HistoryReadings(r), 3)
  {
  }

  lemma ConfigAtHome(env: Env, r: Response, config: Config)
    ensures ReadAt(ConfigReadings(env, r, config), 4)
  {
  }

  lemma FinalAtHome(r: Response, config: Config)
    ensures ReadAt(FinalReadings(r, config), 6)
  {
  }

  /** Everything in the segment belongs to segment `k`. */
  ghost predicate SegmentAt(s: Segment, k: nat) {
    if s.Gauges? then ReadAt(s.readings, k) else Home(s.g) == k
  }

  lemma AllAtHome(segments: seq<Segment>)
    requires |segments| == 8
    requires SegmentAt(segments[0], 0) && SegmentAt(segments[1], 1) && SegmentAt(segments[2], 2)
    requires SegmentAt(segments[3], 3) && SegmentAt(segments[4], 4) && SegmentAt(segments[5], 5)
    requires SegmentAt(segments[6], 6) && SegmentAt(segments[7], 7)
    ensures AtHome(segments)
  {
    forall k: nat, g: Gauge | k < 8 && Mentions(segments[k], g) ensures Home(g) == k {
      assert SegmentAt(segments[k], k);
    }
  }

  lemma SegmentsAtHome(env: Env, r: Response, config: Config)
    ensures AtHome(Segments(env, r, config))
  {
    Layout(env, r, config);
    ReadingsAtHome(env, r, config);
    LaidOut(Segments(env, r, config), QueueReadings(r), HistoryReadings(r),
            ConfigReadings(env, r, config), FinalReadings(r, config));
  }

  lemma LaidOut(s: seq<Segment>, queue: seq<Reading>, history: seq<Reading>, config: seq<Reading>,
                final: seq<Reading>)
    requires |s| == 8 && s[0] == Gauges(queue) && s[3] == Gauges(history) && s[4] == Gauges(config)
    requires s[6] == Gauges(final) && s[7].Gauges? && ReadAt(s[7].readings, 7)
    requires s[1].Labels? && s[1].g == PerCategory && s[2].Labels? && s[2].g == PerStatus
    requires s[5].Labels? && s[5].g == PreflightInfo
    requires ReadAt(queue, 0) && ReadAt(history, 3) && ReadAt(config, 4) && ReadAt(final, 6)
    ensures AtHome(s)
  {
    AllAtHome(s);
  }

  lemma ScrapeTouches(env: Env, segments: seq<Segment>, g: Gauge)
    requires GoodEnv(env) && AtHome(segments)
    ensures Touching(OpsOf(env, segments), env.name(g)) == Touching(SegmentOps(env, segments[Home(g)]), env.name(g))
  {
    TouchedByOne(env, segments, Home(g), g);
  }

  // ------------------------------------------------------------ plain gauges

  /** A plain reading that is alone with its gauge is in the registry afterwards. */
  lemma OneReading(env: Env, before: seq<Sample>, ops: seq<Op>, reading: Reading)
    requires GoodEnv(env) && WellKeyed(ops)
    requires Touching(ops, env.name(reading.g)) == PlainOps(env, [reading])
    ensures Sample(env.name(reading.g), reading.value) in ApplyAll(before, ops)
  {
    var name := env.name(reading.g);
    FamilyEvolves(before, ops, name);
    var family := Family(before, name);
    var put := Plain(env, reading.g, reading.value);
    assert [reading][..0] == [];
    assert PlainOps(env, [reading]) == [put];
    assert [put][..0] == [];
    assert ApplyAll(family, [put]) == SetSample(family, name, reading.value);
    SetContains(family, name, reading.value);
    FamilyWithin(ApplyAll(before, ops), name);
  }

  /** Every plain reading of a scrape is in the registry when the scrape is over. */
  lemma HoldsReading(env: Env, before: seq<Sample>, segments: seq<Segment>, k: nat, i: nat)
    requires GoodEnv(env) && AtHome(segments) && k < 8 && segments[k].Gauges?
    requires i < |segments[k].readings| && DistinctGauges(segments[k].readings)
    ensures var reading := segments[k].readings[i];
            Sample(env.name(reading.g), reading.value) in ApplyAll(before, OpsOf(env, segments))
  {
    var reading := segments[k].readings[i];
    assert Mentions(segments[k], reading.g);
    ScrapeTouches(env, segments, reading.g);
    SegmentTouching(env, segments[k], reading.g);
    PickOne(segments[k].readings, i);
    SegmentsAreKeyed(env, segments);
    OneReading(env, before, OpsOf(env, segments), reading);
  }

  lemma QueueHolds(env: Env, before: seq<Sample>, segments: seq<Segment>, r: Response)
    requires GoodEnv(env) && AtHome(segments) && segments[0] == Gauges(QueueReadings(r))
    ensures Sample(env.name(QueueItems), |QueueSlots(r)| as real) in ApplyAll(before, OpsOf(env, segments))
    ensures Sample(env.name(QueueDepth), Bytes(Sum(Sizes(QueueSlots(r))))) in ApplyAll(before, OpsOf(env, segments))
  {
    HoldsReading(env, before, segments, 0, 2);
    HoldsReading(env, before, segments, 0, 3);
  }

  lemma {:induction false} CountIsMultiplicity(statuses: seq<string>, status: string)
    ensures CountOf(statuses, status) == multiset(statuses)[status]
  {
    if statuses != [] {
      var init, last := statuses[..|statuses| - 1], statuses[|statuses| - 1];
      CountIsMultiplicity(init, status);
      assert statuses == init + [last];
    }
  }

  lemma HistoryHolds(env: Env, before: seq<Sample>, segments: seq<Segment>, r: Response)
    requires GoodEnv(env) && AtHome(segments) && segments[3] == Gauges(HistoryReadings(r))
    ensures var readings, after := HistoryReadings(r), ApplyAll(before, OpsOf(env, segments));
            && Sample(env.name(HistoryCompleted), readings[1].value) in after
            && Sample(env.name(HistoryFailed), readings[2].value) in after
            && Sample(env.name(SuccessRatio), readings[3].value) in after
  {
    HoldsReading(env, before, segments, 3, 1);
    HoldsReading(env, before, segments, 3, 2);
    HoldsReading(env, before, segments, 3, 3);
  }

  lemma ShareBounds(completed: nat, failed: nat)
    ensures var share := Share(completed, failed);
            0.0 <= share <= 1.0 && share * (completed + failed) as real == completed as real
  {
  }

  lemma FourDigitsBounds(x: real)
    requires 0.0 <= x <= 1.0
    ensures 0.0 <= FourDigits(x) <= 1.0 && -0.00005 <= FourDigits(x) - x <= 0.00005
  {
  }

  /** How often each outcome occurs in the answered history, none when the fetch failed. */
  function Outcomes(r: Response): multiset<string> {
    if r.history.Some? then multiset(r.history.value) else multiset{}
  }

  /** `shown` is, up to the rounding to four digits, the share that `done` has of both. */
  predicate IsShare(shown: real, share: real, done: nat, failed: nat) {
    && share * (done + failed) as real == done as real
    && (done + failed == 0 ==> share == 0.0)
    && -0.00005 <= shown - share <= 0.00005
    && 0.0 <= shown <= 1.0
  }

  lemma SharesAreShown(done: nat, failed: nat)
    ensures IsShare(FourDigits(Share(done, failed)), Share(done, failed), done, failed)
  {
    ShareBounds(done, failed);
    FourDigitsBounds(Share(done, failed));
  }

  lemma HistoryMeans(r: Response) returns (share: real)
    ensures var done, failed := Outcomes(r)["Completed"], Outcomes(r)["Failed"];
            && HistoryReadings(r)[1].value == done as real
            && HistoryReadings(r)[2].value == failed as real
            && IsShare(HistoryReadings(r)[3].value, share, done, failed)
  {
    var statuses := if r.history.Some? then r.history.value else [];
    assert multiset(statuses) == Outcomes(r);
    CountIsMultiplicity(statuses, "Completed");
    CountIsMultiplicity(statuses, "Failed");
    SharesAreShown(CountOf(statuses, "Completed"), CountOf(statuses, "Failed"));
    share := Share(CountOf(statuses, "Completed"), CountOf(statuses, "Failed"));
  }

  /** The history gauges of a scrape count the outcomes, and the ratio is the rounded
      completed share of the two. */
  lemma HistoryGaugesAgree(env: Env, before: seq<Sample>, r: Response, config: Config)
    returns (shown: real, share: real)
    requires GoodEnv(env)
    ensures var after := ApplyAll(before, OpsOf(env, Segments(env, r, config)));
            var done, failed := Outcomes(r)["Completed"], Outcomes(r)["Failed"];
            && Sample(env.name(HistoryCompleted), done as real) in after
            && Sample(env.name(HistoryFailed), failed as real) in after
            && Sample(env.name(SuccessRatio), shown) in after
            && IsShare(shown, share, done, failed)
  {
    Layout(env, r, config);
    SegmentsAtHome(env, r, config);
    HistoryHolds(env, before, Segments(env, r, config), r);
    share := HistoryMeans(r);
    shown := HistoryReadings(r)[3].value;
  }

  lemma FinalHolds(env: Env, before: seq<Sample>, segments: seq<Segment>, r: Response, config: Config)
    requires GoodEnv(env) && AtHome(segments) && segments[6] == Gauges(FinalReadings(r, config))
    ensures var after := ApplyAll(before, OpsOf(env, segments));
            && Sample(env.name(MaxConnections), BoolVal(config, MaxConnectionsPerStream)) in after
            && Sample(env.name(Up), Flag(r.queue.Some? && r.history.Some? && r.config.Some?)) in after
  {
    HoldsReading(env, before, segments, 6, 0);
    HoldsReading(env, before, segments, 6, 1);
  }

  lemma ConfigHolds(env: Env, before: seq<Sample>, segments: seq<Segment>, readings: seq<Reading>)
    requires GoodEnv(env) && AtHome(segments) && segments[4] == Gauges(readings) && DistinctGauges(readings)
    ensures forall i | 0 <= i < |readings| ::
              Sample(env.name(readings[i].g), readings[i].value) in ApplyAll(before, OpsOf(env, segments))
  {
    forall i | 0 <= i < |readings|
      ensures Sample(env.name(readings[i].g), readings[i].value) in ApplyAll(before, OpsOf(env, segments))
    {
      HoldsReading(env, before, segments, 4, i);
    }
  }

  lemma ConfigReadingsDiffer(env: Env, r: Response, config: Config)
    ensures DistinctGauges(ConfigReadings(env, r, config))
  {
  }

  // ------------------------------------------------------------ labelled families

  /** What a labelled family shows for a dictionary. */
  function Shown(env: Env, g: Gauge, name: string, d: seq<Sample>): (r: seq<Sample>)
    ensures |r| == |d|
    ensures forall i | 0 <= i < |r| :: r[i] == Sample(env.key(env.name(g), name, d[i].key), d[i].value)
  {
    seq(|d|, i requires 0 <= i < |d| => Sample(env.key(env.name(g), name, d[i].key), d[i].value))
  }

  lemma {:induction false} SetAppends(samples: seq<Sample>, key: string, value: real)
    requires forall i | 0 <= i < |samples| :: samples[i].key != key
    ensures SetSample(samples, key, value) == samples + [Sample(key, value)]
  {
    if samples != [] {
      SetAppends(samples[1..], key, value);
    }
  }

  lemma DifferentLabels(env: Env, g: Gauge, name: string, v: string, w: string)
    requires GoodEnv(env) && '=' !in name && v != w
    ensures env.key(env.name(g), name, v) != env.key(env.name(g), name, w)
  {
    KeysAreInjective(env.name(g), map[name := v], env.name(g), map[name := w]);
    assert map[name := v][name] != map[name := w][name];
    assert env.key(env.name(g), name, v) == SampleKey(env.name(g), map[name := v]);
    assert env.key(env.name(g), name, w) == SampleKey(env.name(g), map[name := w]);
  }

  lemma FreshKey(env: Env, g: Gauge, name: string, d: seq<Sample>, key: string)
    requires GoodEnv(env) && '=' !in name && forall i | 0 <= i < |d| :: d[i].key != key
    ensures forall i | 0 <= i < |d| :: Shown(env, g, name, d)[i].key != env.key(env.name(g), name, key)
  {
    forall i | 0 <= i < |d| ensures Shown(env, g, name, d)[i].key != env.key(env.name(g), name, key) {
      DifferentLabels(env, g, name, d[i].key, key);
    }
  }

  lemma {:induction false} BlockShows(env: Env, g: Gauge, name: string, d: seq<Sample>, family: seq<Sample>)
    requires GoodEnv(env) && '=' !in name && DistinctKeys(d)
    requires Others(family, env.name(g)) == []
    ensures ApplyAll(family, SegmentOps(env, Labels(g, name, d))) == Shown(env, g, name, d)
  {
    if d == [] {
      NoLabels(env, g, name, family);
    } else {
      var init, last := d[..|d| - 1], d[|d| - 1];
      assert d == init + [last];
      BlockShows(env, g, name, init, family);
      OneMoreLabel(env, g, name, init, last, family);
    }
  }

  lemma NoLabels(env: Env, g: Gauge, name: string, family: seq<Sample>)
    requires Others(family, env.name(g)) == []
    ensures ApplyAll(family, SegmentOps(env, Labels(g, name, []))) == []
  {
    var clear := Clear(env.name(g));
    assert SegmentOps(env, Labels(g, name, [])) == [] + [clear];
    ApplyNext(family, [], clear);
  }

  lemma OneMoreLabel(env: Env, g: Gauge, name: string, init: seq<Sample>, last: Sample, family: seq<Sample>)
    requires GoodEnv(env) && '=' !in name && forall i | 0 <= i < |init| :: init[i].key != last.key
    requires ApplyAll(family, SegmentOps(env, Labels(g, name, init))) == Shown(env, g, name, init)
    ensures ApplyAll(family, SegmentOps(env, Labels(g, name, init + [last]))) == Shown(env, g, name, init + [last])
  {
    var before, put := SegmentOps(env, Labels(g, name, init)), Labeled(env, g, name, last);
    LabelNext(env, g, name, init, last);
    ApplyNext(family, before, put);
    FreshKey(env, g, name, init, last.key);
    SetAppends(Shown(env, g, name, init), put.key, last.value);
    ShownNext(env, g, name, init, last);
  }

  lemma ShownNext(env: Env, g: Gauge, name: string, init: seq<Sample>, last: Sample)
    ensures Shown(env, g, name, init + [last])
            == Shown(env, g, name, init) + [Sample(env.key(env.name(g), name, last.key), last.value)]
  {
  }

  lemma LabelNext(env: Env, g: Gauge, name: string, init: seq<Sample>, last: Sample)
    ensures SegmentOps(env, Labels(g, name, init + [last]))
            == SegmentOps(env, Labels(g, name, init)) + [Labeled(env, g, name, last)]
  {
    assert (init + [last])[..|init|] == init;
    Assoc([Clear(env.name(g))], LabeledOps(env, g, name, init), [Labeled(env, g, name, last)]);
  }

  lemma {:induction false} SumShown(env: Env, g: Gauge, name: string, d: seq<Sample>)
    ensures Sum(Shown(env, g, name, d)) == Sum(d)
  {
    if d != [] {
      SumShown(env, g, name, d[1..]);
      assert Shown(env, g, name, d)[1..] == Shown(env, g, name, d[1..]);
    }
  }

  /** After a scrape a labelled family shows its dictionary and nothing else. */
  lemma FamilyShows(env: Env, before: seq<Sample>, segments: seq<Segment>, k: nat)
    requires GoodEnv(env) && AtHome(segments) && k < 8 && segments[k].Labels?
    requires '=' !in segments[k].name && DistinctKeys(segments[k].d)
    ensures var s := segments[k];
            Family(ApplyAll(before, OpsOf(env, segments)), env.name(s.g)) == Shown(env, s.g, s.name, s.d)
  {
    var s := segments[k];
    assert Mentions(s, s.g);
    ScrapeTouches(env, segments, s.g);
    SegmentTouching(env, s, s.g);
    SegmentsAreKeyed(env, segments);
    FamilyEvolves(before, OpsOf(env, segments), env.name(s.g));
    OthersOfFamily(before, env.name(s.g));
    BlockShows(env, s.g, s.name, s.d, Family(before, env.name(s.g)));
  }

  lemma {:induction false} SumOfOnes(slots: seq<Slot>)
    ensures Sum(Ones(slots)) == |slots| as real
  {
    if slots != [] {
      SumOfOnes(slots[1..]);
      assert Ones(slots)[1..] == Ones(slots[1..]);
    }
  }

  lemma StatusesShown(env: Env, before: seq<Sample>, segments: seq<Segment>, slots: seq<Slot>)
    requires GoodEnv(env) && AtHome(segments)
    requires segments[2] == Labels(PerStatus, "status", Tally(Ones(slots)))
    ensures Sum(Family(ApplyAll(before, OpsOf(env, segments)), env.name(PerStatus))) == |slots| as real
  {
    var d := Tally(Ones(slots));
    TallyConserves(Ones(slots));
    FamilyShows(env, before, segments, 2);
    SumShown(env, PerStatus, "status", d);
    SumOfOnes(slots);
  }

  /** The per-status counts add up to the number of queue items, whatever fetches
      failed and whatever the registry held before. */
  lemma StatusCountsAddUp(env: Env, before: seq<Sample>, r: Response, config: Config)
    requires GoodEnv(env)
    ensures var after := ApplyAll(before, OpsOf(env, Segments(env, r, config)));
            Sample(env.name(QueueItems), Sum(Family(after, env.name(PerStatus)))) in after
  {
    Layout(env, r, config);
    SegmentsAtHome(env, r, config);
    StatusesShown(env, before, Segments(env, r, config), QueueSlots(r));
    QueueHolds(env, before, Segments(env, r, config), r);
  }

  lemma DistinctInBytes(d: seq<Sample>)
    requires DistinctKeys(d)
    ensures DistinctKeys(InBytes(d))
  {
  }

  lemma CategoriesShown(env: Env, before: seq<Sample>, segments: seq<Segment>, slots: seq<Slot>)
    requires GoodEnv(env) && AtHome(segments) && forall i | 0 <= i < |slots| :: slots[i].mbleft >= 0.0
    requires segments[1] == Labels(PerCategory, "cat", InBytes(Tally(Sizes(slots))))
    ensures var family := Family(ApplyAll(before, OpsOf(env, segments)), env.name(PerCategory));
            var depth := Bytes(Sum(Sizes(slots)));
            && (family == [] ==> depth == 0.0)
            && (family != [] ==> depth - (|family| - 1) as real <= Sum(family) <= depth)
  {
    var d := Tally(Sizes(slots));
    TallyConserves(Sizes(slots));
    DistinctInBytes(d);
    FamilyShows(env, before, segments, 1);
    SumShown(env, PerCategory, "cat", InBytes(d));
    TallyNonNegative(Sizes(slots));
    PartsNearDepth(d);
  }

  /** For sizes that are not negative the n per-category byte gauges sum to between
      depth - (n - 1) and depth, the published queue depth. */
  lemma CategoryBytesNearDepth(env: Env, before: seq<Sample>, r: Response, config: Config) returns (depth: real)
    requires GoodEnv(env) && forall i | 0 <= i < |QueueSlots(r)| :: QueueSlots(r)[i].mbleft >= 0.0
    ensures depth == Bytes(Sum(Sizes(QueueSlots(r))))
    ensures var after := ApplyAll(before, OpsOf(env, Segments(env, r, config)));
            var family := Family(after, env.name(PerCategory));
            && Sample(env.name(QueueDepth), depth) in after
            && (family == [] ==> depth == 0.0)
            && (family != [] ==> depth - (|family| - 1) as real <= Sum(family) <= depth)
  {
    depth := Bytes(Sum(Sizes(QueueSlots(r))));
    Layout(env, r, config);
    SegmentsAtHome(env, r, config);
    CategoriesShown(env, before, Segments(env, r, config), QueueSlots(r));
    QueueHolds(env, before, Segments(env, r, config), r);
  }

  // ------------------------------------------------------------ whole runs

  /** Before the first answered config fetch nothing is known; afterwards the last
      answer is, however many fetches have failed since. */
  lemma {:induction false} ConfigIsLastAnswer(rs: seq<Response>, i: nat)
    requires i <= |rs| && forall j | i <= j < |rs| :: rs[j].config.None?
    ensures ConfigAfter(rs) == if i == 0 then map[] else ConfigAfter(rs[..i])
    ensures i > 0 && rs[i - 1].config.Some? ==> ConfigAfter(rs) == rs[i - 1].config.value
  {
    if i < |rs| {
      var init := rs[..|rs| - 1];
      ConfigIsLastAnswer(init, i);
      assert init[..i] == rs[..i];
    } else {
      assert rs[..i] == rs;
    }
  }

  /** Every gauge read from the configuration shows the configuration in use. */
  ghost predicate ShowsConfig(env: Env, samples: seq<Sample>, r: Response, config: Config) {
    && (forall i | 0 <= i < |ConfigReadings(env, r, config)| ::
          Sample(env.name(ConfigReadings(env, r, config)[i].g), ConfigReadings(env, r, config)[i].value) in samples)
    && Sample(env.name(MaxConnections), BoolVal(config, MaxConnectionsPerStream)) in samples
    && Family(samples, env.name(PreflightInfo)) == Shown(env, PreflightInfo, "mode", [Sample(Mode(config), 1.0)])
  }

  /** What is published after a run that ends with the response `r`. */
  ghost predicate Published(env: Env, rs: seq<Response>, r: Response) {
    var samples, config := ApplyAll([], OpsOf(env, RunSegments(env, rs + [r]))), ConfigAfter(rs + [r]);
    && DistinctKeys(samples)
    && Sample(env.name(Up), Flag(r.queue.Some? && r.history.Some? && r.config.Some?)) in samples
    && Sample(env.name(QueueItems), Sum(Family(samples, env.name(PerStatus)))) in samples
    && ShowsConfig(env, samples, r, config)
  }

  lemma ConfigReadingsShown(env: Env, before: seq<Sample>, r: Response, config: Config)
    requires GoodEnv(env)
    ensures var samples := ApplyAll(before, OpsOf(env, Segments(env, r, config)));
            forall i | 0 <= i < |ConfigReadings(env, r, config)| ::
              Sample(env.name(ConfigReadings(env, r, config)[i].g), ConfigReadings(env, r, config)[i].value) in samples
  {
    Layout(env, r, config);
    SegmentsAtHome(env, r, config);
    ConfigReadingsDiffer(env, r, config);
    ConfigHolds(env, before, Segments(env, r, config), ConfigReadings(env, r, config));
  }

  lemma ModeShown(env: Env, before: seq<Sample>, r: Response, config: Config)
    requires GoodEnv(env)
    ensures Family(ApplyAll(before, OpsOf(env, Segments(env, r, config))), env.name(PreflightInfo))
         == Shown(env, PreflightInfo, "mode", [Sample(Mode(config), 1.0)])
  {
    Layout(env, r, config);
    SegmentsAtHome(env, r, config);
    FamilyShows(env, before, Segments(env, r, config), 5);
  }

  lemma FinalShown(env: Env, before: seq<Sample>, r: Response, config: Config)
    requires GoodEnv(env)
    ensures var samples := ApplyAll(before, OpsOf(env, Segments(env, r, config)));
            && Sample(env.name(MaxConnections), BoolVal(config, MaxConnectionsPerStream)) in samples
            && Sample(env.name(Up), Flag(r.queue.Some? && r.history.Some? && r.config.Some?)) in samples
  {
    Layout(env, r, config);
    SegmentsAtHome(env, r, config);
    FinalHolds(env, before, Segments(env, r, config), r, config);
  }

  /** A run that ends with `r` is a run and one more round. */
  lemma LastRound(env: Env, rs: seq<Response>, r: Response)
    ensures OpsOf(env, RunSegments(env, rs + [r]))
         == OpsOf(env, RunSegments(env, rs)) + OpsOf(env, Segments(env, r, ConfigAfter(rs + [r])))
  {
    assert (rs + [r])[..|rs|] == rs;
    OpsJoin(env, RunSegments(env, rs), Segments(env, r, ConfigAfter(rs + [r])));
  }

  lemma RunPublishes(env: Env, rs: seq<Response>, r: Response)
    requires GoodEnv(env)
    ensures Published(env, rs, r)
  {
    var config := ConfigAfter(rs + [r]);
    var before := OpsOf(env, RunSegments(env, rs));
    LastRound(env, rs, r);
    ApplyJoins([], before, OpsOf(env, Segments(env, r, config)));
    KeysStayDistinct(OpsOf(env, RunSegments(env, rs + [r])));
    FinalShown(env, ApplyAll([], before), r, config);
    StatusCountsAddUp(env, ApplyAll([], before), r, config);
    ConfigReadingsShown(env, ApplyAll([], before), r, config);
    ModeShown(env, ApplyAll([], before), r, config);
  }

  // ------------------------------------------------------------ renders in between

  lemma {:induction false} LabeledArePuts(env: Env, g: Gauge, name: string, d: seq<Sample>)
    ensures forall op | op in LabeledOps(env, g, name, d) :: op.Put?
  {
    if d != [] {
      LabeledArePuts(env, g, name, d[..|d| - 1]);
    }
  }

  lemma FamilyIsClearedOnce(env: Env, segments: seq<Segment>, g: Gauge)
    requires GoodEnv(env) && AtHome(segments) && segments[Home(g)].Labels? && segments[Home(g)].g == g
    ensures ClearsOnce(OpsOf(env, segments), env.name(g))
  {
    var s := segments[Home(g)];
    ScrapeTouches(env, segments, g);
    SegmentTouching(env, s, g);
    LabeledArePuts(env, g, s.name, s.d);
    assert SegmentOps(env, s)[1..] == LabeledOps(env, g, s.name, s.d);
  }

  lemma FamilyHome(env: Env, r: Response, config: Config, g: Gauge)
    requires IsFamily(g)
    ensures var segments := Segments(env, r, config);
            AtHome(segments) && segments[Home(g)].Labels? && segments[Home(g)].g == g
  {
    Layout(env, r, config);
    SegmentsAtHome(env, r, config);
  }

  /** A render after `k` steps of the round answered by `r` prints of the labelled family
      `g` what a render before that round printed, or samples of that round only. */
  ghost predicate NoMix(env: Env, rs: seq<Response>, r: Response, k: nat, g: Gauge) {
    var before, ops := OpsOf(env, RunSegments(env, rs)), OpsOf(env, Segments(env, r, ConfigAfter(rs + [r])));
    k <= |ops| ==>
      var seen := Printed(RenderAfter(before + ops[..k]), env.name(g));
      || seen == Printed(RenderAfter(before), env.name(g))
      || forall s | s in seen ::
           exists op | op in ops && op.Put? && op.name == env.name(g) :: s == Sample(op.key, op.value)
  }

  lemma RunShowsNoMix(env: Env, rs: seq<Response>, r: Response, k: nat, g: Gauge)
    requires GoodEnv(env) && IsFamily(g)
    ensures NoMix(env, rs, r, k, g)
  {
    var config := ConfigAfter(rs + [r]);
    var before, ops := OpsOf(env, RunSegments(env, rs)), OpsOf(env, Segments(env, r, config));
    if k <= |ops| {
      FamilyHome(env, r, config, g);
      FamilyIsClearedOnce(env, Segments(env, r, config), g);
      SegmentsAreKeyed(env, RunSegments(env, rs));
      SegmentsAreKeyed(env, Segments(env, r, config));
      KeyedJoin(before, ops);
      RenderSeesNoMix(before, ops, k, env.name(g));
    }
  }

  /** The exporter's renders, between any two steps of any round of any run. */
  lemma NoRenderShowsAMix(number: string -> Option<real>, rs: seq<Response>, r: Response, k: nat, g: Gauge)
    requires IsFamily(g)
    ensures NoMix(RealEnv(number), rs, r, k, g)
  {
    RealEnvIsGood(number);
    RunShowsNoMix(RealEnv(number), rs, r, k, g);
  }

  /** A render after the first `k` steps of a run meets the exposition format. */
  ghost predicate RendersWell(env: Env, rs: seq<Response>, k: nat) {
    k <= |OpsOf(env, RunSegments(env, rs))| ==>
      var ops := OpsOf(env, RunSegments(env, rs))[..k];
      MeetsFormat(RenderAfter(ops), HelpAfter([], ops), ApplyAll([], ops))
  }

  lemma RunRendersWell(env: Env, rs: seq<Response>, k: nat)
    requires GoodEnv(env)
    ensures RendersWell(env, rs, k)
  {
    SegmentsAreKeyed(env, RunSegments(env, rs));
    var all := OpsOf(env, RunSegments(env, rs));
    if k <= |all| {
      assert forall op | op in all[..k] :: op in all;
      RenderMeetsFormat(all[..k]);
    }
  }

  /** Every render of every run of the exporter, also in the middle of a scrape. */
  lemma EveryRenderIsGrouped(number: string -> Option<real>, rs: seq<Response>, k: nat)
    ensures RendersWell(RealEnv(number), rs, k)
  {
    RealEnvIsGood(number);
    RunRendersWell(RealEnv(number), rs, k);
  }
}
