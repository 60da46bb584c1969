/** What `/metrics` says after any run of the exporter, in terms of the last answers
    alone (nzbdav-exporter/exporter.py, `_scrape` and `render_metrics`). */
module ScrapeReports {
  import opened Text
  import opened PrometheusFormat
  import opened MetricsRegistry
  import opened Scrape
  import opened ScrapeResults
  import opened RegistryReports
  import opened Selection

  // ------------------------------------------------------------ printed gauges

  /** The text of a render after a run that ends with the response `r`. */
  function TextAfter(env: Env, rs: seq<Response>, r: Response): seq<Line> {
    RenderAfter(OpsOf(env, RunSegments(env, rs + [r])))
  }

  /** The text prints this value under the key, once, and no other value. */
  ghost predicate Shows(text: seq<Line>, key: string, value: real) {
    && multiset(text)[SampleLine(key, value)] == 1
    && forall v | SampleLine(key, v) in text :: v == value
  }

  lemma SampleShown(ops: seq<Op>, s: Sample, put: Op)
    requires WellKeyed(ops) && s in ApplyAll([], ops)
    requires put in ops && Describes(put, FamilyOf(s.key))
    ensures Shows(RenderAfter(ops), s.key, s.value)
  {
    var help, samples, text := HelpAfter([], ops), ApplyAll([], ops), RenderAfter(ops);
    HelpNames(ops);
    KeysStayDistinct(ops);
    RegisteredIff(ops, FamilyOf(s.key));
    RenderedOnce(help, samples, s);
    CountOccurs(text, SampleLine(s.key, s.value));
    forall v | SampleLine(s.key, v) in text ensures v == s.value {
      var i: nat :| i < |text| && text[i] == SampleLine(s.key, v);
      RenderedIsPresent(help, samples, i);
    }
  }

  /** What is in the registry after the last round, of a metric that this round wrote. */
  lemma RoundShown(env: Env, rs: seq<Response>, r: Response, s: Sample, put: Op)
    requires GoodEnv(env) && Describes(put, FamilyOf(s.key))
    ensures var before := ApplyAll([], OpsOf(env, RunSegments(env, rs)));
            var round := OpsOf(env, Segments(env, r, ConfigAfter(rs + [r])));
            s in ApplyAll(before, round) && put in round ==> Shows(TextAfter(env, rs, r), s.key, s.value)
  {
    var before, round := OpsOf(env, RunSegments(env, rs)), OpsOf(env, Segments(env, r, ConfigAfter(rs + [r])));
    LastRound(env, rs, r);
    ApplyJoins([], before, round);
    SegmentsAreKeyed(env, RunSegments(env, rs + [r]));
    if s in ApplyAll(ApplyAll([], before), round) && put in round {
      assert put in before + round;
      SampleShown(before + round, s, put);
    }
  }

  lemma ReadingIsPut(env: Env, segments: seq<Segment>, k: nat, i: nat)
    requires GoodEnv(env) && AtHome(segments) && k < 8 && segments[k].Gauges?
    requires i < |segments[k].readings| && DistinctGauges(segments[k].readings)
    ensures var reading := segments[k].readings[i];
            Plain(env, reading.g, reading.value) in OpsOf(env, segments)
  {
    var reading := segments[k].readings[i];
    assert Mentions(segments[k], reading.g);
    ScrapeTouches(env, segments, reading.g);
    SegmentTouching(env, segments[k], reading.g);
    PickOne(segments[k].readings, i);
    TouchingMembers(OpsOf(env, segments), env.name(reading.g));
    assert [reading][..0] == [];
    assert PlainOps(env, [reading]) == [Plain(env, reading.g, reading.value)];
  }

  ghost predicate ShowsAll(env: Env, text: seq<Line>, readings: seq<Reading>) {
    forall i | 0 <= i < |readings| :: Shows(text, env.name(readings[i].g), readings[i].value)
  }

  lemma ReadingsShown(env: Env, rs: seq<Response>, r: Response, k: nat, readings: seq<Reading>)
    requires GoodEnv(env) && k < 8 && DistinctGauges(readings)
    requires var segments := Segments(env, r, ConfigAfter(rs + [r]));
             AtHome(segments) && segments[k] == Gauges(readings)
    ensures ShowsAll(env, TextAfter(env, rs, r), readings)
  {
    var segments := Segments(env, r, ConfigAfter(rs + [r]));
    forall i | 0 <= i < |readings| ensures Shows(TextAfter(env, rs, r), env.name(readings[i].g), readings[i].value) {
      var name := env.name(readings[i].g);
      HoldsReading(env, ApplyAll([], OpsOf(env, RunSegments(env, rs))), segments, k, i);
      ReadingIsPut(env, segments, k, i);
      FamilyOfBareName(name);
      RoundShown(env, rs, r, Sample(name, readings[i].value), Plain(env, readings[i].g, readings[i].value));
    }
  }

  lemma QueueDiffers(r: Response)
    ensures DistinctGauges(QueueReadings(r))
  {
  }

  lemma HistoryDiffers(r: Response)
    ensures DistinctGauges(HistoryReadings(r))
  {
  }

  lemma FinalDiffers(r: Response, config: Config)
    ensures DistinctGauges(FinalReadings(r, config))
  {
  }

  /** A render after a run prints every plain gauge of the last round. */
  lemma GaugesShown(env: Env, rs: seq<Response>, r: Response)
    requires GoodEnv(env)
    ensures var text, config := TextAfter(env, rs, r), ConfigAfter(rs + [r]);
            && ShowsAll(env, text, QueueReadings(r))
            && ShowsAll(env, text, HistoryReadings(r))
            && ShowsAll(env, text, ConfigReadings(env, r, config))
            && ShowsAll(env, text, FinalReadings(r, config))
            && ShowsAll(env, text, [Reading(ScrapeDuration, r.seconds.round)])
  {
    var config := ConfigAfter(rs + [r]);
    Layout(env, r, config);
    SegmentsAtHome(env, r, config);
    QueueDiffers(r);
    HistoryDiffers(r);
    ConfigReadingsDiffer(env, r, config);
    FinalDiffers(r, config);
    ReadingsShown(env, rs, r, 0, QueueReadings(r));
    ReadingsShown(env, rs, r, 3, HistoryReadings(r));
    ReadingsShown(env, rs, r, 4, ConfigReadings(env, r, config));
    ReadingsShown(env, rs, r, 6, FinalReadings(r, config));
    ReadingsShown(env, rs, r, 7, [Reading(ScrapeDuration, r.seconds.round)]);
  }

  // ------------------------------------------------------------ printed families

  /** Of the metric, the text prints the dictionary's entries under one label, each once,
      and nothing else. */
  ghost predicate ShowsTable(text: seq<Line>, name: string, label_: string, d: seq<Sample>) {
    && (forall v, n :: SampleLine(SampleKey(name, map[label_ := v]), n) in text <==> Sample(v, n) in d)
    && (forall e | e in d :: Shows(text, SampleKey(name, map[label_ := e.key]), e.value))
    && (forall line | line in text && line.SampleLine? && KeyOf(line.key, name) ::
          exists e | e in d :: line == SampleLine(SampleKey(name, map[label_ := e.key]), e.value))
  }

  lemma {:induction false} PrintedIff(lines: seq<Line>, key: string, value: real)
    ensures SampleLine(key, value) in lines <==> Sample(key, value) in Printed(lines, FamilyOf(key))
  {
    if lines != [] {
      var init, last := lines[..|lines| - 1], lines[|lines| - 1];
      PrintedIff(init, key, value);
      assert lines == init + [last];
    }
  }

  lemma {:induction false} LabelsArePut(env: Env, g: Gauge, name: string, d: seq<Sample>, s: Sample)
    requires s in d
    ensures Labeled(env, g, name, s) in LabeledOps(env, g, name, d)
  {
    var init, last := d[..|d| - 1], d[|d| - 1];
    assert d == init + [last];
    if s in init {
      LabelsArePut(env, g, name, init, s);
    }
  }

  lemma LabelIsPut(env: Env, segments: seq<Segment>, k: nat, s: Sample)
    requires GoodEnv(env) && AtHome(segments) && k < 8 && segments[k].Labels? && s in segments[k].d
    ensures Labeled(env, segments[k].g, segments[k].name, s) in OpsOf(env, segments)
  {
    var segment := segments[k];
    var put := Labeled(env, segment.g, segment.name, s);
    assert Mentions(segment, segment.g);
    ScrapeTouches(env, segments, segment.g);
    SegmentTouching(env, segment, segment.g);
    LabelsArePut(env, segment.g, segment.name, segment.d, s);
    assert put in SegmentOps(env, segment);
    TouchingMembers(OpsOf(env, segments), env.name(segment.g));
  }

  lemma KeyOfLabel(env: Env, g: Gauge, name: string, v: string)
    requires GoodEnv(env)
    ensures env.key(env.name(g), name, v) == SampleKey(env.name(g), map[name := v])
    ensures FamilyOf(SampleKey(env.name(g), map[name := v])) == env.name(g)
  {
    FamilyOfKey(env.name(g), map[name := v]);
  }

  lemma ShownIff(env: Env, g: Gauge, name: string, d: seq<Sample>, v: string, n: real)
    requires GoodEnv(env) && '=' !in name
    ensures Sample(SampleKey(env.name(g), map[name := v]), n) in Shown(env, g, name, d) <==> Sample(v, n) in d
  {
    var shown, s := Shown(env, g, name, d), Sample(SampleKey(env.name(g), map[name := v]), n);
    if Sample(v, n) in d {
      var i :| 0 <= i < |d| && d[i] == Sample(v, n);
      assert shown[i] == s by {
        KeyOfLabel(env, g, name, v);
      }
    }
    if s in shown {
      var i :| 0 <= i < |shown| && shown[i] == s;
      KeyOfLabel(env, g, name, v);
      if d[i].key != v {
        DifferentLabels(env, g, name, d[i].key, v);
      }
    }
  }

  /** The family of the labelled metric of segment `k`, after the last round. */
  lemma RunFamily(env: Env, rs: seq<Response>, r: Response, k: nat, s: Segment)
    requires GoodEnv(env) && k < 8 && s.Labels? && '=' !in s.name && DistinctKeys(s.d)
    requires var segments := Segments(env, r, ConfigAfter(rs + [r])); AtHome(segments) && segments[k] == s
    ensures Family(ApplyAll([], OpsOf(env, RunSegments(env, rs + [r]))), env.name(s.g)) == Shown(env, s.g, s.name, s.d)
  {
    var before, segments := OpsOf(env, RunSegments(env, rs)), Segments(env, r, ConfigAfter(rs + [r]));
    LastRound(env, rs, r);
    ApplyJoins([], before, OpsOf(env, segments));
    FamilyShows(env, ApplyAll([], before), segments, k);
  }

  lemma EntryShown(env: Env, rs: seq<Response>, r: Response, k: nat, s: Segment, e: Sample)
    requires GoodEnv(env) && k < 8 && s.Labels? && '=' !in s.name && DistinctKeys(s.d) && e in s.d
    requires var segments := Segments(env, r, ConfigAfter(rs + [r])); AtHome(segments) && segments[k] == s
    ensures Shows(TextAfter(env, rs, r), SampleKey(env.name(s.g), map[s.name := e.key]), e.value)
  {
    var before, segments := OpsOf(env, RunSegments(env, rs)), Segments(env, r, ConfigAfter(rs + [r]));
    var sample := Sample(SampleKey(env.name(s.g), map[s.name := e.key]), e.value);
    LastRound(env, rs, r);
    ApplyJoins([], before, OpsOf(env, segments));
    RunFamily(env, rs, r, k, s);
    ShownIff(env, s.g, s.name, s.d, e.key, e.value);
    FamilyWithin(ApplyAll([], before + OpsOf(env, segments)), env.name(s.g));
    LabelIsPut(env, segments, k, e);
    KeyOfLabel(env, s.g, s.name, e.key);
    RoundShown(env, rs, r, sample, Labeled(env, s.g, s.name, e));
  }

  lemma ShownIsEntry(env: Env, g: Gauge, name: string, d: seq<Sample>, line: Line)
    requires GoodEnv(env)
    ensures line.SampleLine? && Sample(line.key, line.value) in Shown(env, g, name, d) ==>
              exists e | e in d :: line == SampleLine(SampleKey(env.name(g), map[name := e.key]), e.value)
  {
    var shown := Shown(env, g, name, d);
    if line.SampleLine? && Sample(line.key, line.value) in shown {
      var i :| 0 <= i < |shown| && shown[i] == Sample(line.key, line.value);
      KeyOfLabel(env, g, name, d[i].key);
      assert d[i] in d;
    }
  }

  /** Every line of the metric comes from an entry of the dictionary. */
  lemma LinesAreEntries(env: Env, rs: seq<Response>, r: Response, k: nat, s: Segment)
    requires GoodEnv(env) && k < 8 && s.Labels? && '=' !in s.name && DistinctKeys(s.d)
    requires var segments := Segments(env, r, ConfigAfter(rs + [r])); AtHome(segments) && segments[k] == s
    ensures forall line | line in TextAfter(env, rs, r) && line.SampleLine? && KeyOf(line.key, env.name(s.g)) ::
              exists e | e in s.d :: line == SampleLine(SampleKey(env.name(s.g), map[s.name := e.key]), e.value)
  {
    var ops, name := OpsOf(env, RunSegments(env, rs + [r])), env.name(s.g);
    SegmentsAreKeyed(env, RunSegments(env, rs + [r]));
    PrintedAfter(ops, name);
    RunFamily(env, rs, r, k, s);
    forall line | line in TextAfter(env, rs, r) && line.SampleLine? && KeyOf(line.key, name)
      ensures exists e | e in s.d :: line == SampleLine(SampleKey(name, map[s.name := e.key]), e.value)
    {
      KeyOfIff(line.key, name);
      InFamilyIff(line.key, name);
      PrintedIff(TextAfter(env, rs, r), line.key, line.value);
      ShownIsEntry(env, s.g, s.name, s.d, line);
    }
  }

  lemma TableShown(env: Env, rs: seq<Response>, r: Response, k: nat, s: Segment)
    requires GoodEnv(env) && k < 8 && s.Labels? && '=' !in s.name && DistinctKeys(s.d)
    requires var segments := Segments(env, r, ConfigAfter(rs + [r])); AtHome(segments) && segments[k] == s
    ensures ShowsTable(TextAfter(env, rs, r), env.name(s.g), s.name, s.d)
  {
    var text, name := TextAfter(env, rs, r), env.name(s.g);
    forall e | e in s.d ensures Shows(text, SampleKey(name, map[s.name := e.key]), e.value) {
      EntryShown(env, rs, r, k, s, e);
    }
    LinesAreEntries(env, rs, r, k, s);
    forall v, n ensures SampleLine(SampleKey(name, map[s.name := v]), n) in text <==> Sample(v, n) in s.d {
      assert Sample(v, n) in s.d ==> Shows(text, SampleKey(name, map[s.name := v]), n);
      if SampleLine(SampleKey(name, map[s.name := v]), n) in text {
        KeyOfLabel(env, s.g, s.name, v);
        InFamilyIff(SampleKey(name, map[s.name := v]), name);
        KeyOfIff(SampleKey(name, map[s.name := v]), name);
        var e :| e in s.d && SampleLine(SampleKey(name, map[s.name := v]), n)
                             == SampleLine(SampleKey(name, map[s.name := e.key]), e.value);
        if e.key != v {
          KeyOfLabel(env, s.g, s.name, e.key);
          DifferentLabels(env, s.g, s.name, e.key, v);
        }
      }
    }
  }

  // ------------------------------------------------------------ what the values mean

  /** The configuration of the last answered fetch; empty before the first answer. */
  ghost predicate InUse(rs: seq<Response>, config: Config) {
    || (exists i: nat :: AnsweredLast(rs, i) && rs[i].config.value == config)
    || (config == map[] && forall i | 0 <= i < |rs| :: rs[i].config.None?)
  }

  ghost predicate AnsweredLast(rs: seq<Response>, i: nat) {
    i < |rs| && rs[i].config.Some? && forall j | i < j < |rs| :: rs[j].config.None?
  }

  lemma OneLastAnswer(rs: seq<Response>, i: nat, j: nat)
    requires AnsweredLast(rs, i) && AnsweredLast(rs, j)
    ensures i == j
  {
  }

  lemma InUseIff(rs: seq<Response>, config: Config)
    ensures InUse(rs, config) <==> config == ConfigAfter(rs)
  {
    if i: nat :| AnsweredLast(rs, i) {
      ConfigIsLastAnswer(rs, i + 1);
      forall j: nat | AnsweredLast(rs, j) ensures j == i {
        OneLastAnswer(rs, i, j);
      }
    } else {
      NeverAnswered(rs);
    }
  }

  lemma {:induction false} NeverAnswered(rs: seq<Response>)
    requires forall i: nat :: !AnsweredLast(rs, i)
    ensures ConfigAfter(rs) == map[] && forall i | 0 <= i < |rs| :: rs[i].config.None?
  {
    if rs != [] {
      var init := rs[..|rs| - 1];
      assert !AnsweredLast(rs, |init|);
      forall i: nat ensures !AnsweredLast(init, i) {
        assert !AnsweredLast(rs, i);
      }
      NeverAnswered(init);
    }
  }

  /** The text reads "true" in any mixture of upper and lower case. */
  predicate ReadsTrue(s: string) {
    && |s| == 4
    && (s[0] == 't' || s[0] == 'T') && (s[1] == 'r' || s[1] == 'R')
    && (s[2] == 'u' || s[2] == 'U') && (s[3] == 'e' || s[3] == 'E')
  }

  lemma ReadsTrueIff(s: string)
    ensures Lower(s) == "true" <==> ReadsTrue(s)
  {
    LowerAt(s);
    if Lower(s) == "true" {
      assert Lower(s)[0] == 't' && Lower(s)[1] == 'r' && Lower(s)[2] == 'u' && Lower(s)[3] == 'e';
    }
  }

  /** The key is there and reads "true". */
  ghost predicate TurnedOn(config: Config, key: ConfigKey) {
    key in config && ReadsTrue(config[key])
  }

  lemma FlagMeans(config: Config, key: ConfigKey)
    ensures BoolVal(config, key) == if TurnedOn(config, key) then 1.0 else 0.0
  {
    if key in config {
      ReadsTrueIff(config[key]);
    }
  }

  /** The value of a number: 0 unless the key is there and its text is a number. */
  ghost predicate IsNumber(value: real, config: Config, key: ConfigKey, number: string -> Option<real>) {
    if key in config && number(config[key]).Some? then value == number(config[key]).value else value == 0.0
  }

  function Is(x: string): string -> bool {
    (y: string) => y == x
  }

  lemma {:induction false} CountByIndex(xs: seq<string>, x: string)
    ensures CountOf(xs, x) == HowMany(xs, Is(x))
  {
    if xs != [] {
      CountByIndex(xs[..|xs| - 1], x);
      HowManyNext(xs, Is(x));
    }
  }

  function HasStatus(status: string): Slot -> bool {
    (slot: Slot) => slot.status == status
  }

  lemma ActiveByIndex(slots: seq<Slot>, status: string)
    ensures CountOf(Statuses(slots), status) == HowMany(slots, HasStatus(status))
  {
    CountByIndex(Statuses(slots), status);
    HowManyAgree(Statuses(slots), slots, Is(status), HasStatus(status));
  }

  /** An empty text is labelled "unknown". */
  predicate IsLabel(text: string, label_: string) {
    if text == "" then label_ == "unknown" else label_ == text
  }

  function IsLabelled(label_: string): Slot -> bool {
    (slot: Slot) => IsLabel(slot.status, label_)
  }

  /** The megabytes left, of all slots, or of those of one category. */
  ghost function Left(slots: seq<Slot>): real {
    if slots == [] then 0.0 else Left(slots[..|slots| - 1]) + slots[|slots| - 1].mbleft
  }

  ghost function LeftIn(slots: seq<Slot>, category: string): real {
    if slots == [] then 0.0
    else
      var init, last := slots[..|slots| - 1], slots[|slots| - 1];
      LeftIn(init, category) + if IsLabel(last.category, category) then last.mbleft else 0.0
  }

  /** `n` is `x` cut off towards zero. */
  predicate IsCut(x: real, n: int) {
    if x >= 0.0 then n as real <= x < n as real + 1.0 else n as real - 1.0 < x <= n as real
  }

  /** `bytes` is the whole number of bytes in so many megabytes. */
  ghost predicate IsBytes(bytes: real, megabytes: real) {
    bytes == bytes.Floor as real && IsCut(megabytes * 1048576.0, bytes.Floor)
  }

  lemma CutIsUnique(x: real, n: int, m: int)
    requires IsCut(x, n) && IsCut(x, m)
    ensures n == m
  {
  }

  lemma BytesIff(megabytes: real, bytes: real)
    ensures bytes == Bytes(megabytes) <==> IsBytes(bytes, megabytes)
  {
    var n := Truncate(InUnits(megabytes));
    assert IsCut(megabytes * 1048576.0, n);
    if IsBytes(bytes, megabytes) {
      CutIsUnique(megabytes * 1048576.0, n, bytes.Floor);
    }
  }

  lemma {:induction false} SizesAddUp(slots: seq<Slot>)
    ensures Sum(Sizes(slots)) == Left(slots)
  {
    if slots != [] {
      var n := |slots| - 1;
      SizesAddUp(slots[..n]);
      SumLast(Sizes(slots));
      assert Sizes(slots)[..n] == Sizes(slots[..n]);
    }
  }

  lemma {:induction false} CategoryAddsUp(slots: seq<Slot>, category: string)
    ensures AmountOf(Sizes(slots), category) == LeftIn(slots, category)
  {
    if slots != [] {
      var n := |slots| - 1;
      CategoryAddsUp(slots[..n], category);
      assert Sizes(slots)[..n] == Sizes(slots[..n]);
    }
  }

  lemma {:induction false} StatusAddsUp(slots: seq<Slot>, status: string)
    ensures AmountOf(Ones(slots), status) == HowMany(slots, IsLabelled(status)) as real
  {
    if slots != [] {
      var n := |slots| - 1;
      StatusAddsUp(slots[..n], status);
      assert Ones(slots)[..n] == Ones(slots[..n]);
      HowManyNext(slots, IsLabelled(status));
    }
  }

  ghost predicate HasKey(items: seq<Sample>, key: string) {
    exists i :: 0 <= i < |items| && items[i].key == key
  }

  lemma HasKeyNext(items: seq<Sample>, key: string)
    requires items != []
    ensures HasKey(items, key) <==> HasKey(items[..|items| - 1], key) || items[|items| - 1].key == key
  {
    var init := items[..|items| - 1];
    if HasKey(init, key) {
      var i :| 0 <= i < |init| && init[i].key == key;
      assert items[i].key == key;
    }
    if HasKey(items, key) {
      var i :| 0 <= i < |items| && items[i].key == key;
      assert i < |init| ==> init[i].key == key;
    }
  }

  /** A tally has an entry for each key that occurs, with the total of the key. */
  lemma {:induction false} TallyMembers(items: seq<Sample>, key: string, value: real)
    ensures Sample(key, value) in Tally(items) <==> HasKey(items, key) && value == AmountOf(items, key)
  {
    if items != [] {
      var init, last := items[..|items| - 1], items[|items| - 1];
      TallyMembers(init, key, value);
      TallyConserves(init);
      TallyPerKey(init, key);
      SetMembers(Tally(init), last.key, Get(Tally(init), last.key) + last.value, Sample(key, value));
      HasKeyNext(items, key);
    }
  }

  /** Each status has as many slots as its entry says, and only statuses with slots have one. */
  lemma StatusMeans(slots: seq<Slot>, status: string, n: real)
    ensures Sample(status, n) in Tally(Ones(slots))
       <==> HowMany(slots, IsLabelled(status)) > 0 && n == HowMany(slots, IsLabelled(status)) as real
  {
    TallyMembers(Ones(slots), status, n);
    StatusAddsUp(slots, status);
    var at := set i | 0 <= i < |slots| && IsLabelled(status)(slots[i]);
    if HasKey(Ones(slots), status) {
      var i :| 0 <= i < |slots| && Ones(slots)[i].key == status;
      assert i in at;
    }
    if at != {} {
      var i :| i in at;
      assert Ones(slots)[i].key == status;
    }
  }

  ghost predicate HasCategory(slots: seq<Slot>, category: string) {
    exists i :: 0 <= i < |slots| && IsLabel(slots[i].category, category)
  }

  /** Each category that occurs has an entry, with the bytes left in it. */
  lemma CategoryMeans(slots: seq<Slot>, category: string, bytes: real)
    ensures Sample(category, bytes) in InBytes(Tally(Sizes(slots)))
       <==> HasCategory(slots, category) && IsBytes(bytes, LeftIn(slots, category))
  {
    var d, left := Tally(Sizes(slots)), LeftIn(slots, category);
    CategoryAddsUp(slots, category);
    BytesIff(left, bytes);
    TallyMembers(Sizes(slots), category, left);
    assert HasKey(Sizes(slots), category) <==> HasCategory(slots, category) by {
      SizesHaveKeys(slots, category);
    }
    if Sample(category, bytes) in InBytes(d) {
      var i :| 0 <= i < |d| && InBytes(d)[i] == Sample(category, bytes);
      assert d[i] in d;
      TallyMembers(Sizes(slots), category, d[i].value);
    }
    if Sample(category, left) in d {
      var i :| 0 <= i < |d| && d[i] == Sample(category, left);
      assert InBytes(d)[i] == Sample(category, Bytes(left));
    }
  }

  lemma SizesHaveKeys(slots: seq<Slot>, category: string)
    ensures HasKey(Sizes(slots), category) <==> HasCategory(slots, category)
  {
    if HasKey(Sizes(slots), category) {
      var i :| 0 <= i < |slots| && Sizes(slots)[i].key == category;
      assert IsLabel(slots[i].category, category);
    }
    if HasCategory(slots, category) {
      var i :| 0 <= i < |slots| && IsLabel(slots[i].category, category);
      assert Sizes(slots)[i].key == category;
    }
  }

  /** `m` is the whole number nearest to 10000 times `x`, the even one in the middle. */
  predicate Nearest(x: real, m: int) {
    var off := x * 10000.0 - m as real;
    -0.5 <= off <= 0.5 && (off == 0.5 || off == -0.5 ==> m % 2 == 0)
  }

  /** The completed share of both, or 0 when there is neither, to four digits. */
  ghost predicate IsRatio(value: real, completed: nat, failed: nat) {
    exists share: real, m: int :: IsRounded(value, completed, failed, share, m)
  }

  predicate IsRounded(value: real, completed: nat, failed: nat, share: real, m: int) {
    && (if completed + failed == 0 then share == 0.0 else share * (completed + failed) as real == completed as real)
    && Nearest(share, m) && value == m as real / 10000.0
  }

  lemma DigitsAreNearest(x: real) returns (m: int)
    ensures Nearest(x, m) && FourDigits(x) == m as real / 10000.0
  {
    var n := (x * 10000.0).Floor;
    var over := x * 10000.0 - n as real;
    m := if over < 0.5 || (over == 0.5 && n % 2 == 0) then n else n + 1;
  }

  lemma RatioMeans(completed: nat, failed: nat)
    ensures IsRatio(FourDigits(Share(completed, failed)), completed, failed)
  {
    ShareBounds(completed, failed);
    var m := DigitsAreNearest(Share(completed, failed));
    assert IsRounded(FourDigits(Share(completed, failed)), completed, failed, Share(completed, failed), m);
  }

  // ------------------------------------------------------------ the metrics of a run

  /** The slots of the answered queue, none when the fetch failed. */
  ghost predicate SlotsOf(r: Response, slots: seq<Slot>) {
    if r.queue.Some? then slots == r.queue.value else slots == []
  }

  ghost predicate OutcomesOf(r: Response, outcomes: seq<string>) {
    if r.history.Some? then outcomes == r.history.value else outcomes == []
  }

  ghost predicate QueueText(text: seq<Line>, slots: seq<Slot>) {
    && Shows(text, "nzbdav_queue_active_downloads", HowMany(slots, HasStatus("Downloading")) as real)
    && Shows(text, "nzbdav_queue_items_total", |slots| as real)
    && exists bytes: real :: IsBytes(bytes, Left(slots)) && Shows(text, "nzbdav_queue_depth_bytes", bytes)
  }

  lemma QueueTells(number: string -> Option<real>, text: seq<Line>, r: Response, slots: seq<Slot>)
    requires SlotsOf(r, slots) && ShowsAll(RealEnv(number), text, QueueReadings(r))
    ensures QueueText(text, slots)
  {
    var env, readings := RealEnv(number), QueueReadings(r);
    ActiveByIndex(slots, "Downloading");
    SizesAddUp(slots);
    BytesIff(Left(slots), Bytes(Left(slots)));
    assert Shows(text, env.name(readings[1].g), readings[1].value);
    assert Shows(text, env.name(readings[2].g), readings[2].value);
    assert Shows(text, env.name(readings[3].g), readings[3].value);
  }

  ghost predicate HistoryText(text: seq<Line>, outcomes: seq<string>) {
    var completed, failed := HowMany(outcomes, Is("Completed")), HowMany(outcomes, Is("Failed"));
    && Shows(text, "nzbdav_history_completed_total", completed as real)
    && Shows(text, "nzbdav_history_failed_total", failed as real)
    && exists ratio :: IsRatio(ratio, completed, failed) && Shows(text, "nzbdav_history_success_ratio", ratio)
  }

  lemma HistoryTells(number: string -> Option<real>, text: seq<Line>, r: Response, outcomes: seq<string>)
    requires OutcomesOf(r, outcomes) && ShowsAll(RealEnv(number), text, HistoryReadings(r))
    ensures HistoryText(text, outcomes)
  {
    var env, readings := RealEnv(number), HistoryReadings(r);
    CountByIndex(outcomes, "Completed");
    CountByIndex(outcomes, "Failed");
    RatioMeans(CountOf(outcomes, "Completed"), CountOf(outcomes, "Failed"));
    assert Shows(text, env.name(readings[1].g), readings[1].value);
    assert Shows(text, env.name(readings[2].g), readings[2].value);
    assert Shows(text, env.name(readings[3].g), readings[3].value);
  }

  /** The gauge is 1 or 0, as the key says. */
  ghost predicate ShowsFlag(text: seq<Line>, name: string, config: Config, key: ConfigKey) {
    Shows(text, name, if TurnedOn(config, key) then 1.0 else 0.0)
  }

  lemma FlagTells(text: seq<Line>, name: string, config: Config, key: ConfigKey)
    requires Shows(text, name, BoolVal(config, key))
    ensures ShowsFlag(text, name, config, key)
  {
    FlagMeans(config, key);
  }

  ghost predicate FlagText(text: seq<Line>, config: Config) {
    && ShowsFlag(text, "nzbdav_config_segment_cache_enabled", config, SegmentCacheEnabled)
    && ShowsFlag(text, "nzbdav_config_repair_enabled", config, RepairEnable)
    && ShowsFlag(text, "nzbdav_config_watchdog_enabled", config, WatchdogEnable)
    && ShowsFlag(text, "nzbdav_config_max_connections_per_stream", config, MaxConnectionsPerStream)
  }

  lemma FlagsTell(env: Env, text: seq<Line>, r: Response, config: Config)
    requires ShowsAll(env, text, ConfigReadings(env, r, config)) && ShowsAll(env, text, FinalReadings(r, config))
    ensures ShowsFlag(text, env.name(CacheEnabled), config, SegmentCacheEnabled)
    ensures ShowsFlag(text, env.name(RepairEnabled), config, RepairEnable)
    ensures ShowsFlag(text, env.name(WatchdogEnabled), config, WatchdogEnable)
    ensures ShowsFlag(text, env.name(MaxConnections), config, MaxConnectionsPerStream)
  {
    var readings, last := ConfigReadings(env, r, config), FinalReadings(r, config);
    assert readings[2].g == CacheEnabled && readings[6].g == RepairEnabled && readings[7].g == WatchdogEnabled;
    assert last[0].g == MaxConnections;
    FlagTells(text, env.name(CacheEnabled), config, SegmentCacheEnabled);
    FlagTells(text, env.name(RepairEnabled), config, RepairEnable);
    FlagTells(text, env.name(WatchdogEnabled), config, WatchdogEnable);
    FlagTells(text, env.name(MaxConnections), config, MaxConnectionsPerStream);
  }

  lemma FlagsNamed(number: string -> Option<real>, text: seq<Line>, r: Response, config: Config)
    requires ShowsAll(RealEnv(number), text, ConfigReadings(RealEnv(number), r, config))
    requires ShowsAll(RealEnv(number), text, FinalReadings(r, config))
    ensures FlagText(text, config)
  {
    FlagsTell(RealEnv(number), text, r, config);
  }

  ghost predicate NumberText(text: seq<Line>, config: Config, number: string -> Option<real>) {
    && (exists v :: IsNumber(v, config, SegmentCacheMaxGb, number)
                    && Shows(text, "nzbdav_config_segment_cache_max_gb", v))
    && (exists v :: IsNumber(v, config, QueueWorkerCount, number)
                    && Shows(text, "nzbdav_config_queue_worker_count", v))
    && (exists v :: IsNumber(v, config, QueuePipeliningDepth, number)
                    && Shows(text, "nzbdav_config_pipelining_depth", v))
  }

  ghost predicate NamesNumbers(env: Env) {
    && env.name(CacheMaxGb) == "nzbdav_config_segment_cache_max_gb"
    && env.name(WorkerCount) == "nzbdav_config_queue_worker_count"
    && env.name(PipeliningDepth) == "nzbdav_config_pipelining_depth"
  }

  lemma NumbersTell(env: Env, text: seq<Line>, r: Response, config: Config)
    requires NamesNumbers(env) && ShowsAll(env, text, ConfigReadings(env, r, config))
    ensures NumberText(text, config, env.number)
  {
    var readings := ConfigReadings(env, r, config);
    assert IsNumber(readings[3].value, config, SegmentCacheMaxGb, env.number) && readings[3].g == CacheMaxGb;
    assert IsNumber(readings[4].value, config, QueueWorkerCount, env.number) && readings[4].g == WorkerCount;
    assert IsNumber(readings[5].value, config, QueuePipeliningDepth, env.number) && readings[5].g == PipeliningDepth;
  }

  /** What went well in the last round. */
  ghost predicate StateText(text: seq<Line>, r: Response) {
    && Shows(text, "nzbdav_config_scrape_success", if r.config.Some? then 1.0 else 0.0)
    && Shows(text, "nzbdav_up", if r.queue.Some? && r.history.Some? && r.config.Some? then 1.0 else 0.0)
    && Shows(text, "nzbdav_health_healthy", if r.healthy then 1.0 else 0.0)
    && Shows(text, "nzbdav_config_preflight_mode", 0.0)
  }

  lemma StateTells(number: string -> Option<real>, text: seq<Line>, r: Response, config: Config)
    requires ShowsAll(RealEnv(number), text, ConfigReadings(RealEnv(number), r, config))
    requires ShowsAll(RealEnv(number), text, FinalReadings(r, config))
    ensures StateText(text, r)
  {
    var env := RealEnv(number);
    var readings, last := ConfigReadings(env, r, config), FinalReadings(r, config);
    assert Shows(text, env.name(readings[1].g), readings[1].value);
    assert Shows(text, env.name(readings[8].g), readings[8].value);
    assert Shows(text, env.name(last[1].g), last[1].value);
    assert Shows(text, env.name(last[2].g), last[2].value);
  }

  /** How long the requests and the round took. */
  ghost predicate SecondsText(text: seq<Line>, s: Seconds) {
    && Shows(text, "nzbdav_api_latency_seconds", s.queue)
    && Shows(text, "nzbdav_api_latency_seconds_history", s.history)
    && Shows(text, "nzbdav_api_latency_seconds_config", s.config)
    && Shows(text, "nzbdav_api_latency_seconds_health", s.health)
    && Shows(text, "nzbdav_scrape_duration_seconds", s.round)
  }

  ghost predicate NamesLatencies(env: Env) {
    && env.name(QueueLatency) == "nzbdav_api_latency_seconds"
    && env.name(HistoryLatency) == "nzbdav_api_latency_seconds_history"
    && env.name(ConfigLatency) == "nzbdav_api_latency_seconds_config"
  }

  ghost predicate NamesDurations(env: Env) {
    && env.name(HealthLatency) == "nzbdav_api_latency_seconds_health"
    && env.name(ScrapeDuration) == "nzbdav_scrape_duration_seconds"
  }

  lemma SecondsTell(env: Env, text: seq<Line>, r: Response, config: Config)
    requires NamesLatencies(env) && NamesDurations(env)
    requires ShowsAll(env, text, QueueReadings(r)) && ShowsAll(env, text, HistoryReadings(r))
    requires ShowsAll(env, text, ConfigReadings(env, r, config)) && ShowsAll(env, text, FinalReadings(r, config))
    requires ShowsAll(env, text, [Reading(ScrapeDuration, r.seconds.round)])
    ensures SecondsText(text, r.seconds)
  {
    assert QueueReadings(r)[0].g == QueueLatency && HistoryReadings(r)[0].g == HistoryLatency;
    assert ConfigReadings(env, r, config)[0].g == ConfigLatency && FinalReadings(r, config)[3].g == HealthLatency;
    assert [Reading(ScrapeDuration, r.seconds.round)][0].g == ScrapeDuration;
  }

  /** Of the metric, one line for each status that occurs, with its number of slots. */
  ghost predicate StatusLines(text: seq<Line>, name: string, slots: seq<Slot>) {
    exists d :: ShowsTable(text, name, "status", d) && IsStatusTable(slots, d)
  }

  ghost predicate IsStatusTable(slots: seq<Slot>, d: seq<Sample>) {
    forall status, n :: Sample(status, n) in d
                        <==> HowMany(slots, IsLabelled(status)) > 0 && n == HowMany(slots, IsLabelled(status)) as real
  }

  lemma StatusTableMeans(slots: seq<Slot>)
    ensures IsStatusTable(slots, Tally(Ones(slots)))
  {
    forall status, n
      ensures Sample(status, n) in Tally(Ones(slots))
         <==> HowMany(slots, IsLabelled(status)) > 0 && n == HowMany(slots, IsLabelled(status)) as real
    {
      StatusMeans(slots, status, n);
    }
  }

  /** One line for each category that occurs, with the bytes left in it. */
  ghost predicate CategoryLines(text: seq<Line>, name: string, slots: seq<Slot>) {
    exists d :: ShowsTable(text, name, "cat", d) && IsCategoryTable(slots, d)
  }

  ghost predicate IsCategoryTable(slots: seq<Slot>, d: seq<Sample>) {
    forall category, bytes :: Sample(category, bytes) in d
                              <==> HasCategory(slots, category) && IsBytes(bytes, LeftIn(slots, category))
  }

  lemma CategoryTableMeans(slots: seq<Slot>)
    ensures IsCategoryTable(slots, InBytes(Tally(Sizes(slots))))
  {
    forall category, bytes
      ensures Sample(category, bytes) in InBytes(Tally(Sizes(slots)))
         <==> HasCategory(slots, category) && IsBytes(bytes, LeftIn(slots, category))
    {
      CategoryMeans(slots, category, bytes);
    }
  }

  /** One line, which names the preflight mode in use. */
  ghost predicate ModeLine(text: seq<Line>, name: string, config: Config) {
    exists mode :: ShowsTable(text, name, "mode", [Sample(mode, 1.0)]) && NamesMode(config, mode)
  }

  ghost predicate NamesMode(config: Config, mode: string) {
    IsLabel(if PreflightModeKey in config then config[PreflightModeKey] else "", mode)
  }

  ghost predicate TableText(text: seq<Line>, slots: seq<Slot>, config: Config) {
    && StatusLines(text, "nzbdav_queue_per_status_count", slots)
    && CategoryLines(text, "nzbdav_queue_per_category_bytes", slots)
    && ModeLine(text, "nzbdav_config_preflight_mode_info", config)
  }

  ghost predicate NamesTables(env: Env) {
    && env.name(PerStatus) == "nzbdav_queue_per_status_count"
    && env.name(PerCategory) == "nzbdav_queue_per_category_bytes"
    && env.name(PreflightInfo) == "nzbdav_config_preflight_mode_info"
  }

  lemma StatusTells(env: Env, rs: seq<Response>, r: Response)
    requires GoodEnv(env)
    ensures StatusLines(TextAfter(env, rs, r), env.name(PerStatus), QueueSlots(r))
  {
    Layout(env, r, ConfigAfter(rs + [r]));
    SegmentsAtHome(env, r, ConfigAfter(rs + [r]));
    TallyConserves(Ones(QueueSlots(r)));
    TableShown(env, rs, r, 2, Labels(PerStatus, "status", Tally(Ones(QueueSlots(r)))));
    StatusTableMeans(QueueSlots(r));
  }

  lemma CategoryTells(env: Env, rs: seq<Response>, r: Response)
    requires GoodEnv(env)
    ensures CategoryLines(TextAfter(env, rs, r), env.name(PerCategory), QueueSlots(r))
  {
    Layout(env, r, ConfigAfter(rs + [r]));
    SegmentsAtHome(env, r, ConfigAfter(rs + [r]));
    TallyConserves(Sizes(QueueSlots(r)));
    DistinctInBytes(Tally(Sizes(QueueSlots(r))));
    TableShown(env, rs, r, 1, Labels(PerCategory, "cat", InBytes(Tally(Sizes(QueueSlots(r))))));
    CategoryTableMeans(QueueSlots(r));
  }

  lemma ModeTells(env: Env, rs: seq<Response>, r: Response)
    requires GoodEnv(env)
    ensures ModeLine(TextAfter(env, rs, r), env.name(PreflightInfo), ConfigAfter(rs + [r]))
  {
    Layout(env, r, ConfigAfter(rs + [r]));
    SegmentsAtHome(env, r, ConfigAfter(rs + [r]));
    TableShown(env, rs, r, 5, Labels(PreflightInfo, "mode", [Sample(Mode(ConfigAfter(rs + [r])), 1.0)]));
    assert NamesMode(ConfigAfter(rs + [r]), Mode(ConfigAfter(rs + [r])));
  }

  lemma TablesTell(env: Env, rs: seq<Response>, r: Response, config: Config, slots: seq<Slot>)
    requires GoodEnv(env) && NamesTables(env) && config == ConfigAfter(rs + [r]) && slots == QueueSlots(r)
    ensures TableText(TextAfter(env, rs, r), slots, config)
  {
    StatusTells(env, rs, r);
    CategoryTells(env, rs, r);
    ModeTells(env, rs, r);
  }

  lemma RealTableNames(number: string -> Option<real>)
    ensures NamesTables(RealEnv(number))
  {
  }

  lemma RealLatencyNames(number: string -> Option<real>)
    ensures NamesLatencies(RealEnv(number))
  {
  }

  lemma RealDurationNames(number: string -> Option<real>)
    ensures NamesDurations(RealEnv(number))
  {
  }

  lemma RealNumberNames(number: string -> Option<real>)
    ensures NamesNumbers(RealEnv(number))
  {
  }

  lemma SecondsNamed(number: string -> Option<real>, text: seq<Line>, r: Response, config: Config)
    requires var env := RealEnv(number);
             && ShowsAll(env, text, QueueReadings(r)) && ShowsAll(env, text, HistoryReadings(r))
             && ShowsAll(env, text, ConfigReadings(env, r, config)) && ShowsAll(env, text, FinalReadings(r, config))
             && ShowsAll(env, text, [Reading(ScrapeDuration, r.seconds.round)])
    ensures SecondsText(text, r.seconds)
  {
    RealLatencyNames(number);
    RealDurationNames(number);
    SecondsTell(RealEnv(number), text, r, config);
  }

  lemma NumbersNamed(number: string -> Option<real>, text: seq<Line>, r: Response, config: Config)
    requires ShowsAll(RealEnv(number), text, ConfigReadings(RealEnv(number), r, config))
    ensures NumberText(text, config, number)
  {
    RealNumberNames(number);
    NumbersTell(RealEnv(number), text, r, config);
  }

  /** The text of `/metrics` after any run that ends with the response `r`, where `config` is
      the last answered configuration. */
  lemma AfterRun(number: string -> Option<real>, rs: seq<Response>, r: Response, config: Config, slots: seq<Slot>,
                 outcomes: seq<string>)
    requires InUse(rs + [r], config) && SlotsOf(r, slots) && OutcomesOf(r, outcomes)
    ensures var text := TextAfter(RealEnv(number), rs, r);
            && QueueText(text, slots) && HistoryText(text, outcomes) && TableText(text, slots, config)
            && FlagText(text, config) && NumberText(text, config, number)
            && StateText(text, r) && SecondsText(text, r.seconds)
    ensures Published(RealEnv(number), rs, r)
  {
    var env := RealEnv(number);
    var text := TextAfter(env, rs, r);
    InUseIff(rs + [r], config);
    RealEnvIsGood(number);
    RunPublishes(env, rs, r);
    GaugesShown(env, rs, r);
    QueueTells(number, text, r, slots);
    HistoryTells(number, text, r, outcomes);
    FlagsNamed(number, text, r, config);
    NumbersNamed(number, text, r, config);
    StateTells(number, text, r, config);
    SecondsNamed(number, text, r, config);
    RealTableNames(number);
    TablesTell(env, rs, r, config, slots);
  }
}
