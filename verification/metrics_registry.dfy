/** The exporter's shared registry (nzbdav-exporter/exporter.py: `_set`,
    `_remove_family`, `render_metrics`). Every locked operation is one atomic
    step, so a concurrent render sees the effect of some prefix of the steps. */
module MetricsRegistry {
  import opened Text
  import opened PrometheusFormat
  import opened Selection

  /** Insertion-ordered dictionaries: samples by key, help texts by metric name. */
  datatype Sample = Sample(key: string, value: real)
  datatype HelpText = HelpText(name: string, text: string)

  /** `key == name or key.startswith(name + "{")` */
  predicate InFamily(key: string, name: string) {
    key == name || StartsWith(key, name + "{")
  }

  function SetSample(samples: seq<Sample>, key: string, value: real): seq<Sample> {
    if samples == [] then [Sample(key, value)]
    else if samples[0].key == key then [Sample(key, value)] + samples[1..]
    else [samples[0]] + SetSample(samples[1..], key, value)
  }

  /** The samples of one family, or of all others, in order. */
  function Family(samples: seq<Sample>, name: string): seq<Sample> {
    if samples == [] then []
    else if InFamily(samples[0].key, name) then [samples[0]] + Family(samples[1..], name)
    else Family(samples[1..], name)
  }

  function Others(samples: seq<Sample>, name: string): seq<Sample> {
    if samples == [] then []
    else if InFamily(samples[0].key, name) then Others(samples[1..], name)
    else [samples[0]] + Others(samples[1..], name)
  }

  function AddHelp(help: seq<HelpText>, name: string, text: string): seq<HelpText> {
    if text != "" && forall h | h in help :: h.name != name then help + [HelpText(name, text)] else help
  }

  datatype Op =
    | Put(name: string, key: string, value: real, text: string)
    | Clear(name: string)

  function Apply(samples: seq<Sample>, op: Op): seq<Sample> {
    match op
    case Put(_, key, value, _) => SetSample(samples, key, value)
    case Clear(name) => Others(samples, name)
  }

  function ApplyAll(samples: seq<Sample>, ops: seq<Op>): seq<Sample> {
    if ops == [] then samples else Apply(ApplyAll(samples, ops[..|ops| - 1]), ops[|ops| - 1])
  }

  function HelpAfter(help: seq<HelpText>, ops: seq<Op>): seq<HelpText> {
    if ops == [] then help
    else
      var before, op := HelpAfter(help, ops[..|ops| - 1]), ops[|ops| - 1];
      match op
      case Put(name, _, _, text) => AddHelp(before, name, text)
      case Clear(_) => before
  }

  datatype Line = HelpLine(name: string, text: string) | TypeLine(name: string) | SampleLine(key: string, value: real)

  function SampleLines(samples: seq<Sample>): seq<Line> {
    if samples == [] then [] else [SampleLine(samples[0].key, samples[0].value)] + SampleLines(samples[1..])
  }

  function Group(h: HelpText, samples: seq<Sample>): seq<Line> {
    [HelpLine(h.name, h.text), TypeLine(h.name)] + SampleLines(Family(samples, h.name))
  }

  function RenderLines(help: seq<HelpText>, samples: seq<Sample>): seq<Line> {
    if help == [] then []
    else RenderLines(help[..|help| - 1], samples) + Group(help[|help| - 1], samples)
  }

  // ------------------------------------------------------------ the registry

  class Registry {
    var samples: seq<Sample>
    var help: seq<HelpText>
    ghost var log: seq<Op>

    /** The registry is what its locked operations have made of it. */
    ghost predicate Valid()
      reads this
    {
      && samples == ApplyAll([], log)
      && help == HelpAfter([], log)
    }

    constructor ()
      ensures Valid() && log == []
    {
      samples, help, log := [], [], [];
    }

    method Set(name: string, value: real, text: string, labels: map<string, string>)
      requires Valid()
      modifies this
      ensures Valid() && log == old(log) + [Put(name, SampleKey(name, labels), value, text)]
    {
      var known := false;
      for i := 0 to |help|
        invariant known <==> exists h | h in help[..i] :: h.name == name
      {
        assert help[..i + 1] == help[..i] + [help[i]];
        if help[i].name == name {
          known := true;
        }
      }
      assert help[..|help|] == help;
      if text != "" && !known {
        help := help + [HelpText(name, text)];
      }
      assert help == AddHelp(old(help), name, text);
      samples := SetSample(samples, SampleKey(name, labels), value);
      log := log + [Put(name, SampleKey(name, labels), value, text)];
      assert log[..|log| - 1] == old(log);
      assert old(samples) == ApplyAll([], old(log)) && old(help) == HelpAfter([], old(log));
    }

    method RemoveFamily(name: string)
      requires Valid()
      modifies this
      ensures Valid() && log == old(log) + [Clear(name)]
    {
      var kept: seq<Sample> := [];
      for i := 0 to |samples|
        invariant Others(samples, name) == kept + Others(samples[i..], name)
      {
        assert samples[i..][0] == samples[i] && samples[i..][1..] == samples[i + 1..];
        if !InFamily(samples[i].key, name) {
          kept := kept + [samples[i]];
        }
      }
      assert samples[|samples|..] == [];
      samples := kept;
      log := log + [Clear(name)];
      assert log[..|log| - 1] == old(log);
    }

    method RenderMetrics() returns (lines: seq<Line>)
      requires Valid()
      ensures lines == RenderLines(HelpAfter([], log), ApplyAll([], log))
    {
      lines := [];
      for i := 0 to |help|
        invariant lines == RenderLines(help[..i], samples)
      {
        assert help[..i + 1][..i] == help[..i];
        var name := help[i].name;
        lines := lines + [HelpLine(name, help[i].text), TypeLine(name)];
        ghost var start := lines;
        for j := 0 to |samples|
          invariant start + SampleLines(Family(samples, name)) == lines + SampleLines(Family(samples[j..], name))
        {
          SampleLinesStep(samples, j, name);
          if samples[j].key == name || StartsWith(samples[j].key, name + "{") {
            lines := lines + [SampleLine(samples[j].key, samples[j].value)];
          }
        }
        assert samples[|samples|..] == [] && lines + [] == lines;
      }
      assert help[..|help|] == help;
    }
  }

  lemma SampleLinesStep(samples: seq<Sample>, j: nat, name: string)
    requires j < |samples|
    ensures SampleLines(Family(samples[j..], name))
            == (if InFamily(samples[j].key, name) then [SampleLine(samples[j].key, samples[j].value)] else [])
               + SampleLines(Family(samples[j + 1..], name))
  {
    assert samples[j..][1..] == samples[j + 1..];
    if InFamily(samples[j].key, name) {
      assert Family(samples[j..], name)[1..] == Family(samples[j + 1..], name);
    }
  }

  // ------------------------------------------------------------ families

  /** The metric name in front of the labels. */
  function FamilyOf(key: string): string {
    key[..IndexOf(key, '{')]
  }

  lemma FamilyOfBareName(name: string)
    requires MetricName(name)
    ensures FamilyOf(name) == name
  {
    IndexOfIsFirst(name, '{');
  }

  lemma FamilyBeforeBrace(name: string, body: string)
    requires MetricName(name)
    ensures FamilyOf(name + ("{" + body)) == name
  {
    IndexOfAppend(name, '{', body);
    assert name + ("{" + body) == name + ['{'] + body;
  }

  lemma FamilyOfKey(name: string, labels: map<string, string>)
    requires MetricName(name)
    ensures FamilyOf(SampleKey(name, labels)) == name
  {
    if labels == map[] {
      FamilyOfBareName(name);
      assert name + "" == name;
    } else {
      FamilyBeforeBrace(name, Pairs(Sorted(labels.Keys), labels));
    }
  }

  /** The prefix test picks out exactly one family, even when one metric name is
      a prefix of another. */
  lemma InFamilyIff(key: string, name: string)
    requires MetricName(name)
    ensures InFamily(key, name) <==> FamilyOf(key) == name
  {
    IndexOfIsFirst(key, '{');
    var i := IndexOf(key, '{');
    if StartsWith(key, name + "{") {
      var rest := key[|name| + 1..];
      assert key == name + ['{'] + rest;
      IndexOfAppend(name, '{', rest);
    }
    if FamilyOf(key) == name && i < |key| {
      assert key[..i + 1] == name + "{";
    }
    if i == |key| {
      assert key[..i] == key;
    }
  }

  ghost predicate DistinctKeys(samples: seq<Sample>) {
    forall i, j | 0 <= i < j < |samples| :: samples[i].key != samples[j].key
  }

  lemma {:induction false} SetKeepsDistinct(samples: seq<Sample>, key: string, value: real)
    requires DistinctKeys(samples)
    ensures DistinctKeys(SetSample(samples, key, value))
    ensures forall s | s in SetSample(samples, key, value) ::
              s == Sample(key, value) || (s in samples && s.key != key)
  {
    if samples != [] && samples[0].key != key {
      SetKeepsDistinct(samples[1..], key, value);
      assert samples == [samples[0]] + samples[1..];
    } else if samples != [] {
      assert samples == [samples[0]] + samples[1..];
      forall s | s in samples[1..] ensures s.key != key {
        var j :| 0 <= j < |samples[1..]| && samples[1..][j] == s;
        assert samples[j + 1] == s;
      }
    }
  }

  lemma {:induction false} OthersKeepsDistinct(samples: seq<Sample>, name: string)
    requires DistinctKeys(samples)
    ensures DistinctKeys(Others(samples, name))
    ensures forall s :: s in Others(samples, name) <==> s in samples && !InFamily(s.key, name)
  {
    if samples != [] {
      OthersKeepsDistinct(samples[1..], name);
      assert samples == [samples[0]] + samples[1..];
      forall s | s in Others(samples[1..], name) ensures s.key != samples[0].key {
        var j :| 0 <= j < |samples[1..]| && samples[1..][j] == s;
        assert samples[j + 1] == s;
      }
    }
  }

  lemma {:induction false} KeysStayDistinct(ops: seq<Op>)
    ensures DistinctKeys(ApplyAll([], ops))
  {
    if ops != [] {
      var before, op := ApplyAll([], ops[..|ops| - 1]), ops[|ops| - 1];
      KeysStayDistinct(ops[..|ops| - 1]);
      match op
      case Put(_, key, value, _) => SetKeepsDistinct(before, key, value);
      case Clear(name) => OthersKeepsDistinct(before, name);
    }
  }

  // ------------------------------------------------------------ one family at a time

  /** The operations on one metric name. */
  function Touching(ops: seq<Op>, name: string): seq<Op> {
    if ops == [] then []
    else if ops[|ops| - 1].name == name then Touching(ops[..|ops| - 1], name) + [ops[|ops| - 1]]
    else Touching(ops[..|ops| - 1], name)
  }

  /** Every operation names a metric, and every key belongs to its metric. */
  ghost predicate WellKeyed(ops: seq<Op>) {
    forall op | op in ops :: MetricName(op.name) && (op.Put? ==> FamilyOf(op.key) == op.name)
  }

  lemma {:induction false} FamilyAfterSet(samples: seq<Sample>, key: string, value: real, name: string)
    ensures Family(SetSample(samples, key, value), name)
            == if InFamily(key, name) then SetSample(Family(samples, name), key, value) else Family(samples, name)
  {
    if samples == [] {
      assert [Sample(key, value)][1..] == [];
    } else if samples[0].key == key {
      assert SetSample(samples, key, value)[1..] == samples[1..];
      if InFamily(key, name) {
        assert Family(samples, name)[1..] == Family(samples[1..], name);
      }
    } else {
      FamilyAfterSet(samples[1..], key, value, name);
      assert SetSample(samples, key, value)[1..] == SetSample(samples[1..], key, value);
      if InFamily(samples[0].key, name) {
        assert Family(samples, name)[1..] == Family(samples[1..], name);
      }
    }
  }

  lemma {:induction false} FamilyAfterOthers(samples: seq<Sample>, cleared: string, name: string)
    requires MetricName(cleared) && MetricName(name)
    ensures Family(Others(samples, cleared), name) == if cleared == name then [] else Family(samples, name)
  {
    if samples != [] {
      FamilyAfterOthers(samples[1..], cleared, name);
      var rest := Others(samples[1..], cleared);
      assert ([samples[0]] + rest)[1..] == rest;
      InFamilyIff(samples[0].key, cleared);
      InFamilyIff(samples[0].key, name);
    }
  }

  lemma {:induction false} OthersOfFamily(samples: seq<Sample>, name: string)
    ensures Others(Family(samples, name), name) == []
  {
    if samples != [] {
      OthersOfFamily(samples[1..], name);
      var rest := Family(samples[1..], name);
      assert ([samples[0]] + rest)[1..] == rest;
    }
  }

  /** A family evolves by the operations on its own name alone. */
  lemma {:induction false} FamilyEvolves(samples: seq<Sample>, ops: seq<Op>, name: string)
    requires MetricName(name) && WellKeyed(ops)
    ensures Family(ApplyAll(samples, ops), name) == ApplyAll(Family(samples, name), Touching(ops, name))
  {
    if ops != [] {
      var init, op := ops[..|ops| - 1], ops[|ops| - 1];
      FamilyEvolves(samples, init, name);
      var before := ApplyAll(samples, init);
      assert op in ops;
      match op {
        case Put(_, key, value, _) =>
          FamilyAfterSet(before, key, value, name);
          InFamilyIff(key, name);
        case Clear(cleared) =>
          FamilyAfterOthers(before, cleared, name);
          OthersOfFamily(before, name);
      }
      var touching := Touching(init, name);
      assert (touching + [op])[..|touching|] == touching;
    }
  }

  // ------------------------------------------------------------ what a render shows

  /** After the clearing, only freshly put samples are in the family. */
  lemma {:induction false} OnlyFreshSamples(old_: seq<Sample>, clear: Op, puts: seq<Op>)
    requires clear.Clear? && Family(old_, clear.name) == old_
    requires forall op | op in puts :: op.Put?
    ensures forall s | s in ApplyAll(old_, [clear] + puts) ::
              exists op | op in puts :: s == Sample(op.key, op.value)
    ensures DistinctKeys(ApplyAll(old_, [clear] + puts))
  {
    var ops := [clear] + puts;
    if puts == [] {
      assert ops[..0] == [];
      OthersOfFamily(old_, clear.name);
    } else {
      var init, last := puts[..|puts| - 1], puts[|puts| - 1];
      assert puts == init + [last];
      assert ops[..|ops| - 1] == [clear] + init;
      OnlyFreshSamples(old_, clear, init);
      SetKeepsDistinct(ApplyAll(old_, [clear] + init), last.key, last.value);
      forall s | s in ApplyAll(old_, ops) ensures exists op | op in puts :: s == Sample(op.key, op.value) {
        if s == Sample(last.key, last.value) {
          assert last in puts;
        } else {
          assert s in ApplyAll(old_, [clear] + init);
          var op :| op in init && s == Sample(op.key, op.value);
          assert op in puts;
        }
      }
    }
  }

  lemma {:induction false} TouchingJoins(a: seq<Op>, b: seq<Op>, name: string)
    ensures Touching(a + b, name) == Touching(a, name) + Touching(b, name)
  {
    if b == [] {
      assert a + b == a;
    } else {
      TouchingJoins(a, b[..|b| - 1], name);
      assert (a + b)[..|a + b| - 1] == a + b[..|b| - 1];
    }
  }

  lemma ApplyNext(samples: seq<Sample>, ops: seq<Op>, op: Op)
    ensures ApplyAll(samples, ops + [op]) == Apply(ApplyAll(samples, ops), op)
  {
    assert (ops + [op])[..|ops|] == ops;
  }

  lemma {:induction false} ApplyJoins(samples: seq<Sample>, a: seq<Op>, b: seq<Op>)
    ensures ApplyAll(samples, a + b) == ApplyAll(ApplyAll(samples, a), b)
  {
    if b == [] {
      assert a + b == a;
    } else {
      ApplyJoins(samples, a, b[..|b| - 1]);
      assert (a + b)[..|a + b| - 1] == a + b[..|b| - 1];
    }
  }

  lemma {:induction false} FamilyOfFamily(samples: seq<Sample>, name: string)
    ensures Family(Family(samples, name), name) == Family(samples, name)
  {
    if samples != [] {
      FamilyOfFamily(samples[1..], name);
      var rest := Family(samples[1..], name);
      assert ([samples[0]] + rest)[1..] == rest;
    }
  }

  /** In `ops` the family is cleared once, before anything is put into it. */
  ghost predicate ClearsOnce(ops: seq<Op>, name: string) {
    var touching := Touching(ops, name);
    touching != [] && touching[0] == Clear(name) && forall op | op in touching[1..] :: op.Put?
  }

  /** Once a scrape has cleared a family, it holds only samples of that scrape. */
  lemma FamilyIsFresh(before: seq<Sample>, ops: seq<Op>, k: nat, name: string)
    requires k <= |ops| && MetricName(name) && WellKeyed(ops) && ClearsOnce(ops, name)
    requires Touching(ops[..k], name) != []
    ensures forall s | s in Family(ApplyAll(before, ops[..k]), name) ::
              exists op | op in ops && op.Put? && op.name == name :: s == Sample(op.key, op.value)
  {
    FamilyEvolves(before, ops[..k], name);
    var seenOps := Touching(ops[..k], name);
    TouchingPrefix(ops, k, name);
    var puts := seenOps[1..];
    assert seenOps == [Clear(name)] + puts;
    FamilyOfFamily(before, name);
    OnlyFreshSamples(Family(before, name), Clear(name), puts);
  }

  /** The operations on a name before step `k` are the first of all those on it. */
  lemma TouchingPrefix(ops: seq<Op>, k: nat, name: string)
    requires k <= |ops|
    ensures Touching(ops[..k], name) <= Touching(ops, name)
    ensures forall op | op in Touching(ops[..k], name) :: op in ops && op.name == name
    ensures ClearsOnce(ops, name) && Touching(ops[..k], name) != [] ==>
              && Touching(ops[..k], name)[0] == Clear(name)
              && forall op | op in Touching(ops[..k], name)[1..] :: op.Put? && op in Touching(ops[..k], name)
  {
    TouchingJoins(ops[..k], ops[k..], name);
    assert ops[..k] + ops[k..] == ops;
    TouchingMembers(ops[..k], name);
    var seen, all := Touching(ops[..k], name), Touching(ops, name);
    if ClearsOnce(ops, name) && seen != [] {
      forall op | op in seen[1..] ensures op.Put? && op in seen {
        var j :| 0 <= j < |seen[1..]| && seen[1..][j] == op;
        assert all[1..][j] == op && seen[j + 1] == op;
      }
    }
  }

  lemma {:induction false} TouchingMembers(ops: seq<Op>, name: string)
    ensures forall op | op in Touching(ops, name) :: op in ops && op.name == name
  {
    if ops != [] {
      TouchingMembers(ops[..|ops| - 1], name);
      assert ops == ops[..|ops| - 1] + [ops[|ops| - 1]];
    }
  }

  // ------------------------------------------------------------ grouping

  ghost predicate DistinctNames(help: seq<HelpText>) {
    forall i, j | 0 <= i < j < |help| :: help[i].name != help[j].name
  }

  ghost predicate Registered(help: seq<HelpText>, name: string) {
    exists h | h in help :: h.name == name
  }

  lemma LastIsNew(help: seq<HelpText>)
    requires DistinctNames(help) && help != []
    ensures var init, last := help[..|help| - 1], help[|help| - 1];
            && !Registered(init, last.name)
            && forall name :: Registered(help, name) <==> Registered(init, name) || name == last.name
  {
    var init, last := help[..|help| - 1], help[|help| - 1];
    assert help == init + [last] && last in help;
    forall h | h in init ensures h.name != last.name && h in help {
      var j :| 0 <= j < |init| && init[j] == h;
      assert help[j] == h;
    }
  }

  lemma {:induction false} HelpNames(ops: seq<Op>)
    requires WellKeyed(ops)
    ensures DistinctNames(HelpAfter([], ops))
    ensures forall h | h in HelpAfter([], ops) :: MetricName(h.name)
  {
    if ops != [] {
      assert ops[|ops| - 1] in ops;
      assert forall op | op in ops[..|ops| - 1] :: op in ops;
      HelpNames(ops[..|ops| - 1]);
    }
  }

  lemma {:induction false} FamilyMembers(samples: seq<Sample>, name: string)
    requires DistinctKeys(samples)
    ensures forall s :: s in Family(samples, name) <==> s in samples && InFamily(s.key, name)
    ensures DistinctKeys(Family(samples, name))
  {
    if samples != [] {
      FamilyMembers(samples[1..], name);
      assert samples == [samples[0]] + samples[1..];
      forall s | s in Family(samples[1..], name) ensures s.key != samples[0].key {
        var j :| 0 <= j < |samples[1..]| && samples[1..][j] == s;
        assert samples[j + 1] == s;
      }
    }
  }

  /** How often a line occurs. */
  function Count(lines: seq<Line>, line: Line): nat {
    if lines == [] then 0
    else Count(lines[..|lines| - 1], line) + if lines[|lines| - 1] == line then 1 else 0
  }

  lemma {:induction false} CountJoins(a: seq<Line>, b: seq<Line>, line: Line)
    ensures Count(a + b, line) == Count(a, line) + Count(b, line)
  {
    if b == [] {
      assert a + b == a;
    } else {
      CountJoins(a, b[..|b| - 1], line);
      assert (a + b)[..|a + b| - 1] == a + b[..|b| - 1];
    }
  }

  lemma {:induction false} CountSampleLines(samples: seq<Sample>, s: Sample)
    requires DistinctKeys(samples)
    ensures Count(SampleLines(samples), SampleLine(s.key, s.value)) == if s in samples then 1 else 0
  {
    if samples != [] {
      CountSampleLines(samples[1..], s);
      var line := SampleLine(samples[0].key, samples[0].value);
      CountJoins([line], SampleLines(samples[1..]), SampleLine(s.key, s.value));
      assert [line][..0] == [];
      assert samples == [samples[0]] + samples[1..];
      if s == samples[0] {
        forall j | 0 <= j < |samples[1..]| ensures samples[1..][j] != s {
          assert samples[j + 1] == samples[1..][j];
        }
      }
    }
  }

  lemma CountInGroup(h: HelpText, samples: seq<Sample>, s: Sample)
    requires DistinctKeys(samples) && MetricName(h.name) && s in samples
    ensures Count(Group(h, samples), SampleLine(s.key, s.value)) == if FamilyOf(s.key) == h.name then 1 else 0
  {
    var head, line := [HelpLine(h.name, h.text), TypeLine(h.name)], SampleLine(s.key, s.value);
    CountJoins(head, SampleLines(Family(samples, h.name)), line);
    assert head[..1] == [HelpLine(h.name, h.text)] && head[..1][..0] == [];
    assert Count(head, line) == Count(head[..1], line) == 0;
    FamilyMembers(samples, h.name);
    CountSampleLines(Family(samples, h.name), s);
    InFamilyIff(s.key, h.name);
  }

  /** Every sample whose family has a help text is rendered exactly once, and a
      sample without one not at all. */
  lemma {:induction false} RenderedOnce(help: seq<HelpText>, samples: seq<Sample>, s: Sample)
    requires DistinctNames(help) && DistinctKeys(samples) && s in samples
    requires forall h | h in help :: MetricName(h.name)
    ensures Count(RenderLines(help, samples), SampleLine(s.key, s.value))
            == if Registered(help, FamilyOf(s.key)) then 1 else 0
  {
    if help != [] {
      var init, last := help[..|help| - 1], help[|help| - 1];
      assert help == init + [last];
      RenderedOnce(init, samples, s);
      CountInGroup(last, samples, s);
      CountJoins(RenderLines(init, samples), Group(last, samples), SampleLine(s.key, s.value));
      LastIsNew(help);
    }
  }

  /** Line `i` stands in the group of `name`: below its HELP and TYPE lines, with
      nothing but samples of the same family in between. */
  ghost predicate InGroupOf(lines: seq<Line>, i: nat, name: string) {
    exists g: nat, text: string :: GroupStartsAt(lines, g, i, name, text)
  }

  ghost predicate GroupStartsAt(lines: seq<Line>, g: nat, i: nat, name: string, text: string) {
    && g + 1 < i < |lines|
    && lines[g] == HelpLine(name, text)
    && lines[g + 1] == TypeLine(name)
    && forall j | g + 2 <= j <= i :: lines[j].SampleLine? && FamilyOf(lines[j].key) == name
  }

  lemma {:induction false} SampleLinesAt(samples: seq<Sample>)
    ensures |SampleLines(samples)| == |samples|
    ensures forall j | 0 <= j < |samples| :: SampleLines(samples)[j] == SampleLine(samples[j].key, samples[j].value)
  {
    if samples != [] {
      SampleLinesAt(samples[1..]);
    }
  }

  lemma GroupIsOneFamily(h: HelpText, samples: seq<Sample>)
    requires DistinctKeys(samples) && MetricName(h.name)
    ensures forall j | 2 <= j < |Group(h, samples)| ::
              Group(h, samples)[j].SampleLine? && FamilyOf(Group(h, samples)[j].key) == h.name
  {
    var family := Family(samples, h.name);
    SampleLinesAt(family);
    FamilyMembers(samples, h.name);
    forall j | 2 <= j < |Group(h, samples)|
      ensures Group(h, samples)[j].SampleLine? && FamilyOf(Group(h, samples)[j].key) == h.name
    {
      assert Group(h, samples)[j] == SampleLine(family[j - 2].key, family[j - 2].value);
      assert family[j - 2] in family;
      InFamilyIff(family[j - 2].key, h.name);
    }
  }

  /** Every rendered sample stands in the one group of its own family. */
  lemma {:induction false} RenderIsGrouped(help: seq<HelpText>, samples: seq<Sample>, i: nat)
    requires DistinctKeys(samples) && forall h | h in help :: MetricName(h.name)
    requires i < |RenderLines(help, samples)| && RenderLines(help, samples)[i].SampleLine?
    ensures InGroupOf(RenderLines(help, samples), i, FamilyOf(RenderLines(help, samples)[i].key))
  {
    var init, last := help[..|help| - 1], help[|help| - 1];
    assert last in help;
    var before, group, lines := RenderLines(init, samples), Group(last, samples), RenderLines(help, samples);
    assert lines == before + group;
    if i < |before| {
      assert forall h | h in init :: h in help;
      RenderIsGrouped(init, samples, i);
      var name := FamilyOf(before[i].key);
      var g: nat, text: string :| GroupStartsAt(before, g, i, name, text);
      assert GroupStartsAt(lines, g, i, name, text);
    } else {
      GroupIsOneFamily(last, samples);
      var g := |before|;
      assert lines[g] == group[0] && lines[g + 1] == group[1];
      forall j | g + 2 <= j <= i ensures lines[j].SampleLine? && FamilyOf(lines[j].key) == last.name {
        assert lines[j] == group[j - g];
      }
      assert GroupStartsAt(lines, g, i, last.name, last.text);
    }
  }

  /** Every printed sample line is a sample of the registry. */
  lemma {:induction false} RenderedIsPresent(help: seq<HelpText>, samples: seq<Sample>, i: nat)
    requires DistinctKeys(samples) && i < |RenderLines(help, samples)| && RenderLines(help, samples)[i].SampleLine?
    ensures var line := RenderLines(help, samples)[i]; Sample(line.key, line.value) in samples
  {
    var init, last := help[..|help| - 1], help[|help| - 1];
    var before, lines := RenderLines(init, samples), RenderLines(help, samples);
    if i < |before| {
      RenderedIsPresent(init, samples, i);
    } else {
      var family := Family(samples, last.name);
      SampleLinesAt(family);
      FamilyMembers(samples, last.name);
      assert lines[i] == SampleLine(family[i - |before| - 2].key, family[i - |before| - 2].value);
      assert family[i - |before| - 2] in family;
    }
  }

  /** The metric a HELP or TYPE line announces. */
  function Announced(line: Line): Option<string> {
    match line
    case HelpLine(name, _) => Some(name)
    case TypeLine(name) => Some(name)
    case SampleLine(_, _) => None
  }

  lemma {:induction false} AnnouncedIsRegistered(help: seq<HelpText>, samples: seq<Sample>, i: nat)
    requires i < |RenderLines(help, samples)| && !RenderLines(help, samples)[i].SampleLine?
    ensures Registered(help, Announced(RenderLines(help, samples)[i]).value)
  {
    var init, last := help[..|help| - 1], help[|help| - 1];
    var before := RenderLines(init, samples);
    if i < |before| {
      AnnouncedIsRegistered(init, samples, i);
      var h :| h in init && h.name == Announced(before[i]).value;
      assert h in help;
    } else {
      assert last in help;
      HeaderOfGroup(last, samples, i - |before|);
    }
  }

  /** The only header lines of a group are its first two. */
  lemma HeaderOfGroup(h: HelpText, samples: seq<Sample>, i: nat)
    requires i < |Group(h, samples)| && !Group(h, samples)[i].SampleLine?
    ensures i < 2 && Group(h, samples)[i] == if i == 0 then HelpLine(h.name, h.text) else TypeLine(h.name)
  {
    SampleLinesAt(Family(samples, h.name));
  }

  /** The HELP lines are the registered help texts. */
  lemma {:induction false} HelpLinesIff(help: seq<HelpText>, samples: seq<Sample>, h: HelpText)
    ensures HelpLine(h.name, h.text) in RenderLines(help, samples) <==> h in help
  {
    if help != [] {
      var init, last := help[..|help| - 1], help[|help| - 1];
      assert help == init + [last];
      HelpLinesIff(init, samples, h);
      SampleLinesAt(Family(samples, last.name));
      assert Group(last, samples)[0] == HelpLine(last.name, last.text);
      assert HelpLine(h.name, h.text) in Group(last, samples) <==> h == last;
    }
  }

  /** What the exposition format asks of a text: each sample is one of the registry's and
      stands in the group of its metric; each metric has one HELP line and one TYPE line
      at most, so one group; the registry's samples are printed once each, if their
      metric has a help text, and otherwise not at all; the HELP lines are the registered
      texts. */
  ghost predicate MeetsFormat(lines: seq<Line>, help: seq<HelpText>, samples: seq<Sample>) {
    && (forall h: HelpText :: HelpLine(h.name, h.text) in lines <==> h in help)
    && (forall i: nat | i < |lines| && lines[i].SampleLine? ::
          && Sample(lines[i].key, lines[i].value) in samples
          && InGroupOf(lines, i, FamilyOf(lines[i].key)))
    && (forall i: nat, j: nat |
          i < j < |lines| && Announced(lines[i]).Some? && Announced(lines[i]) == Announced(lines[j]) ::
          lines[i].HelpLine? && lines[j].TypeLine? && j == i + 1)
    && (forall s | s in samples ::
          Count(lines, SampleLine(s.key, s.value)) == if Registered(help, FamilyOf(s.key)) then 1 else 0)
  }

  /** A render after any history of locked operations meets the format. */
  lemma RenderMeetsFormat(ops: seq<Op>)
    requires WellKeyed(ops)
    ensures var help, samples := HelpAfter([], ops), ApplyAll([], ops);
            MeetsFormat(RenderLines(help, samples), help, samples)
  {
    var help, samples := HelpAfter([], ops), ApplyAll([], ops);
    HelpNames(ops);
    KeysStayDistinct(ops);
    LinesMeetFormat(help, samples);
  }

  lemma LinesMeetFormat(help: seq<HelpText>, samples: seq<Sample>)
    requires DistinctNames(help) && DistinctKeys(samples) && forall h | h in help :: MetricName(h.name)
    ensures MeetsFormat(RenderLines(help, samples), help, samples)
  {
    var lines := RenderLines(help, samples);
    forall h: HelpText ensures HelpLine(h.name, h.text) in lines <==> h in help {
      HelpLinesIff(help, samples, h);
    }
    forall s | s in samples
      ensures Count(lines, SampleLine(s.key, s.value)) == if Registered(help, FamilyOf(s.key)) then 1 else 0
    {
      RenderedOnce(help, samples, s);
    }
    forall i: nat | i < |lines| && lines[i].SampleLine?
      ensures Sample(lines[i].key, lines[i].value) in samples && InGroupOf(lines, i, FamilyOf(lines[i].key))
    {
      RenderedIsPresent(help, samples, i);
      RenderIsGrouped(help, samples, i);
    }
    forall i: nat, j: nat | i < j < |lines| && Announced(lines[i]).Some? && Announced(lines[i]) == Announced(lines[j])
      ensures lines[i].HelpLine? && lines[j].TypeLine? && j == i + 1
    {
      HeaderPairs(help, samples, i, j);
    }
  }

  /** A metric's HELP line comes right before its TYPE line. */
  lemma {:induction false} HeaderPairs(help: seq<HelpText>, samples: seq<Sample>, i: nat, j: nat)
    requires DistinctNames(help) && i < j < |RenderLines(help, samples)|
    requires var a, b := Announced(RenderLines(help, samples)[i]), Announced(RenderLines(help, samples)[j]);
             a.Some? && a == b
    ensures RenderLines(help, samples)[i].HelpLine? && RenderLines(help, samples)[j].TypeLine? && j == i + 1
  {
    var init, last := help[..|help| - 1], help[|help| - 1];
    var before := RenderLines(init, samples);
    if j < |before| {
      HeaderPairs(init, samples, i, j);
    } else {
      HeaderOfGroup(last, samples, j - |before|);
      if i < |before| {
        AnnouncedIsRegistered(init, samples, i);
      } else {
        HeaderOfGroup(last, samples, i - |before|);
      }
    }
  }

  // ------------------------------------------------------------ what a render shows of a family

  function IsLineOf(name: string): Line -> bool {
    (line: Line) => line.SampleLine? && FamilyOf(line.key) == name
  }

  function SampleOf(line: Line): Sample {
    if line.SampleLine? then Sample(line.key, line.value) else Sample("", 0.0)
  }

  /** The samples of one metric that a text prints, in order. */
  function Printed(lines: seq<Line>, name: string): seq<Sample> {
    Pick(lines, IsLineOf(name), SampleOf)
  }

  lemma {:induction false} PrintedSampleLines(samples: seq<Sample>, family: string, name: string)
    requires forall s | s in samples :: FamilyOf(s.key) == family
    ensures Printed(SampleLines(samples), name) == if family == name then samples else []
  {
    if samples != [] {
      var line := SampleLine(samples[0].key, samples[0].value);
      assert samples == [samples[0]] + samples[1..];
      PrintedSampleLines(samples[1..], family, name);
      PickJoins([line], SampleLines(samples[1..]), IsLineOf(name), SampleOf);
      assert [line][..0] == [];
    }
  }

  lemma PrintedGroup(h: HelpText, samples: seq<Sample>, name: string)
    requires DistinctKeys(samples) && MetricName(h.name)
    ensures Printed(Group(h, samples), name) == if h.name == name then Family(samples, name) else []
  {
    var head := [HelpLine(h.name, h.text), TypeLine(h.name)];
    var family := Family(samples, h.name);
    FamilyMembers(samples, h.name);
    forall s | s in family ensures FamilyOf(s.key) == h.name {
      InFamilyIff(s.key, h.name);
    }
    PrintedSampleLines(family, h.name, name);
    PickJoins(head, SampleLines(family), IsLineOf(name), SampleOf);
    PickNothing(head, IsLineOf(name), SampleOf);
  }

  /** A render prints of a metric exactly what the registry holds of it, if the metric
      has a help text, and nothing otherwise. */
  lemma {:induction false} PrintedIsFamily(help: seq<HelpText>, samples: seq<Sample>, name: string)
    requires DistinctNames(help) && DistinctKeys(samples) && forall h | h in help :: MetricName(h.name)
    ensures Printed(RenderLines(help, samples), name)
         == if Registered(help, name) then Family(samples, name) else []
  {
    if help != [] {
      var init, last := help[..|help| - 1], help[|help| - 1];
      assert help == init + [last];
      PrintedIsFamily(init, samples, name);
      PrintedGroup(last, samples, name);
      PickJoins(RenderLines(init, samples), Group(last, samples), IsLineOf(name), SampleOf);
      LastIsNew(help);
    }
  }

  /** The text of a render after a history of locked operations. */
  function RenderAfter(ops: seq<Op>): seq<Line> {
    RenderLines(HelpAfter([], ops), ApplyAll([], ops))
  }

  lemma PrintedAfter(ops: seq<Op>, name: string)
    requires WellKeyed(ops)
    ensures Printed(RenderAfter(ops), name)
         == if Registered(HelpAfter([], ops), name) then Family(ApplyAll([], ops), name) else []
  {
    HelpNames(ops);
    KeysStayDistinct(ops);
    PrintedIsFamily(HelpAfter([], ops), ApplyAll([], ops), name);
  }

  lemma {:induction false} HelpUntouched(before: seq<Op>, ops: seq<Op>, name: string)
    requires Touching(ops, name) == []
    ensures Registered(HelpAfter([], before + ops), name) <==> Registered(HelpAfter([], before), name)
  {
    if ops == [] {
      assert before + ops == before;
    } else {
      var init, last := ops[..|ops| - 1], ops[|ops| - 1];
      assert (before + ops)[..|before + ops| - 1] == before + init;
      HelpUntouched(before, init, name);
      if last.Put? {
        AddHelpRegisters(HelpAfter([], before + init), last, name);
      }
    }
  }

  lemma AddHelpRegisters(help: seq<HelpText>, op: Op, name: string)
    requires op.name != name && op.Put?
    ensures Registered(AddHelp(help, op.name, op.text), name) <==> Registered(help, name)
  {
  }

  /** The interleaving theorem on rendered text: a render that comes between two steps of
      a scrape prints of a cleared family exactly what a render before the scrape printed,
      or only samples of this scrape. */
  lemma RenderSeesNoMix(before: seq<Op>, ops: seq<Op>, k: nat, name: string)
    requires k <= |ops| && MetricName(name) && WellKeyed(before + ops) && ClearsOnce(ops, name)
    ensures var seen := Printed(RenderAfter(before + ops[..k]), name);
            || seen == Printed(RenderAfter(before), name)
            || forall s | s in seen ::
                 exists op | op in ops && op.Put? && op.name == name :: s == Sample(op.key, op.value)
  {
    forall op | op in before + ops[..k] ensures op in before + ops {
    }
    assert forall op | op in ops :: op in before + ops;
    assert forall op | op in before :: op in before + ops;
    PrintedAfter(before, name);
    PrintedAfter(before + ops[..k], name);
    ApplyJoins([], before, ops[..k]);
    if Touching(ops[..k], name) == [] {
      HelpUntouched(before, ops[..k], name);
      FamilyUntouched(ApplyAll([], before), ops[..k], name);
    } else {
      FamilyIsFresh(ApplyAll([], before), ops, k, name);
    }
  }

  lemma FamilyUntouched(samples: seq<Sample>, ops: seq<Op>, name: string)
    requires MetricName(name) && WellKeyed(ops) && Touching(ops, name) == []
    ensures Family(ApplyAll(samples, ops), name) == Family(samples, name)
  {
    FamilyEvolves(samples, ops, name);
  }
}
