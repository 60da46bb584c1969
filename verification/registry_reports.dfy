/** What a render of the registry shows, told from the locked operations alone
    (nzbdav-exporter/exporter.py, `_set`, `_remove_family`, `render_metrics`). */
module RegistryReports {
  import opened Text
  import opened PrometheusFormat
  import opened MetricsRegistry
  import opened Selection

  // ------------------------------------------------------------ which samples are there

  /** The key of a sample of the metric `name`: the bare name, or the name and labels. */
  ghost predicate KeyOf(key: string, name: string) {
    key == name || exists labels :: key == name + "{" + labels
  }

  lemma KeyOfIff(key: string, name: string)
    ensures InFamily(key, name) <==> KeyOf(key, name)
  {
    if StartsWith(key, name + "{") {
      assert key == name + "{" + key[|name| + 1..];
    }
    if labels :| key == name + "{" + labels {
      assert key[..|name| + 1] == name + "{";
    }
  }

  /** The operation replaces or removes the sample with this key. */
  ghost predicate Ends(op: Op, key: string) {
    if op.Put? then op.key == key else KeyOf(key, op.name)
  }

  /** Step `i` writes the sample, and no later step replaces or removes it. */
  ghost predicate Lasts(ops: seq<Op>, i: nat, key: string, value: real) {
    && i < |ops| && ops[i].Put? && ops[i].key == key && ops[i].value == value
    && forall j | i < j < |ops| :: !Ends(ops[j], key)
  }

  lemma LastsNext(ops: seq<Op>, key: string, value: real)
    requires ops != []
    ensures var init, last := ops[..|ops| - 1], ops[|ops| - 1];
            (exists i :: Lasts(ops, i, key, value))
            <==> || (last.Put? && last.key == key && last.value == value)
                 || (!Ends(last, key) && exists i :: Lasts(init, i, key, value))
  {
    var init, last := ops[..|ops| - 1], ops[|ops| - 1];
    if i: nat :| Lasts(ops, i, key, value) {
      assert i < |init| ==> Lasts(init, i, key, value);
    }
    if last.Put? && last.key == key && last.value == value {
      assert Lasts(ops, |init|, key, value);
    }
    if i: nat :| !Ends(last, key) && Lasts(init, i, key, value) {
      assert Lasts(ops, i, key, value);
    }
  }

  lemma {:induction false} SetMembers(samples: seq<Sample>, key: string, value: real, s: Sample)
    requires DistinctKeys(samples)
    ensures s in SetSample(samples, key, value) <==> s == Sample(key, value) || (s in samples && s.key != key)
  {
    SetKeepsDistinct(samples, key, value);
    if samples != [] && samples[0].key != key {
      SetMembers(samples[1..], key, value, s);
      assert samples == [samples[0]] + samples[1..];
    }
  }

  /** The registry holds exactly the samples that were written and neither replaced nor
      removed since. */
  lemma {:induction false} SampleIff(ops: seq<Op>, key: string, value: real)
    ensures Sample(key, value) in ApplyAll([], ops) <==> exists i :: Lasts(ops, i, key, value)
  {
    if ops != [] {
      var init, last := ops[..|ops| - 1], ops[|ops| - 1];
      SampleIff(init, key, value);
      LastsNext(ops, key, value);
      KeysStayDistinct(init);
      if last.Put? {
        SetMembers(ApplyAll([], init), last.key, last.value, Sample(key, value));
      } else {
        OthersKeepsDistinct(ApplyAll([], init), last.name);
        KeyOfIff(key, last.name);
      }
    }
  }

  // ------------------------------------------------------------ which metrics have a help text

  /** The operation comes with a help text for the metric. */
  predicate Describes(op: Op, name: string) {
    op.Put? && op.name == name && op.text != ""
  }

  /** Step `i` is the first that comes with a help text for the metric, and this is the text. */
  ghost predicate Introduces(ops: seq<Op>, i: nat, name: string, text: string) {
    && i < |ops| && Describes(ops[i], name) && ops[i].text == text
    && forall j | 0 <= j < i :: !Describes(ops[j], name)
  }

  lemma {:induction false} FirstDescribes(ops: seq<Op>, i: nat, name: string) returns (first: nat)
    requires i < |ops| && Describes(ops[i], name)
    ensures first <= i && Describes(ops[first], name) && Introduces(ops, first, name, ops[first].text)
  {
    if j :| 0 <= j < i && Describes(ops[j], name) {
      first := FirstDescribes(ops, j, name);
    } else {
      first := i;
    }
  }

  /** The help texts are those of the introducing steps, in the order of these steps. */
  ghost predicate TextsAt(ops: seq<Op>, help: seq<HelpText>, at: seq<nat>) {
    && |at| == |help|
    && (forall k, l | 0 <= k < l < |at| :: at[k] < at[l])
    && (forall k | 0 <= k < |at| :: Introduces(ops, at[k], help[k].name, help[k].text))
    && (forall i, name, text | Introduces(ops, i, name, text) :: i in at)
  }

  lemma IntroducesNext(ops: seq<Op>, i: nat, name: string, text: string)
    requires ops != []
    ensures var init, last := ops[..|ops| - 1], ops[|ops| - 1];
            Introduces(ops, i, name, text)
            <==> || Introduces(init, i, name, text)
                 || (i == |init| && Describes(last, name) && last.text == text
                     && forall j | 0 <= j < |init| :: !Describes(init[j], name))
  {
  }

  lemma TextsRegister(ops: seq<Op>, help: seq<HelpText>, at: seq<nat>, name: string)
    requires TextsAt(ops, help, at)
    ensures Registered(help, name) <==> exists op | op in ops :: Describes(op, name)
    ensures (exists op | op in ops :: Describes(op, name)) <==> exists j :: 0 <= j < |ops| && Describes(ops[j], name)
  {
    if Registered(help, name) {
      var h :| h in help && h.name == name;
      var k :| 0 <= k < |help| && help[k] == h;
      assert Introduces(ops, at[k], h.name, h.text);
      assert ops[at[k]] in ops;
    }
    if op :| op in ops && Describes(op, name) {
      var i :| 0 <= i < |ops| && ops[i] == op;
      var first := FirstDescribes(ops, i, name);
      var k :| 0 <= k < |at| && at[k] == first;
      assert help[k] in help && help[k].name == name;
    }
  }

  /** One more step and its help text, if it is the first for its metric. */
  lemma OneMoreText(ops: seq<Op>, help: seq<HelpText>, before: seq<nat>, op: Op) returns (at: seq<nat>)
    requires TextsAt(ops, help, before) && op.Put?
    ensures TextsAt(ops + [op], AddHelp(help, op.name, op.text), at)
  {
    var all := ops + [op];
    assert all[..|all| - 1] == ops;
    TextsRegister(ops, help, before, op.name);
    at := before;
    if op.text != "" && forall h | h in help :: h.name != op.name {
      at := before + [|ops|];
    }
    forall i, name, text | Introduces(all, i, name, text) ensures i in at {
      IntroducesNext(all, i, name, text);
    }
  }

  lemma NoMoreText(ops: seq<Op>, help: seq<HelpText>, at: seq<nat>, op: Op)
    requires TextsAt(ops, help, at) && op.Clear?
    ensures TextsAt(ops + [op], help, at)
  {
    var all := ops + [op];
    assert all[..|all| - 1] == ops;
    forall i, name, text | Introduces(all, i, name, text) ensures i in at {
      IntroducesNext(all, i, name, text);
    }
  }

  lemma {:induction false} HelpInOrder(ops: seq<Op>) returns (at: seq<nat>)
    ensures TextsAt(ops, HelpAfter([], ops), at)
  {
    if ops == [] {
      at := [];
    } else {
      var init, last := ops[..|ops| - 1], ops[|ops| - 1];
      at := HelpInOrder(init);
      assert ops == init + [last];
      if last.Put? {
        at := OneMoreText(init, HelpAfter([], init), at, last);
      } else {
        NoMoreText(init, HelpAfter([], init), at, last);
      }
    }
  }

  lemma RegisteredIff(ops: seq<Op>, name: string)
    ensures Registered(HelpAfter([], ops), name) <==> exists op | op in ops :: Describes(op, name)
  {
    var at := HelpInOrder(ops);
    TextsRegister(ops, HelpAfter([], ops), at, name);
  }

  // ------------------------------------------------------------ the text

  /** Metrics have plain names, and every key belongs to its metric. */
  ghost predicate Keyed(ops: seq<Op>) {
    forall op | op in ops :: '{' !in op.name && (op.Put? ==> KeyOf(op.key, op.name))
  }

  lemma KeyedIsWellKeyed(ops: seq<Op>)
    requires Keyed(ops)
    ensures WellKeyed(ops)
  {
    forall op | op in ops ensures MetricName(op.name) && (op.Put? ==> FamilyOf(op.key) == op.name) {
      if op.Put? {
        KeyOfIff(op.key, op.name);
        InFamilyIff(op.key, op.name);
      }
    }
  }

  lemma {:induction false} CountOccurs(lines: seq<Line>, line: Line)
    ensures Count(lines, line) == multiset(lines)[line]
  {
    if lines != [] {
      var init, last := lines[..|lines| - 1], lines[|lines| - 1];
      CountOccurs(init, line);
      assert lines == init + [last];
    }
  }

  /** A render after any operations prints a sample once if it was written and neither
      replaced nor removed since, and some operation brought a help text for its metric;
      otherwise it does not print it. */
  lemma SamplePrinted(ops: seq<Op>, name: string, key: string, value: real)
    requires Keyed(ops) && '{' !in name && KeyOf(key, name)
    ensures multiset(RenderAfter(ops))[SampleLine(key, value)]
         == if (exists i :: Lasts(ops, i, key, value)) && exists op | op in ops :: Describes(op, name) then 1 else 0
  {
    var help, samples, line := HelpAfter([], ops), ApplyAll([], ops), SampleLine(key, value);
    KeyedIsWellKeyed(ops);
    HelpNames(ops);
    KeysStayDistinct(ops);
    CountOccurs(RenderAfter(ops), line);
    SampleIff(ops, key, value);
    RegisteredIff(ops, name);
    KeyOfIff(key, name);
    InFamilyIff(key, name);
    if Sample(key, value) in samples {
      RenderedOnce(help, samples, Sample(key, value));
    } else if i: nat :| i < |RenderAfter(ops)| && RenderAfter(ops)[i] == line {
      RenderedIsPresent(help, samples, i);
    }
  }

  function IsHelpLine(line: Line): bool {
    line.HelpLine?
  }

  function HelpOf(line: Line): HelpText {
    if line.HelpLine? then HelpText(line.name, line.text) else HelpText("", "")
  }

  lemma NoHelpInSamples(samples: seq<Sample>)
    ensures Pick(SampleLines(samples), IsHelpLine, HelpOf) == []
  {
    SampleLinesAt(samples);
    PickNothing(SampleLines(samples), IsHelpLine, HelpOf);
  }

  lemma HelpOfGroup(h: HelpText, samples: seq<Sample>)
    ensures Pick(Group(h, samples), IsHelpLine, HelpOf) == [h]
  {
    var head, family := [HelpLine(h.name, h.text), TypeLine(h.name)], Family(samples, h.name);
    NoHelpInSamples(family);
    PickJoins(head, SampleLines(family), IsHelpLine, HelpOf);
    assert head[..1] == [HelpLine(h.name, h.text)] && head[..1][..0] == [];
    assert Pick(head[..1], IsHelpLine, HelpOf) == [h];
  }

  lemma {:induction false} HelpLinesAreTexts(help: seq<HelpText>, samples: seq<Sample>)
    ensures Pick(RenderLines(help, samples), IsHelpLine, HelpOf) == help
  {
    if help != [] {
      var init, last := help[..|help| - 1], help[|help| - 1];
      assert help == init + [last];
      HelpLinesAreTexts(init, samples);
      HelpOfGroup(last, samples);
      PickJoins(RenderLines(init, samples), Group(last, samples), IsHelpLine, HelpOf);
    }
  }

  /** The HELP lines of a render are the texts of the introducing steps, in their order. */
  lemma HelpPrinted(ops: seq<Op>) returns (at: seq<nat>)
    ensures TextsAt(ops, Pick(RenderAfter(ops), IsHelpLine, HelpOf), at)
  {
    HelpLinesAreTexts(HelpAfter([], ops), ApplyAll([], ops));
    at := HelpInOrder(ops);
  }

  /** HELP and TYPE lines come in pairs. */
  ghost predicate Paired(lines: seq<Line>) {
    && (forall i: nat | i < |lines| && lines[i].HelpLine? ::
          i + 1 < |lines| && lines[i + 1] == TypeLine(lines[i].name))
    && (forall i: nat | i < |lines| && lines[i].TypeLine? ::
          i > 0 && lines[i - 1].HelpLine? && lines[i - 1].name == lines[i].name)
  }

  lemma PairedGroup(h: HelpText, samples: seq<Sample>)
    ensures Paired(Group(h, samples))
  {
    SampleLinesAt(Family(samples, h.name));
  }

  lemma PairedJoin(a: seq<Line>, b: seq<Line>)
    requires Paired(a) && Paired(b)
    ensures Paired(a + b)
  {
    var lines := a + b;
    forall i: nat | i < |lines| && lines[i].HelpLine?
      ensures i + 1 < |lines| && lines[i + 1] == TypeLine(lines[i].name)
    {
      assert i >= |a| ==> b[i - |a|] == lines[i];
    }
    forall i: nat | i < |lines| && lines[i].TypeLine?
      ensures i > 0 && lines[i - 1].HelpLine? && lines[i - 1].name == lines[i].name
    {
      assert i >= |a| ==> b[i - |a|] == lines[i];
    }
  }

  lemma {:induction false} HeadersArePaired(help: seq<HelpText>, samples: seq<Sample>)
    ensures Paired(RenderLines(help, samples))
  {
    if help != [] {
      var init, last := help[..|help| - 1], help[|help| - 1];
      HeadersArePaired(init, samples);
      PairedGroup(last, samples);
      PairedJoin(RenderLines(init, samples), Group(last, samples));
    }
  }

  /** Line `i` stands below the HELP and TYPE lines of the metric, with nothing but samples
      of this metric in between. */
  ghost predicate StandsUnder(lines: seq<Line>, i: nat, name: string) {
    exists g: nat, text: string :: UnderHeader(lines, g, i, name, text)
  }

  ghost predicate UnderHeader(lines: seq<Line>, g: nat, i: nat, name: string, text: string) {
    && g + 1 < i < |lines| && lines[g] == HelpLine(name, text) && lines[g + 1] == TypeLine(name)
    && forall j | g + 2 <= j <= i :: lines[j].SampleLine? && KeyOf(lines[j].key, name)
  }

  lemma SampleStandsUnder(ops: seq<Op>, i: nat, name: string)
    requires Keyed(ops) && '{' !in name && i < |RenderAfter(ops)|
    requires RenderAfter(ops)[i].SampleLine? && KeyOf(RenderAfter(ops)[i].key, name)
    ensures StandsUnder(RenderAfter(ops), i, name)
  {
    var lines := RenderAfter(ops);
    KeyedIsWellKeyed(ops);
    HelpNames(ops);
    KeysStayDistinct(ops);
    RenderIsGrouped(HelpAfter([], ops), ApplyAll([], ops), i);
    KeyOfIff(lines[i].key, name);
    InFamilyIff(lines[i].key, name);
    var g: nat, text: string :| GroupStartsAt(lines, g, i, name, text);
    forall j | g + 2 <= j <= i ensures lines[j].SampleLine? && KeyOf(lines[j].key, name) {
      KeyOfIff(lines[j].key, name);
      InFamilyIff(lines[j].key, name);
    }
    assert UnderHeader(lines, g, i, name, text);
  }
}
