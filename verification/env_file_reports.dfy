/** What the setup wizard writes and what is read back, line by line
    (scripts/setup_wizard.py, and the `env_get` of scripts/plex-health-monitor.py). */
module EnvReports {
  import opened Text
  import opened EnvFile

  // ------------------------------------------------------ lines, spelled out

  /** The line, without the blanks around it, reads KEY=default with an upper-case key. */
  ghost predicate Spells(line: string, key: string, default: string) {
    && Strip(line) == key + "=" + default
    && key != "" && 'A' <= key[0] <= 'Z'
    && forall c | c in key :: 'A' <= c <= 'Z' || '0' <= c <= '9' || c == '_'
  }

  /** `s` cut at its first equals sign. */
  predicate Cuts(s: string, a: string, b: string) {
    s == a + "=" + b && '=' !in a
  }

  /** The line is no comment and reads, up to blanks, k=v. */
  ghost predicate Assigns(line: string, k: string, v: string) {
    exists a, b :: Cuts(Strip(line), a, b) && !StartsWith(a, "#") && Strip(a) == k && Strip(b) == v
  }

  lemma SplitsOnce(s: string, a: string, b: string)
    requires Cuts(s, a, b)
    ensures IndexOf(s, '=') == |a| && s[..|a|] == a && s[|a| + 1..] == b
  {
    assert s == a + ['='] + b;
    IndexOfAppend(a, '=', b);
  }

  lemma SplitsAtFirst(s: string)
    requires IndexOf(s, '=') < |s|
    ensures Cuts(s, s[..IndexOf(s, '=')], s[IndexOf(s, '=') + 1..])
  {
    IndexOfIsFirst(s, '=');
    CutAt(s, IndexOf(s, '='));
  }

  lemma CutAt(s: string, i: nat)
    requires i < |s| && s[i] == '='
    ensures s == s[..i] + "=" + s[i + 1..]
  {
  }

  lemma FieldIff(line: string, key: string, default: string)
    ensures FieldOf(Strip(line)) == Some(Field(key, default)) <==> Spells(line, key, default)
  {
    var s := Strip(line);
    if Spells(line, key, default) {
      SplitsOnce(s, key, default);
      assert forall i | 0 <= i < |key| :: key[i] in key;
    }
    if FieldOf(s) == Some(Field(key, default)) {
      SplitsAtFirst(s);
    }
  }

  lemma AssignsIff(line: string, k: string, v: string)
    ensures AssignmentOf(line) == Some(Assignment(k, v)) <==> Assigns(line, k, v)
  {
    var s := Strip(line);
    if a, b :| Cuts(s, a, b) && !StartsWith(a, "#") && Strip(a) == k && Strip(b) == v {
      SplitsOnce(s, a, b);
      HashFirst(s, a, b);
    }
    if AssignmentOf(line) == Some(Assignment(k, v)) {
      SplitsAtFirst(s);
      var a, b := s[..IndexOf(s, '=')], s[IndexOf(s, '=') + 1..];
      HashFirst(s, a, b);
    }
  }

  lemma HashFirst(s: string, a: string, b: string)
    requires s == a + "=" + b
    ensures s != "" && (s[0] == '#' <==> StartsWith(a, "#"))
  {
    if a != "" {
      assert a[..1] == [a[0]] && s[0] == a[0];
    }
  }

  /** The value for a field, in the order of preference of the wizard. */
  ghost predicate Takes(key: string, default: string, submitted: map<string, string>, existing: map<string, string>,
                        v: string) {
    var blank := key !in submitted || Strip(submitted[key]) == "";
    && (!blank ==> v == Strip(submitted[key]))
    && (blank && key in existing ==> v == existing[key])
    && (blank && key !in existing ==> v == default)
  }

  lemma TakesChosen(f: Field, submitted: map<string, string>, existing: map<string, string>, v: string)
    ensures Takes(f.key, f.default, submitted, existing, v) <==> v == Chosen(f, submitted, existing)
  {
  }

  /** No key is assigned by two lines. */
  ghost predicate KeysOnce(lines: seq<string>) {
    forall i, j, k, v, w | 0 <= i < j < |lines| :: !(Assigns(lines[i], k, v) && Assigns(lines[j], k, w))
  }

  /** No value to be written has a line break. */
  ghost predicate OneLineValues(lines: seq<string>, submitted: map<string, string>, existing: map<string, string>) {
    forall line, key, default, v |
      line in lines && Spells(line, key, default) && Takes(key, default, submitted, existing, v) :: NoNewline(v)
  }

  lemma HypothesesFit(example: string, submitted: map<string, string>, existing: map<string, string>)
    requires KeysOnce(SplitLines(example)) && OneLineValues(SplitLines(example), submitted, existing)
    ensures WellFormed(example) && ValuesFit(SplitLines(example), submitted, existing)
  {
    var lines := SplitLines(example);
    var all := Assignments(lines);
    forall i, j | 0 <= i < j < |all| && all[i].Some? && all[j].Some? ensures all[i].value.key != all[j].value.key {
      AssignsIff(lines[i], all[i].value.key, all[i].value.value);
      AssignsIff(lines[j], all[j].value.key, all[j].value.value);
    }
    forall i: nat, f: Field | IsField(lines, i, f) ensures NoNewline(Chosen(f, submitted, existing)) {
      FieldIff(lines[i], f.key, f.default);
      TakesChosen(f, submitted, existing, Chosen(f, submitted, existing));
      assert lines[i] in lines;
    }
  }

  // ------------------------------------------------------ what is written

  /** Every line `KEY=default` of the example becomes `KEY=` and the value taken; every
      other line is kept as it is. */
  lemma LinesWritten(example: string, submitted: map<string, string>, existing: map<string, string>, i: nat)
    requires OneLineValues(SplitLines(example), submitted, existing) && KeysOnce(SplitLines(example))
    requires i < |SplitLines(example)|
    ensures var before, after := SplitLines(example), SplitLines(Render(example, submitted, existing));
            && |after| == |before|
            && (forall key, default, v |
                  Spells(before[i], key, default) && Takes(key, default, submitted, existing, v) ::
                  after[i] == key + "=" + v)
            && ((forall key, default :: !Spells(before[i], key, default)) ==> after[i] == before[i])
  {
    var lines := SplitLines(example);
    HypothesesFit(example, submitted, existing);
    RenderSplits(example, submitted, existing);
    forall key, default, v | Spells(lines[i], key, default) && Takes(key, default, submitted, existing, v)
      ensures RenderLine(lines[i], submitted, existing) == key + "=" + v
    {
      FieldIff(lines[i], key, default);
      TakesChosen(Field(key, default), submitted, existing, v);
    }
    var m := FieldOf(Strip(lines[i]));
    if m.Some? {
      FieldIff(lines[i], m.value.key, m.value.default);
    }
  }

  /** What a written file reads back as, for every line `KEY=default` of the example: a
      submission that is not blank, trimmed, whatever was there before; else the existing
      value, trimmed; else the default, trimmed. */
  lemma ValuesReadBack(example: string, submitted: map<string, string>, existing: map<string, string>, i: nat,
                       key: string, default: string)
    requires KeysOnce(SplitLines(example)) && OneLineValues(SplitLines(example), submitted, existing)
    requires i < |SplitLines(example)| && Spells(SplitLines(example)[i], key, default)
    ensures var values := Parse(Render(example, submitted, existing));
            var blank := key !in submitted || Strip(submitted[key]) == "";
            && key in values
            && (!blank ==> values[key] == Strip(submitted[key]))
            && (blank && key in existing ==> values[key] == Strip(existing[key]))
            && (blank && key !in existing ==> values[key] == Strip(default))
  {
    HypothesesFit(example, submitted, existing);
    FieldIff(SplitLines(example)[i], key, default);
    var f := Field(key, default);
    assert IsField(SplitLines(example), i, f);
    RoundTrip(example, submitted, existing);
    StripTwice(if key in submitted then submitted[key] else "");
  }

  lemma StripTwice(s: string)
    ensures Strip(Strip(s)) == Strip(s)
  {
    StripFixesTrimmed(s);
    StripFixesTrimmed(Strip(s));
  }

  // ------------------------------------------------------ what the readers take

  /** Line `i` is the last one that assigns `k`, and assigns `v`. */
  ghost predicate LastAssigns(lines: seq<string>, i: nat, k: string, v: string) {
    i < |lines| && Assigns(lines[i], k, v) && forall j, w | i < j < |lines| :: !Assigns(lines[j], k, w)
  }

  /** The value that the last line assigning `k` gives it. */
  ghost predicate LastValue(lines: seq<string>, k: string, v: string) {
    exists i: nat :: LastAssigns(lines, i, k, v)
  }

  lemma {:induction false} CollectedIff(lines: seq<string>, k: string, v: string)
    ensures var values := Collect(Assignments(lines));
            (k in values && values[k] == v) <==> LastValue(lines, k, v)
  {
    if lines == [] {
      assert Assignments(lines) == [];
    } else {
      var init, n := lines[..|lines| - 1], |lines| - 1;
      CollectNext(lines, n);
      assert Assignments(lines)[..n + 1] == Assignments(lines) && Assignments(lines)[..n] == Assignments(init);
      CollectedIff(init, k, v);
      LastAssignsIff(lines, k, v);
    }
  }

  /** The last line decides, unless it does not assign the key. */
  lemma LastAssignsIff(lines: seq<string>, k: string, v: string)
    requires lines != []
    ensures var init, a := lines[..|lines| - 1], AssignmentOf(lines[|lines| - 1]);
            LastValue(lines, k, v)
            <==> if a.Some? && a.value.key == k then a.value.value == v else LastValue(init, k, v)
  {
    var init, n := lines[..|lines| - 1], |lines| - 1;
    var a, last := AssignmentOf(lines[n]), lines[n];
    forall u ensures Assigns(lines[n], k, u) <==> a == Some(Assignment(k, u)) {
      AssignsIff(lines[n], k, u);
    }
    forall i: nat | i < n
      ensures LastAssigns(lines, i, k, v) <==> LastAssigns(init, i, k, v) && forall w :: !Assigns(last, k, w)
    {
      LastOneLonger(lines, i, k, v);
    }
    if a.Some? && a.value.key == k {
      assert Assigns(lines[n], k, a.value.value);
      if i: nat :| LastAssigns(lines, i, k, v) {
        assert i == n;
      }
      assert a.value.value == v ==> LastAssigns(lines, n, k, v);
    } else {
      if i: nat :| LastAssigns(lines, i, k, v) {
        assert i < n;
      }
      if i: nat :| LastAssigns(init, i, k, v) {
        assert LastAssigns(lines, i, k, v);
      }
    }
  }

  lemma LastOneLonger(lines: seq<string>, i: nat, k: string, u: string)
    requires i < |lines| - 1
    ensures var init, last := lines[..|lines| - 1], lines[|lines| - 1];
            LastAssigns(lines, i, k, u) <==> LastAssigns(init, i, k, u) && forall w :: !Assigns(last, k, w)
  {
    var init := lines[..|lines| - 1];
    forall j | 0 <= j < |init| ensures init[j] == lines[j] {
    }
  }

  /** The parser: a key has the value that the last line assigning it gives it. */
  lemma ParsedIff(text: string, k: string, v: string)
    ensures (k in Parse(text) && Parse(text)[k] == v) <==> LastValue(SplitLines(text), k, v)
  {
    CollectedIff(SplitLines(text), k, v);
  }

  /** Line `i` is the first one that starts with `key=`; after its first equals sign it
      reads, up to blanks, `v`. */
  ghost predicate FirstStarts(lines: seq<string>, i: nat, key: string, v: string) {
    && i < |lines| && StartsWith(lines[i], key + "=") && (forall j | 0 <= j < i :: !StartsWith(lines[j], key + "="))
    && exists a, b :: Cuts(lines[i], a, b) && v == Strip(b)
  }

  lemma StartIff(line: string, key: string, v: string)
    ensures ValueAfterKey(line, key) == Some(v)
       <==> StartsWith(line, key + "=") && exists a, b :: Cuts(line, a, b) && v == Strip(b)
    ensures ValueAfterKey(line, key).Some? <==> StartsWith(line, key + "=")
  {
    if StartsWith(line, key + "=") {
      PrefixHasEquals(line, key);
      SplitsAtFirst(line);
    }
    if a, b :| Cuts(line, a, b) && v == Strip(b) {
      SplitsOnce(line, a, b);
    }
  }

  ghost predicate IsFirst(lines: seq<string>, key: string, v: string) {
    exists i :: FirstStarts(lines, i, key, v)
  }

  /** The first-match reader. */
  lemma {:induction false} FirstMatchIff(lines: seq<string>, key: string, v: string)
    ensures FirstMatch(lines, key) == Some(v) <==> IsFirst(lines, key, v)
  {
    if lines != [] {
      StartIff(lines[0], key, v);
      FirstMatchIff(lines[1..], key, v);
      if StartsWith(lines[0], key + "=") {
        assert ValueAfterKey(lines[0], key) == Some(v) ==> FirstStarts(lines, 0, key, v);
      } else {
        LaterIsFirst(lines, key, v);
      }
    }
  }

  lemma LaterIsFirst(lines: seq<string>, key: string, v: string)
    requires lines != [] && !StartsWith(lines[0], key + "=")
    ensures IsFirst(lines, key, v) <==> IsFirst(lines[1..], key, v)
  {
    if i: nat :| FirstStarts(lines, i, key, v) {
      FirstOneLonger(lines, i - 1, key, v);
    }
    if i: nat :| FirstStarts(lines[1..], i, key, v) {
      FirstOneLonger(lines, i, key, v);
    }
  }

  lemma FirstOneLonger(lines: seq<string>, i: nat, key: string, v: string)
    requires i + 1 < |lines| && !StartsWith(lines[0], key + "=")
    ensures FirstStarts(lines, i + 1, key, v) <==> FirstStarts(lines[1..], i, key, v)
  {
    var rest := lines[1..];
    if FirstStarts(lines, i + 1, key, v) {
      forall j | 0 <= j < i ensures !StartsWith(rest[j], key + "=") {
        assert lines[j + 1] == rest[j];
      }
    }
    if FirstStarts(rest, i, key, v) {
      forall j | 0 <= j < i + 1 ensures !StartsWith(lines[j], key + "=") {
        assert j > 0 ==> lines[j] == rest[j - 1];
      }
    }
  }
}
