/** The setup wizard's .env printer and its readers (scripts/setup_wizard.py,
    and the `env_get` of scripts/plex-health-monitor.py). */
module EnvFile {
  import opened Text

  // ---------------------------------------------------------- one line

  predicate IsFieldKey(k: string) {
    && k != ""
    && 'A' <= k[0] <= 'Z'
    && forall i | 0 <= i < |k| :: 'A' <= k[i] <= 'Z' || '0' <= k[i] <= '9' || k[i] == '_'
  }

  datatype Field = Field(key: string, default: string)

  /** FIELD_RE on a stripped line. */
  function FieldOf(line: string): Option<Field> {
    var i := IndexOf(line, '=');
    if i < |line| && IsFieldKey(line[..i]) then Some(Field(line[..i], line[i + 1..])) else None
  }

  datatype Assignment = Assignment(key: string, value: string)

  /** What `parse_env_values` makes of a raw line. */
  function AssignmentOf(rawLine: string): Option<Assignment> {
    var line := Strip(rawLine);
    var i := IndexOf(line, '=');
    if line == "" || line[0] == '#' || i == |line| then None
    else Some(Assignment(Strip(line[..i]), Strip(line[i + 1..])))
  }

  /** The value written for a field: the trimmed submission, else the existing
      value, else the default of the example. */
  function Chosen(f: Field, submitted: map<string, string>, existing: map<string, string>): string {
    var newVal := if f.key in submitted then Strip(submitted[f.key]) else "";
    if newVal != "" then newVal
    else if f.key in existing then existing[f.key]
    else f.default
  }

  function RenderLine(rawLine: string, submitted: map<string, string>, existing: map<string, string>): string {
    match FieldOf(Strip(rawLine))
    case Some(f) => f.key + "=" + Chosen(f, submitted, existing)
    case None => rawLine
  }

  // ---------------------------------------------------------- whole files

  function Assignments(lines: seq<string>): seq<Option<Assignment>> {
    seq(|lines|, i requires 0 <= i < |lines| => AssignmentOf(lines[i]))
  }

  function RenderLines(lines: seq<string>, submitted: map<string, string>, existing: map<string, string>)
    : seq<string>
  {
    seq(|lines|, i requires 0 <= i < |lines| => RenderLine(lines[i], submitted, existing))
  }

  function Render(example: string, submitted: map<string, string>, existing: map<string, string>): string {
    Unlines(RenderLines(SplitLines(example), submitted, existing))
  }

  /** Later assignments overwrite earlier ones. */
  function Collect(assignments: seq<Option<Assignment>>): map<string, string> {
    if assignments == [] then map[]
    else
      var values := Collect(assignments[..|assignments| - 1]);
      match assignments[|assignments| - 1]
      case Some(a) => values[a.key := a.value]
      case None => values
  }

  function Parse(text: string): map<string, string> {
    Collect(Assignments(SplitLines(text)))
  }

  /** `line.split("=", 1)[1].strip()` of a line that starts with `key=`. */
  function ValueAfterKey(line: string, key: string): Option<string> {
    var i := IndexOf(line, '=');
    if StartsWith(line, key + "=") && i < |line| then Some(Strip(line[i + 1..])) else None
  }

  /** The first line that starts with `key=` decides. */
  function FirstMatch(lines: seq<string>, key: string): Option<string> {
    if lines == [] then None
    else if ValueAfterKey(lines[0], key).Some? then ValueAfterKey(lines[0], key)
    else FirstMatch(lines[1..], key)
  }

  // ------------------------------------------------------ the source's loops

  method RenderEnvFile(example: string, submitted: map<string, string>, existing: map<string, string>)
    returns (content: string)
    ensures content == Render(example, submitted, existing)
  {
    var lines := SplitLines(example);
    var outLines: seq<string> := [];
    for i := 0 to |lines|
      invariant |outLines| == i
      invariant forall k | 0 <= k < i :: outLines[k] == RenderLine(lines[k], submitted, existing)
    {
      var m := FieldOf(Strip(lines[i]));
      if m.Some? {
        var key := m.value.key;
        var newVal := if key in submitted then Strip(submitted[key]) else "";
        if newVal == "" {
          newVal := if key in existing then existing[key] else m.value.default;
        }
        outLines := outLines + [key + "=" + newVal];
      } else {
        outLines := outLines + [lines[i]];
      }
    }
    assert outLines == RenderLines(lines, submitted, existing);
    content := Unlines(outLines);
  }

  method ParseEnvValues(text: string) returns (values: map<string, string>)
    ensures values == Parse(text)
  {
    var lines := SplitLines(text);
    values := map[];
    for i := 0 to |lines|
      invariant values == Collect(Assignments(lines)[..i])
    {
      CollectNext(lines, i);
      var line := Strip(lines[i]);
      var eq := IndexOf(line, '=');
      if line == "" || line[0] == '#' || eq == |line| {
        continue;
      }
      values := values[Strip(line[..eq]) := Strip(line[eq + 1..])];
    }
    assert Assignments(lines)[..|lines|] == Assignments(lines);
  }

  lemma CollectNext(lines: seq<string>, i: nat)
    requires i < |lines|
    ensures var before, a := Collect(Assignments(lines)[..i]), AssignmentOf(lines[i]);
            Collect(Assignments(lines)[..i + 1]) == if a.Some? then before[a.value.key := a.value.value] else before
  {
    var all := Assignments(lines);
    assert all[..i + 1][..i] == all[..i] && all[i] == AssignmentOf(lines[i]);
  }

  method EnvGet(text: string, key: string) returns (value: Option<string>)
    ensures value == FirstMatch(SplitLines(text), key)
  {
    var lines := SplitLines(text);
    for i := 0 to |lines|
      invariant FirstMatch(lines, key) == FirstMatch(lines[i..], key)
    {
      var rest := lines[i..];
      assert rest[0] == lines[i] && rest[1..] == lines[i + 1..];
      if StartsWith(lines[i], key + "=") {
        PrefixHasEquals(lines[i], key);
        return Some(Strip(lines[i][IndexOf(lines[i], '=') + 1..]));
      }
    }
    value := None;
  }

  lemma PrefixHasEquals(line: string, key: string)
    requires StartsWith(line, key + "=")
    ensures IndexOf(line, '=') < |line|
  {
    assert line[|key|] == (key + "=")[|key|] == '=';
    IndexOfIsFirst(line, '=');
  }

  // ------------------------------------------------------ one line back

  lemma KeyIsPlain(key: string)
    requires IsFieldKey(key)
    ensures '=' !in key && NoNewline(key) && Trimmed(key)
  {
  }

  lemma SplitAtEquals(key: string, value: string)
    requires IsFieldKey(key)
    ensures var line := key + "=" + value;
            IndexOf(line, '=') == |key| && line[..|key|] == key && line[|key| + 1..] == value
  {
    KeyIsPlain(key);
    IndexOfAppend(key, '=', value);
    assert key + "=" + value == key + ['='] + value;
  }

  /** Stripping `KEY=value` leaves the key alone and trims the value's right end. */
  lemma StripAssignment(key: string, value: string) returns (kept: string)
    requires IsFieldKey(key)
    ensures Strip(key + "=" + value) == key + "=" + kept
    ensures Strip(kept) == Strip(value)
  {
    var a, b := StripSplits(value);
    var t := Strip(value);
    kept := if t == "" then "" else a + t;
    var blank := if t == "" then "" else a;
    var cut := if t == "" then a + b else b;
    assert value == kept + cut && kept == blank + t + "";
    StripBlanks(blank, t, "");
    var line := key + "=" + kept;
    assert Trimmed(line);
    assert key + "=" + value == "" + line + cut;
    StripBlanks("", line, cut);
  }

  /** A line `KEY=value` reads back as that key with the trimmed value. */
  lemma AssignmentReadsBack(key: string, value: string)
    requires IsFieldKey(key)
    ensures AssignmentOf(key + "=" + value) == Some(Assignment(key, Strip(value)))
  {
    var kept := StripAssignment(key, value);
    SplitAtEquals(key, kept);
    KeyIsPlain(key);
    StripFixesTrimmed(key);
  }

  lemma FieldSplits(line: string)
    requires FieldOf(line).Some?
    ensures IsFieldKey(FieldOf(line).value.key)
    ensures line == FieldOf(line).value.key + "=" + FieldOf(line).value.default
  {
    IndexOfIsFirst(line, '=');
  }

  lemma AssignmentOfStripped(rawLine: string)
    ensures AssignmentOf(rawLine) == AssignmentOf(Strip(rawLine))
  {
    StripFixesTrimmed(rawLine);
    StripFixesTrimmed(Strip(rawLine));
  }

  /** A field line assigns its key, before and after rendering. */
  lemma FieldLineAssigns(rawLine: string, submitted: map<string, string>, existing: map<string, string>)
    requires FieldOf(Strip(rawLine)).Some?
    ensures var f := FieldOf(Strip(rawLine)).value;
            && AssignmentOf(rawLine) == Some(Assignment(f.key, Strip(f.default)))
            && AssignmentOf(RenderLine(rawLine, submitted, existing))
               == Some(Assignment(f.key, Strip(Chosen(f, submitted, existing))))
  {
    FieldSplits(Strip(rawLine));
    var f := FieldOf(Strip(rawLine)).value;
    AssignmentOfStripped(rawLine);
    AssignmentReadsBack(f.key, f.default);
    AssignmentReadsBack(f.key, Chosen(f, submitted, existing));
  }

  // ------------------------------------------------------ whole files back

  function KeyOf(a: Option<Assignment>): Option<string> {
    if a.Some? then Some(a.value.key) else None
  }

  /** No two lines assign the same key. Comments, blanks and distinct KEY= lines qualify. */
  ghost predicate DistinctKeys(assignments: seq<Option<Assignment>>) {
    forall i, j | 0 <= i < j < |assignments| && assignments[i].Some? && assignments[j].Some? ::
      assignments[i].value.key != assignments[j].value.key
  }

  /** With distinct keys every assignment is found in the collected map. */
  lemma {:induction false} CollectLists(assignments: seq<Option<Assignment>>, i: nat)
    requires DistinctKeys(assignments) && i < |assignments| && assignments[i].Some?
    ensures var a := assignments[i].value;
            a.key in Collect(assignments) && Collect(assignments)[a.key] == a.value
  {
    if i < |assignments| - 1 {
      CollectLists(assignments[..|assignments| - 1], i);
    }
  }

  lemma {:induction false} KeysOfCollect(assignments: seq<Option<Assignment>>)
    ensures forall k :: k in Collect(assignments)
                        <==> exists i :: 0 <= i < |assignments| && KeyOf(assignments[i]) == Some(k)
  {
    if assignments != [] {
      var init := assignments[..|assignments| - 1];
      KeysOfCollect(init);
      forall k | k in Collect(assignments)
        ensures exists i :: 0 <= i < |assignments| && KeyOf(assignments[i]) == Some(k)
      {
        if k in Collect(init) {
          var i :| 0 <= i < |init| && KeyOf(init[i]) == Some(k);
          assert KeyOf(assignments[i]) == Some(k);
        } else {
          assert KeyOf(assignments[|assignments| - 1]) == Some(k);
        }
      }
    }
  }

  /** The lines of the example that are fields. */
  ghost predicate IsField(lines: seq<string>, i: nat, f: Field) {
    i < |lines| && FieldOf(Strip(lines[i])) == Some(f)
  }

  /** No value to be written contains a line break. */
  ghost predicate ValuesFit(lines: seq<string>, submitted: map<string, string>, existing: map<string, string>) {
    forall i: nat, f: Field | IsField(lines, i, f) :: NoNewline(Chosen(f, submitted, existing))
  }

  ghost predicate WellFormed(example: string) {
    DistinctKeys(Assignments(SplitLines(example)))
  }

  /** Rendering keeps every line's key, and gives fields their chosen values. */
  lemma RenderedAssignments(lines: seq<string>, submitted: map<string, string>, existing: map<string, string>)
    ensures var before, after := Assignments(lines), Assignments(RenderLines(lines, submitted, existing));
            && |before| == |after| == |lines|
            && (forall i | 0 <= i < |lines| :: KeyOf(before[i]) == KeyOf(after[i]))
            && (forall i: nat, f: Field | IsField(lines, i, f) ::
                  after[i] == Some(Assignment(f.key, Strip(Chosen(f, submitted, existing)))))
  {
    forall i | 0 <= i < |lines| && FieldOf(Strip(lines[i])).Some?
      ensures var f := FieldOf(Strip(lines[i])).value;
              && AssignmentOf(lines[i]) == Some(Assignment(f.key, Strip(f.default)))
              && AssignmentOf(RenderLine(lines[i], submitted, existing))
                 == Some(Assignment(f.key, Strip(Chosen(f, submitted, existing))))
    {
      FieldLineAssigns(lines[i], submitted, existing);
    }
  }

  /** A file whose values have no line breaks splits back into its lines. */
  lemma RenderSplits(example: string, submitted: map<string, string>, existing: map<string, string>)
    requires SplitLines(example) != [] && ValuesFit(SplitLines(example), submitted, existing)
    ensures SplitLines(Render(example, submitted, existing))
            == RenderLines(SplitLines(example), submitted, existing)
  {
    var lines := SplitLines(example);
    SplitLinesAreLines(example);
    forall i | 0 <= i < |lines| ensures NoNewline(RenderLine(lines[i], submitted, existing)) {
      assert lines[i] in lines;
      var m := FieldOf(Strip(lines[i]));
      if m.Some? {
        assert IsField(lines, i, m.value);
        FieldSplits(Strip(lines[i]));
        KeyIsPlain(m.value.key);
      }
    }
    SplitUnlines(RenderLines(lines, submitted, existing));
  }

  lemma SameKeysStayDistinct(before: seq<Option<Assignment>>, after: seq<Option<Assignment>>)
    requires |before| == |after| && forall i | 0 <= i < |before| :: KeyOf(before[i]) == KeyOf(after[i])
    requires DistinctKeys(before)
    ensures DistinctKeys(after)
    ensures forall k :: k in Collect(before) <==> k in Collect(after)
  {
    forall i, j | 0 <= i < j < |after| && after[i].Some? && after[j].Some?
      ensures after[i].value.key != after[j].value.key
    {
      assert KeyOf(before[i]) == KeyOf(after[i]) && KeyOf(before[j]) == KeyOf(after[j]);
    }
    KeysOfCollect(before);
    KeysOfCollect(after);
    forall k ensures k in Collect(before) <==> k in Collect(after) {
      if k in Collect(before) {
        var i :| 0 <= i < |before| && KeyOf(before[i]) == Some(k);
        assert KeyOf(after[i]) == Some(k);
      }
      if k in Collect(after) {
        var i :| 0 <= i < |after| && KeyOf(after[i]) == Some(k);
        assert KeyOf(before[i]) == Some(k);
      }
    }
  }

  /** The round trip: the written file reads back with each field's trimmed chosen
      value, and assigns exactly the keys that the example assigns. */
  lemma RoundTrip(example: string, submitted: map<string, string>, existing: map<string, string>)
    requires WellFormed(example) && ValuesFit(SplitLines(example), submitted, existing)
    ensures var lines, values := SplitLines(example), Parse(Render(example, submitted, existing));
            && (forall i: nat, f: Field | IsField(lines, i, f) ::
                  f.key in values && values[f.key] == Strip(Chosen(f, submitted, existing)))
            && (forall k :: k in values <==> k in Parse(example))
  {
    var lines := SplitLines(example);
    if lines == [] {
      EmptyFile(example, submitted, existing);
      return;
    }
    RenderSplits(example, submitted, existing);
    RenderedAssignments(lines, submitted, existing);
    var before, after := Assignments(lines), Assignments(RenderLines(lines, submitted, existing));
    SameKeysStayDistinct(before, after);
    forall i: nat, f: Field | IsField(lines, i, f)
      ensures f.key in Collect(after) && Collect(after)[f.key] == Strip(Chosen(f, submitted, existing))
    {
      CollectLists(after, i);
    }
  }

  lemma EmptyFile(example: string, submitted: map<string, string>, existing: map<string, string>)
    requires SplitLines(example) == []
    ensures Parse(Render(example, submitted, existing)) == map[] == Parse(example)
  {
    var content := Render(example, submitted, existing);
    assert RenderLines([], submitted, existing) == [];
    assert content == "" + "\n" + "";
    SplitFirst("", "");
    assert SplitLines(content) == [""];
    var read := Assignments([""]);
    assert read == [None] && read[..0] == [];
    assert Assignments([]) == [];
  }

  lemma {:induction false} CollectedValues(assignments: seq<Option<Assignment>>)
    requires forall a | Some(a) in assignments :: NoNewline(a.value)
    ensures forall k | k in Collect(assignments) :: NoNewline(Collect(assignments)[k])
  {
    if assignments != [] {
      CollectedValues(assignments[..|assignments| - 1]);
      assert assignments[|assignments| - 1] in assignments;
    }
  }

  lemma AssignedValueIsOneLine(rawLine: string)
    requires NoNewline(rawLine) && AssignmentOf(rawLine).Some?
    ensures NoNewline(AssignmentOf(rawLine).value.value)
  {
    var line := Strip(rawLine);
    StripKeepsChars(rawLine, '\n');
    StripKeepsChars(line[IndexOf(line, '=') + 1..], '\n');
  }

  lemma ParsedValuesAreOneLine(text: string)
    ensures forall k | k in Parse(text) :: NoNewline(Parse(text)[k])
  {
    var lines := SplitLines(text);
    SplitLinesAreLines(text);
    forall i | 0 <= i < |lines| && AssignmentOf(lines[i]).Some?
      ensures NoNewline(AssignmentOf(lines[i]).value.value)
    {
      assert lines[i] in lines;
      AssignedValueIsOneLine(lines[i]);
    }
    CollectedValues(Assignments(lines));
  }

  /** A submission is trimmed and a default is part of a line, so only an existing value
      could be neither. */
  lemma ChosenIsTidy(example: string, submitted: map<string, string>, existing: map<string, string>, i: nat, f: Field)
    requires IsField(SplitLines(example), i, f)
    requires f.key in existing ==> Trimmed(existing[f.key]) || NoNewline(existing[f.key])
    ensures var v := Chosen(f, submitted, existing); Trimmed(v) || NoNewline(v)
  {
    var line := SplitLines(example)[i];
    SplitLinesAreLines(example);
    assert line in SplitLines(example);
    StripKeepsChars(line, '\n');
    assert NoNewline(f.default);
    if f.key in submitted {
      StripFixesTrimmed(submitted[f.key]);
    }
  }

  /** Every field reads back as its trimmed value exactly when no value contains a line
      break. Existing values are trimmed or of one line, as the parser leaves them. */
  lemma ReadsBackIff(example: string, submitted: map<string, string>, existing: map<string, string>)
    requires WellFormed(example)
    requires forall k | k in existing :: Trimmed(existing[k]) || NoNewline(existing[k])
    ensures var values := Parse(Render(example, submitted, existing));
            (forall i: nat, f: Field | IsField(SplitLines(example), i, f) ::
               f.key in values && values[f.key] == Strip(Chosen(f, submitted, existing)))
            <==> ValuesFit(SplitLines(example), submitted, existing)
  {
    ParsedValuesAreOneLine(Render(example, submitted, existing));
    if ValuesFit(SplitLines(example), submitted, existing) {
      RoundTrip(example, submitted, existing);
    }
    forall i: nat, f: Field | IsField(SplitLines(example), i, f)
      ensures var v := Chosen(f, submitted, existing); NoNewline(v) || Strip(v) == v
    {
      ChosenIsTidy(example, submitted, existing, i, f);
      StripFixesTrimmed(Chosen(f, submitted, existing));
    }
  }

  /** One line under a second rendering that only knows the values read back. */
  lemma RerenderLine(rawLine: string, submitted: map<string, string>, existing: map<string, string>,
                     values: map<string, string>)
    requires FieldOf(Strip(rawLine)).Some?
    requires var f := FieldOf(Strip(rawLine)).value;
             f.key in values && values[f.key] == Strip(Chosen(f, submitted, existing))
    ensures var v := Chosen(FieldOf(Strip(rawLine)).value, submitted, existing);
            RenderLine(rawLine, map[], values) == RenderLine(rawLine, submitted, existing) <==> Trimmed(v)
  {
    var f := FieldOf(Strip(rawLine)).value;
    var v := Chosen(f, submitted, existing);
    FieldSplits(Strip(rawLine));
    StripFixesTrimmed(v);
    SplitAtEquals(f.key, v);
    SplitAtEquals(f.key, Strip(v));
  }

  /** Rendering again with nothing submitted reproduces the file exactly when every
      written value is trimmed; a default with leading blanks is what breaks it. */
  lemma RerenderIff(example: string, submitted: map<string, string>, existing: map<string, string>)
    requires WellFormed(example) && ValuesFit(SplitLines(example), submitted, existing)
    ensures var content := Render(example, submitted, existing);
            Render(example, map[], Parse(content)) == content
            <==> forall i: nat, f: Field | IsField(SplitLines(example), i, f) :: Trimmed(Chosen(f, submitted, existing))
  {
    RoundTrip(example, submitted, existing);
    RerenderWith(example, submitted, existing, Parse(Render(example, submitted, existing)));
  }

  lemma RerenderWith(example: string, submitted: map<string, string>, existing: map<string, string>,
                     values: map<string, string>)
    requires WellFormed(example) && ValuesFit(SplitLines(example), submitted, existing)
    requires forall i: nat, f: Field | IsField(SplitLines(example), i, f) ::
               f.key in values && values[f.key] == Strip(Chosen(f, submitted, existing))
    ensures Render(example, map[], values) == Render(example, submitted, existing)
            <==> forall i: nat, f: Field | IsField(SplitLines(example), i, f) :: Trimmed(Chosen(f, submitted, existing))
  {
    var lines := SplitLines(example);
    SecondRenderingFits(lines, submitted, existing, values);
    SameLinesIff(lines, submitted, existing, values);
    SameFileIff(example, submitted, existing, map[], values);
  }

  lemma SecondRenderingFits(lines: seq<string>, submitted: map<string, string>, existing: map<string, string>,
                            values: map<string, string>)
    requires ValuesFit(lines, submitted, existing)
    requires forall i: nat, f: Field | IsField(lines, i, f) ::
               f.key in values && values[f.key] == Strip(Chosen(f, submitted, existing))
    ensures ValuesFit(lines, map[], values)
  {
    forall i: nat, f: Field | IsField(lines, i, f) ensures NoNewline(Chosen(f, map[], values)) {
      StripKeepsChars(Chosen(f, submitted, existing), '\n');
    }
  }

  lemma SameFileIff(example: string, submitted: map<string, string>, existing: map<string, string>,
                    submitted': map<string, string>, existing': map<string, string>)
    requires WellFormed(example)
    requires ValuesFit(SplitLines(example), submitted, existing)
    requires ValuesFit(SplitLines(example), submitted', existing')
    ensures Render(example, submitted, existing) == Render(example, submitted', existing')
            <==> RenderLines(SplitLines(example), submitted, existing)
                 == RenderLines(SplitLines(example), submitted', existing')
  {
    if SplitLines(example) != [] {
      RenderSplits(example, submitted, existing);
      RenderSplits(example, submitted', existing');
    }
  }

  lemma SameLinesIff(lines: seq<string>, submitted: map<string, string>, existing: map<string, string>,
                     values: map<string, string>)
    requires forall i: nat, f: Field | IsField(lines, i, f) ::
               f.key in values && values[f.key] == Strip(Chosen(f, submitted, existing))
    ensures RenderLines(lines, map[], values) == RenderLines(lines, submitted, existing)
            <==> forall i: nat, f: Field | IsField(lines, i, f) :: Trimmed(Chosen(f, submitted, existing))
  {
    var first, second := RenderLines(lines, submitted, existing), RenderLines(lines, map[], values);
    forall i: nat, f: Field | IsField(lines, i, f)
      ensures first[i] == second[i] <==> Trimmed(Chosen(f, submitted, existing))
    {
      RerenderLine(lines[i], submitted, existing, values);
    }
    forall i: nat | i < |lines| && FieldOf(Strip(lines[i])).None? ensures first[i] == second[i] {
    }
    if forall i: nat, f: Field | IsField(lines, i, f) :: Trimmed(Chosen(f, submitted, existing)) {
      forall i: nat | i < |lines| ensures first[i] == second[i] {
        if FieldOf(Strip(lines[i])).Some? {
          assert IsField(lines, i, FieldOf(Strip(lines[i])).value);
        }
      }
    }
  }

  lemma {:induction false} FirstMatchSkips(lines: seq<string>, i: nat, key: string)
    requires i < |lines| && ValueAfterKey(lines[i], key).Some?
    requires forall j | 0 <= j < i :: ValueAfterKey(lines[j], key).None?
    ensures FirstMatch(lines, key) == ValueAfterKey(lines[i], key)
  {
    if i > 0 {
      FirstMatchSkips(lines[1..], i - 1, key);
    }
  }

  /** A line that the first-match reader would take is an assignment of that key,
      with the value the parser reads. */
  lemma ReaderTakesAssignment(line: string, key: string)
    requires IsFieldKey(key) && ValueAfterKey(line, key).Some?
    ensures AssignmentOf(line) == Some(Assignment(key, ValueAfterKey(line, key).value))
  {
    var value := line[|key| + 1..];
    assert line == key + "=" + value;
    AssignmentReadsBack(key, value);
    SplitAtEquals(key, value);
  }

  lemma OneLinePerKey(assignments: seq<Option<Assignment>>, i: nat, j: nat, key: string)
    requires DistinctKeys(assignments) && i < |assignments| && j < |assignments|
    requires KeyOf(assignments[i]) == KeyOf(assignments[j]) == Some(key)
    ensures i == j
  {
  }

  /** With distinct keys there is only one line for the first-match reader to take. */
  lemma OnlyLineIsFirst(lines: seq<string>, i: nat, key: string)
    requires IsFieldKey(key) && DistinctKeys(Assignments(lines))
    requires i < |lines| && ValueAfterKey(lines[i], key).Some?
    ensures FirstMatch(lines, key) == ValueAfterKey(lines[i], key)
  {
    var assignments := Assignments(lines);
    ReaderTakesAssignment(lines[i], key);
    assert KeyOf(assignments[i]) == Some(key);
    forall j: nat | j < |lines| && ValueAfterKey(lines[j], key).Some? ensures j == i {
      ReaderTakesAssignment(lines[j], key);
      OneLinePerKey(assignments, j, i, key);
    }
    FirstMatchSkips(lines, i, key);
  }

  /** The watchdog's first-match reader agrees with the wizard's last-match parser
      on every field of the example. */
  lemma ReadersAgree(example: string, submitted: map<string, string>, existing: map<string, string>, i: nat, f: Field)
    requires WellFormed(example) && ValuesFit(SplitLines(example), submitted, existing)
    requires IsField(SplitLines(example), i, f)
    ensures var content := Render(example, submitted, existing);
            f.key in Parse(content) && FirstMatch(SplitLines(content), f.key) == Some(Parse(content)[f.key])
  {
    var lines := SplitLines(example);
    RoundTrip(example, submitted, existing);
    RenderSplits(example, submitted, existing);
    RenderedAssignments(lines, submitted, existing);
    FieldSplits(Strip(lines[i]));
    FieldLineIsTaken(f.key, Chosen(f, submitted, existing));
    FirstOfRendered(lines, submitted, existing, i, f);
  }

  lemma FirstOfRendered(lines: seq<string>, submitted: map<string, string>, existing: map<string, string>,
                        i: nat, f: Field)
    requires DistinctKeys(Assignments(lines)) && IsField(lines, i, f) && IsFieldKey(f.key)
    ensures FirstMatch(RenderLines(lines, submitted, existing), f.key) == Some(Strip(Chosen(f, submitted, existing)))
  {
    var out := RenderLines(lines, submitted, existing);
    RenderedAssignments(lines, submitted, existing);
    SameKeysStayDistinct(Assignments(lines), Assignments(out));
    FieldLineIsTaken(f.key, Chosen(f, submitted, existing));
    assert out[i] == f.key + "=" + Chosen(f, submitted, existing);
    OnlyLineIsFirst(out, i, f.key);
  }

  lemma FieldLineIsTaken(key: string, value: string)
    requires IsFieldKey(key)
    ensures ValueAfterKey(key + "=" + value, key) == Some(Strip(value))
  {
    SplitAtEquals(key, value);
    assert (key + "=" + value)[..|key + "="|] == key + "=";
  }

  // ------------------------------------------------------ the pre-filled form

  /** What the form shows for a field (no key generates its own secret). */
  function InitialValue(f: Field, existing: map<string, string>): string {
    if f.key in existing then existing[f.key] else f.default
  }

  /** Sending the pre-filled form back, in whole or in part, writes the same file as
      sending it blank, provided what it shows is trimmed. */
  lemma ResubmittingChangesNothing(example: string, submitted: map<string, string>, existing: map<string, string>)
    requires forall i: nat, f: Field | IsField(SplitLines(example), i, f) && f.key in submitted ::
               Trimmed(InitialValue(f, existing)) && submitted[f.key] == InitialValue(f, existing)
    ensures Render(example, submitted, existing) == Render(example, map[], existing)
  {
    var lines := SplitLines(example);
    forall i | 0 <= i < |lines|
      ensures RenderLine(lines[i], submitted, existing) == RenderLine(lines[i], map[], existing)
    {
      var m := FieldOf(Strip(lines[i]));
      if m.Some? && m.value.key in submitted {
        assert IsField(lines, i, m.value);
        StripFixesTrimmed(submitted[m.value.key]);
      }
    }
    assert RenderLines(lines, submitted, existing) == RenderLines(lines, map[], existing);
  }
}
