/** Prometheus sample keys (nzbdav-exporter/exporter.py, `_labels` and the key
    built by `_set`), against the reading that the "Line format" of the text
    exposition format 0.0.4 prescribes. */
module PrometheusFormat {
  import opened Text

  // ------------------------------------------------------------ escaping

  /** `s.replace(c, r)` for a single character `c`. */
  function Replace(s: string, c: char, r: string): string {
    if s == "" then "" else (if s[0] == c then r else [s[0]]) + Replace(s[1..], c, r)
  }

  /** The source's three passes: backslash, then newline, then quote. */
  function Escape(v: string): string {
    Replace(Replace(Replace(v, '\\', "\\\\"), '\n', "\\n"), '"', "\\\"")
  }

  function EscapeChar(c: char): string {
    if c == '\\' then "\\\\" else if c == '\n' then "\\n" else if c == '"' then "\\\"" else [c]
  }

  /** Escaping in one pass, one character at a time. */
  function EscapeOnce(v: string): string {
    if v == "" then "" else EscapeChar(v[0]) + EscapeOnce(v[1..])
  }

  lemma {:induction false} ReplaceJoins(a: string, b: string, c: char, r: string)
    ensures Replace(a + b, c, r) == Replace(a, c, r) + Replace(b, c, r)
  {
    if a == "" {
      assert a + b == b;
    } else {
      ReplaceJoins(a[1..], b, c, r);
      assert (a + b)[1..] == a[1..] + b;
      Assoc(if a[0] == c then r else [a[0]], Replace(a[1..], c, r), Replace(b, c, r));
    }
  }

  /** No pass disturbs what an earlier one wrote: three passes are one. */
  lemma {:induction false} EscapeIsOnePass(v: string)
    ensures Escape(v) == EscapeOnce(v)
  {
    if v != "" {
      EscapeIsOnePass(v[1..]);
      var head := if v[0] == '\\' then "\\\\" else [v[0]];
      var rest := Replace(v[1..], '\\', "\\\\");
      ReplaceJoins(head, rest, '\n', "\\n");
      ReplaceJoins(Replace(head, '\n', "\\n"), Replace(rest, '\n', "\\n"), '"', "\\\"");
      EscapeHead(v[0]);
    }
  }

  lemma EscapeHead(c: char)
    ensures Replace(Replace(if c == '\\' then "\\\\" else [c], '\n', "\\n"), '"', "\\\"") == EscapeChar(c)
  {
    ReplaceOne(c, '\n', "\\n");
    ReplaceOne(c, '"', "\\\"");
    ReplaceTwo('\\', '\\', '\n', "\\n");
    ReplaceTwo('\\', '\\', '"', "\\\"");
    ReplaceTwo('\\', 'n', '"', "\\\"");
  }

  lemma ReplaceOne(a: char, c: char, r: string)
    ensures Replace([a], c, r) == if a == c then r else [a]
  {
    assert [a][1..] == "";
  }

  lemma ReplaceTwo(a: char, b: char, c: char, r: string)
    requires a != c && b != c
    ensures Replace([a, b], c, r) == [a, b]
  {
    ReplaceOne(b, c, r);
    assert [a, b][1..] == [b];
  }

  // ------------------------------------------------------------ sample keys

  function Pair(name: string, value: string): string {
    name + "=\"" + Escape(value) + "\""
  }

  /** `",".join(...)` over the labels in the given order, then the closing brace. */
  function Pairs(order: seq<string>, labels: map<string, string>): string
    requires forall k | k in order :: k in labels
  {
    if order == [] then "}"
    else Pair(order[0], labels[order[0]]) + (if |order| > 1 then "," else "") + Pairs(order[1..], labels)
  }

  function Labels(labels: map<string, string>): string {
    if labels == map[] then "" else "{" + Pairs(Sorted(labels.Keys), labels)
  }

  function SampleKey(name: string, labels: map<string, string>): string {
    name + Labels(labels)
  }

  // ------------------------------------------------------------ reading back

  /** An escaped value up to its closing quote, and what follows the quote. */
  function ReadValue(s: string): (r: Option<(string, string)>)
    ensures r.Some? ==> |r.value.1| < |s|
  {
    if s == "" then None
    else if s[0] == '"' then Some(("", s[1..]))
    else if s[0] != '\\' then Prefix(s[0], ReadValue(s[1..]))
    else if |s| < 2 then None
    else if s[1] == 'n' then Prefix('\n', ReadValue(s[2..]))
    else if s[1] == '\\' || s[1] == '"' then Prefix(s[1], ReadValue(s[2..]))
    else None
  }

  function Prefix(c: char, r: Option<(string, string)>): Option<(string, string)> {
    match r
    case Some((v, rest)) => Some(([c] + v, rest))
    case None => None
  }

  lemma ReadsChar(c: char, tail: string)
    ensures ReadValue(EscapeChar(c) + tail) == Prefix(c, ReadValue(tail))
  {
    var e := EscapeChar(c);
    assert (e + tail)[|e|..] == tail;
  }

  lemma {:induction false} ReadsEscaped(v: string, rest: string)
    ensures ReadValue(EscapeOnce(v) + "\"" + rest) == Some((v, rest))
  {
    var quoted := "\"" + rest;
    if v == "" {
      assert quoted[1..] == rest && EscapeOnce(v) + "\"" + rest == quoted;
    } else {
      ReadsEscaped(v[1..], rest);
      var tail := EscapeOnce(v[1..]) + "\"" + rest;
      assert EscapeOnce(v) + "\"" + rest == EscapeChar(v[0]) + tail;
      ReadsChar(v[0], tail);
      assert v == [v[0]] + v[1..];
    }
  }

  /** Label pairs with a comma between two, up to the closing brace that ends the key. */
  function ReadPairs(s: string): Option<map<string, string>>
    decreases |s|
  {
    var i := IndexOf(s, '=');
    if i + 2 > |s| || s[i + 1] != '"' then None
    else
      match ReadValue(s[i + 2..])
      case None => None
      case Some((v, rest)) =>
        if rest == "}" then Some(map[s[..i] := v])
        else if rest == "" || rest[0] != ',' then None
        else
          match ReadPairs(rest[1..])
          case None => None
          case Some(labels) => Some(labels[s[..i] := v])
  }

  /** A sample key back into its metric name and its labels. */
  function ReadKey(key: string): Option<(string, map<string, string>)> {
    var i := IndexOf(key, '{');
    if i == |key| then Some((key, map[]))
    else
      match ReadPairs(key[i + 1..])
      case None => None
      case Some(labels) => Some((key[..i], labels))
  }

  predicate MetricName(name: string) {
    '{' !in name
  }

  ghost predicate LabelNames(labels: map<string, string>) {
    forall k | k in labels :: '=' !in k
  }

  function Restrict(order: seq<string>, labels: map<string, string>): map<string, string>
    requires forall k | k in order :: k in labels
  {
    map k | k in order :: labels[k]
  }

  lemma ValueFollows(name: string, after: string)
    requires '=' !in name
    ensures var s := name + "=\"" + after;
            IndexOf(s, '=') == |name| && |name| + 2 <= |s| && s[|name| + 1] == '"' && s[..|name|] == name
            && s[|name| + 2..] == after
  {
    var s := name + "=\"" + after;
    assert s == name + ['='] + ("\"" + after);
    IndexOfAppend(name, '=', "\"" + after);
  }

  lemma PairReads(name: string, value: string, rest: string)
    requires '=' !in name
    ensures var s := Pair(name, value) + rest;
            IndexOf(s, '=') == |name| && |name| + 2 <= |s| && s[|name| + 1] == '"' && s[..|name|] == name
            && ReadValue(s[|name| + 2..]) == Some((value, rest))
  {
    EscapeIsOnePass(value);
    ReadsEscaped(value, rest);
    ValueFollows(name, Escape(value) + "\"" + rest);
    assert Pair(name, value) + rest == name + "=\"" + (Escape(value) + "\"" + rest);
  }

  lemma ReadLastPair(name: string, value: string)
    requires '=' !in name
    ensures ReadPairs(Pair(name, value) + "}") == Some(map[name := value])
  {
    PairReads(name, value, "}");
  }

  lemma ReadOnePair(name: string, value: string, rest: string)
    requires '=' !in name
    ensures ReadPairs(Pair(name, value) + ("," + rest))
            == match ReadPairs(rest)
               case None => None
               case Some(labels) => Some(labels[name := value])
  {
    PairReads(name, value, "," + rest);
    assert ("," + rest)[1..] == rest;
    assert ("," + rest)[0] == ',' && "}"[0] == '}';
  }

  lemma PairsSplit(order: seq<string>, labels: map<string, string>)
    requires order != [] && forall k | k in order :: k in labels
    ensures var first, rest := Pair(order[0], labels[order[0]]), Pairs(order[1..], labels);
            Pairs(order, labels) == if |order| == 1 then first + "}" else first + ("," + rest)
  {
    var first, rest := Pair(order[0], labels[order[0]]), Pairs(order[1..], labels);
    Assoc(first, "", rest);
    Assoc(first, ",", rest);
  }

  lemma {:induction false} PairsRead(order: seq<string>, labels: map<string, string>)
    requires order != [] && forall k | k in order :: k in labels && '=' !in k
    ensures ReadPairs(Pairs(order, labels)) == Some(Restrict(order, labels))
  {
    PairsSplit(order, labels);
    RestrictStep(order, labels);
    if |order| == 1 {
      assert Restrict(order, labels) == map[order[0] := labels[order[0]]];
      ReadLastPair(order[0], labels[order[0]]);
    } else {
      PairsRead(order[1..], labels);
      ReadOnePair(order[0], labels[order[0]], Pairs(order[1..], labels));
    }
  }

  lemma RestrictStep(order: seq<string>, labels: map<string, string>)
    requires order != [] && forall k | k in order :: k in labels
    ensures Restrict(order, labels) == Restrict(order[1..], labels)[order[0] := labels[order[0]]]
  {
    assert order == [order[0]] + order[1..];
  }

  /** A key reads back as exactly the name and the labels it was made from. */
  lemma KeyReadsBack(name: string, labels: map<string, string>)
    requires MetricName(name) && LabelNames(labels)
    ensures ReadKey(SampleKey(name, labels)) == Some((name, labels))
  {
    if labels == map[] {
      BareNameReadsBack(name);
      assert SampleKey(name, labels) == name;
    } else {
      var body := Pairs(Sorted(labels.Keys), labels);
      assert SampleKey(name, labels) == name + ("{" + body);
      assert labels.Keys != {};
      LabelsReadBack(Sorted(labels.Keys), labels);
      BracesReadBack(name, body);
    }
  }

  lemma BareNameReadsBack(name: string)
    requires MetricName(name)
    ensures ReadKey(name) == Some((name, map[]))
  {
    IndexOfIsFirst(name, '{');
  }

  lemma LabelsReadBack(order: seq<string>, labels: map<string, string>)
    requires order != [] && LabelNames(labels) && forall k :: k in order <==> k in labels
    ensures ReadPairs(Pairs(order, labels)) == Some(labels)
  {
    PairsRead(order, labels);
    assert Restrict(order, labels) == labels;
  }

  lemma BracesReadBack(name: string, body: string)
    requires MetricName(name)
    ensures ReadKey(name + ("{" + body))
            == match ReadPairs(body) case None => None case Some(labels) => Some((name, labels))
  {
    var key := name + ("{" + body);
    assert key == name + ['{'] + body;
    IndexOfAppend(name, '{', body);
    assert key[..|name|] == name && key[|name| + 1..] == body;
  }

  /** So two samples share a key only when they are the same sample. */
  lemma KeysAreInjective(name: string, labels: map<string, string>, name': string, labels': map<string, string>)
    requires MetricName(name) && LabelNames(labels) && MetricName(name') && LabelNames(labels')
    ensures SampleKey(name, labels) == SampleKey(name', labels') <==> name == name' && labels == labels'
  {
    KeyReadsBack(name, labels);
    KeyReadsBack(name', labels');
  }

  lemma OneLabelKey(name: string, label_: string, value: string)
    ensures SampleKey(name, map[label_ := value]) == name + "{" + label_ + "=\"" + EscapeOnce(value) + "\"}"
  {
    var labels := map[label_ := value];
    OneSorted(labels.Keys, label_);
    EscapeIsOnePass(value);
    OnePair(label_, labels);
  }

  lemma OnePair(k: string, labels: map<string, string>)
    requires k in labels
    ensures Pairs([k], labels) == Pair(k, labels[k]) + "}"
  {
    PairsSplit([k], labels);
  }

  lemma OneSorted(keys: set<string>, k: string)
    requires keys == {k}
    ensures Sorted(keys) == [k]
  {
    assert Sorted(keys)[0] in Sorted(keys);
  }

  /** Labels are written in the order of their names. */
  lemma TwoLabelKey(name: string, a: string, v: string, b: string, w: string)
    requires a != b && LexLe(a, b)
    ensures SampleKey(name, map[a := v, b := w])
         == name + ("{" + (a + "=\"" + EscapeOnce(v) + "\"" + ("," + (b + "=\"" + EscapeOnce(w) + "\"" + "}"))))
  {
    var labels := map[a := v, b := w];
    assert labels.Keys == {a, b};
    SortedTwo(a, b);
    EscapeIsOnePass(v);
    EscapeIsOnePass(w);
    TwoPairs(a, b, labels);
  }

  lemma TwoPairs(a: string, b: string, labels: map<string, string>)
    requires a in labels && b in labels
    ensures Pairs([a, b], labels) == Pair(a, labels[a]) + ("," + (Pair(b, labels[b]) + "}"))
  {
    PairsSplit([a, b], labels);
    assert [a, b][1..] == [b];
    OnePair(b, labels);
  }

  // ------------------------------------------------------------ one line each

  lemma {:induction false} EscapedIsOneLine(v: string)
    ensures NoNewline(Escape(v))
  {
    EscapeIsOnePass(v);
    if v != "" {
      EscapedIsOneLine(v[1..]);
      EscapeIsOnePass(v[1..]);
    }
  }

  lemma {:induction false} PairsAreOneLine(order: seq<string>, labels: map<string, string>)
    requires forall k | k in order :: k in labels && NoNewline(k)
    ensures NoNewline(Pairs(order, labels))
  {
    if order != [] {
      EscapedIsOneLine(labels[order[0]]);
      PairsAreOneLine(order[1..], labels);
    }
  }

  /** Whatever the label values contain, a key stays on its line. */
  lemma KeyIsOneLine(name: string, labels: map<string, string>)
    requires NoNewline(name) && forall k | k in labels :: NoNewline(k)
    ensures NoNewline(SampleKey(name, labels))
  {
    if labels != map[] {
      PairsAreOneLine(Sorted(labels.Keys), labels);
    }
  }
}
