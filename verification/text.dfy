/** String helpers shared by the models: prefixes, Python's `strip`, line
    splitting and joining, and the code-point order that `sorted` uses. */
module Text {

  datatype Option<+T> = None | Some(value: T)

  lemma Assoc<T>(a: seq<T>, b: seq<T>, c: seq<T>)
    ensures a + (b + c) == a + b + c
  {
  }

  /** All parts one after the other. */
  function Concat<T>(parts: seq<seq<T>>): seq<T> {
    if parts == [] then [] else Concat(parts[..|parts| - 1]) + parts[|parts| - 1]
  }

  lemma {:induction false} ConcatJoins<T>(a: seq<seq<T>>, b: seq<seq<T>>)
    ensures Concat(a + b) == Concat(a) + Concat(b)
  {
    if b == [] {
      assert a + b == a;
    } else {
      var init := b[..|b| - 1];
      ConcatJoins(a, init);
      assert (a + b)[..|a + b| - 1] == a + init;
      Assoc(Concat(a), Concat(init), b[|b| - 1]);
    }
  }

  predicate StartsWith(s: string, prefix: string) {
    |prefix| <= |s| && s[..|prefix|] == prefix
  }

  predicate EndsWith(s: string, suffix: string) {
    |suffix| <= |s| && s[|s| - |suffix|..] == suffix
  }

  /** Index of the first `c` in `s`, or |s| when there is none. */
  function IndexOf(s: string, c: char): (i: nat)
    ensures i <= |s|
  {
    if s == "" || s[0] == c then 0 else 1 + IndexOf(s[1..], c)
  }

  lemma {:induction false} IndexOfIsFirst(s: string, c: char)
    ensures var i := IndexOf(s, c);
            && c !in s[..i]
            && (i < |s| <==> c in s)
            && (i < |s| ==> s[i] == c)
  {
    if s != "" && s[0] != c {
      IndexOfIsFirst(s[1..], c);
      var i := IndexOf(s, c);
      assert s[..i] == [s[0]] + s[1..][..i - 1];
      assert s == [s[0]] + s[1..];
    }
  }

  lemma {:induction false} IndexOfAppend(a: string, c: char, b: string)
    requires c !in a
    ensures IndexOf(a + [c] + b, c) == |a|
  {
    var s := a + [c] + b;
    if a != "" {
      IndexOfAppend(a[1..], c, b);
      assert s[1..] == a[1..] + [c] + b;
    }
  }

  /** `str.lower` on ASCII letters. */
  function Lower(s: string): string {
    if s == "" then ""
    else [if 'A' <= s[0] <= 'Z' then s[0] - 'A' + 'a' else s[0]] + Lower(s[1..])
  }

  lemma {:induction false} LowerAt(s: string)
    ensures |Lower(s)| == |s|
    ensures forall i | 0 <= i < |s| :: Lower(s)[i] == if 'A' <= s[i] <= 'Z' then s[i] - 'A' + 'a' else s[i]
  {
    if s != "" {
      LowerAt(s[1..]);
    }
  }

  // ---------------------------------------------------------------- strip

  predicate IsSpace(c: char) {
    c == ' ' || '\t' <= c <= '\r' || '\U{001c}' <= c <= '\U{001f}'
  }

  lemma IsSpaceIff(c: char)
    ensures IsSpace(c) <==> c in " \t\n\r\U{000b}\U{000c}\U{001c}\U{001d}\U{001e}\U{001f}"
  {
  }

  function LStrip(s: string): string {
    if s == "" || !IsSpace(s[0]) then s else LStrip(s[1..])
  }

  function RStrip(s: string): string {
    if s == "" || !IsSpace(s[|s| - 1]) then s else RStrip(s[..|s| - 1])
  }

  function Strip(s: string): string {
    RStrip(LStrip(s))
  }

  /** No blank at either end, so `strip` changes nothing. */
  predicate Trimmed(s: string) {
    s == "" || (!IsSpace(s[0]) && !IsSpace(s[|s| - 1]))
  }

  predicate AllSpace(s: string) {
    forall k | 0 <= k < |s| :: IsSpace(s[k])
  }

  lemma {:induction false} LStripBlank(a: string, t: string)
    requires AllSpace(a) && (t != "" ==> !IsSpace(t[0]))
    ensures LStrip(a + t) == t
  {
    if a == "" {
      assert a + t == t;
    } else {
      LStripBlank(a[1..], t);
      assert (a + t)[1..] == a[1..] + t;
    }
  }

  lemma {:induction false} RStripBlank(t: string, b: string)
    requires AllSpace(b) && (t != "" ==> !IsSpace(t[|t| - 1]))
    ensures RStrip(t + b) == t
  {
    if b == "" {
      assert t + b == t;
    } else {
      RStripBlank(t, b[..|b| - 1]);
      assert (t + b)[..|t + b| - 1] == t + b[..|b| - 1];
    }
  }

  lemma {:induction false} LStripSplits(s: string) returns (a: string)
    ensures AllSpace(a) && s == a + LStrip(s)
    ensures LStrip(s) != "" ==> !IsSpace(LStrip(s)[0])
  {
    if s == "" || !IsSpace(s[0]) {
      a := "";
    } else {
      var rest := LStripSplits(s[1..]);
      a := [s[0]] + rest;
      assert s == [s[0]] + s[1..];
      Assoc([s[0]], rest, LStrip(s[1..]));
    }
  }

  lemma {:induction false} RStripSplits(s: string) returns (b: string)
    ensures AllSpace(b) && s == RStrip(s) + b
    ensures RStrip(s) != "" ==> !IsSpace(RStrip(s)[|RStrip(s)| - 1])
  {
    if s == "" || !IsSpace(s[|s| - 1]) {
      b := "";
    } else {
      var rest := RStripSplits(s[..|s| - 1]);
      b := rest + [s[|s| - 1]];
      assert s == s[..|s| - 1] + [s[|s| - 1]];
      Assoc(RStrip(s[..|s| - 1]), rest, [s[|s| - 1]]);
    }
  }

  /** `strip` removes exactly the blanks around a trimmed text. */
  lemma StripBlanks(a: string, t: string, b: string)
    requires AllSpace(a) && AllSpace(b) && Trimmed(t)
    ensures Strip(a + t + b) == t
  {
    if t == "" {
      assert AllSpace(a + b) && a + t + b == a + b + "";
      LStripBlank(a + b, "");
    } else {
      LStripBlank(a, t + b);
      assert a + t + b == a + (t + b);
      RStripBlank(t, b);
    }
  }

  lemma StripSplits(s: string) returns (a: string, b: string)
    ensures AllSpace(a) && AllSpace(b) && s == a + Strip(s) + b
    ensures Trimmed(Strip(s))
  {
    a := LStripSplits(s);
    b := RStripSplits(LStrip(s));
    var t := Strip(s);
    assert LStrip(s) == t + b;
    assert s == a + t + b;
    if t != "" {
      assert LStrip(s)[0] == t[0];
    }
  }

  lemma StripFixesTrimmed(s: string)
    ensures Trimmed(Strip(s))
    ensures Trimmed(s) <==> Strip(s) == s
  {
    var a, b := StripSplits(s);
    if Trimmed(s) {
      StripBlanks("", s, "");
      assert s == "" + s + "";
    }
  }

  lemma StripKeepsChars(s: string, c: char)
    requires c !in s
    ensures c !in Strip(s)
  {
    var a, b := StripSplits(s);
  }

  // ---------------------------------------------------------------- lines

  predicate NoNewline(s: string) {
    '\n' !in s
  }

  /** `str.splitlines` restricted to the newline character. */
  function SplitLines(s: string): seq<string>
    decreases |s|
  {
    if s == "" then []
    else
      var i := IndexOf(s, '\n');
      if i == |s| then [s] else [s[..i]] + SplitLines(s[i + 1..])
  }

  ghost predicate OneLiners(lines: seq<string>) {
    forall l | l in lines :: NoNewline(l)
  }

  lemma {:induction false} SplitLinesAreLines(s: string)
    ensures OneLiners(SplitLines(s))
    decreases |s|
  {
    if s != "" {
      var i := IndexOf(s, '\n');
      IndexOfIsFirst(s, '\n');
      if i < |s| {
        SplitLinesAreLines(s[i + 1..]);
      }
    }
  }

  /** "\n".join(lines) + "\n" */
  function Unlines(lines: seq<string>): string {
    if |lines| == 0 then "\n"
    else if |lines| == 1 then lines[0] + "\n"
    else lines[0] + "\n" + Unlines(lines[1..])
  }

  lemma SplitFirst(line: string, rest: string)
    requires NoNewline(line)
    ensures SplitLines(line + "\n" + rest) == [line] + SplitLines(rest)
  {
    var s := line + "\n" + rest;
    IndexOfAppend(line, '\n', rest);
    assert s == line + ['\n'] + rest;
    assert s[..|line|] == line && s[|line| + 1..] == rest;
  }

  lemma {:induction false} SplitUnlines(lines: seq<string>)
    requires lines != [] && OneLiners(lines)
    ensures SplitLines(Unlines(lines)) == lines
  {
    var rest := if |lines| == 1 then "" else Unlines(lines[1..]);
    assert lines == [lines[0]] + lines[1..];
    assert Unlines(lines) == lines[0] + "\n" + rest;
    SplitFirst(lines[0], rest);
    if |lines| > 1 {
      SplitUnlines(lines[1..]);
    }
  }

  // ---------------------------------------------------------------- order

  /** Code-point lexicographic order on strings. */
  predicate LexLe(a: string, b: string) {
    a == "" || (b != "" && (a[0] < b[0] || (a[0] == b[0] && LexLe(a[1..], b[1..]))))
  }

  lemma {:induction false} LexTotal(a: string, b: string)
    ensures LexLe(a, b) || LexLe(b, a)
    ensures LexLe(a, b) && LexLe(b, a) ==> a == b
  {
    if a != "" && b != "" && a[0] == b[0] {
      LexTotal(a[1..], b[1..]);
      assert a == [a[0]] + a[1..] && b == [b[0]] + b[1..];
    }
  }

  lemma {:induction false} LexTransitive(a: string, b: string, c: string)
    requires LexLe(a, b) && LexLe(b, c)
    ensures LexLe(a, c)
  {
    if a != "" && a[0] == b[0] == c[0] {
      LexTransitive(a[1..], b[1..], c[1..]);
    }
  }

  /** The texts agree up to position `i`, where the first has the smaller character. */
  predicate SmallerAt(a: string, b: string, i: nat) {
    i < |a| && i < |b| && a[..i] == b[..i] && a[i] < b[i]
  }

  lemma SmallerLater(a: string, b: string, i: nat)
    requires a != "" && b != "" && a[0] == b[0]
    ensures SmallerAt(a, b, i + 1) <==> SmallerAt(a[1..], b[1..], i)
  {
    if i < |a[1..]| && i < |b[1..]| {
      assert a[..i + 1] == [a[0]] + a[1..][..i] && b[..i + 1] == [b[0]] + b[1..][..i];
      if a[..i + 1] == b[..i + 1] {
        assert a[1..][..i] == a[..i + 1][1..] == b[..i + 1][1..] == b[1..][..i];
      }
    }
  }

  /** In order means: a prefix, or smaller where the two first differ. */
  lemma {:induction false} LexLeIff(a: string, b: string)
    ensures LexLe(a, b) <==> a <= b || exists i :: SmallerAt(a, b, i)
  {
    if a != "" && b != "" && a[0] == b[0] {
      var c, d := a[1..], b[1..];
      LexLeIff(c, d);
      assert a == [a[0]] + c && b == [b[0]] + d;
      if a <= b {
        assert c == a[1..] == b[..|a|][1..] == d[..|c|];
      }
      if i: nat :| SmallerAt(a, b, i) {
        assert i > 0;
        SmallerLater(a, b, i - 1);
      }
      if i: nat :| SmallerAt(c, d, i) {
        SmallerLater(a, b, i);
      }
    } else if a != "" && b != "" {
      assert a[0] < b[0] ==> SmallerAt(a, b, 0);
      if i: nat :| SmallerAt(a, b, i) {
        assert i > 0 ==> a[..i][0] == b[..i][0];
      }
    }
  }

  predicate IsLeast(k: string, s: set<string>) {
    k in s && forall x | x in s :: LexLe(k, x)
  }

  lemma {:induction false} LeastExists(s: set<string>)
    requires s != {}
    ensures exists k :: IsLeast(k, s)
  {
    var x :| x in s;
    if s == {x} {
      LexTotal(x, x);
      assert IsLeast(x, s);
    } else {
      var rest := s - {x};
      assert s == rest + {x};
      LeastExists(rest);
      var k :| IsLeast(k, rest);
      LexTotal(k, x);
      LexTotal(x, x);
      if LexLe(k, x) {
        assert IsLeast(k, s);
      } else {
        forall y | y in s ensures LexLe(x, y) {
          if y != x {
            LexTransitive(x, k, y);
          }
        }
        assert IsLeast(x, s);
      }
    }
  }

  lemma LeastUnique(s: set<string>)
    ensures forall a, b | IsLeast(a, s) && IsLeast(b, s) :: a == b
  {
    forall a, b | IsLeast(a, s) && IsLeast(b, s) ensures a == b {
      LexTotal(a, b);
    }
  }

  predicate Distinct<T(==)>(s: seq<T>) {
    forall i, j | 0 <= i < j < |s| :: s[i] != s[j]
  }

  lemma LastIsAlone<T>(s: seq<T>)
    requires Distinct(s) && s != []
    ensures forall x :: x in s[..|s| - 1] <==> x in s && x != s[|s| - 1]
  {
    var init, last := s[..|s| - 1], s[|s| - 1];
    assert s == init + [last];
  }

  /** `sorted(s)` for a set of distinct strings. */
  function Sorted(s: set<string>): (r: seq<string>)
    ensures forall x :: x in r <==> x in s
    ensures Distinct(r)
    ensures forall i, j | 0 <= i < j < |r| :: LexLe(r[i], r[j])
    ensures |r| == |s|
    decreases |s|
  {
    if s == {} then []
    else
      LeastExists(s);
      LeastUnique(s);
      var k :| IsLeast(k, s);
      var rest := Sorted(s - {k});
      assert k !in rest;
      [k] + rest
  }

  lemma SortedTwo(a: string, b: string)
    requires a != b && LexLe(a, b)
    ensures Sorted({a, b}) == [a, b]
  {
    var r := Sorted({a, b});
    assert |r| == 2 && r[0] in r && r[1] in r;
    LexTotal(a, b);
  }
}
