/** Whole-name renaming (scripts/fish-rename.py).

    The character class [\w-] is the parameter `nc`: every result below holds
    for every choice of name characters. A rename map is a `map`, and the regex
    alternation is an arbitrary listing of its keys, of which the source's
    longest-first listing is one. */
module FishRename {
  import opened Text

  type CharClass = char -> bool

  predicate IsName(nc: CharClass, s: string) {
    s != "" && forall k | 0 <= k < |s| :: nc(s[k])
  }

  // ------------------------------------------------------- the regex scanner

  /** `(?<![\w-])`, seen from the character before the current position. */
  predicate BoundaryBefore(nc: CharClass, prev: Option<char>) {
    prev.None? || !nc(prev.value)
  }

  /** `(?![\w-])`, seen from the rest of the text. */
  predicate BoundaryAfter(nc: CharClass, rest: string) {
    rest == "" || !nc(rest[0])
  }

  /** The literal `name` at the start of `s`, followed by the lookahead. */
  predicate Matches(nc: CharClass, s: string, name: string) {
    StartsWith(s, name) && BoundaryAfter(nc, s[|name|..])
  }

  /** The alternation with backtracking: the first alternative for which the
      rest of the pattern matches too. Directly after an empty match the engine
      refuses another empty match at the same place (`mustAdvance`). */
  function FirstMatch(nc: CharClass, s: string, ordered: seq<string>, mustAdvance: bool): (r: Option<string>)
    ensures r.Some? ==> r.value in ordered && Matches(nc, s, r.value) && (mustAdvance ==> r.value != "")
    ensures r.None? ==> forall n | n in ordered && (mustAdvance ==> n != "") :: !Matches(nc, s, n)
  {
    if ordered == [] then None
    else if Matches(nc, s, ordered[0]) && (mustAdvance ==> ordered[0] != "") then Some(ordered[0])
    else FirstMatch(nc, s, ordered[1..], mustAdvance)
  }

  /** `pattern.sub(lambda m: renames[m.group(1)], text)` from a position on: `prev`
      is the character before it and `s` the text after it. */
  function Scan(nc: CharClass, prev: Option<char>, s: string, ordered: seq<string>,
                renames: map<string, string>, mustAdvance: bool): string
    requires forall n | n in ordered :: n in renames
    decreases |s|, !mustAdvance
  {
    var hit := if BoundaryBefore(nc, prev) then FirstMatch(nc, s, ordered, mustAdvance) else None;
    if hit.Some? then
      var n := |hit.value|;
      renames[hit.value] + Scan(nc, if n == 0 then prev else Some(s[n - 1]), s[n..], ordered, renames, n == 0)
    else if s == "" then ""
    else [s[0]] + Scan(nc, Some(s[0]), s[1..], ordered, renames, false)
  }

  /** `ordered` lists the keys of the map, in any order. */
  ghost predicate Lists(ordered: seq<string>, renames: map<string, string>) {
    forall n :: n in ordered <==> n in renames
  }

  function RenameText(nc: CharClass, text: string, renames: map<string, string>, ordered: seq<string>): string
    requires Lists(ordered, renames)
  {
    if renames == map[] then text
    else Scan(nc, None, text, ordered, renames, false)
  }

  // -------------------------------------------------------- the token reading

  datatype Token = Sep(c: char) | Name(s: string)

  /** Length of the leading run of name characters. */
  function RunLength(nc: CharClass, s: string): (n: nat)
    ensures n <= |s|
    ensures forall k | 0 <= k < n :: nc(s[k])
    ensures n < |s| ==> !nc(s[n])
  {
    if s == "" || !nc(s[0]) then 0
    else 1 + RunLength(nc, s[1..])
  }

  /** Maximal runs of name characters, and the characters between them. */
  function Tokenize(nc: CharClass, s: string): seq<Token>
    decreases |s|
  {
    if s == "" then []
    else if !nc(s[0]) then [Sep(s[0])] + Tokenize(nc, s[1..])
    else
      var n := RunLength(nc, s);
      assert n > 0;
      [Name(s[..n])] + Tokenize(nc, s[n..])
  }

  function Flatten(toks: seq<Token>): string {
    if toks == [] then ""
    else (match toks[0] case Sep(c) => [c] case Name(s) => s) + Flatten(toks[1..])
  }

  /** The renaming of one name. */
  function Renamed(renames: map<string, string>, s: string): string {
    if s in renames then renames[s] else s
  }

  function RenameToken(renames: map<string, string>, tok: Token): Token {
    match tok
    case Sep(_) => tok
    case Name(s) => Name(Renamed(renames, s))
  }

  function RenameTokens(renames: map<string, string>, toks: seq<Token>): (r: seq<Token>)
    ensures |r| == |toks|
    ensures forall i | 0 <= i < |r| :: r[i] == RenameToken(renames, toks[i])
  {
    seq(|toks|, i requires 0 <= i < |toks| => RenameToken(renames, toks[i]))
  }

  /** The simple reading: split into runs, replace exactly the runs that are keys. */
  function Rename(nc: CharClass, renames: map<string, string>, text: string): string {
    Flatten(RenameTokens(renames, Tokenize(nc, text)))
  }

  ghost predicate NameKeys(nc: CharClass, renames: map<string, string>) {
    forall k | k in renames :: IsName(nc, k)
  }

  ghost predicate NameValues(nc: CharClass, renames: map<string, string>) {
    forall k | k in renames :: IsName(nc, renames[k])
  }

  // ------------------------------------------- the scanner refines the reading

  /** At a name character, the names that match are exactly the leading run. */
  lemma MatchIsRun(nc: CharClass, s: string, name: string)
    requires IsName(nc, name)
    ensures Matches(nc, s, name) <==> s != "" && nc(s[0]) && name == s[..RunLength(nc, s)]
  {
    if Matches(nc, s, name) {
      assert forall k | 0 <= k < |name| :: name[k] == s[k];
      RunLengthOfName(nc, name, s[|name|..]);
      assert s == name + s[|name|..];
    }
  }

  lemma {:induction false} RunLengthOfName(nc: CharClass, name: string, rest: string)
    requires IsName(nc, name) && BoundaryAfter(nc, rest)
    ensures RunLength(nc, name + rest) == |name|
  {
    if |name| == 1 {
      assert (name + rest)[1..] == rest;
    } else {
      RunLengthOfName(nc, name[1..], rest);
      assert (name + rest)[1..] == name[1..] + rest;
    }
  }

  lemma FirstMatchIsRun(nc: CharClass, s: string, ordered: seq<string>, renames: map<string, string>)
    requires Lists(ordered, renames) && NameKeys(nc, renames)
    ensures var run := s[..RunLength(nc, s)];
            FirstMatch(nc, s, ordered, false)
            == if s != "" && nc(s[0]) && run in renames then Some(run) else None
  {
    forall name | name in ordered
      ensures Matches(nc, s, name) <==> s != "" && nc(s[0]) && name == s[..RunLength(nc, s)]
    {
      MatchIsRun(nc, s, name);
    }
  }

  /** One step of the token reading: a separator, or a whole leading run. */
  lemma RenameStep(nc: CharClass, renames: map<string, string>, s: string)
    requires s != ""
    ensures !nc(s[0]) ==> Rename(nc, renames, s) == [s[0]] + Rename(nc, renames, s[1..])
    ensures nc(s[0]) ==> var n := RunLength(nc, s);
            Rename(nc, renames, s) == Renamed(renames, s[..n]) + Rename(nc, renames, s[n..])
  {
    if nc(s[0]) {
      RenameCons(nc, renames, Name(s[..RunLength(nc, s)]), Tokenize(nc, s[RunLength(nc, s)..]));
    } else {
      RenameCons(nc, renames, Sep(s[0]), Tokenize(nc, s[1..]));
    }
  }

  lemma RenameCons(nc: CharClass, renames: map<string, string>, tok: Token, toks: seq<Token>)
    ensures Flatten(RenameTokens(renames, [tok] + toks))
            == (match tok case Sep(c) => [c] case Name(s) => Renamed(renames, s)) + Flatten(RenameTokens(renames, toks))
  {
    assert RenameTokens(renames, [tok] + toks)[1..] == RenameTokens(renames, toks);
  }

  /** No match here: one character is copied. */
  lemma ScanMiss(nc: CharClass, prev: Option<char>, s: string, ordered: seq<string>, renames: map<string, string>)
    requires s != "" && forall n | n in ordered :: n in renames
    requires !BoundaryBefore(nc, prev) || FirstMatch(nc, s, ordered, false).None?
    ensures Scan(nc, prev, s, ordered, renames, false) == [s[0]] + Scan(nc, Some(s[0]), s[1..], ordered, renames, false)
  {
  }

  /** The leading run is a key: it is replaced and the scan goes on behind it. */
  lemma ScanHit(nc: CharClass, prev: Option<char>, s: string, n: nat, ordered: seq<string>,
                renames: map<string, string>)
    requires 0 < n <= |s| && forall m | m in ordered :: m in renames
    requires BoundaryBefore(nc, prev) && FirstMatch(nc, s, ordered, false) == Some(s[..n])
    ensures Scan(nc, prev, s, ordered, renames, false)
            == renames[s[..n]] + Scan(nc, Some(s[n - 1]), s[n..], ordered, renames, false)
  {
  }

  /** What is left to produce: from a boundary all tokens are read; from inside a
      run the rest of the run comes first, unchanged. */
  function Remaining(nc: CharClass, prev: Option<char>, s: string, renames: map<string, string>): string {
    if BoundaryBefore(nc, prev) then Rename(nc, renames, s)
    else s[..RunLength(nc, s)] + Rename(nc, renames, s[RunLength(nc, s)..])
  }

  lemma RemainingMiss(nc: CharClass, prev: Option<char>, s: string, renames: map<string, string>)
    requires s != "" && (BoundaryBefore(nc, prev) && nc(s[0]) ==> s[..RunLength(nc, s)] !in renames)
    ensures Remaining(nc, prev, s, renames) == [s[0]] + Remaining(nc, Some(s[0]), s[1..], renames)
  {
    RenameStep(nc, renames, s);
    var n := RunLength(nc, s);
    if n > 0 {
      var rest := Rename(nc, renames, s[n..]);
      assert Remaining(nc, prev, s, renames) == s[..n] + rest;
      CopyRun(s, n, rest);
      assert RunLength(nc, s[1..]) == n - 1;
    } else {
      assert s[..0] + Rename(nc, renames, s[0..]) == Rename(nc, renames, s[0..]);
      assert s[0..] == s;
    }
  }

  lemma RemainingHit(nc: CharClass, prev: Option<char>, s: string, n: nat, renames: map<string, string>)
    requires n == RunLength(nc, s) > 0 && BoundaryBefore(nc, prev) && s[..n] in renames
    ensures Remaining(nc, prev, s, renames)
            == renames[s[..n]] + Remaining(nc, Some(s[n - 1]), s[n..], renames)
  {
    RenameStep(nc, renames, s);
    var rest := s[n..];
    assert RunLength(nc, rest) == 0 && rest[..0] == "" && rest[0..] == rest;
    assert Remaining(nc, Some(s[n - 1]), rest, renames) == "" + Rename(nc, renames, rest);
  }

  lemma CopyRun(s: string, n: nat, rest: string)
    requires 0 < n <= |s|
    ensures s[1..][n - 1..] == s[n..]
    ensures [s[0]] + (s[1..][..n - 1] + rest) == s[..n] + rest
  {
  }

  lemma {:induction false} ScanReadsTokens(nc: CharClass, prev: Option<char>, s: string, ordered: seq<string>,
                                           renames: map<string, string>)
    requires Lists(ordered, renames) && NameKeys(nc, renames)
    ensures Scan(nc, prev, s, ordered, renames, false) == Remaining(nc, prev, s, renames)
    decreases |s|
  {
    FirstMatchIsRun(nc, s, ordered, renames);
    if s != "" {
      var n := RunLength(nc, s);
      if n > 0 && BoundaryBefore(nc, prev) && s[..n] in renames {
        RemainingHit(nc, prev, s, n, renames);
        ScanHit(nc, prev, s, n, ordered, renames);
        ScanReadsTokens(nc, Some(s[n - 1]), s[n..], ordered, renames);
      } else {
        RemainingMiss(nc, prev, s, renames);
        ScanMiss(nc, prev, s, ordered, renames);
        ScanReadsTokens(nc, Some(s[0]), s[1..], ordered, renames);
      }
    }
  }

  /** The main result: with keys made of name characters, the regex pass is the
      token reading, whatever the order of the alternation. */
  lemma {:induction false} RenameTextIsTokenRename(nc: CharClass, text: string, renames: map<string, string>,
                                                   ordered: seq<string>)
    requires Lists(ordered, renames) && NameKeys(nc, renames)
    ensures RenameText(nc, text, renames, ordered) == Rename(nc, renames, text)
  {
    if renames == map[] {
      var toks := Tokenize(nc, text);
      assert RenameTokens(renames, toks) == toks;
      FlattenTokenize(nc, text);
    } else {
      ScanReadsTokens(nc, None, text, ordered, renames);
    }
  }

  // ------------------------------------------------------ texts versus tokens

  lemma {:induction false} FlattenTokenize(nc: CharClass, text: string)
    ensures Flatten(Tokenize(nc, text)) == text
    decreases |text|
  {
    if text != "" {
      var n := if nc(text[0]) then RunLength(nc, text) else 1;
      FlattenTokenize(nc, text[n..]);
      assert text == text[..n] + text[n..];
      assert Tokenize(nc, text)[1..] == Tokenize(nc, text[n..]);
    }
  }

  /** What `Tokenize` produces: names are runs, and no two names touch. */
  ghost predicate Canonical(nc: CharClass, toks: seq<Token>) {
    && (forall tok | tok in toks :: if tok.Sep? then !nc(tok.c) else IsName(nc, tok.s))
    && (forall i | 0 <= i < |toks| - 1 :: toks[i].Name? ==> toks[i + 1].Sep?)
  }

  lemma {:induction false} TokenizeIsCanonical(nc: CharClass, text: string)
    ensures Canonical(nc, Tokenize(nc, text))
    decreases |text|
  {
    if text != "" {
      var n := if nc(text[0]) then RunLength(nc, text) else 1;
      TokenizeIsCanonical(nc, text[n..]);
    }
  }

  lemma {:induction false} TokenizeFlatten(nc: CharClass, toks: seq<Token>)
    requires Canonical(nc, toks)
    ensures Tokenize(nc, Flatten(toks)) == toks
  {
    if toks != [] {
      var rest := Flatten(toks[1..]);
      assert toks == [toks[0]] + toks[1..];
      assert forall i | 0 <= i < |toks| - 1 :: toks[1..][i] == toks[i + 1];
      TokenizeFlatten(nc, toks[1..]);
      match toks[0]
      case Sep(c) =>
        assert Flatten(toks)[1..] == rest;
      case Name(s) =>
        if |toks| > 1 {
          assert toks[1] in toks;
          assert rest != "" && rest[0] == toks[1].c;
        } else {
          assert rest == "";
        }
        RunLengthOfName(nc, s, rest);
        assert Flatten(toks)[..|s|] == s && Flatten(toks)[|s|..] == rest;
    }
  }

  /** Renaming to names keeps the runs apart, so the result reads back as the renamed tokens. */
  lemma TokensOfRenamed(nc: CharClass, renames: map<string, string>, text: string)
    requires NameValues(nc, renames)
    ensures Tokenize(nc, Rename(nc, renames, text)) == RenameTokens(renames, Tokenize(nc, text))
  {
    TokenizeIsCanonical(nc, text);
    var toks := Tokenize(nc, text);
    var renamed := RenameTokens(renames, toks);
    forall tok | tok in renamed ensures if tok.Sep? then !nc(tok.c) else IsName(nc, tok.s) {
      var i :| 0 <= i < |renamed| && renamed[i] == tok;
      assert toks[i] in toks;
    }
    TokenizeFlatten(nc, renamed);
  }

  /** A text equals another exactly when their tokens do. */
  lemma SameTokensSameText(nc: CharClass, a: string, b: string)
    ensures a == b <==> Tokenize(nc, a) == Tokenize(nc, b)
  {
    FlattenTokenize(nc, a);
    FlattenTokenize(nc, b);
  }

  lemma NameAlone(nc: CharClass, name: string)
    requires IsName(nc, name)
    ensures Tokenize(nc, name) == [Name(name)]
  {
    RunLengthOfName(nc, name, "");
    assert name + "" == name && name[..|name|] == name && name[|name|..] == "";
  }

  /** `name` stands at position `i` between two boundaries. */
  predicate WholeAt(nc: CharClass, t: string, i: nat, name: string) {
    i <= |t| && (i == 0 || !nc(t[i - 1])) && Matches(nc, t[i..], name)
  }

  /** What the pattern means by a whole name of a text. */
  ghost predicate OccursWhole(nc: CharClass, t: string, name: string) {
    exists i :: WholeAt(nc, t, i, name)
  }

  lemma WholeInSuffix(nc: CharClass, t: string, n: nat, i: nat, name: string)
    requires 0 < n && n + i <= |t| && IsName(nc, name)
    requires i > 0 || !nc(t[n - 1]) || BoundaryAfter(nc, t[n..])
    ensures WholeAt(nc, t[n..], i, name) <==> WholeAt(nc, t, n + i, name)
  {
    assert t[n..][i..] == t[n + i..];
    MatchIsRun(nc, t[n..][i..], name);
  }

  /** An occurrence is the leading run, or lies after the first token. */
  lemma OccursStep(nc: CharClass, t: string, n: nat, name: string)
    requires t != "" && IsName(nc, name)
    requires n == if nc(t[0]) then RunLength(nc, t) else 1
    ensures OccursWhole(nc, t, name) <==> (nc(t[0]) && name == t[..n]) || OccursWhole(nc, t[n..], name)
  {
    assert t[0..] == t;
    MatchIsRun(nc, t, name);
    assert WholeAt(nc, t, 0, name) <==> nc(t[0]) && name == t[..n];
    forall i: nat | i <= |t| - n ensures WholeAt(nc, t[n..], i, name) <==> WholeAt(nc, t, n + i, name) {
      WholeInSuffix(nc, t, n, i, name);
    }
    if i: nat :| 0 < i && WholeAt(nc, t, i, name) {
      MatchIsRun(nc, t[i..], name);
      assert n <= i;
      assert WholeAt(nc, t[n..], i - n, name);
    }
    if i: nat :| WholeAt(nc, t[n..], i, name) {
      assert WholeAt(nc, t, n + i, name);
    }
  }

  lemma {:induction false} WholeNamesAreTokens(nc: CharClass, t: string, name: string)
    requires IsName(nc, name)
    ensures OccursWhole(nc, t, name) <==> Name(name) in Tokenize(nc, t)
    decreases |t|
  {
    if t != "" {
      var n := if nc(t[0]) then RunLength(nc, t) else 1;
      WholeNamesAreTokens(nc, t[n..], name);
      OccursStep(nc, t, n, name);
    }
  }

  // ------------------------------------------------------ algebra of renaming

  /** One pass renames each name once: `chain` maps a -> m[a] and never a -> m[m[a]].
      Two passes are one pass of the composed map. */
  function Compose(first: map<string, string>, second: map<string, string>): map<string, string> {
    map k | k in first.Keys + second.Keys :: Renamed(second, Renamed(first, k))
  }

  lemma RenameTwice(nc: CharClass, first: map<string, string>, second: map<string, string>, text: string)
    requires NameValues(nc, first)
    ensures Rename(nc, second, Rename(nc, first, text)) == Rename(nc, Compose(first, second), text)
  {
    TokensOfRenamed(nc, first, text);
    var toks := Tokenize(nc, text);
    assert RenameTokens(second, RenameTokens(first, toks)) == RenameTokens(Compose(first, second), toks);
  }

  /** A rename map never rewrites one of its own targets into something else. */
  ghost predicate TargetsSettle(renames: map<string, string>) {
    forall k | k in renames :: Renamed(renames, renames[k]) == renames[k]
  }

  /** Renaming twice is renaming once, on every text, exactly when targets settle. */
  lemma IdempotentIff(nc: CharClass, renames: map<string, string>)
    requires NameKeys(nc, renames) && NameValues(nc, renames)
    ensures (forall t :: Rename(nc, renames, Rename(nc, renames, t)) == Rename(nc, renames, t))
            <==> TargetsSettle(renames)
  {
    forall t | TargetsSettle(renames)
      ensures Rename(nc, renames, Rename(nc, renames, t)) == Rename(nc, renames, t)
    {
      TokensOfRenamed(nc, renames, t);
      var toks := Tokenize(nc, t);
      assert RenameTokens(renames, RenameTokens(renames, toks)) == RenameTokens(renames, toks);
    }
    if forall t :: Rename(nc, renames, Rename(nc, renames, t)) == Rename(nc, renames, t) {
      forall k | k in renames ensures Renamed(renames, renames[k]) == renames[k] {
        RenameOneName(nc, renames, k);
        RenameOneName(nc, renames, renames[k]);
        assert Rename(nc, renames, Rename(nc, renames, k)) == Rename(nc, renames, k);
      }
    }
  }

  lemma RenameOneName(nc: CharClass, renames: map<string, string>, name: string)
    requires IsName(nc, name)
    ensures Rename(nc, renames, name) == Renamed(renames, name)
  {
    NameAlone(nc, name);
    var renamed := RenameTokens(renames, [Name(name)]);
    assert renamed == [Name(Renamed(renames, name))] && renamed[1..] == [];
    assert Flatten(renamed) == Renamed(renames, name) + "";
  }

  /** No old name survives as a whole name, in any text, exactly when no target is a source. */
  lemma NoSourceLeftIff(nc: CharClass, renames: map<string, string>)
    requires NameKeys(nc, renames) && NameValues(nc, renames)
    ensures (forall t, k | k in renames :: !OccursWhole(nc, Rename(nc, renames, t), k))
            <==> renames.Keys !! renames.Values
  {
    if renames.Keys !! renames.Values {
      forall t, k | k in renames ensures !OccursWhole(nc, Rename(nc, renames, t), k) {
        WholeNamesAreTokens(nc, Rename(nc, renames, t), k);
        TokensOfRenamed(nc, renames, t);
        var toks := RenameTokens(renames, Tokenize(nc, t));
        forall i | 0 <= i < |toks| ensures toks[i] != Name(k) {
          assert toks[i] == RenameToken(renames, Tokenize(nc, t)[i]);
        }
      }
    }
    if forall t, k | k in renames :: !OccursWhole(nc, Rename(nc, renames, t), k) {
      forall k | k in renames ensures renames[k] !in renames {
        RenameOneName(nc, renames, k);
        NameAlone(nc, renames[k]);
        WholeNamesAreTokens(nc, renames[k], renames[k]);
        assert OccursWhole(nc, Rename(nc, renames, k), renames[k]);
      }
    }
  }

  /** The regex pass itself: when no target is a source, one pass over any text
      leaves no old name and a second pass changes nothing. */
  lemma CutoverIsComplete(nc: CharClass, text: string, renames: map<string, string>, ordered: seq<string>)
    requires Lists(ordered, renames) && NameKeys(nc, renames) && NameValues(nc, renames)
    requires renames.Keys !! renames.Values
    ensures var once := RenameText(nc, text, renames, ordered);
            && RenameText(nc, once, renames, ordered) == once
            && forall k | k in renames :: !OccursWhole(nc, once, k)
  {
    RenameTextIsTokenRename(nc, text, renames, ordered);
    RenameTextIsTokenRename(nc, Rename(nc, renames, text), renames, ordered);
    assert forall k | k in renames :: renames[k] in renames.Values;
    IdempotentIff(nc, renames);
    NoSourceLeftIff(nc, renames);
  }

  ghost predicate Injective(renames: map<string, string>) {
    forall a, b | a in renames && b in renames && renames[a] == renames[b] :: a == b
  }

  ghost predicate IsInverse(inverse: map<string, string>, renames: map<string, string>) {
    && inverse.Keys == renames.Values
    && forall k | k in renames :: inverse[renames[k]] == k
  }

  /** A text renamed and renamed back is the same text, exactly when every whole
      name of it that is a target is a source as well. */
  lemma UndoneIff(nc: CharClass, renames: map<string, string>, inverse: map<string, string>, text: string)
    requires NameKeys(nc, renames) && NameValues(nc, renames)
    requires Injective(renames) && IsInverse(inverse, renames)
    ensures Rename(nc, inverse, Rename(nc, renames, text)) == text
            <==> forall v | v in renames.Values && OccursWhole(nc, text, v) :: v in renames
  {
    TokensOfRenamed(nc, renames, text);
    var toks := Tokenize(nc, text);
    var back := RenameTokens(inverse, RenameTokens(renames, toks));
    assert NameValues(nc, inverse);
    TokensOfRenamed(nc, inverse, Rename(nc, renames, text));
    SameTokensSameText(nc, Rename(nc, inverse, Rename(nc, renames, text)), text);
    forall v | v in renames.Values ensures OccursWhole(nc, text, v) <==> Name(v) in toks {
      WholeNamesAreTokens(nc, text, v);
    }
    if forall v | v in renames.Values && Name(v) in toks :: v in renames {
      forall i | 0 <= i < |toks| ensures back[i] == toks[i] {
        if toks[i].Name? && toks[i].s !in renames {
          assert Name(toks[i].s) in toks;
          assert toks[i].s !in inverse;
        }
      }
      assert back == toks;
    }
    if back == toks {
      forall v | v in renames.Values && Name(v) in toks ensures v in renames {
        var i :| 0 <= i < |toks| && toks[i] == Name(v);
        assert back[i] == Name(v);
        var k :| k in renames && renames[k] == v;
      }
    }
  }

  // ----------------------------------------------- why the keys must be names

  /** For a one-entry map that changes its key, the regex pass is the token
      reading on every text exactly when the key is made of name characters. */
  lemma KeysMustBeNames(nc: CharClass, key: string, target: string)
    requires key != target
    ensures (forall t :: RenameText(nc, t, map[key := target], [key]) == Rename(nc, map[key := target], t))
            <==> IsName(nc, key)
  {
    var m := map[key := target];
    if IsName(nc, key) {
      forall t ensures RenameText(nc, t, m, [key]) == Rename(nc, m, t) {
        RenameTextIsTokenRename(nc, t, m, [key]);
      }
    } else {
      var toks := Tokenize(nc, key);
      TokenizeIsCanonical(nc, key);
      assert RenameTokens(m, toks) == toks;
      FlattenTokenize(nc, key);
      assert Rename(nc, m, key) == key;
      ScanAfterWhole(nc, key, m);
      assert RenameText(nc, key, m, [key]) != Rename(nc, m, key);
    }
  }

  /** The pass over the key itself yields the target and stops. */
  lemma ScanAfterWhole(nc: CharClass, key: string, m: map<string, string>)
    requires key in m && m == map[key := m[key]]
    ensures RenameText(nc, key, m, [key]) == m[key]
  {
    assert [key][1..] == [] && key[|key|..] == "";
    assert FirstMatch(nc, key, [key], false) == Some(key);
    assert FirstMatch(nc, "", [key], key == "") == None;
    var n := |key|;
    var after := if n == 0 then None else Some(key[n - 1]);
    assert Scan(nc, after, "", [key], m, n == 0) == "";
  }
}
