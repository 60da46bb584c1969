/** Reconciling the Arr apps against Plex (scripts/plex-arr-reconcile.py). */
module PlexArrReconcile {
  import opened Selection
  import opened Text

  datatype Library = Movies | AnimeMovies | Shows | AnimeShows

  function Prefix(lib: Library): string {
    match lib
    case Movies => "/data/movies/"
    case AnimeMovies => "/data/anime-movies/"
    case Shows => "/data/shows/"
    case AnimeShows => "/data/anime-shows/"
  }

  function LibraryOf(path: string): Option<Library> {
    if StartsWith(path, Prefix(Movies)) then Some(Movies)
    else if StartsWith(path, Prefix(AnimeMovies)) then Some(AnimeMovies)
    else if StartsWith(path, Prefix(Shows)) then Some(Shows)
    else if StartsWith(path, Prefix(AnimeShows)) then Some(AnimeShows)
    else None
  }

  datatype Bucket = MissingFromPlex | FileGone | Unsupported | OrphanInPlex | StaleInPlex

  predicate IsUnsupported(path: string) {
    var p := Lower(path);
    EndsWith(p, ".iso") || EndsWith(p, ".img") || EndsWith(p, ".mk3d") || EndsWith(p, ".bin") || EndsWith(p, ".nrg")
  }

  /** `classify`; None is the source's "ok". */
  function Classify(path: string, served: bool, onDisk: bool): Option<Bucket> {
    if served then None
    else if !onDisk then Some(FileGone)
    else if IsUnsupported(path) then Some(Unsupported)
    else Some(MissingFromPlex)
  }

  // ------------------------------------------------------------ the existence query

  /** "\n".join(paths): no newline after the last path. */
  function JoinLines(paths: seq<string>): string {
    if paths == [] then ""
    else if |paths| == 1 then paths[0]
    else paths[0] + "\n" + JoinLines(paths[1..])
  }

  /** The lines the shell's `while read` loop runs for: `read` reports failure on a
      last line that has no newline, so the loop never sees that line. */
  function ReadLines(input: string): seq<string>
    decreases |input|
  {
    var i := IndexOf(input, '\n');
    if i == |input| then [] else [input[..i]] + ReadLines(input[i + 1..])
  }

  /** What the loop prints: each line that names an existing file. */
  function Output(lines: seq<string>, disk: set<string>): string {
    if lines == [] then ""
    else (if lines[0] in disk then lines[0] + "\n" else "") + Output(lines[1..], disk)
  }

  /** `exists_in_plex_container` against the files that exist in the container. */
  function ExistsInContainer(paths: seq<string>, disk: set<string>): set<string> {
    if paths == [] then {}
    else set line | line in SplitLines(Output(ReadLines(JoinLines(paths)), disk)) && line != ""
  }

  /** What it is meant to answer: each path checked by itself. */
  function Present(paths: seq<string>, disk: set<string>): set<string> {
    set p | p in paths && p in disk
  }

  /** `s.split("\n")` */
  function Pieces(s: string): seq<string>
    decreases |s|
  {
    var i := IndexOf(s, '\n');
    if i == |s| then [s] else [s[..i]] + Pieces(s[i + 1..])
  }

  /** The lines of all paths; a path with newlines has several. */
  function AllPieces(paths: seq<string>): seq<string> {
    if paths == [] then [] else Pieces(paths[0]) + AllPieces(paths[1..])
  }

  /** The lines that the shell loop checks: those of all paths, without the very last. */
  function Asked(paths: seq<string>): seq<string> {
    var pieces := AllPieces(paths);
    if pieces == [] then [] else pieces[..|pieces| - 1]
  }

  lemma PiecesFirst(line: string, rest: string)
    requires NoNewline(line)
    ensures Pieces(line + "\n" + rest) == [line] + Pieces(rest)
  {
    var s := line + "\n" + rest;
    assert s == line + ['\n'] + rest;
    IndexOfAppend(line, '\n', rest);
    assert s[..|line|] == line && s[|line| + 1..] == rest;
  }

  lemma {:induction false} PiecesJoin(a: string, b: string)
    ensures Pieces(a + "\n" + b) == Pieces(a) + Pieces(b)
    decreases |a|
  {
    var i := IndexOf(a, '\n');
    IndexOfIsFirst(a, '\n');
    if i == |a| {
      PiecesFirst(a, b);
    } else {
      var head, tail := a[..i], a[i + 1..];
      PiecesJoin(tail, b);
      assert a == head + "\n" + tail;
      PiecesFirst(head, tail);
      PiecesFirst(head, tail + "\n" + b);
      Assoc(head + "\n", tail, "\n");
      Assoc(head + "\n", tail + "\n", b);
      Assoc([head], Pieces(tail), Pieces(b));
    }
  }

  lemma {:induction false} PiecesAreLines(s: string)
    ensures OneLiners(Pieces(s)) && Pieces(s) != []
    decreases |s|
  {
    IndexOfIsFirst(s, '\n');
    var i := IndexOf(s, '\n');
    if i < |s| {
      PiecesAreLines(s[i + 1..]);
    }
  }

  /** `read` yields every line but one that no newline ends. */
  lemma {:induction false} ReadLinesDropLast(s: string)
    ensures Pieces(s) != [] && ReadLines(s) == Pieces(s)[..|Pieces(s)| - 1]
    decreases |s|
  {
    var i := IndexOf(s, '\n');
    if i < |s| {
      ReadLinesDropLast(s[i + 1..]);
      var rest := Pieces(s[i + 1..]);
      assert ([s[..i]] + rest)[..|rest|] == [s[..i]] + rest[..|rest| - 1];
    }
  }

  lemma {:induction false} PiecesOfJoin(paths: seq<string>)
    requires paths != []
    ensures Pieces(JoinLines(paths)) == AllPieces(paths)
  {
    if |paths| == 1 {
      assert AllPieces(paths[1..]) == [];
    } else {
      PiecesOfJoin(paths[1..]);
      PiecesJoin(paths[0], JoinLines(paths[1..]));
    }
  }

  lemma {:induction false} AllPiecesAreLines(paths: seq<string>)
    ensures OneLiners(AllPieces(paths))
  {
    if paths != [] {
      PiecesAreLines(paths[0]);
      AllPiecesAreLines(paths[1..]);
    }
  }

  lemma {:induction false} OutputSplits(lines: seq<string>, disk: set<string>)
    requires OneLiners(lines)
    ensures forall l :: l in SplitLines(Output(lines, disk)) <==> l in lines && l in disk
  {
    if lines != [] {
      assert lines == [lines[0]] + lines[1..] && lines[0] in lines;
      OutputSplits(lines[1..], disk);
      var rest := Output(lines[1..], disk);
      if lines[0] in disk {
        SplitFirst(lines[0], rest);
      } else {
        assert Output(lines, disk) == rest;
      }
    }
  }

  /** What the loop reads is what is asked, and each of it is one line. */
  lemma AskedIsRead(paths: seq<string>)
    requires paths != []
    ensures ReadLines(JoinLines(paths)) == Asked(paths) && OneLiners(Asked(paths))
  {
    PiecesOfJoin(paths);
    ReadLinesDropLast(JoinLines(paths));
    AllPiecesAreLines(paths);
    forall l | l in Asked(paths) ensures l in AllPieces(paths) {
    }
  }

  /** The batched query answers for the lines of all paths but the very last line. */
  lemma BatchSkipsLast(paths: seq<string>, disk: set<string>, p: string)
    ensures p in ExistsInContainer(paths, disk) <==> p != "" && p in Asked(paths) && p in disk
  {
    if paths != [] {
      AskedIsRead(paths);
      OutputSplits(Asked(paths), disk);
    }
  }

  /** So it agrees with checking each path separately exactly when it asks for every
      path that is on disk, and nothing else it asks for is there. */
  lemma BatchIsExactIff(paths: seq<string>, disk: set<string>)
    ensures ExistsInContainer(paths, disk) == Present(paths, disk)
       <==> && (forall p | p in paths && p in disk :: p != "" && p in Asked(paths))
            && (forall l | l in Asked(paths) && l in disk :: l == "" || l in paths)
  {
    forall p ensures p in ExistsInContainer(paths, disk) <==> p != "" && p in Asked(paths) && p in disk {
      BatchSkipsLast(paths, disk, p);
    }
    if (forall p | p in paths && p in disk :: p != "" && p in Asked(paths))
       && (forall l | l in Asked(paths) && l in disk :: l == "" || l in paths) {
      assert ExistsInContainer(paths, disk) == Present(paths, disk);
    }
    if ExistsInContainer(paths, disk) == Present(paths, disk) {
      forall p | p in paths && p in disk ensures p != "" && p in Asked(paths) {
        assert p in Present(paths, disk);
      }
      forall l | l in Asked(paths) && l in disk ensures l == "" || l in paths {
        assert l != "" ==> l in Present(paths, disk);
      }
    }
  }

  /** A path with a newline is never asked for. */
  lemma NewlineIsNeverAsked(paths: seq<string>, p: string)
    requires !NoNewline(p)
    ensures p !in Asked(paths)
  {
    if paths != [] {
      AskedIsRead(paths);
    }
  }

  lemma {:induction false} OneLinersAreTheirPieces(paths: seq<string>)
    requires OneLiners(paths)
    ensures AllPieces(paths) == paths
  {
    if paths != [] {
      assert paths == [paths[0]] + paths[1..] && paths[0] in paths;
      IndexOfIsFirst(paths[0], '\n');
      OneLinersAreTheirPieces(paths[1..]);
    }
  }

  /** Of distinct paths without newlines all but the last are asked for. */
  lemma AllButLastAreAsked(paths: seq<string>, p: string)
    requires OneLiners(paths) && Distinct(paths) && p in paths
    ensures p in Asked(paths) <==> p != paths[|paths| - 1]
  {
    OneLinersAreTheirPieces(paths);
    LastIsAlone(paths);
  }

  // ------------------------------------------------------------ the report

  datatype Side = Arr | Plex

  /** The bucket of a path that one side lists, given what the other side lists. */
  function BucketOf(side: Side, path: string, other: set<string>, onDisk: set<string>): Option<Bucket> {
    if path in other then None
    else if side.Arr? then Classify(path, false, path in onDisk)
    else Some(if path in onDisk then OrphanInPlex else StaleInPlex)
  }

  function InLibrary(lib: Library): string -> bool {
    (path: string) => LibraryOf(path) == Some(lib)
  }

  function InBucket(side: Side, other: set<string>, onDisk: set<string>, lib: Library, b: Bucket): string -> bool {
    (path: string) => LibraryOf(path) == Some(lib) && BucketOf(side, path, other, onDisk) == Some(b)
  }

  function CountIn(paths: seq<string>, lib: Library): nat {
    |Filter(paths, InLibrary(lib))|
  }

  /** The paths of one library that go into one bucket, in order. */
  function Bucketed(side: Side, paths: seq<string>, other: set<string>, onDisk: set<string>, lib: Library,
                    b: Bucket): seq<string> {
    Filter(paths, InBucket(side, other, onDisk, lib, b))
  }

  datatype Row = Row(arr: nat, plex: nat, missing: seq<string>, gone: seq<string>, unsupported: seq<string>,
                     orphan: seq<string>, stale: seq<string>)

  /** One library's row, from the paths seen so far on each side. */
  function RowOf(arr: seq<string>, arrSet: set<string>, served: seq<string>, servedSet: set<string>,
                 onDisk: set<string>, lib: Library): Row {
    Row(CountIn(arr, lib), CountIn(served, lib),
        Bucketed(Arr, arr, servedSet, onDisk, lib, MissingFromPlex),
        Bucketed(Arr, arr, servedSet, onDisk, lib, FileGone),
        Bucketed(Arr, arr, servedSet, onDisk, lib, Unsupported),
        Bucketed(Plex, served, arrSet, onDisk, lib, OrphanInPlex),
        Bucketed(Plex, served, arrSet, onDisk, lib, StaleInPlex))
  }

  function AsSet(paths: seq<string>): set<string> {
    set p | p in paths
  }

  /** The paths the existence query asks about, sorted. */
  function Queries(arr: seq<string>, served: seq<string>): seq<string> {
    Sorted((set p | p in arr && LibraryOf(p).Some? && p !in served)
           + (set p | p in served && LibraryOf(p).Some? && p !in arr))
  }

  function FullRow(arr: seq<string>, served: seq<string>, onDisk: set<string>, lib: Library): Row {
    RowOf(arr, AsSet(arr), served, AsSet(served), onDisk, lib)
  }

  function ArrRow(row: Row, path: string, b: Option<Bucket>): Row {
    var r := row.(arr := row.arr + 1);
    match b
    case Some(MissingFromPlex) => r.(missing := r.missing + [path])
    case Some(FileGone) => r.(gone := r.gone + [path])
    case Some(Unsupported) => r.(unsupported := r.unsupported + [path])
    case _ => r
  }

  /** One row per library: the report. */
  ghost predicate IsReport(report: map<Library, Row>, arr: seq<string>, arrSet: set<string>, served: seq<string>,
                           servedSet: set<string>, onDisk: set<string>) {
    forall lib :: lib in report && report[lib] == RowOf(arr, arrSet, served, servedSet, onDisk, lib)
  }

  method EmptyReport() returns (report: map<Library, Row>)
    ensures forall lib :: lib in report && report[lib] == Row(0, 0, [], [], [], [], [])
  {
    var empty := Row(0, 0, [], [], [], [], []);
    report := map[Movies := empty, AnimeMovies := empty, Shows := empty, AnimeShows := empty];
    forall lib: Library ensures lib in report {
      assert lib == Movies || lib == AnimeMovies || lib == Shows || lib == AnimeShows;
    }
  }

  /** The loop over the Arr paths. */
  method BucketArr(arr: seq<string>, arrSet: set<string>, servedSet: set<string>, onDisk: set<string>)
    returns (report: map<Library, Row>)
    ensures IsReport(report, arr, arrSet, [], servedSet, onDisk)
  {
    report := EmptyReport();
    for i := 0 to |arr|
      invariant IsReport(report, arr[..i], arrSet, [], servedSet, onDisk)
    {
      var path := arr[i];
      ArrStep(arr, arrSet, servedSet, onDisk, i);
      var lib := LibraryOf(path);
      if lib.None? {
        continue;
      }
      var b := if path in servedSet then None else Classify(path, false, path in onDisk);
      report := report[lib.value := ArrRow(report[lib.value], path, b)];
    }
    assert arr[..|arr|] == arr;
  }

  /** The loop over the paths Plex serves. */
  method BucketPlex(start: map<Library, Row>, arr: seq<string>, arrSet: set<string>, served: seq<string>,
                    servedSet: set<string>, onDisk: set<string>)
    returns (report: map<Library, Row>)
    requires IsReport(start, arr, arrSet, [], servedSet, onDisk)
    ensures IsReport(report, arr, arrSet, served, servedSet, onDisk)
  {
    report := start;
    for i := 0 to |served|
      invariant IsReport(report, arr, arrSet, served[..i], servedSet, onDisk)
    {
      var path := served[i];
      PlexStep(arr, arrSet, served, servedSet, onDisk, i);
      var lib := LibraryOf(path);
      if lib.None? {
        continue;
      }
      var row := report[lib.value].(plex := report[lib.value].plex + 1);
      if path !in arrSet {
        if path in onDisk {
          row := row.(orphan := row.orphan + [path]);
        } else {
          row := row.(stale := row.stale + [path]);
        }
      }
      report := report[lib.value := row];
    }
    assert served[..|served|] == served;
  }

  /** The counting and bucketing of `main`; `arr` and `served` are the two path
      collections in the order they are iterated. */
  method Reconcile(arr: seq<string>, served: seq<string>, disk: set<string>) returns (report: map<Library, Row>)
    ensures forall lib :: lib in report
              && report[lib] == FullRow(arr, served, ExistsInContainer(Queries(arr, served), disk), lib)
  {
    var onDisk := ExistsInContainer(Queries(arr, served), disk);
    report := BucketArr(arr, AsSet(arr), AsSet(served), onDisk);
    report := BucketPlex(report, arr, AsSet(arr), served, AsSet(served), onDisk);
  }

  lemma ArrStep(arr: seq<string>, arrSet: set<string>, servedSet: set<string>, onDisk: set<string>, i: nat)
    requires i < |arr|
    ensures forall lib :: RowOf(arr[..i + 1], arrSet, [], servedSet, onDisk, lib)
              == var row := RowOf(arr[..i], arrSet, [], servedSet, onDisk, lib);
                 if LibraryOf(arr[i]) == Some(lib) then ArrRow(row, arr[i], BucketOf(Arr, arr[i], servedSet, onDisk))
                 else row
  {
    assert arr[..i + 1][..i] == arr[..i];
  }

  lemma PlexStep(arr: seq<string>, arrSet: set<string>, served: seq<string>, servedSet: set<string>,
                 onDisk: set<string>, i: nat)
    requires i < |served|
    ensures forall lib :: RowOf(arr, arrSet, served[..i + 1], servedSet, onDisk, lib)
              == var row := RowOf(arr, arrSet, served[..i], servedSet, onDisk, lib);
                 if LibraryOf(served[i]) != Some(lib) then row
                 else if served[i] in arrSet then row.(plex := row.plex + 1)
                 else if served[i] in onDisk then row.(plex := row.plex + 1, orphan := row.orphan + [served[i]])
                 else row.(plex := row.plex + 1, stale := row.stale + [served[i]])
  {
    assert served[..i + 1][..i] == served[..i];
  }

  // ------------------------------------------------------------ the balance

  function InBoth(other: set<string>, lib: Library): string -> bool {
    (path: string) => LibraryOf(path) == Some(lib) && path in other
  }

  /** The paths of a library that both sides list. */
  function Shared(paths: seq<string>, other: set<string>, lib: Library): seq<string> {
    Filter(paths, InBoth(other, lib))
  }

  lemma {:induction false} ArrSplits(arr: seq<string>, other: set<string>, onDisk: set<string>, lib: Library)
    ensures CountIn(arr, lib)
            == |Bucketed(Arr, arr, other, onDisk, lib, MissingFromPlex)|
               + |Bucketed(Arr, arr, other, onDisk, lib, FileGone)|
               + |Bucketed(Arr, arr, other, onDisk, lib, Unsupported)|
               + |Shared(arr, other, lib)|
  {
    if arr != [] {
      ArrSplits(arr[..|arr| - 1], other, onDisk, lib);
    }
  }

  lemma {:induction false} PlexSplits(served: seq<string>, other: set<string>, onDisk: set<string>, lib: Library)
    ensures CountIn(served, lib)
            == |Bucketed(Plex, served, other, onDisk, lib, OrphanInPlex)|
               + |Bucketed(Plex, served, other, onDisk, lib, StaleInPlex)|
               + |Shared(served, other, lib)|
  {
    if served != [] {
      PlexSplits(served[..|served| - 1], other, onDisk, lib);
    }
  }

  lemma {:induction false} DistinctSize(s: seq<string>)
    requires Distinct(s)
    ensures |AsSet(s)| == |s|
  {
    if s != [] {
      var init, last := s[..|s| - 1], s[|s| - 1];
      DistinctSize(init);
      assert s == init + [last];
      assert AsSet(s) == AsSet(init) + {last};
      assert last !in AsSet(init);
    }
  }

  /** In every library what Arr has beyond its problems is what Plex has beyond its own. */
  lemma Balance(arr: seq<string>, served: seq<string>, onDisk: set<string>, lib: Library)
    requires Distinct(arr) && Distinct(served)
    ensures var row := FullRow(arr, served, onDisk, lib);
            row.arr - (|row.missing| + |row.gone| + |row.unsupported|) == row.plex - (|row.orphan| + |row.stale|)
  {
    ArrSplits(arr, AsSet(served), onDisk, lib);
    PlexSplits(served, AsSet(arr), onDisk, lib);
    var both, other := Shared(arr, AsSet(served), lib), Shared(served, AsSet(arr), lib);
    FilterDistinct(arr, InBoth(AsSet(served), lib));
    FilterDistinct(served, InBoth(AsSet(arr), lib));
    forall p ensures p in both <==> p in other {
      FilterIff(arr, InBoth(AsSet(served), lib), p);
      FilterIff(served, InBoth(AsSet(arr), lib), p);
    }
    assert AsSet(both) == AsSet(other);
    DistinctSize(both);
    DistinctSize(other);
  }

  lemma BucketMembers(side: Side, paths: seq<string>, other: set<string>, onDisk: set<string>, lib: Library, b: Bucket)
    requires Distinct(paths)
    ensures forall p :: p in Bucketed(side, paths, other, onDisk, lib, b) <==>
              p in paths && LibraryOf(p) == Some(lib) && BucketOf(side, p, other, onDisk) == Some(b)
    ensures Distinct(Bucketed(side, paths, other, onDisk, lib, b))
  {
    var keep := InBucket(side, other, onDisk, lib, b);
    forall p ensures p in Filter(paths, keep) <==> p in paths && keep(p) {
      FilterIff(paths, keep, p);
    }
    FilterDistinct(paths, keep);
  }

  /** The five lists of a library's row, each in terms of the three collections. */
  lemma BucketsMean(arr: seq<string>, served: seq<string>, onDisk: set<string>, lib: Library, p: string)
    requires Distinct(arr) && Distinct(served)
    ensures var row := FullRow(arr, served, onDisk, lib);
            var unserved := LibraryOf(p) == Some(lib) && p in arr && p !in served;
            var unowned := LibraryOf(p) == Some(lib) && p in served && p !in arr;
            && (p in row.missing <==> unserved && p in onDisk && !IsUnsupported(p))
            && (p in row.unsupported <==> unserved && p in onDisk && IsUnsupported(p))
            && (p in row.gone <==> unserved && p !in onDisk)
            && (p in row.orphan <==> unowned && p in onDisk)
            && (p in row.stale <==> unowned && p !in onDisk)
  {
    BucketMembers(Arr, arr, AsSet(served), onDisk, lib, MissingFromPlex);
    BucketMembers(Arr, arr, AsSet(served), onDisk, lib, Unsupported);
    BucketMembers(Arr, arr, AsSet(served), onDisk, lib, FileGone);
    BucketMembers(Plex, served, AsSet(arr), onDisk, lib, OrphanInPlex);
    BucketMembers(Plex, served, AsSet(arr), onDisk, lib, StaleInPlex);
  }

  function Listed(row: Row, b: Bucket): seq<string> {
    match b
    case MissingFromPlex => row.missing
    case FileGone => row.gone
    case Unsupported => row.unsupported
    case OrphanInPlex => row.orphan
    case StaleInPlex => row.stale
  }

  function SideOf(b: Bucket): Side {
    if b.OrphanInPlex? || b.StaleInPlex? then Plex else Arr
  }

  lemma ListedMembers(arr: seq<string>, served: seq<string>, onDisk: set<string>, lib: Library, b: Bucket)
    requires Distinct(arr) && Distinct(served)
    ensures Distinct(Listed(FullRow(arr, served, onDisk, lib), b))
    ensures forall p | p in Listed(FullRow(arr, served, onDisk, lib), b) ::
              && LibraryOf(p) == Some(lib)
              && if SideOf(b).Arr? then p in arr && BucketOf(Arr, p, AsSet(served), onDisk) == Some(b)
                 else p in served && BucketOf(Plex, p, AsSet(arr), onDisk) == Some(b)
  {
    if SideOf(b).Arr? {
      BucketMembers(Arr, arr, AsSet(served), onDisk, lib, b);
    } else {
      BucketMembers(Plex, served, AsSet(arr), onDisk, lib, b);
    }
  }

  /** Over the whole report a path is in at most one bucket, and there once. */
  lemma OneBucketEach(arr: seq<string>, served: seq<string>, onDisk: set<string>, lib: Library, b: Bucket,
                      lib': Library, b': Bucket)
    requires Distinct(arr) && Distinct(served)
    ensures Distinct(Listed(FullRow(arr, served, onDisk, lib), b))
    ensures (lib, b) != (lib', b') ==>
              forall p | p in Listed(FullRow(arr, served, onDisk, lib), b) ::
                p !in Listed(FullRow(arr, served, onDisk, lib'), b')
  {
    ListedMembers(arr, served, onDisk, lib, b);
    ListedMembers(arr, served, onDisk, lib', b');
  }

  // ------------------------------------------------------------ what the batch does to the report

  lemma QueryMembers(arr: seq<string>, served: seq<string>)
    ensures var q := Queries(arr, served);
            && Distinct(q)
            && forall p :: p in q <==> LibraryOf(p).Some? && ((p in arr && p !in served) || (p in served && p !in arr))
  {
  }

  lemma LibraryPathsAreNotEmpty(p: string)
    requires LibraryOf(p).Some?
    ensures p != ""
  {
    assert LibraryOf("").None?;
  }

  lemma QueriesAreDistinct(arr: seq<string>, served: seq<string>)
    ensures var q := Queries(arr, served); Distinct(q) && forall p | p in q :: p != ""
    ensures OneLiners(arr) && OneLiners(served) ==> OneLiners(Queries(arr, served))
  {
    QueryMembers(arr, served);
    forall p | p in Queries(arr, served) ensures p != "" {
      LibraryPathsAreNotEmpty(p);
    }
  }

  /** Rows only look at the queried paths. */
  lemma {:induction false} SameBuckets(side: Side, paths: seq<string>, other: set<string>, onDisk: set<string>,
                                       onDisk': set<string>, lib: Library, b: Bucket)
    requires forall p | p in paths && LibraryOf(p).Some? && p !in other :: p in onDisk <==> p in onDisk'
    ensures Bucketed(side, paths, other, onDisk, lib, b) == Bucketed(side, paths, other, onDisk', lib, b)
  {
    if paths != [] {
      var init, last := paths[..|paths| - 1], paths[|paths| - 1];
      assert paths == init + [last];
      SameBuckets(side, init, other, onDisk, onDisk', lib, b);
    }
  }

  lemma SameRow(arr: seq<string>, served: seq<string>, onDisk: set<string>, onDisk': set<string>, lib: Library)
    requires forall p | p in Queries(arr, served) :: p in onDisk <==> p in onDisk'
    ensures FullRow(arr, served, onDisk, lib) == FullRow(arr, served, onDisk', lib)
  {
    QueryMembers(arr, served);
    SameBuckets(Arr, arr, AsSet(served), onDisk, onDisk', lib, MissingFromPlex);
    SameBuckets(Arr, arr, AsSet(served), onDisk, onDisk', lib, FileGone);
    SameBuckets(Arr, arr, AsSet(served), onDisk, onDisk', lib, Unsupported);
    SameBuckets(Plex, served, AsSet(arr), onDisk, onDisk', lib, OrphanInPlex);
    SameBuckets(Plex, served, AsSet(arr), onDisk, onDisk', lib, StaleInPlex);
  }

  /** Two answers about the disk that give one report. */
  ghost predicate SameReport(arr: seq<string>, served: seq<string>, onDisk: set<string>, onDisk': set<string>) {
    forall lib :: FullRow(arr, served, onDisk, lib) == FullRow(arr, served, onDisk', lib)
  }

  /** They do so exactly when they agree on every queried path. */
  lemma SameReportIff(arr: seq<string>, served: seq<string>, onDisk: set<string>, onDisk': set<string>)
    requires Distinct(arr) && Distinct(served)
    ensures SameReport(arr, served, onDisk, onDisk')
       <==> forall p | p in Queries(arr, served) :: p in onDisk <==> p in onDisk'
  {
    QueryMembers(arr, served);
    if forall p | p in Queries(arr, served) :: p in onDisk <==> p in onDisk' {
      forall lib ensures FullRow(arr, served, onDisk, lib) == FullRow(arr, served, onDisk', lib) {
        SameRow(arr, served, onDisk, onDisk', lib);
      }
    } else {
      var p :| p in Queries(arr, served) && (p in onDisk <==> p !in onDisk');
      if p in onDisk {
        LastPathMoves(arr, served, p, onDisk', onDisk);
      } else {
        LastPathMoves(arr, served, p, onDisk, onDisk');
      }
    }
  }

  /** The query asks for every path that is on disk. */
  ghost predicate AsksForAll(q: seq<string>, disk: set<string>) {
    forall p | p in q && p in disk :: p in Asked(q)
  }

  lemma BatchFindsIff(q: seq<string>, disk: set<string>)
    requires forall p | p in q :: p != ""
    ensures (forall p | p in q :: p in ExistsInContainer(q, disk) <==> p in Present(q, disk))
       <==> AsksForAll(q, disk)
  {
    forall p | p in q
      ensures (p in ExistsInContainer(q, disk) <==> p in Present(q, disk)) <==> (p in disk ==> p in Asked(q))
    {
      BatchSkipsLast(q, disk, p);
    }
  }

  /** The report built from the batched query is the one built by checking every path
      separately, if and only if every queried path that is on disk is asked for. */
  lemma BatchedReportIff(arr: seq<string>, served: seq<string>, disk: set<string>)
    requires Distinct(arr) && Distinct(served)
    ensures var q := Queries(arr, served);
            SameReport(arr, served, ExistsInContainer(q, disk), Present(q, disk))
            <==> AsksForAll(q, disk)
  {
    var q := Queries(arr, served);
    QueriesAreDistinct(arr, served);
    SameReportIff(arr, served, ExistsInContainer(q, disk), Present(q, disk));
    BatchFindsIff(q, disk);
  }

  predicate LastIsOffDisk(q: seq<string>, disk: set<string>) {
    q == [] || q[|q| - 1] !in disk
  }

  lemma OneLinersAskIff(q: seq<string>, disk: set<string>)
    requires OneLiners(q) && Distinct(q)
    ensures AsksForAll(q, disk) <==> LastIsOffDisk(q, disk)
  {
    forall p | p in q ensures p in Asked(q) <==> p != q[|q| - 1] {
      AllButLastAreAsked(q, p);
    }
    if q != [] {
      assert q[|q| - 1] in q;
    }
  }

  lemma QueriesAskIff(arr: seq<string>, served: seq<string>, disk: set<string>)
    requires OneLiners(arr) && OneLiners(served)
    ensures AsksForAll(Queries(arr, served), disk) <==> LastIsOffDisk(Queries(arr, served), disk)
  {
    QueriesAreDistinct(arr, served);
    OneLinersAskIff(Queries(arr, served), disk);
  }

  /** Without newlines in the paths: if and only if the last queried path, in sorted
      order, is not on disk. */
  lemma OneLineReportIff(arr: seq<string>, served: seq<string>, disk: set<string>)
    requires Distinct(arr) && Distinct(served) && OneLiners(arr) && OneLiners(served)
    ensures var q := Queries(arr, served);
            SameReport(arr, served, ExistsInContainer(q, disk), Present(q, disk)) <==> LastIsOffDisk(q, disk)
  {
    BatchedReportIff(arr, served, disk);
    QueriesAskIff(arr, served, disk);
  }

  /** A path with a newline that Plex does not list is reported gone, whatever is on disk;
      one that only Plex lists is reported stale. */
  lemma NewlinePathIsReportedGone(arr: seq<string>, served: seq<string>, disk: set<string>, lib: Library, p: string)
    requires Distinct(arr) && Distinct(served) && LibraryOf(p) == Some(lib) && !NoNewline(p)
    ensures var row := FullRow(arr, served, ExistsInContainer(Queries(arr, served), disk), lib);
            && (p in arr && p !in served ==> p in row.gone)
            && (p in served && p !in arr ==> p in row.stale)
  {
    var q := Queries(arr, served);
    NewlineIsNeverAsked(q, p);
    BatchSkipsLast(q, disk, p);
    BucketsMean(arr, served, ExistsInContainer(q, disk), lib, p);
  }

  /** Hence a last path that is not on disk does not suffice: here the only file on disk,
      which has a newline in its name, comes first, and is not asked for. */
  lemma LastOffDiskIsNotEnough(a: string, z: string)
    requires a != z && LexLe(a, z) && !NoNewline(a) && LibraryOf(a).Some? && LibraryOf(z).Some?
    ensures var q := Queries([a, z], []);
            && q == [a, z] && z !in {a}
            && a !in ExistsInContainer(q, {a}) && a in Present(q, {a})
            && a in FullRow([a, z], [], ExistsInContainer(q, {a}), LibraryOf(a).value).gone
            && a !in FullRow([a, z], [], Present(q, {a}), LibraryOf(a).value).gone
  {
    var q := Queries([a, z], []);
    TwoQueries(a, z);
    NewlineIsNeverAsked(q, a);
    BatchSkipsLast(q, {a}, a);
    BucketsMean([a, z], [], ExistsInContainer(q, {a}), LibraryOf(a).value, a);
    BucketsMean([a, z], [], Present(q, {a}), LibraryOf(a).value, a);
  }

  lemma TwoQueries(a: string, z: string)
    requires a != z && LexLe(a, z) && LibraryOf(a).Some? && LibraryOf(z).Some?
    ensures Queries([a, z], []) == [a, z]
  {
    var q := (set p | p in [a, z] && LibraryOf(p).Some? && p !in []);
    assert q + (set p | p in [] && LibraryOf(p).Some? && p !in [a, z]) == {a, z};
    SortedTwo(a, z);
  }

  /** A queried path that one answer finds and the other does not lands in different buckets. */
  lemma LastPathMoves(arr: seq<string>, served: seq<string>, p: string, onDisk: set<string>, onDisk': set<string>)
    requires Distinct(arr) && Distinct(served) && LibraryOf(p).Some?
    requires (p in arr && p !in served) || (p in served && p !in arr)
    requires p !in onDisk && p in onDisk'
    ensures FullRow(arr, served, onDisk, LibraryOf(p).value) != FullRow(arr, served, onDisk', LibraryOf(p).value)
  {
    var lib := LibraryOf(p).value;
    BucketMembers(Arr, arr, AsSet(served), onDisk, lib, FileGone);
    BucketMembers(Arr, arr, AsSet(served), onDisk', lib, FileGone);
    BucketMembers(Plex, served, AsSet(arr), onDisk, lib, StaleInPlex);
    BucketMembers(Plex, served, AsSet(arr), onDisk', lib, StaleInPlex);
    if p in arr {
      assert p in FullRow(arr, served, onDisk, lib).gone && p !in FullRow(arr, served, onDisk', lib).gone;
    } else {
      assert p in FullRow(arr, served, onDisk, lib).stale && p !in FullRow(arr, served, onDisk', lib).stale;
    }
  }

  /** Such input exists: the only file, present on disk and unknown to Plex, is reported gone. */
  lemma LoneFileIsReportedGone(path: string)
    requires LibraryOf(path) == Some(Movies) && NoNewline(path) && !IsUnsupported(path)
    ensures ExistsInContainer(Queries([path], []), {path}) == {}
    ensures path in FullRow([path], [], {}, Movies).gone
    ensures path in FullRow([path], [], Present(Queries([path], []), {path}), Movies).missing
  {
    QueryMembers([path], []);
    var q := Queries([path], []);
    assert q == [path] by {
      assert path in q;
      assert forall i | 0 <= i < |q| :: q[i] in q;
    }
    assert q[0] == path;
    forall p ensures p !in ExistsInContainer(q, {path}) {
      BatchSkipsLast(q, {path}, p);
      if p == path {
        AllButLastAreAsked(q, p);
      }
    }
    BucketsMean([path], [], {}, Movies, path);
    BucketsMean([path], [], Present(q, {path}), Movies, path);
  }

  lemma LastCharacter(s: string, suffix: string)
    requires suffix != "" && EndsWith(s, suffix)
    ensures s[|s| - 1] == suffix[|suffix| - 1]
  {
    assert s[|s| - |suffix|..][|suffix| - 1] == s[|s| - 1];
  }

  lemma SupportedByLastCharacter(path: string)
    requires path != "" && path[|path| - 1] == 'x'
    ensures !IsUnsupported(path)
  {
    LowerAt(path);
    forall suffix: string | suffix != "" && suffix[|suffix| - 1] != 'x' ensures !EndsWith(Lower(path), suffix) {
      if EndsWith(Lower(path), suffix) {
        LastCharacter(Lower(path), suffix);
      }
    }
  }

  lemma MovieIsReportedGone(path: string)
    requires path == "/data/movies/" + "x"
    ensures path in FullRow([path], [], ExistsInContainer(Queries([path], []), {path}), Movies).gone
  {
    assert path[..13] == "/data/movies/";
    SupportedByLastCharacter(path);
    LoneFileIsReportedGone(path);
  }
}
