/** The filtered Sonarr index (scripts/checkrr-badfiles-report.py). An absent or empty
    path is "". Requests are parameters: `fetch(id)` answers the episode-file request
    for one series, None when it fails. */
module SonarrIndex {
  import opened Text

  datatype Series = Series(path: string, id: int, title: string)
  datatype File = File(path: string, id: int)
  datatype Record = Record(series: Series, file: File)

  type Fetch = int -> Option<seq<File>>

  // ------------------------------------------------------------ folders

  /** `path.rstrip("/")` */
  function RStripSlash(path: string): string {
    if path == "" || path[|path| - 1] != '/' then path else RStripSlash(path[..|path| - 1])
  }

  function Root(folder: string): string {
    RStripSlash(folder) + "/"
  }

  predicate Under(path: string, folder: string) {
    StartsWith(path, Root(folder))
  }

  // ------------------------------------------------------------ the series by path

  /** A dictionary with its insertion order. */
  datatype ByPath = ByPath(keys: seq<string>, series: map<string, Series>)

  ghost predicate WellFormed(d: ByPath) {
    && Distinct(d.keys)
    && (forall k :: k in d.keys <==> k in d.series)
    && (forall k | k in d.series :: d.series[k].path == k)
  }

  function Insert(d: ByPath, s: Series): ByPath {
    ByPath(if s.path in d.series then d.keys else d.keys + [s.path], d.series[s.path := s])
  }

  function Collected(series: seq<Series>): (d: ByPath)
    ensures WellFormed(d)
    ensures forall k :: k in d.series <==> k != "" && exists s :: s in series && s.path == k
  {
    if series == [] then ByPath([], map[])
    else
      var d, s := Collected(series[..|series| - 1]), series[|series| - 1];
      assert series == series[..|series| - 1] + [s];
      if s.path == "" then d else Insert(d, s)
  }

  // ------------------------------------------------------------ which series are needed

  /** The first folder, in dictionary order, that holds the path. */
  function FolderOf(keys: seq<string>, path: string): Option<string> {
    if keys == [] then None
    else if Under(path, keys[0]) then Some(keys[0])
    else FolderOf(keys[1..], path)
  }

  function Needed(keys: seq<string>, wanted: seq<string>): set<string> {
    set p | p in wanted && FolderOf(keys, p).Some? :: FolderOf(keys, p).value
  }

  lemma {:induction false} FolderOfIsKey(keys: seq<string>, path: string)
    ensures FolderOf(keys, path).Some? ==> FolderOf(keys, path).value in keys && Under(path, FolderOf(keys, path).value)
    ensures FolderOf(keys, path).None? ==> forall k | k in keys :: !Under(path, k)
  {
    if keys != [] && !Under(path, keys[0]) {
      FolderOfIsKey(keys[1..], path);
    }
  }

  // ------------------------------------------------------------ the index

  /** Adds a series' files; a later file replaces an earlier one with the same path. */
  function Fill(index: map<string, Record>, s: Series, files: seq<File>): map<string, Record> {
    if files == [] then index
    else
      var before, ef := Fill(index, s, files[..|files| - 1]), files[|files| - 1];
      if ef.path == "" then before else before[ef.path := Record(s, ef)]
  }

  function FillFrom(index: map<string, Record>, s: Series, fetch: Fetch): map<string, Record> {
    if fetch(s.id).Some? then Fill(index, s, fetch(s.id).value) else index
  }

  function Build(folders: seq<string>, series: map<string, Series>, fetch: Fetch): map<string, Record>
    requires forall f | f in folders :: f in series
  {
    if folders == [] then map[]
    else
      FillFrom(Build(folders[..|folders| - 1], series, fetch), series[folders[|folders| - 1]], fetch)
  }

  /** What `build_sonarr_index` returns. */
  function Filtered(series: seq<Series>, wanted: seq<string>, fetch: Fetch): map<string, Record> {
    var d := Collected(series);
    NeededAreKeys(d.keys, wanted);
    Build(Sorted(Needed(d.keys, wanted)), d.series, fetch)
  }

  /** Every request is answered. */
  function Answered(files: int -> seq<File>): Fetch {
    id => Some(files(id))
  }

  /** The index over every series, with all requests answered. */
  function Full(series: seq<Series>, files: int -> seq<File>): map<string, Record> {
    var d := Collected(series);
    Build(Sorted(d.series.Keys), d.series, Answered(files))
  }

  lemma NeededAreKeys(keys: seq<string>, wanted: seq<string>)
    ensures forall f | f in Needed(keys, wanted) :: f in keys
  {
    forall f | f in Needed(keys, wanted) ensures f in keys {
      var p :| p in wanted && FolderOf(keys, p).Some? && FolderOf(keys, p).value == f;
      FolderOfIsKey(keys, p);
    }
  }

  // ------------------------------------------------------------ the code

  method CollectByPath(series: seq<Series>) returns (d: ByPath)
    ensures d == Collected(series)
  {
    d := ByPath([], map[]);
    for i := 0 to |series|
      invariant d == Collected(series[..i])
    {
      assert series[..i + 1][..i] == series[..i];
      if series[i].path != "" {
        d := Insert(d, series[i]);
      }
    }
    assert series[..|series|] == series;
  }

  method FindNeeded(keys: seq<string>, wanted: seq<string>) returns (needed: set<string>)
    ensures needed == Needed(keys, wanted)
  {
    needed := {};
    for i := 0 to |wanted|
      invariant needed == Needed(keys, wanted[..i])
    {
      var path := wanted[i];
      ghost var before := needed;
      var j := 0;
      while j < |keys|
        invariant j <= |keys| && needed == before
        invariant FolderOf(keys, path) == FolderOf(keys[j..], path)
      {
        if Under(path, keys[j]) {
          needed := needed + {keys[j]};
          break;
        }
        j := j + 1;
      }
      assert needed == before + (if FolderOf(keys, path).Some? then {FolderOf(keys, path).value} else {});
      NeededNext(keys, wanted, i);
    }
    assert wanted[..|wanted|] == wanted;
  }

  lemma NeededNext(keys: seq<string>, wanted: seq<string>, i: nat)
    requires i < |wanted|
    ensures Needed(keys, wanted[..i + 1])
         == Needed(keys, wanted[..i])
            + if FolderOf(keys, wanted[i]).Some? then {FolderOf(keys, wanted[i]).value} else {}
  {
    assert wanted[..i + 1] == wanted[..i] + [wanted[i]];
  }

  method AddFiles(index: map<string, Record>, s: Series, files: seq<File>) returns (filled: map<string, Record>)
    ensures filled == Fill(index, s, files)
  {
    filled := index;
    for j := 0 to |files|
      invariant filled == Fill(index, s, files[..j])
    {
      var ef := files[j];
      assert files[..j + 1][..j] == files[..j];
      if ef.path == "" {
        continue;
      }
      filled := filled[ef.path := Record(s, ef)];
    }
    assert files[..|files|] == files;
  }

  method ReadFolders(order: seq<string>, series: map<string, Series>, fetch: Fetch)
    returns (index: map<string, Record>)
    requires forall f | f in order :: f in series
    ensures index == Build(order, series, fetch)
  {
    index := map[];
    for i := 0 to |order|
      invariant index == Build(order[..i], series, fetch)
    {
      var s := series[order[i]];
      var files := fetch(s.id);
      assert order[..i + 1][..i] == order[..i];
      if files.None? {
        continue;
      }
      index := AddFiles(index, s, files.value);
    }
    assert order[..|order|] == order;
  }

  method BuildSonarrIndex(series: seq<Series>, wanted: seq<string>, fetch: Fetch)
    returns (index: map<string, Record>)
    ensures index == Filtered(series, wanted, fetch)
  {
    var d := CollectByPath(series);
    var needed := FindNeeded(d.keys, wanted);
    NeededAreKeys(d.keys, wanted);
    index := ReadFolders(Sorted(needed), d.series, fetch);
  }

  // ------------------------------------------------------------ looking a path up

  function Lookup(index: map<string, Record>, path: string): Option<Record> {
    if path in index then Some(index[path]) else None
  }

  /** The last file of a listing with the given path. */
  function Listing(files: seq<File>, path: string): Option<File> {
    if files == [] || path == "" then None
    else if files[|files| - 1].path == path then Some(files[|files| - 1])
    else Listing(files[..|files| - 1], path)
  }

  lemma {:induction false} FillLookup(index: map<string, Record>, s: Series, files: seq<File>, path: string)
    ensures Lookup(Fill(index, s, files), path)
         == if Listing(files, path).Some? then Some(Record(s, Listing(files, path).value)) else Lookup(index, path)
  {
    if files != [] {
      FillLookup(index, s, files[..|files| - 1], path);
    }
  }

  lemma {:induction false} ListingIn(files: seq<File>, path: string)
    requires Listing(files, path).Some?
    ensures Listing(files, path).value in files && Listing(files, path).value.path == path != ""
  {
    if files[|files| - 1].path != path {
      ListingIn(files[..|files| - 1], path);
    }
  }

  /** Every series' files lie under its own folder. */
  ghost predicate OwnFolders(series: map<string, Series>, files: int -> seq<File>) {
    forall k, f | k in series && f in files(series[k].id) && f.path != "" :: Under(f.path, k)
  }

  ghost predicate NotNested(series: map<string, Series>) {
    forall a, b | a in series && b in series && a != b :: !StartsWith(Root(a), Root(b))
  }

  lemma PrefixesCompare(path: string, a: string, b: string)
    requires StartsWith(path, a) && StartsWith(path, b)
    ensures StartsWith(a, b) || StartsWith(b, a)
  {
    if |a| <= |b| {
      assert b[..|a|] == path[..|b|][..|a|];
    } else {
      assert a[..|b|] == path[..|a|][..|b|];
    }
  }

  lemma OneFolder(series: map<string, Series>, path: string, a: string, b: string)
    requires NotNested(series) && a in series && b in series
    requires Under(path, a) && Under(path, b)
    ensures a == b
  {
    PrefixesCompare(path, Root(a), Root(b));
  }

  /** Answers may be missing, but never differ from the listing. */
  ghost predicate Answers(fetch: Fetch, files: int -> seq<File>) {
    forall id :: fetch(id).Some? ==> fetch(id).value == files(id)
  }

  /** The record a path has once folder `k` has been read. */
  function RecordIn(s: Series, fetch: Fetch, path: string): Option<Record> {
    if fetch(s.id).Some? && Listing(fetch(s.id).value, path).Some?
    then Some(Record(s, Listing(fetch(s.id).value, path).value)) else None
  }

  // ------------------------------------------------------------ which folder decides

  /** The last of the folders that was read and lists a path. */
  function LastLister(folders: seq<string>, series: map<string, Series>, fetch: Fetch, path: string)
    : (last: Option<string>)
    requires forall f | f in folders :: f in series
    ensures last.Some? ==> last.value in folders
  {
    if folders == [] then None
    else
      var init, last := folders[..|folders| - 1], folders[|folders| - 1];
      if RecordIn(series[last], fetch, path).Some? then Some(last) else LastLister(init, series, fetch, path)
  }

  /** An index has the record of the last folder that was read and lists the path. */
  lemma {:induction false} BuildLast(folders: seq<string>, series: map<string, Series>, fetch: Fetch, path: string)
    requires forall f | f in folders :: f in series
    ensures var last := LastLister(folders, series, fetch, path);
            && (last.Some? ==> last.value in folders && RecordIn(series[last.value], fetch, path).Some?)
            && Lookup(Build(folders, series, fetch), path)
               == if last.None? then None else RecordIn(series[last.value], fetch, path)
  {
    if folders != [] {
      var init, last := folders[..|folders| - 1], folders[|folders| - 1];
      assert folders == init + [last];
      BuildLast(init, series, fetch, path);
      if fetch(series[last].id).Some? {
        FillLookup(Build(init, series, fetch), series[last], fetch(series[last].id).value, path);
      }
    }
  }

  ghost predicate Ordered(folders: seq<string>) {
    forall i, j | 0 <= i < j < |folders| :: LexLe(folders[i], folders[j])
  }

  lemma {:induction false} LastIsGreatest(folders: seq<string>, series: map<string, Series>, fetch: Fetch, path: string,
                                          g: string)
    requires forall f | f in folders :: f in series
    requires Ordered(folders) && g in folders && RecordIn(series[g], fetch, path).Some?
    ensures var last := LastLister(folders, series, fetch, path);
            last.Some? && LexLe(g, last.value)
  {
    var init, last := folders[..|folders| - 1], folders[|folders| - 1];
    assert folders == init + [last];
    if RecordIn(series[last], fetch, path).Some? {
      var k :| 0 <= k < |folders| && folders[k] == g;
      LexTotal(last, last);
    } else {
      LastIsGreatest(init, series, fetch, path, g);
    }
  }

  // ------------------------------------------------------------ results

  /** For any folders and any failures: filtered and full index agree on a path exactly
      when no folder lists it, or the last folder in sorted order that does is a needed
      one and its request was answered. */
  lemma AgreeIff(series: seq<Series>, wanted: seq<string>, files: int -> seq<File>, fetch: Fetch, path: string)
    requires Answers(fetch, files)
    ensures var d := Collected(series);
            var last := LastLister(Sorted(d.series.Keys), d.series, Answered(files), path);
            Lookup(Filtered(series, wanted, fetch), path) == Lookup(Full(series, files), path)
            <==> (last.Some? ==> last.value in Needed(d.keys, wanted) && fetch(d.series[last.value].id).Some?)
  {
    var d := Collected(series);
    NeededAreKeys(d.keys, wanted);
    SelectionAgreesIff(Needed(d.keys, wanted), d.series, files, fetch, path);
  }

  lemma SelectionAgreesIff(needed: set<string>, series: map<string, Series>, files: int -> seq<File>, fetch: Fetch,
                           path: string)
    requires needed <= series.Keys && Answers(fetch, files) && forall k | k in series :: series[k].path == k
    ensures var last := LastLister(Sorted(series.Keys), series, Answered(files), path);
            Lookup(Build(Sorted(needed), series, fetch), path)
              == Lookup(Build(Sorted(series.Keys), series, Answered(files)), path)
            <==> (last.Some? ==> last.value in needed && fetch(series[last.value].id).Some?)
  {
    var all, some := Sorted(series.Keys), Sorted(needed);
    BuildLast(all, series, Answered(files), path);
    BuildLast(some, series, fetch, path);
    SameLastIff(some, all, series, files, fetch, path);
  }

  /** Of two ordered lists of folders, one within the other, the same folder is the last
      one read that lists the path, if and only if that folder is in both and was read. */
  lemma SameLastIff(some: seq<string>, all: seq<string>, series: map<string, Series>, files: int -> seq<File>,
                    fetch: Fetch, path: string)
    requires (forall f | f in all :: f in series) && (forall f | f in some :: f in all)
    requires Ordered(some) && Ordered(all) && Answers(fetch, files)
    ensures var last, found := LastLister(all, series, Answered(files), path), LastLister(some, series, fetch, path);
            && (found == last <==> (last.Some? ==> last.value in some && fetch(series[last.value].id).Some?))
            && (found.Some? ==> last.Some?)
  {
    var last, found := LastLister(all, series, Answered(files), path), LastLister(some, series, fetch, path);
    BuildLast(all, series, Answered(files), path);
    BuildLast(some, series, fetch, path);
    if found.Some? {
      LastIsGreatest(all, series, Answered(files), path, found.value);
    }
    if last.Some? && last.value in some && fetch(series[last.value].id).Some? {
      LastIsGreatest(some, series, fetch, path, last.value);
      LexTotal(found.value, last.value);
    }
  }

  /** With series folders that are not nested and files under their own series'
      folder, the filtered index and the index over every series agree on a wanted
      path exactly when the path is unknown or its series' request was answered. */
  lemma WantedPathsAgreeIff(series: seq<Series>, wanted: seq<string>, files: int -> seq<File>, fetch: Fetch,
                            path: string)
    requires NotNested(Collected(series).series) && OwnFolders(Collected(series).series, files)
    requires Answers(fetch, files)
    requires path in wanted
    ensures var all := Lookup(Full(series, files), path);
            Lookup(Filtered(series, wanted, fetch), path) == all
            <==> (all.Some? ==> fetch(all.value.series.id).Some?)
  {
    var d := Collected(series);
    AgreeIff(series, wanted, files, fetch, path);
    BuildLast(Sorted(d.series.Keys), d.series, Answered(files), path);
    var last := LastLister(Sorted(d.series.Keys), d.series, Answered(files), path);
    if last.Some? {
      OwnFolderIsNeeded(d.keys, d.series, wanted, files, path, last.value);
    }
  }

  /** The folder of a wanted file is a needed one. */
  lemma OwnFolderIsNeeded(keys: seq<string>, series: map<string, Series>, wanted: seq<string>,
                          files: int -> seq<File>, path: string, k: string)
    requires NotNested(series) && OwnFolders(series, files) && path in wanted
    ensures (forall f :: f in keys <==> f in series) && k in series && Listing(files(series[k].id), path).Some?
            ==> k in Needed(keys, wanted)
  {
    if (forall f :: f in keys <==> f in series) && k in series && Listing(files(series[k].id), path).Some? {
      ListingIn(files(series[k].id), path);
      FolderOfIsKey(keys, path);
      OneFolder(series, path, FolderOf(keys, path).value, k);
    }
  }

  lemma {:induction false} BuildFoundIff(folders: seq<string>, series: map<string, Series>, files: int -> seq<File>,
                                         path: string)
    requires forall f | f in folders :: f in series
    ensures Lookup(Build(folders, series, Answered(files)), path).Some?
       <==> exists f | f in folders :: Listing(files(series[f].id), path).Some?
  {
    if folders != [] {
      var init, last := folders[..|folders| - 1], folders[|folders| - 1];
      assert folders == init + [last];
      BuildFoundIff(init, series, files, path);
      FillLookup(Build(init, series, Answered(files)), series[last], files(series[last].id), path);
    }
  }

  /** Without any condition on the folders: a path is found exactly when the first
      folder, in listing order, of some wanted path lists it. */
  lemma FoundIff(series: seq<Series>, wanted: seq<string>, files: int -> seq<File>, path: string)
    ensures var d := Collected(series);
            Lookup(Filtered(series, wanted, Answered(files)), path).Some?
            <==> exists p | p in wanted :: FolderOf(d.keys, p).Some? && FolderOf(d.keys, p).value in d.series
                   && Listing(files(d.series[FolderOf(d.keys, p).value].id), path).Some?
  {
    var d := Collected(series);
    NeededAreKeys(d.keys, wanted);
    var needed := Needed(d.keys, wanted);
    BuildFoundIff(Sorted(needed), d.series, files, path);
    forall p | p in wanted && FolderOf(d.keys, p).Some? ensures FolderOf(d.keys, p).value in needed {
    }
  }

  lemma LoneWantedFoundIff(series: seq<Series>, files: int -> seq<File>, path: string, k: string)
    ensures var d := Collected(series);
            k in d.series && FolderOf(d.keys, path) == Some(k) ==>
              (Lookup(Filtered(series, [path], Answered(files)), path).Some?
               <==> Listing(files(d.series[k].id), path).Some?)
  {
    assert path in [path];
    FoundIff(series, [path], files, path);
  }

  lemma FullFinds(series: seq<Series>, files: int -> seq<File>, path: string, k: string)
    ensures var d := Collected(series);
            k in d.series && Listing(files(d.series[k].id), path).Some? ==> Lookup(Full(series, files), path).Some?
  {
    var byPath := Collected(series).series;
    var folders := Sorted(byPath.Keys);
    assert k in folders <==> k in byPath;
    BuildFoundIff(folders, byPath, files, path);
  }

  lemma CollectTwo(one: Series, two: Series)
    requires one.path != "" && two.path != "" && one.path != two.path
    ensures Collected([one, two]) == ByPath([one.path, two.path], map[one.path := one, two.path := two])
  {
    assert [one, two][..1] == [one] && [one][..0] == [];
    assert Collected([one]) == Insert(ByPath([], map[]), one) == ByPath([one.path], map[one.path := one]);
    assert [one.path] + [two.path] == [one.path, two.path];
  }

  /** A wanted file of the second folder that also lies under the first is looked for
      in the first only, and lost. */
  lemma EarlierFolderHidesFile(one: Series, two: Series, files: int -> seq<File>, path: string)
    requires one.path != "" && two.path != "" && one.path != two.path
    requires Under(path, one.path) && Listing(files(one.id), path).None?
    requires Listing(files(two.id), path).Some?
    ensures Lookup(Filtered([one, two], [path], Answered(files)), path).None?
    ensures Lookup(Full([one, two], files), path).Some?
  {
    CollectTwo(one, two);
    var d := Collected([one, two]);
    assert d.keys[0] == one.path;
    LoneWantedFoundIff([one, two], files, path, one.path);
    FullFinds([one, two], files, path, two.path);
  }

  /** Such input exists: /a listed before /a/b, which holds the wanted file. */
  lemma NestedFoldersExample(files: int -> seq<File>)
    requires files(1) == [] && files(2) == [File("/a/b/x", 7)]
    ensures var series, path := [Series("/a", 1, ""), Series("/a/b", 2, "")], "/a/b/x";
            && Lookup(Filtered(series, [path], Answered(files)), path).None?
            && Lookup(Full(series, files), path).Some?
  {
    var path := "/a/b/x";
    assert Under(path, "/a") by {
      assert RStripSlash("/a") == "/a";
      assert "/a" + "/" == path[..3];
    }
    EarlierFolderHidesFile(Series("/a", 1, ""), Series("/a/b", 2, ""), files, path);
  }
}
