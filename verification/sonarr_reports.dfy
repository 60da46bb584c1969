/** What the filtered Sonarr index holds, told from the series list, the wanted paths and
    the answered requests (scripts/checkrr-badfiles-report.py). */
module SonarrReports {
  import opened Text
  import opened SonarrIndex

  // ------------------------------------------------------------ folders

  /** The folder, without the slashes it ends in, and one slash begin the path. */
  ghost predicate Inside(path: string, folder: string) {
    exists stem, slashes :: IsStem(folder, stem, slashes) && stem + "/" <= path
  }

  /** All the slashes at the end of the folder, and what is before them. */
  predicate IsStem(folder: string, stem: string, slashes: string) {
    && folder == stem + slashes
    && (forall k | 0 <= k < |slashes| :: slashes[k] == '/')
    && (stem == "" || stem[|stem| - 1] != '/')
  }

  lemma {:induction false} StemOf(folder: string) returns (slashes: string)
    ensures IsStem(folder, RStripSlash(folder), slashes)
  {
    if folder == "" || folder[|folder| - 1] != '/' {
      slashes := "";
    } else {
      var init := folder[..|folder| - 1];
      var before := StemOf(init);
      slashes := before + "/";
      assert folder == init + "/";
      Assoc(RStripSlash(init), before, "/");
    }
  }

  lemma StemEnds(folder: string, stem: string, slashes: string)
    requires IsStem(folder, stem, slashes)
    ensures forall i | |stem| <= i < |folder| :: folder[i] == '/'
    ensures |stem| <= |folder| && stem == folder[..|stem|] && (stem != "" ==> folder[|stem| - 1] != '/')
  {
    forall i | |stem| <= i < |folder| ensures folder[i] == '/' {
      assert folder[i] == slashes[i - |stem|];
    }
  }

  lemma OneStem(folder: string, a: string, s: string, b: string, t: string)
    requires IsStem(folder, a, s) && IsStem(folder, b, t)
    ensures a == b
  {
    StemEnds(folder, a, s);
    StemEnds(folder, b, t);
  }

  lemma UnderIff(path: string, folder: string)
    ensures Under(path, folder) <==> Inside(path, folder)
  {
    var slashes := StemOf(folder);
    if stem, t :| IsStem(folder, stem, t) && stem + "/" <= path {
      OneStem(folder, RStripSlash(folder), slashes, stem, t);
    }
  }

  // ------------------------------------------------------------ the series

  /** Entry `i` of the list is the last one with this folder. */
  ghost predicate LastWith(series: seq<Series>, i: nat, folder: string) {
    i < |series| && series[i].path == folder && forall j | i < j < |series| :: series[j].path != folder
  }

  /** The series that a folder stands for. */
  ghost predicate StandsFor(series: seq<Series>, folder: string, s: Series) {
    folder != "" && exists i: nat :: LastWith(series, i, folder) && series[i] == s
  }

  lemma LastWithNext(series: seq<Series>, i: nat, folder: string)
    requires series != []
    ensures var init, last := series[..|series| - 1], series[|series| - 1];
            LastWith(series, i, folder)
            <==> if last.path == folder then i == |init| else LastWith(init, i, folder)
  {
    var init, last := series[..|series| - 1], series[|series| - 1];
    assert i < |init| ==> init[i] == series[i];
    assert last == series[|init|];
  }

  lemma StandsForNext(series: seq<Series>, folder: string, s: Series)
    requires series != []
    ensures var init, last := series[..|series| - 1], series[|series| - 1];
            StandsFor(series, folder, s)
            <==> folder != "" && if last.path == folder then s == last else StandsFor(init, folder, s)
  {
    var init, last := series[..|series| - 1], series[|series| - 1];
    LastWithNext(series, |init|, folder);
    if i: nat :| LastWith(series, i, folder) && series[i] == s {
      LastWithNext(series, i, folder);
    }
    if i: nat :| LastWith(init, i, folder) && init[i] == s {
      LastWithNext(series, i, folder);
    }
  }

  lemma {:induction false} CollectedIff(series: seq<Series>, folder: string, s: Series)
    ensures var d := Collected(series).series;
            folder in d && d[folder] == s <==> StandsFor(series, folder, s)
  {
    if series != [] {
      CollectedIff(series[..|series| - 1], folder, s);
      StandsForNext(series, folder, s);
    }
  }

  // ------------------------------------------------------------ the needed folders

  /** The path lies in the folder of entry `i`, and in that of no earlier entry. */
  ghost predicate FirstHolds(series: seq<Series>, path: string, i: nat) {
    && i < |series| && Holds(series[i], path)
    && forall j | 0 <= j < i :: !Holds(series[j], path)
  }

  ghost predicate Holds(s: Series, path: string) {
    s.path != "" && Inside(path, s.path)
  }

  ghost predicate IsFolderOf(series: seq<Series>, path: string, folder: string) {
    exists i: nat :: FirstHolds(series, path, i) && series[i].path == folder
  }

  lemma FirstHoldsNext(series: seq<Series>, path: string, i: nat)
    requires series != []
    ensures var init, last := series[..|series| - 1], series[|series| - 1];
            FirstHolds(series, path, i)
            <==> || FirstHolds(init, path, i)
                 || (i == |init| && Holds(last, path) && forall s | s in init :: !Holds(s, path))
  {
    var init := series[..|series| - 1];
    forall j | 0 <= j < |init| ensures init[j] == series[j] && init[j] in init {
    }
  }

  lemma IsFolderNext(series: seq<Series>, path: string, folder: string)
    requires series != []
    ensures var init, last := series[..|series| - 1], series[|series| - 1];
            IsFolderOf(series, path, folder)
            <==> || IsFolderOf(init, path, folder)
                 || ((forall s | s in init :: !Holds(s, path)) && Holds(last, path) && last.path == folder)
  {
    var init := series[..|series| - 1];
    FirstHoldsNext(series, path, |init|);
    if i: nat :| FirstHolds(series, path, i) && series[i].path == folder {
      FirstHoldsNext(series, path, i);
    }
    if i: nat :| FirstHolds(init, path, i) && init[i].path == folder {
      FirstHoldsNext(series, path, i);
    }
  }

  /** The first folder of a longer dictionary. */
  lemma {:induction false} FolderOfMore(keys: seq<string>, key: string, path: string)
    ensures FolderOf(keys + [key], path)
         == if FolderOf(keys, path).Some? then FolderOf(keys, path) else if Under(path, key) then Some(key) else None
  {
    if keys != [] {
      FolderOfMore(keys[1..], key, path);
      assert (keys + [key])[1..] == keys[1..] + [key];
    }
  }

  lemma {:induction false} FolderIff(series: seq<Series>, path: string, folder: string)
    ensures FolderOf(Collected(series).keys, path) == Some(folder) <==> IsFolderOf(series, path, folder)
  {
    if series != [] {
      var init, last := series[..|series| - 1], series[|series| - 1];
      FolderIff(init, path, folder);
      IsFolderNext(series, path, folder);
      UnderIff(path, last.path);
      NoneHolds(init, path);
      FolderOfMore(Collected(init).keys, last.path, path);
    }
  }

  lemma NoneHolds(series: seq<Series>, path: string)
    ensures FolderOf(Collected(series).keys, path).None? <==> forall s | s in series :: !Holds(s, path)
  {
    var keys := Collected(series).keys;
    FolderOfIsKey(keys, path);
    forall s | s in series ensures Holds(s, path) <==> s.path in keys && Under(path, s.path) {
      UnderIff(path, s.path);
    }
  }

  // ------------------------------------------------------------ the files

  ghost predicate LastFile(files: seq<File>, i: nat, path: string) {
    i < |files| && files[i].path == path && forall j | i < j < |files| :: files[j].path != path
  }

  /** The file that a listing holds for the path: the last one with it. */
  ghost predicate Lists(files: seq<File>, path: string, file: File) {
    path != "" && exists i: nat :: LastFile(files, i, path) && files[i] == file
  }

  lemma LastFileNext(files: seq<File>, i: nat, path: string)
    requires files != []
    ensures var init, last := files[..|files| - 1], files[|files| - 1];
            LastFile(files, i, path) <==> if last.path == path then i == |init| else LastFile(init, i, path)
  {
    var init, last := files[..|files| - 1], files[|files| - 1];
    assert i < |init| ==> init[i] == files[i];
    assert last == files[|init|];
  }

  lemma ListsNext(files: seq<File>, path: string, file: File)
    requires files != []
    ensures var init, last := files[..|files| - 1], files[|files| - 1];
            Lists(files, path, file)
            <==> path != "" && if last.path == path then file == last else Lists(init, path, file)
  {
    var init, last := files[..|files| - 1], files[|files| - 1];
    LastFileNext(files, |init|, path);
    if i: nat :| LastFile(files, i, path) && files[i] == file {
      LastFileNext(files, i, path);
    }
    if i: nat :| LastFile(init, i, path) && init[i] == file {
      LastFileNext(files, i, path);
    }
  }

  lemma {:induction false} ListingIff(files: seq<File>, path: string, file: File)
    ensures Listing(files, path) == Some(file) <==> Lists(files, path, file)
  {
    if files != [] {
      ListingIff(files[..|files| - 1], path, file);
      ListsNext(files, path, file);
    }
  }

  // ------------------------------------------------------------ the index

  /** The folder's request was answered, and the answer lists the path: this is its record. */
  ghost predicate Provides(series: seq<Series>, fetch: Fetch, path: string, folder: string, rec: Record) {
    && StandsFor(series, folder, rec.series)
    && fetch(rec.series.id).Some? && Lists(fetch(rec.series.id).value, path, rec.file)
  }

  /** The folder is the one looked into for some wanted path. */
  ghost predicate IsNeeded(series: seq<Series>, wanted: seq<string>, folder: string) {
    exists p | p in wanted :: IsFolderOf(series, p, folder)
  }

  /** Of the needed folders that provide a record for the path, this is the last in order. */
  ghost predicate Decides(series: seq<Series>, wanted: seq<string>, fetch: Fetch, path: string, folder: string,
                          rec: Record) {
    && IsNeeded(series, wanted, folder) && Provides(series, fetch, path, folder, rec)
    && forall f, r | IsNeeded(series, wanted, f) && Provides(series, fetch, path, f, r) :: LexLe(f, folder)
  }

  lemma NeededIff(series: seq<Series>, wanted: seq<string>, folder: string)
    ensures folder in Needed(Collected(series).keys, wanted) <==> IsNeeded(series, wanted, folder)
  {
    var keys := Collected(series).keys;
    forall p ensures FolderOf(keys, p) == Some(folder) <==> IsFolderOf(series, p, folder) {
      FolderIff(series, p, folder);
    }
    if folder in Needed(keys, wanted) {
      var p :| p in wanted && FolderOf(keys, p).Some? && FolderOf(keys, p).value == folder;
    }
    if p :| p in wanted && IsFolderOf(series, p, folder) {
      assert FolderOf(keys, p) == Some(folder);
    }
  }

  lemma ProvidesIff(series: seq<Series>, fetch: Fetch, path: string, folder: string, rec: Record)
    ensures var d := Collected(series).series;
            Provides(series, fetch, path, folder, rec)
            <==> folder in d && RecordIn(d[folder], fetch, path) == Some(rec)
  {
    CollectedIff(series, folder, rec.series);
    if fetch(rec.series.id).Some? {
      ListingIff(fetch(rec.series.id).value, path, rec.file);
    }
  }

  /** The filtered index holds for a path the record of the last folder, in sorted order,
      that some wanted path needs and whose request was answered with a listing of the
      path; and nothing when there is no such folder. */
  lemma IndexIff(series: seq<Series>, wanted: seq<string>, fetch: Fetch, path: string, rec: Record)
    ensures Lookup(Filtered(series, wanted, fetch), path) == Some(rec)
       <==> exists folder :: Decides(series, wanted, fetch, path, folder, rec)
  {
    var d := Collected(series);
    var needed := Needed(d.keys, wanted);
    NeededAreKeys(d.keys, wanted);
    forall f ensures f in needed <==> IsNeeded(series, wanted, f) {
      NeededIff(series, wanted, f);
    }
    forall f, r ensures Provides(series, fetch, path, f, r)
                        <==> f in d.series && RecordIn(d.series[f], fetch, path) == Some(r) {
      ProvidesIff(series, fetch, path, f, r);
    }
    var folders := Sorted(needed);
    BuildLast(folders, d.series, fetch, path);
    var last := LastLister(folders, d.series, fetch, path);
    forall f | f in needed && RecordIn(d.series[f], fetch, path).Some? ensures last.Some? && LexLe(f, last.value) {
      LastIsGreatest(folders, d.series, fetch, path, f);
    }
    if last.Some? && RecordIn(d.series[last.value], fetch, path) == Some(rec) {
      assert Decides(series, wanted, fetch, path, last.value, rec);
    }
    if f :| Decides(series, wanted, fetch, path, f, rec) {
      assert Provides(series, fetch, path, last.value, RecordIn(d.series[last.value], fetch, path).value);
      LexTotal(f, last.value);
    }
  }
}
