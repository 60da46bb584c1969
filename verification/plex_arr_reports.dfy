/** The reconciliation report with the folders and file endings spelled out
    (scripts/plex-arr-reconcile.py). */
module PlexArrReports {
  import opened Text
  import opened Selection
  import opened PlexArrReconcile

  // ------------------------------------------------------------ libraries

  /** The path lies in the folder of the library. */
  ghost predicate InFolder(path: string, lib: Library) {
    match lib
    case Movies => exists rest :: path == "/data/movies/" + rest
    case AnimeMovies => exists rest :: path == "/data/anime-movies/" + rest
    case Shows => exists rest :: path == "/data/shows/" + rest
    case AnimeShows => exists rest :: path == "/data/anime-shows/" + rest
  }

  lemma StartsIff(path: string, prefix: string)
    ensures StartsWith(path, prefix) <==> exists rest :: path == prefix + rest
  {
    if StartsWith(path, prefix) {
      assert path == prefix + path[|prefix|..];
    }
  }

  lemma InFolderIff(path: string, lib: Library)
    ensures InFolder(path, lib) <==> StartsWith(path, Prefix(lib))
  {
    StartsIff(path, Prefix(lib));
  }

  lemma CharacterAt(path: string, prefix: string, k: nat)
    requires StartsWith(path, prefix) && k < |prefix|
    ensures |path| > k && path[k] == prefix[k]
  {
    assert path[..|prefix|][k] == path[k];
  }

  /** The sixth and the twelfth character tell the folders apart. */
  lemma PrefixCharacters(path: string, lib: Library)
    requires StartsWith(path, Prefix(lib))
    ensures |path| > 11
    ensures path[6] == if lib.Movies? then 'm' else if lib.Shows? then 's' else 'a'
    ensures !lib.Movies? && !lib.Shows? ==> |path| > 12 && path[12] == if lib.AnimeMovies? then 'm' else 's'
  {
    CharacterAt(path, Prefix(lib), 6);
    CharacterAt(path, Prefix(lib), 11);
    if !lib.Movies? && !lib.Shows? {
      CharacterAt(path, Prefix(lib), 12);
    }
  }

  lemma OneLibrary(path: string, lib: Library, lib': Library)
    requires StartsWith(path, Prefix(lib)) && StartsWith(path, Prefix(lib'))
    ensures lib == lib'
  {
    PrefixCharacters(path, lib);
    PrefixCharacters(path, lib');
  }

  lemma LibraryIff(path: string, lib: Library)
    ensures LibraryOf(path) == Some(lib) <==> InFolder(path, lib)
  {
    InFolderIff(path, lib);
    if LibraryOf(path).Some? && StartsWith(path, Prefix(lib)) {
      OneLibrary(path, lib, LibraryOf(path).value);
    }
  }

  // ------------------------------------------------------------ file endings

  function Upper(c: char): char {
    if 'a' <= c <= 'z' then c - 'a' + 'A' else c
  }

  /** The path ends in the suffix, in any mixture of upper and lower case. */
  predicate EndsLike(path: string, suffix: string) {
    && |suffix| <= |path|
    && forall k | 0 <= k < |suffix| ::
         path[|path| - |suffix| + k] == suffix[k] || path[|path| - |suffix| + k] == Upper(suffix[k])
  }

  /** The disk images, which Plex does not play. */
  predicate IsDiskImage(path: string) {
    || EndsLike(path, ".iso") || EndsLike(path, ".img") || EndsLike(path, ".mk3d")
    || EndsLike(path, ".bin") || EndsLike(path, ".nrg")
  }

  /** `low` is the lower-case form of `path`. */
  lemma EndsAlike(low: string, path: string, suffix: string)
    requires |low| == |path| && |suffix| <= |path|
    requires forall i | 0 <= i < |path| :: low[i] == if 'A' <= path[i] <= 'Z' then path[i] - 'A' + 'a' else path[i]
    requires forall k | 0 <= k < |suffix| :: !('A' <= suffix[k] <= 'Z')
    ensures low[|low| - |suffix|..] == suffix <==> EndsLike(path, suffix)
  {
    var tail, cut := low[|low| - |suffix|..], |path| - |suffix|;
    forall k | 0 <= k < |suffix|
      ensures tail[k] == suffix[k] <==> (path[cut + k] == suffix[k] || path[cut + k] == Upper(suffix[k]))
    {
      assert tail[k] == low[cut + k];
    }
    assert |tail| == |suffix|;
    assert tail == suffix <==> forall k | 0 <= k < |suffix| :: tail[k] == suffix[k];
  }

  lemma EndsLikeIff(path: string, suffix: string)
    requires forall k | 0 <= k < |suffix| :: !('A' <= suffix[k] <= 'Z')
    ensures EndsWith(Lower(path), suffix) <==> EndsLike(path, suffix)
  {
    LowerAt(path);
    if |suffix| <= |path| {
      EndsAlike(Lower(path), path, suffix);
    }
  }

  lemma DiskImageIff(path: string)
    ensures IsUnsupported(path) <==> IsDiskImage(path)
  {
    EndsLikeIff(path, ".iso");
    EndsLikeIff(path, ".img");
    EndsLikeIff(path, ".mk3d");
    EndsLikeIff(path, ".bin");
    EndsLikeIff(path, ".nrg");
  }

  // ------------------------------------------------------------ the report

  ghost function LiesIn(lib: Library): string -> bool {
    (path: string) => InFolder(path, lib)
  }

  lemma {:induction false} CountMeans(paths: seq<string>, lib: Library)
    ensures CountIn(paths, lib) == HowMany(paths, LiesIn(lib))
  {
    if paths != [] {
      CountMeans(paths[..|paths| - 1], lib);
      LibraryIff(paths[|paths| - 1], lib);
      HowManyNext(paths, LiesIn(lib));
    }
  }

  /** One library's row: the counts of both sides, and which paths are on the five lists. */
  lemma RowMeans(arr: seq<string>, served: seq<string>, onDisk: set<string>, lib: Library, p: string)
    requires Distinct(arr) && Distinct(served)
    ensures var row := FullRow(arr, served, onDisk, lib);
            var unserved := InFolder(p, lib) && p in arr && p !in served;
            var unowned := InFolder(p, lib) && p in served && p !in arr;
            && row.arr == HowMany(arr, LiesIn(lib)) && row.plex == HowMany(served, LiesIn(lib))
            && (p in row.missing <==> unserved && p in onDisk && !IsDiskImage(p))
            && (p in row.unsupported <==> unserved && p in onDisk && IsDiskImage(p))
            && (p in row.gone <==> unserved && p !in onDisk)
            && (p in row.orphan <==> unowned && p in onDisk)
            && (p in row.stale <==> unowned && p !in onDisk)
  {
    CountMeans(arr, lib);
    CountMeans(served, lib);
    LibraryIff(p, lib);
    DiskImageIff(p);
    BucketsMean(arr, served, onDisk, lib, p);
  }

  /** Each list has its paths in the order of its side's listing. */
  lemma ListsKeepOrder(arr: seq<string>, served: seq<string>, onDisk: set<string>, lib: Library, b: Bucket)
    returns (at: seq<nat>)
    ensures var from, listed := if b.OrphanInPlex? || b.StaleInPlex? then served else arr,
                                Listed(FullRow(arr, served, onDisk, lib), b);
            && |at| == |listed|
            && (forall k | 0 <= k < |at| :: at[k] < |from| && listed[k] == from[at[k]])
            && (forall k, l | 0 <= k < l < |at| :: at[k] < at[l])
  {
    if b.OrphanInPlex? || b.StaleInPlex? {
      at := PickedAt(served, InBucket(Plex, AsSet(arr), onDisk, lib, b), Same);
    } else {
      at := PickedAt(arr, InBucket(Arr, AsSet(served), onDisk, lib, b), Same);
    }
  }

  /** The existence query asks about the paths of the four folders that only one side has,
      each once and in code-point order. */
  lemma QueriesMean(arr: seq<string>, served: seq<string>, p: string)
    ensures var q := Queries(arr, served);
            && Distinct(q) && (forall i, j | 0 <= i < j < |q| :: LexLe(q[i], q[j]))
            && (p in q <==> (exists lib :: InFolder(p, lib))
                            && ((p in arr && p !in served) || (p in served && p !in arr)))
  {
    QueryMembers(arr, served);
    if LibraryOf(p).Some? {
      LibraryIff(p, LibraryOf(p).value);
    }
    if lib :| InFolder(p, lib) {
      LibraryIff(p, lib);
    }
  }
}
