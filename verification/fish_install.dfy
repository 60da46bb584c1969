/** The symlink installer for fish functions (scripts/fish-functions-install.py).

    A file system is a map from paths to files, directories and symbolic links;
    links may dangle, chain and loop. `plan` reads it, `apply` changes it.

    `apply` writes the repo path as link text. `links` is the directory that this
    text names when it is read from inside the installed directory: the repo itself
    for an absolute `--repo-dir`, some other directory for a relative one. */
module FishInstall {
  import opened Text
  import opened Selection

  datatype Path = Path(dir: string, name: string)

  datatype Node = File(content: string) | Dir | Link(to: Path)

  type Fs = map<Path, Node>

  // ------------------------------------------------------ reading the file system

  datatype End = Reaches(p: Path) | Dangles(p: Path) | Loops

  /** Where following links from `p` ends. */
  function Follow(fs: Fs, p: Path, seen: set<Path>): End
    decreases fs.Keys - seen
  {
    if p !in fs then Dangles(p)
    else if !fs[p].Link? then Reaches(p)
    else if p in seen then Loops
    else Follow(fs, fs[p].to, seen + {p})
  }

  predicate IsSymlink(fs: Fs, p: Path) {
    p in fs && fs[p].Link?
  }

  predicate Exists(fs: Fs, p: Path) {
    Follow(fs, p, {}).Reaches?
  }

  function Names(fs: Fs, dir: string): set<string> {
    set p | p in fs.Keys && p.dir == dir :: p.name
  }

  predicate IsCommand(name: string) {
    StartsWith(name, "stack-") && EndsWith(name, ".fish")
  }

  predicate IsHelper(name: string) {
    StartsWith(name, "__stack_") && EndsWith(name, ".fish")
  }

  /** Repo-owned names: the commands, sorted, then the private helpers, sorted. */
  function Managed(fs: Fs, repo: string): seq<string> {
    Sorted(set n | n in Names(fs, repo) && IsCommand(n)) + Sorted(set n | n in Names(fs, repo) && IsHelper(n))
  }

  /** Names that may be deleted: commands, never helpers. */
  predicate IsPrunable(name: string) {
    IsCommand(name)
  }

  // ------------------------------------------------------ the plan

  datatype Action = ToLink | ToRelink | ToKeep

  function Decide(fs: Fs, repo: string, target: Path): Action {
    if !IsSymlink(fs, target) && !Exists(fs, target) then ToLink
    else if IsSymlink(fs, target) && Exists(fs, target)
            && Follow(fs, target, {}) == Follow(fs, Path(repo, target.name), {}) then ToKeep
    else ToRelink
  }

  function Targets(installed: string, names: seq<string>): (r: seq<Path>)
    ensures |r| == |names| && forall i | 0 <= i < |r| :: r[i] == Path(installed, names[i])
  {
    seq(|names|, i requires 0 <= i < |names| => Path(installed, names[i]))
  }

  function Decided(fs: Fs, repo: string, a: Action): Path -> bool {
    (target: Path) => Decide(fs, repo, target) == a
  }

  /** A name that may be deleted and has no source. */
  function Stale(sources: seq<string>): Path -> bool {
    (target: Path) => IsPrunable(target.name) && target.name !in sources
  }

  datatype Actions = Actions(link: seq<Path>, relink: seq<Path>, prune: seq<Path>, keep: seq<Path>)

  function PlanOf(fs: Fs, repo: string, installed: string): Actions {
    var sources := Managed(fs, repo);
    var targets := Targets(installed, sources);
    Actions(Filter(targets, Decided(fs, repo, ToLink)), Filter(targets, Decided(fs, repo, ToRelink)),
            Filter(Targets(installed, Sorted(Names(fs, installed))), Stale(sources)),
            Filter(targets, Decided(fs, repo, ToKeep)))
  }

  // ------------------------------------------------------ the effect

  function LinkAll(fs: Fs, targets: seq<Path>, links: string): Fs {
    map p | p in fs.Keys + (set t | t in targets) :: if p in targets then Link(Path(links, p.name)) else fs[p]
  }

  function Without(fs: Fs, targets: seq<Path>): Fs {
    map p | p in fs.Keys && p !in targets :: fs[p]
  }

  /** The file system after a plan has been carried out. */
  function Applied(fs: Fs, actions: Actions, links: string): Fs {
    Without(LinkAll(fs, actions.link + actions.relink, links), actions.prune)
  }

  datatype Line =
    | LinkLine(target: Path, source: Path)
    | RelinkLine(target: Path, source: Path)
    | PruneLine(target: Path)
    | KeepLine(count: nat)

  function LinkLines(actions: Actions, targets: seq<Path>, repo: string): seq<Line> {
    if targets == [] then []
    else
      var last := targets[|targets| - 1];
      var source := Path(repo, last.name);
      LinkLines(actions, targets[..|targets| - 1], repo)
      + [if last in actions.link then LinkLine(last, source) else RelinkLine(last, source)]
  }

  function PruneLines(targets: seq<Path>): (r: seq<Line>)
    ensures |r| == |targets| && forall i | 0 <= i < |r| :: r[i] == PruneLine(targets[i])
  {
    seq(|targets|, i requires 0 <= i < |targets| => PruneLine(targets[i]))
  }

  function Lines(actions: Actions, repo: string): seq<Line> {
    LinkLines(actions, actions.link + actions.relink, repo) + PruneLines(actions.prune) + [KeepLine(|actions.keep|)]
  }

  /** Done with a report, or stopped by the directory that cannot be unlinked. */
  datatype Outcome = Done(lines: seq<Line>) | IsADirectory(at: Path)

  /** What `apply` relies on in the plan it is given. */
  ghost predicate Fits(fs: Fs, actions: Actions) {
    && Distinct(actions.link + actions.relink)
    && Distinct(actions.prune)
    && (forall p: Path | p in actions.prune :: p in fs && p !in actions.link + actions.relink)
  }

  predicate IsDirectory(fs: Fs, p: Path) {
    p in fs && fs[p].Dir?
  }

  ghost predicate NoDirectories(fs: Fs, targets: seq<Path>) {
    forall p | p in targets && p in fs :: !fs[p].Dir?
  }

  function PathSet(paths: seq<Path>): set<Path> {
    set p | p in paths
  }

  /** Two file systems that differ at most at the changed paths. */
  ghost predicate AgreeOutside(fs: Fs, after: Fs, changed: set<Path>) {
    forall p | p !in changed :: (p in fs <==> p in after) && (p in fs ==> fs[p] == after[p])
  }

  class FileSystem {
    var nodes: Fs

    /** The first loop of `plan`: every managed name goes on one of three lists. */
    method PlanLinks(repo: string, installed: string, sources: seq<string>)
      returns (link: seq<Path>, relink: seq<Path>, keep: seq<Path>)
      ensures link == Filter(Targets(installed, sources), Decided(nodes, repo, ToLink))
      ensures relink == Filter(Targets(installed, sources), Decided(nodes, repo, ToRelink))
      ensures keep == Filter(Targets(installed, sources), Decided(nodes, repo, ToKeep))
    {
      ghost var targets := Targets(installed, sources);
      link, relink, keep := [], [], [];
      for i := 0 to |sources|
        invariant link == Filter(targets[..i], Decided(nodes, repo, ToLink))
        invariant relink == Filter(targets[..i], Decided(nodes, repo, ToRelink))
        invariant keep == Filter(targets[..i], Decided(nodes, repo, ToKeep))
      {
        var target, source := Path(installed, sources[i]), Path(repo, sources[i]);
        DecidedNext(nodes, repo, targets, i);
        if !IsSymlink(nodes, target) && !Exists(nodes, target) {
          link := link + [target];
        } else if IsSymlink(nodes, target) && Exists(nodes, target)
                  && Follow(nodes, target, {}) == Follow(nodes, source, {}) {
          keep := keep + [target];
        } else {
          relink := relink + [target];
        }
      }
      assert targets[..|sources|] == targets;
    }

    /** The first pruning pass of `plan`. */
    method PruneStale(listing: seq<Path>, sources: seq<string>) returns (prune: seq<Path>)
      ensures prune == Filter(listing, Stale(sources))
    {
      prune := [];
      for i := 0 to |listing|
        invariant prune == Filter(listing[..i], Stale(sources))
      {
        assert listing[..i + 1][..i] == listing[..i];
        if IsPrunable(listing[i].name) && listing[i].name !in sources {
          prune := prune + [listing[i]];
        }
      }
      assert listing[..|listing|] == listing;
    }

    /** The second pruning pass, for dangling links; the first one has left none. */
    method PruneDangling(listing: seq<Path>, sources: seq<string>, found: seq<Path>) returns (prune: seq<Path>)
      requires found == Filter(listing, Stale(sources))
      ensures prune == found
    {
      prune := found;
      for i := 0 to |listing|
        invariant prune == found
      {
        var target := listing[i];
        FilterIff(listing, Stale(sources), target);
        if IsSymlink(nodes, target) && !Exists(nodes, target) && IsPrunable(target.name)
           && target.name !in sources && target !in prune {
          prune := prune + [target];
        }
      }
    }

    method PlanPrunes(installed: string, sources: seq<string>) returns (prune: seq<Path>)
      ensures prune == Filter(Targets(installed, Sorted(Names(nodes, installed))), Stale(sources))
    {
      var listing := Targets(installed, Sorted(Names(nodes, installed)));
      prune := PruneStale(listing, sources);
      prune := PruneDangling(listing, sources, prune);
    }

    method Plan(repo: string, installed: string) returns (actions: Actions)
      ensures actions == PlanOf(nodes, repo, installed)
    {
      var sources := Managed(nodes, repo);
      var link, relink, keep := PlanLinks(repo, installed, sources);
      var prune := PlanPrunes(installed, sources);
      actions := Actions(link, relink, prune, keep);
    }

    method Unlink(p: Path) returns (ok: bool)
      requires p in nodes
      modifies this
      ensures ok <==> !old(nodes)[p].Dir?
      ensures nodes == if ok then Without(old(nodes), [p]) else old(nodes)
    {
      ok := !nodes[p].Dir?;
      if ok {
        nodes := map q | q in nodes.Keys && q != p :: nodes[q];
      }
    }

    /** The first loop of `apply`: each target becomes a link to its source. */
    method LinkTargets(actions: Actions, repo: string, links: string, dryRun: bool)
      returns (lines: seq<Line>, stopped: Option<Path>)
      requires Distinct(actions.link + actions.relink)
      modifies this
      ensures var targets := actions.link + actions.relink;
              && (dryRun ==> nodes == old(nodes) && stopped.None?)
              && (!dryRun ==> (stopped.None? <==> NoDirectories(old(nodes), targets)))
              && (!dryRun && stopped.None? ==> nodes == LinkAll(old(nodes), targets, links))
              && (stopped.None? ==> lines == LinkLines(actions, targets, repo))
              && (stopped.Some? ==> stopped.value in targets && IsDirectory(nodes, stopped.value))
              && AgreeOutside(old(nodes), nodes, PathSet(targets))
              && old(nodes).Keys <= nodes.Keys
    {
      var targets := actions.link + actions.relink;
      ghost var fs := nodes;
      lines := [];
      for i := 0 to |targets|
        invariant nodes == if dryRun then fs else LinkAll(fs, targets[..i], links)
        invariant !dryRun ==> NoDirectories(fs, targets[..i])
        invariant lines == LinkLines(actions, targets[..i], repo)
      {
        var target := targets[i];
        var source := Path(repo, target.name);
        LinkNext(fs, actions, targets, i, repo, links);
        lines := lines + [if target in actions.link then LinkLine(target, source) else RelinkLine(target, source)];
        if dryRun {
          continue;
        }
        if IsSymlink(nodes, target) || Exists(nodes, target) {
          var ok := Unlink(target);
          if !ok {
            return lines, Some(target);
          }
        }
        nodes := nodes[target := Link(Path(links, target.name))];
      }
      assert targets[..|targets|] == targets;
      stopped := None;
    }

    /** The second loop of `apply`. */
    method PruneTargets(prune: seq<Path>, dryRun: bool) returns (lines: seq<Line>, stopped: Option<Path>)
      requires Distinct(prune) && forall p: Path | p in prune :: p in nodes
      modifies this
      ensures dryRun ==> nodes == old(nodes) && stopped.None?
      ensures !dryRun ==> (stopped.None? <==> NoDirectories(old(nodes), prune))
      ensures !dryRun && stopped.None? ==> nodes == Without(old(nodes), prune)
      ensures stopped.None? ==> lines == PruneLines(prune)
      ensures stopped.Some? ==> stopped.value in prune && IsDirectory(nodes, stopped.value)
      ensures AgreeOutside(old(nodes), nodes, PathSet(prune))
    {
      ghost var fs := nodes;
      lines := [];
      for i := 0 to |prune|
        invariant nodes == if dryRun then fs else Without(fs, prune[..i])
        invariant !dryRun ==> NoDirectories(fs, prune[..i])
        invariant lines == PruneLines(prune[..i])
      {
        PruneNext(fs, prune, i);
        lines := lines + [PruneLine(prune[i])];
        if !dryRun {
          var ok := Unlink(prune[i]);
          if !ok {
            return lines, Some(prune[i]);
          }
        }
      }
      assert prune[..|prune|] == prune;
      stopped := None;
    }

    /** `apply`. A dry run reports the same lines and changes nothing. A directory in
        the way stops it, and stays. */
    method Apply(actions: Actions, repo: string, links: string, dryRun: bool) returns (outcome: Outcome)
      requires Fits(nodes, actions)
      modifies this
      ensures dryRun ==> nodes == old(nodes) && outcome == Done(Lines(actions, repo))
      ensures !dryRun ==>
                (outcome.Done? <==> NoDirectories(old(nodes), actions.link + actions.relink + actions.prune))
      ensures !dryRun && outcome.Done? ==>
                nodes == Applied(old(nodes), actions, links) && outcome == Done(Lines(actions, repo))
      ensures outcome.IsADirectory? ==>
                && outcome.at in actions.link + actions.relink + actions.prune
                && IsDirectory(nodes, outcome.at)
      ensures AgreeOutside(old(nodes), nodes, PathSet(actions.link + actions.relink + actions.prune))
      ensures forall p: Path | p in old(nodes) && p !in actions.prune :: p in nodes
    {
      var lines, stopped := LinkTargets(actions, repo, links, dryRun);
      if stopped.Some? {
        return IsADirectory(stopped.value);
      }
      var pruneLines;
      pruneLines, stopped := PruneTargets(actions.prune, dryRun);
      if stopped.Some? {
        return IsADirectory(stopped.value);
      }
      outcome := Done(lines + pruneLines + [KeepLine(|actions.keep|)]);
    }
  }

  lemma DecidedNext(fs: Fs, repo: string, targets: seq<Path>, i: nat)
    requires i < |targets|
    ensures forall a :: Filter(targets[..i + 1], Decided(fs, repo, a))
                        == Filter(targets[..i], Decided(fs, repo, a))
                           + if Decide(fs, repo, targets[i]) == a then [targets[i]] else []
  {
    assert targets[..i + 1][..i] == targets[..i];
  }

  lemma LinkAllNext(fs: Fs, targets: seq<Path>, target: Path, links: string)
    ensures var link := Link(Path(links, target.name));
            && LinkAll(fs, targets + [target], links) == LinkAll(fs, targets, links)[target := link]
            && Without(LinkAll(fs, targets, links), [target])[target := link] == LinkAll(fs, targets + [target], links)
  {
  }

  lemma LinkLinesNext(actions: Actions, targets: seq<Path>, target: Path, repo: string)
    ensures var source := Path(repo, target.name);
            LinkLines(actions, targets + [target], repo)
            == LinkLines(actions, targets, repo)
               + [if target in actions.link then LinkLine(target, source) else RelinkLine(target, source)]
  {
    assert (targets + [target])[..|targets|] == targets;
  }

  lemma LinkNext(fs: Fs, actions: Actions, targets: seq<Path>, i: nat, repo: string, links: string)
    requires i < |targets| && Distinct(targets)
    ensures var target, source := targets[i], Path(repo, targets[i].name);
            && target !in targets[..i]
            && LinkLines(actions, targets[..i + 1], repo)
               == LinkLines(actions, targets[..i], repo)
                  + [if target in actions.link then LinkLine(target, source) else RelinkLine(target, source)]
            && LinkAll(fs, targets[..i + 1], links)
               == LinkAll(fs, targets[..i], links)[target := Link(Path(links, target.name))]
            && Without(LinkAll(fs, targets[..i], links), [target])[target := Link(Path(links, target.name))]
               == LinkAll(fs, targets[..i + 1], links)
  {
    assert targets[..i + 1] == targets[..i] + [targets[i]];
    LinkAllNext(fs, targets[..i], targets[i], links);
    LinkLinesNext(actions, targets[..i], targets[i], repo);
  }

  lemma PruneNext(fs: Fs, prune: seq<Path>, i: nat)
    requires i < |prune| && Distinct(prune)
    ensures prune[i] !in prune[..i]
    ensures PruneLines(prune[..i + 1]) == PruneLines(prune[..i]) + [PruneLine(prune[i])]
    ensures Without(fs, prune[..i + 1]) == Without(Without(fs, prune[..i]), [prune[i]])
  {
    assert prune[..i + 1] == prune[..i] + [prune[i]];
  }

  // ------------------------------------------------------ what the lists contain

  lemma FilterMembers(targets: seq<Path>, keep: Path -> bool)
    requires Distinct(targets)
    ensures forall p: Path :: p in Filter(targets, keep) <==> p in targets && keep(p)
    ensures Distinct(Filter(targets, keep))
  {
    forall p: Path ensures p in Filter(targets, keep) <==> p in targets && keep(p) {
      FilterIff(targets, keep, p);
    }
    FilterDistinct(targets, keep);
  }

  lemma DistinctJoin<T>(a: seq<T>, b: seq<T>)
    requires Distinct(a) && Distinct(b)
    requires forall i, j | 0 <= i < |a| && 0 <= j < |b| :: a[i] != b[j]
    ensures Distinct(a + b)
  {
  }

  lemma NamesMembers(fs: Fs, dir: string)
    ensures forall n :: n in Names(fs, dir) <==> Path(dir, n) in fs
  {
    forall n | Path(dir, n) in fs ensures n in Names(fs, dir) {
      assert Path(dir, n).name in Names(fs, dir);
    }
  }

  lemma ManagedMembers(fs: Fs, repo: string)
    ensures forall n :: n in Managed(fs, repo) <==> Path(repo, n) in fs && (IsCommand(n) || IsHelper(n))
    ensures Distinct(Managed(fs, repo))
  {
    NamesMembers(fs, repo);
    var commands := Sorted(set n | n in Names(fs, repo) && IsCommand(n));
    var helpers := Sorted(set n | n in Names(fs, repo) && IsHelper(n));
    forall i, j | 0 <= i < |commands| && 0 <= j < |helpers| ensures commands[i] != helpers[j] {
      assert commands[i] in commands && helpers[j] in helpers;
      NotBoth(commands[i]);
    }
    DistinctJoin(commands, helpers);
  }

  lemma NotBoth(name: string)
    ensures !(IsCommand(name) && IsHelper(name))
  {
    if IsCommand(name) {
      assert name[..6][0] == name[0];
    }
    if IsHelper(name) {
      assert name[..8][0] == name[0];
    }
  }

  lemma TargetMembers(installed: string, names: seq<string>)
    ensures forall p: Path :: p in Targets(installed, names) <==> p.dir == installed && p.name in names
    ensures Distinct(names) ==> Distinct(Targets(installed, names))
  {
    var targets := Targets(installed, names);
    forall p: Path | p.dir == installed && p.name in names ensures p in targets {
      var i :| 0 <= i < |names| && names[i] == p.name;
      assert targets[i] == p;
    }
  }

  /** Exactly which paths the plan names, and under which head. */
  lemma PlanMembers(fs: Fs, repo: string, installed: string)
    ensures var plan, sources := PlanOf(fs, repo, installed), Managed(fs, repo);
            && (forall p: Path :: p in plan.link <==>
                            p.dir == installed && p.name in sources && Decide(fs, repo, p) == ToLink)
            && (forall p: Path :: p in plan.relink <==>
                            p.dir == installed && p.name in sources && Decide(fs, repo, p) == ToRelink)
            && (forall p: Path :: p in plan.keep <==>
                            p.dir == installed && p.name in sources && Decide(fs, repo, p) == ToKeep)
            && (forall p: Path :: p in plan.prune <==>
                            p in fs && p.dir == installed && IsPrunable(p.name) && p.name !in sources)
            && Distinct(plan.link) && Distinct(plan.relink) && Distinct(plan.keep) && Distinct(plan.prune)
  {
    var sources := Managed(fs, repo);
    var targets := Targets(installed, sources);
    var listing := Targets(installed, Sorted(Names(fs, installed)));
    ManagedMembers(fs, repo);
    TargetMembers(installed, sources);
    TargetMembers(installed, Sorted(Names(fs, installed)));
    FilterMembers(targets, Decided(fs, repo, ToLink));
    FilterMembers(targets, Decided(fs, repo, ToRelink));
    FilterMembers(targets, Decided(fs, repo, ToKeep));
    FilterMembers(listing, Stale(sources));
    forall p: Path | p.dir == installed ensures p in listing <==> p in fs {
      if p in fs {
        assert p.name in Names(fs, installed);
      }
    }
  }

  lemma JoinApart(a: seq<Path>, b: seq<Path>)
    requires Distinct(a) && Distinct(b) && forall p | p in a :: p !in b
    ensures Distinct(a + b)
  {
    forall i, j | 0 <= i < |a| && 0 <= j < |b| ensures a[i] != b[j] {
      assert a[i] in a && b[j] in b;
    }
    DistinctJoin(a, b);
  }

  lemma FourApart(a: seq<Path>, b: seq<Path>, c: seq<Path>, d: seq<Path>)
    requires Distinct(a) && Distinct(b) && Distinct(c) && Distinct(d)
    requires forall p | p in a :: p !in b && p !in c && p !in d
    requires forall p | p in b :: p !in c && p !in d
    requires forall p | p in c :: p !in d
    ensures Distinct(a + b) && Distinct(a + b + c + d)
  {
    JoinApart(a, b);
    JoinApart(a + b, c);
    JoinApart(a + b + c, d);
  }

  /** The four lists never overlap, hold no path twice, and together cover exactly
      the managed names and the stale commands. */
  lemma PlanPartitions(fs: Fs, repo: string, installed: string)
    ensures var plan, sources := PlanOf(fs, repo, installed), Managed(fs, repo);
            && Distinct(plan.link + plan.relink + plan.prune + plan.keep)
            && (forall p: Path :: p in plan.link + plan.relink + plan.keep <==> p.dir == installed && p.name in sources)
            && Fits(fs, plan)
  {
    PlanMembers(fs, repo, installed);
    var plan := PlanOf(fs, repo, installed);
    FourApart(plan.link, plan.relink, plan.prune, plan.keep);
  }

  // ------------------------------------------------------ what a plan changes

  ghost function Changed(fs: Fs, repo: string, installed: string): set<Path> {
    var plan := PlanOf(fs, repo, installed);
    PathSet(plan.link + plan.relink + plan.prune)
  }

  lemma AppliedAgrees(fs: Fs, repo: string, links: string, installed: string)
    ensures var after := Applied(fs, PlanOf(fs, repo, installed), links);
            && AgreeOutside(fs, after, Changed(fs, repo, installed))
            && (forall p: Path | p in PlanOf(fs, repo, installed).link + PlanOf(fs, repo, installed).relink ::
                  p in after && after[p] == Link(Path(links, p.name)))
            && (forall p: Path | p in PlanOf(fs, repo, installed).prune :: p !in after)
  {
    PlanPartitions(fs, repo, installed);
  }

  /** Nothing outside the installed directory changes, and inside it only managed
      names and stale commands do: user files, and helpers without a source, stay. */
  lemma ForeignFilesUntouched(fs: Fs, repo: string, links: string, installed: string, p: Path)
    requires p.dir != installed || (p.name !in Managed(fs, repo) && !IsCommand(p.name))
    ensures var after := Applied(fs, PlanOf(fs, repo, installed), links);
            (p in after <==> p in fs) && (p in fs ==> after[p] == fs[p])
  {
    PlanMembers(fs, repo, installed);
    AppliedAgrees(fs, repo, links, installed);
    assert p !in Changed(fs, repo, installed);
  }

  /** Directories that hold the same commands and helpers manage the same names. */
  lemma SameManaged(fs: Fs, after: Fs, repo: string)
    requires forall n | IsCommand(n) || IsHelper(n) :: Path(repo, n) in fs <==> Path(repo, n) in after
    ensures Managed(after, repo) == Managed(fs, repo)
  {
    NamesMembers(fs, repo);
    NamesMembers(after, repo);
    assert (set n | n in Names(after, repo) && IsCommand(n)) == (set n | n in Names(fs, repo) && IsCommand(n));
    assert (set n | n in Names(after, repo) && IsHelper(n)) == (set n | n in Names(fs, repo) && IsHelper(n));
  }

  /** Applying a plan leaves the repo's managed names as they were. */
  lemma SourcesStay(fs: Fs, repo: string, links: string, installed: string)
    ensures Managed(Applied(fs, PlanOf(fs, repo, installed), links), repo) == Managed(fs, repo)
  {
    var after := Applied(fs, PlanOf(fs, repo, installed), links);
    PlanMembers(fs, repo, installed);
    ManagedMembers(fs, repo);
    AppliedAgrees(fs, repo, links, installed);
    forall n | IsCommand(n) || IsHelper(n) ensures Path(repo, n) in fs <==> Path(repo, n) in after {
      assert Path(repo, n) in Changed(fs, repo, installed) || Path(repo, n) !in Changed(fs, repo, installed);
    }
    SameManaged(fs, after, repo);
  }

  /** The lists of a plan in terms of the decision for each managed name. */
  lemma PlanByDecision(fs: Fs, repo: string, installed: string)
    ensures var plan, sources := PlanOf(fs, repo, installed), Managed(fs, repo);
            && (plan.link == [] <==> forall n | n in sources :: Decide(fs, repo, Path(installed, n)) != ToLink)
            && (plan.relink == [] <==> forall n | n in sources :: Decide(fs, repo, Path(installed, n)) != ToRelink)
            && (forall p: Path :: p in plan.keep <==>
                  p.dir == installed && p.name in sources && Decide(fs, repo, p) == ToKeep)
  {
    PlanMembers(fs, repo, installed);
    var plan := PlanOf(fs, repo, installed);
    EmptyByDecision(fs, repo, installed, Managed(fs, repo), plan.link, ToLink);
    EmptyByDecision(fs, repo, installed, Managed(fs, repo), plan.relink, ToRelink);
  }

  lemma EmptyByDecision(fs: Fs, repo: string, installed: string, sources: seq<string>, list: seq<Path>, a: Action)
    requires forall p: Path :: p in list <==> p.dir == installed && p.name in sources && Decide(fs, repo, p) == a
    ensures list == [] <==> forall n | n in sources :: Decide(fs, repo, Path(installed, n)) != a
  {
    if list != [] {
      assert list[0] in list && list[0] == Path(installed, list[0].name);
    }
  }

  lemma NothingStale(fs: Fs, repo: string, links: string, installed: string)
    ensures PlanOf(Applied(fs, PlanOf(fs, repo, installed), links), repo, installed).prune == []
  {
    var after := Applied(fs, PlanOf(fs, repo, installed), links);
    SourcesStay(fs, repo, links, installed);
    AppliedAgrees(fs, repo, links, installed);
    PlanMembers(fs, repo, installed);
    PlanMembers(after, repo, installed);
    EmptyIff(PlanOf(after, repo, installed).prune);
  }

  lemma EmptyIff(s: seq<Path>)
    ensures s == [] <==> forall p: Path :: p !in s
  {
    if s != [] {
      assert s[0] in s;
    }
  }
}
