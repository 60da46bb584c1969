/** What a run of the fish function installer does, with the file names spelled out
    (scripts/fish-functions-install.py). */
module FishReports {
  import opened Text
  import opened Selection
  import opened FishInstall
  import opened FishConvergence

  // ------------------------------------------------------ names

  /** stack-*.fish */
  ghost predicate CommandName(name: string) {
    exists x :: name == "stack-" + x + ".fish"
  }

  /** __stack_*.fish */
  ghost predicate HelperName(name: string) {
    exists x :: name == "__stack_" + x + ".fish"
  }

  /** A prefix and a suffix that cannot overlap leave a middle. */
  lemma MiddleOf(name: string, prefix: string, suffix: string) returns (x: string)
    requires suffix != "" && suffix[0] !in prefix
    requires StartsWith(name, prefix) && EndsWith(name, suffix)
    ensures name == prefix + x + suffix
  {
    var cut := |name| - |suffix|;
    assert name[cut..][0] == name[cut] == suffix[0];
    forall i | 0 <= i < |prefix| ensures name[i] in prefix {
      assert name[..|prefix|][i] == name[i];
    }
    x := name[|prefix|..cut];
  }

  lemma AffixesOf(prefix: string, x: string, suffix: string)
    ensures StartsWith(prefix + x + suffix, prefix) && EndsWith(prefix + x + suffix, suffix)
  {
    var name := prefix + x + suffix;
    assert name[..|prefix|] == prefix && name[|name| - |suffix|..] == suffix;
  }

  lemma CommandIff(name: string)
    ensures IsCommand(name) <==> CommandName(name)
  {
    if IsCommand(name) {
      var x := MiddleOf(name, "stack-", ".fish");
    }
    if x :| name == "stack-" + x + ".fish" {
      AffixesOf("stack-", x, ".fish");
    }
  }

  lemma HelperIff(name: string)
    ensures IsHelper(name) <==> HelperName(name)
  {
    if IsHelper(name) {
      var x := MiddleOf(name, "__stack_", ".fish");
    }
    if x :| name == "__stack_" + x + ".fish" {
      AffixesOf("__stack_", x, ".fish");
    }
  }

  /** Every repo file of either form is managed, and nothing else. */
  lemma ManagedIff(fs: Fs, repo: string, n: string)
    ensures n in Managed(fs, repo) <==> Path(repo, n) in fs && (CommandName(n) || HelperName(n))
  {
    ManagedMembers(fs, repo);
    CommandIff(n);
    HelperIff(n);
  }

  /** Commands come first, then helpers, each by name. */
  ghost predicate NamesInOrder(names: seq<string>) {
    forall i, j | 0 <= i < j < |names| ::
      || (CommandName(names[i]) && HelperName(names[j]))
      || (CommandName(names[i]) && CommandName(names[j]) && LexLe(names[i], names[j]))
      || (HelperName(names[i]) && HelperName(names[j]) && LexLe(names[i], names[j]))
  }

  lemma OrderedParts(commands: seq<string>, helpers: seq<string>)
    requires forall n | n in commands :: CommandName(n)
    requires forall n | n in helpers :: HelperName(n)
    requires forall i, j | 0 <= i < j < |commands| :: LexLe(commands[i], commands[j])
    requires forall i, j | 0 <= i < j < |helpers| :: LexLe(helpers[i], helpers[j])
    ensures NamesInOrder(commands + helpers)
  {
    var names := commands + helpers;
    forall i | 0 <= i < |names| ensures if i < |commands| then CommandName(names[i]) else HelperName(names[i]) {
      if i < |commands| {
        assert commands[i] in commands;
      } else {
        assert helpers[i - |commands|] in helpers;
      }
    }
  }

  lemma ManagedInOrder(fs: Fs, repo: string)
    ensures NamesInOrder(Managed(fs, repo))
  {
    var commands := Sorted(set n | n in Names(fs, repo) && IsCommand(n));
    var helpers := Sorted(set n | n in Names(fs, repo) && IsHelper(n));
    forall n | n in commands ensures CommandName(n) {
      CommandIff(n);
    }
    forall n | n in helpers ensures HelperName(n) {
      HelperIff(n);
    }
    OrderedParts(commands, helpers);
  }

  // ------------------------------------------------------ the plan

  /** Links from `p` lead to `e`, a file or directory. */
  ghost predicate Leads(fs: Fs, p: Path, e: Path) {
    exists k :: Lands(fs, p, e, k)
  }

  /** The installed path is a link that leads to what its repo file leads to. */
  ghost predicate IsRight(fs: Fs, repo: string, p: Path) {
    p in fs && fs[p].Link? && exists e :: Leads(fs, p, e) && Leads(fs, Path(repo, p.name), e)
  }

  /** An installed path for a repo file of one of the two forms. */
  ghost predicate IsTarget(fs: Fs, repo: string, installed: string, p: Path) {
    p.dir == installed && Path(repo, p.name) in fs && (CommandName(p.name) || HelperName(p.name))
  }

  lemma DecideMeans(fs: Fs, repo: string, p: Path)
    ensures Decide(fs, repo, p) == if p !in fs then ToLink else if IsRight(fs, repo, p) then ToKeep else ToRelink
  {
    var source := Path(repo, p.name);
    forall e ensures (Follow(fs, p, {}) == Reaches(e) <==> Leads(fs, p, e))
                  && (Follow(fs, source, {}) == Reaches(e) <==> Leads(fs, source, e))
    {
      ReachesIff(fs, p, e);
      ReachesIff(fs, source, e);
    }
    if Exists(fs, p) {
      assert Follow(fs, p, {}) == Reaches(Follow(fs, p, {}).p);
    }
  }

  /** The four lists: nothing there, a wrong thing there, a right link there, and commands
      without a repo file. */
  lemma PlanSpelled(fs: Fs, repo: string, installed: string, p: Path)
    ensures var plan := PlanOf(fs, repo, installed);
            && (p in plan.link <==> IsTarget(fs, repo, installed, p) && p !in fs)
            && (p in plan.relink <==> IsTarget(fs, repo, installed, p) && p in fs && !IsRight(fs, repo, p))
            && (p in plan.keep <==> IsTarget(fs, repo, installed, p) && IsRight(fs, repo, p))
            && (p in plan.prune <==>
                  p in fs && p.dir == installed && CommandName(p.name) && Path(repo, p.name) !in fs)
  {
    PlanMembers(fs, repo, installed);
    ManagedIff(fs, repo, p.name);
    CommandIff(p.name);
    DecideMeans(fs, repo, p);
  }

  // ------------------------------------------------------ the effect

  /** A run leaves everything alone outside the installed directory, and in it every name
      of neither form and every helper without a repo file. */
  lemma ForeignNamesStay(fs: Fs, repo: string, links: string, installed: string, p: Path)
    requires p.dir != installed || (!CommandName(p.name) && (!HelperName(p.name) || Path(repo, p.name) !in fs))
    ensures var after := Applied(fs, PlanOf(fs, repo, installed), links);
            (p in after <==> p in fs) && (p in fs ==> after[p] == fs[p])
  {
    ManagedIff(fs, repo, p.name);
    CommandIff(p.name);
    ForeignFilesUntouched(fs, repo, links, installed, p);
  }

  /** A run removes every installed command without a repo file. */
  lemma StaleCommandsGo(fs: Fs, repo: string, links: string, installed: string, x: string)
    requires Path(repo, "stack-" + x + ".fish") !in fs
    ensures Path(installed, "stack-" + x + ".fish") !in Applied(fs, PlanOf(fs, repo, installed), links)
  {
    var p := Path(installed, "stack-" + x + ".fish");
    PlanSpelled(fs, repo, installed, p);
    AppliedAgrees(fs, repo, links, installed);
  }

  /** A run leaves a right link as it is, and makes every other target a link to its repo file. */
  lemma TargetsAreLinked(fs: Fs, repo: string, links: string, installed: string, p: Path)
    requires IsTarget(fs, repo, installed, p)
    ensures var after := Applied(fs, PlanOf(fs, repo, installed), links);
            p in after && after[p] == if IsRight(fs, repo, p) then fs[p] else Link(Path(links, p.name))
  {
    PlanSpelled(fs, repo, installed, p);
    AppliedAgrees(fs, repo, links, installed);
  }

  // ------------------------------------------------------ the report

  lemma {:induction false} LinkLinesMean(actions: Actions, targets: seq<Path>, repo: string)
    ensures var lines := LinkLines(actions, targets, repo);
            && |lines| == |targets|
            && forall i | 0 <= i < |targets| ::
                 lines[i] == if targets[i] in actions.link then LinkLine(targets[i], Path(repo, targets[i].name))
                             else RelinkLine(targets[i], Path(repo, targets[i].name))
  {
    if targets != [] {
      LinkLinesMean(actions, targets[..|targets| - 1], repo);
    }
  }

  /** Links come first, then relinks. */
  ghost predicate LinksFirst(lines: seq<Line>, link: seq<Path>, relink: seq<Path>, repo: string) {
    && |lines| == |link| + |relink|
    && (forall i | 0 <= i < |link| :: lines[i] == LinkLine(link[i], Path(repo, link[i].name)))
    && (forall i | 0 <= i < |relink| :: lines[|link| + i] == RelinkLine(relink[i], Path(repo, relink[i].name)))
  }

  lemma RelinksAreNoLinks(link: seq<Path>, relink: seq<Path>)
    requires Distinct(link + relink)
    ensures forall p | p in relink :: p !in link
  {
    var both, n := link + relink, |link|;
    forall i | 0 <= i < |relink| ensures relink[i] !in link {
      forall j | 0 <= j < n ensures link[j] != relink[i] {
        assert both[j] == link[j] && both[n + i] == relink[i];
      }
    }
  }

  lemma LinkLinesSpelled(actions: Actions, repo: string)
    requires Distinct(actions.link + actions.relink)
    ensures LinksFirst(LinkLines(actions, actions.link + actions.relink, repo), actions.link, actions.relink, repo)
  {
    var link, relink, targets := actions.link, actions.relink, actions.link + actions.relink;
    LinkLinesMean(actions, targets, repo);
    RelinksAreNoLinks(link, relink);
    forall i | 0 <= i < |relink| ensures targets[|link| + i] == relink[i] && relink[i] !in link {
      assert relink[i] in relink;
    }
    assert forall i | 0 <= i < |link| :: targets[i] == link[i] && link[i] in link;
  }

  /** One line for each link, relink and prune, in this order, and the number of links kept
      at the end. */
  ghost predicate Tells(lines: seq<Line>, actions: Actions, repo: string) {
    var n := |actions.link| + |actions.relink|;
    && |lines| == n + |actions.prune| + 1
    && LinksFirst(lines[..n], actions.link, actions.relink, repo)
    && (forall i | 0 <= i < |actions.prune| :: lines[n + i] == PruneLine(actions.prune[i]))
    && lines[n + |actions.prune|] == KeepLine(|actions.keep|)
  }

  lemma ReportSpelled(actions: Actions, repo: string)
    requires Distinct(actions.link + actions.relink)
    ensures Tells(Lines(actions, repo), actions, repo)
  {
    LinkLinesSpelled(actions, repo);
    ThreeSections(LinkLines(actions, actions.link + actions.relink, repo), actions, repo);
  }

  lemma ThreeSections(links: seq<Line>, actions: Actions, repo: string)
    requires LinksFirst(links, actions.link, actions.relink, repo)
    ensures Tells(links + PruneLines(actions.prune) + [KeepLine(|actions.keep|)], actions, repo)
  {
    var lines := links + PruneLines(actions.prune) + [KeepLine(|actions.keep|)];
    assert lines[..|links|] == links;
  }
}
