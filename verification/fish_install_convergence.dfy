/** When one run of the fish function installer leaves nothing for the next
    (scripts/fish-functions-install.py). */
module FishConvergence {
  import opened Text
  import opened FishInstall

  // ------------------------------------------------------ chains of links

  /** The path that `k` links lead to, if the chain from `p` is that long. */
  function At(fs: Fs, p: Path, k: nat): Option<Path>
    decreases k
  {
    if k == 0 then Some(p)
    else if p in fs && fs[p].Link? then At(fs, fs[p].to, k - 1)
    else None
  }

  /** The chain from `p` ends after `k` links, at a file or directory. */
  predicate Lands(fs: Fs, p: Path, e: Path, k: nat) {
    At(fs, p, k) == Some(e) && e in fs && !fs[e].Link?
  }

  lemma {:induction false} AtJoin(fs: Fs, p: Path, j: nat, k: nat)
    requires At(fs, p, j).Some?
    ensures At(fs, p, j + k) == At(fs, At(fs, p, j).value, k)
    decreases j
  {
    if j > 0 {
      AtJoin(fs, fs[p].to, j - 1, k);
    }
  }

  lemma {:induction false} LandsOnce(fs: Fs, p: Path, e: Path, k: nat, f: Path, m: nat)
    requires Lands(fs, p, e, k) && Lands(fs, p, f, m)
    ensures e == f && k == m
    decreases k
  {
    if k > 0 && m > 0 {
      LandsOnce(fs, fs[p].to, e, k - 1, f, m - 1);
    }
  }

  lemma {:induction false} FollowLands(fs: Fs, p: Path, seen: set<Path>) returns (k: nat)
    requires Follow(fs, p, seen).Reaches?
    ensures Lands(fs, p, Follow(fs, p, seen).p, k)
    decreases fs.Keys - seen
  {
    if fs[p].Link? {
      var rest := FollowLands(fs, fs[p].to, seen + {p});
      k := rest + 1;
    } else {
      k := 0;
    }
  }

  lemma {:induction false} LandsFollow(fs: Fs, p: Path, e: Path, k: nat, seen: set<Path>)
    requires Lands(fs, p, e, k)
    requires forall s, m: nat | s in seen && m <= k :: !Lands(fs, s, e, m)
    ensures Follow(fs, p, seen) == Reaches(e)
    decreases k
  {
    if k > 0 {
      forall s, m: nat | s in seen + {p} && m <= k - 1 ensures !Lands(fs, s, e, m) {
        if s == p && Lands(fs, p, e, m) {
          LandsOnce(fs, p, e, k, e, m);
        }
      }
      LandsFollow(fs, fs[p].to, e, k - 1, seen + {p});
    }
  }

  /** `Follow` with its set of visited paths finds an end exactly when the chain has one. */
  lemma ReachesIff(fs: Fs, p: Path, e: Path)
    ensures Follow(fs, p, {}) == Reaches(e) <==> exists k :: Lands(fs, p, e, k)
  {
    if Follow(fs, p, {}) == Reaches(e) {
      var k := FollowLands(fs, p, {});
    }
    if k: nat :| Lands(fs, p, e, k) {
      LandsFollow(fs, p, e, k, {});
    }
  }

  /** What lies behind the `j`-th path of a chain is what lies behind its start. */
  lemma ReachesThrough(fs: Fs, p: Path, j: nat, x: Path, e: Path)
    requires At(fs, p, j) == Some(x)
    ensures Follow(fs, p, {}) == Reaches(e) <==> Follow(fs, x, {}) == Reaches(e)
  {
    ReachesIff(fs, p, e);
    ReachesIff(fs, x, e);
    if k: nat :| Lands(fs, x, e, k) {
      AtJoin(fs, p, j, k);
      assert Lands(fs, p, e, j + k);
    }
    if k: nat :| Lands(fs, p, e, k) {
      if k < j {
        AtJoin(fs, p, k, j - k);
        assert false;
      }
      AtJoin(fs, p, j, k - j);
      assert Lands(fs, x, e, k - j);
    }
  }

  /** Following links from `p` never meets a path of `changed`. */
  ghost predicate Avoids(fs: Fs, p: Path, changed: set<Path>) {
    forall k :: At(fs, p, k).Some? ==> At(fs, p, k).value !in changed
  }

  /** The first path of `changed` on the chain from `p` is the `k`-th one, `x`. */
  ghost predicate FirstMet(fs: Fs, p: Path, changed: set<Path>, k: nat, x: Path) {
    && At(fs, p, k) == Some(x) && x in changed
    && forall j: nat | j < k :: At(fs, p, j).Some? ==> At(fs, p, j).value !in changed
  }

  lemma {:induction false} MeetsFirst(fs: Fs, p: Path, changed: set<Path>, k: nat) returns (first: nat)
    requires At(fs, p, k).Some? && At(fs, p, k).value in changed
    ensures At(fs, p, first).Some? && FirstMet(fs, p, changed, first, At(fs, p, first).value)
    decreases k
  {
    if j: nat :| j < k && At(fs, p, j).Some? && At(fs, p, j).value in changed {
      first := MeetsFirst(fs, p, changed, j);
    } else {
      first := k;
    }
  }

  lemma FirstIsUnique(fs: Fs, p: Path, changed: set<Path>, k: nat, x: Path, m: nat, y: Path)
    requires FirstMet(fs, p, changed, k, x) && FirstMet(fs, p, changed, m, y)
    ensures k == m && x == y
  {
  }

  lemma {:induction false} AtUnchanged(fs: Fs, after: Fs, p: Path, changed: set<Path>, k: nat)
    requires AgreeOutside(fs, after, changed)
    requires forall j: nat | j < k :: At(fs, p, j).Some? ==> At(fs, p, j).value !in changed
    ensures At(after, p, k) == At(fs, p, k)
    decreases k
  {
    if k > 0 {
      assert At(fs, p, 0) == Some(p);
      if p in fs && fs[p].Link? {
        forall j: nat | j < k - 1 && At(fs, fs[p].to, j).Some? ensures At(fs, fs[p].to, j).value !in changed {
          assert At(fs, p, j + 1) == At(fs, fs[p].to, j);
        }
        AtUnchanged(fs, after, fs[p].to, changed, k - 1);
      }
    }
  }

  /** A chain that avoids the changed paths ends where it ended before. */
  lemma EndUnchanged(fs: Fs, after: Fs, p: Path, changed: set<Path>, e: Path)
    requires AgreeOutside(fs, after, changed) && Avoids(fs, p, changed)
    ensures Follow(after, p, {}) == Reaches(e) <==> Follow(fs, p, {}) == Reaches(e)
  {
    ReachesIff(fs, p, e);
    ReachesIff(after, p, e);
    forall k: nat ensures Lands(after, p, e, k) <==> Lands(fs, p, e, k) {
      AtUnchanged(fs, after, p, changed, k);
    }
  }

  // ------------------------------------------------------ where chains end after a run

  /** After a run the chain from `p` ends at `e`: either it meets nothing that the run
      changes and has always ended there, or the first changed path on it is installed,
      as a link to `links`, and the chain from that link text ends at `e` with one hop less. */
  ghost predicate EndsAt(fs: Fs, changed: set<Path>, names: seq<string>, links: string, p: Path, e: Path, hops: nat)
    decreases hops
  {
    if hops == 0 then Avoids(fs, p, changed) && Follow(fs, p, {}) == Reaches(e)
    else exists k, x | FirstMet(fs, p, changed, k, x) ::
           x.name in names && EndsAt(fs, changed, names, links, Path(links, x.name), e, hops - 1)
  }

  /** Every changed path has become a link to its source, or is gone. */
  ghost predicate Rewired(fs: Fs, after: Fs, changed: set<Path>, names: seq<string>, links: string) {
    && AgreeOutside(fs, after, changed)
    && forall x | x in changed ::
         if x.name in names then x in after && after[x] == Link(Path(links, x.name)) else x !in after
  }

  lemma AppliedRewires(fs: Fs, repo: string, links: string, installed: string)
    ensures Rewired(fs, Applied(fs, PlanOf(fs, repo, installed), links), Changed(fs, repo, installed),
                    Managed(fs, repo), links)
  {
    PlanMembers(fs, repo, installed);
    AppliedAgrees(fs, repo, links, installed);
  }

  lemma {:induction false} EndsAtIsSound(fs: Fs, after: Fs, changed: set<Path>, names: seq<string>, links: string,
                                         p: Path, e: Path, hops: nat)
    requires Rewired(fs, after, changed, names, links) && EndsAt(fs, changed, names, links, p, e, hops)
    ensures Follow(after, p, {}) == Reaches(e)
    decreases hops
  {
    if hops == 0 {
      EndUnchanged(fs, after, p, changed, e);
    } else {
      var k, x :| FirstMet(fs, p, changed, k, x) && x.name in names
                  && EndsAt(fs, changed, names, links, Path(links, x.name), e, hops - 1);
      EndsAtIsSound(fs, after, changed, names, links, Path(links, x.name), e, hops - 1);
      AtUnchanged(fs, after, p, changed, k);
      ReachesThrough(after, p, k, x, e);
      assert At(after, x, 1) == At(after, Path(links, x.name), 0) == Some(Path(links, x.name));
      ReachesThrough(after, x, 1, Path(links, x.name), e);
    }
  }

  lemma {:induction false} EndsAtIsComplete(fs: Fs, after: Fs, changed: set<Path>, names: seq<string>, links: string,
                                            p: Path, e: Path, k: nat)
    returns (hops: nat)
    requires Rewired(fs, after, changed, names, links) && Lands(after, p, e, k)
    ensures EndsAt(fs, changed, names, links, p, e, hops)
    decreases k
  {
    if Avoids(fs, p, changed) {
      ReachesIff(after, p, e);
      EndUnchanged(fs, after, p, changed, e);
      hops := 0;
    } else {
      var met: nat :| At(fs, p, met).Some? && At(fs, p, met).value in changed;
      var first := MeetsFirst(fs, p, changed, met);
      var x := At(fs, p, first).value;
      AtUnchanged(fs, after, p, changed, first);
      LandsBeyond(after, p, first, x, e, k);
      var rest := EndsAtIsComplete(fs, after, changed, names, links, Path(links, x.name), e, k - first - 1);
      assert FirstMet(fs, p, changed, first, x);
      hops := rest + 1;
    }
  }

  /** A chain that lands behind a link lands at least one step later, behind its text. */
  lemma LandsBeyond(fs: Fs, p: Path, j: nat, x: Path, e: Path, k: nat)
    requires Lands(fs, p, e, k) && At(fs, p, j) == Some(x)
    requires x !in fs || fs[x].Link?
    ensures x in fs && k > j && Lands(fs, fs[x].to, e, k - j - 1)
  {
    if k < j {
      AtJoin(fs, p, k, j - k);
      assert false;
    }
    AtJoin(fs, p, j, k - j);
  }

  ghost predicate Ends(fs: Fs, changed: set<Path>, names: seq<string>, links: string, p: Path, e: Path) {
    exists hops: nat :: EndsAt(fs, changed, names, links, p, e, hops)
  }

  /** `Ends` says, in terms of the file system before the run, where a chain ends after it. */
  lemma EndsIff(fs: Fs, after: Fs, changed: set<Path>, names: seq<string>, links: string, p: Path, e: Path)
    requires Rewired(fs, after, changed, names, links)
    ensures Follow(after, p, {}) == Reaches(e) <==> Ends(fs, changed, names, links, p, e)
  {
    if Follow(after, p, {}) == Reaches(e) {
      var k := FollowLands(after, p, {});
      var hops := EndsAtIsComplete(fs, after, changed, names, links, p, e, k);
    }
    forall hops: nat | EndsAt(fs, changed, names, links, p, e, hops) ensures Follow(after, p, {}) == Reaches(e) {
      EndsAtIsSound(fs, after, changed, names, links, p, e, hops);
    }
  }

  /** Two paths end at one file after the run. */
  ghost predicate EndTogether(fs: Fs, changed: set<Path>, names: seq<string>, links: string, p: Path, q: Path) {
    exists e :: Ends(fs, changed, names, links, p, e) && Ends(fs, changed, names, links, q, e)
  }

  lemma EndTogetherIff(fs: Fs, after: Fs, changed: set<Path>, names: seq<string>, links: string, p: Path, q: Path)
    requires Rewired(fs, after, changed, names, links)
    ensures EndTogether(fs, changed, names, links, p, q)
       <==> Exists(after, p) && Follow(after, p, {}) == Follow(after, q, {})
  {
    forall e
      ensures Follow(after, p, {}) == Reaches(e) <==> Ends(fs, changed, names, links, p, e)
      ensures Follow(after, q, {}) == Reaches(e) <==> Ends(fs, changed, names, links, q, e)
    {
      EndsIff(fs, after, changed, names, links, p, e);
      EndsIff(fs, after, changed, names, links, q, e);
    }
    if Exists(after, p) {
      assert Follow(after, p, {}) == Reaches(Follow(after, p, {}).p);
    }
  }

  // ------------------------------------------------------ convergence

  /** The installed name and its source end at the same file after the run. */
  ghost predicate Settles(fs: Fs, repo: string, links: string, installed: string, n: string) {
    EndTogether(fs, Changed(fs, repo, installed), Managed(fs, repo), links, Path(installed, n), Path(repo, n))
  }

  lemma SettlesIff(fs: Fs, repo: string, links: string, installed: string, n: string)
    ensures var after := Applied(fs, PlanOf(fs, repo, installed), links);
            Settles(fs, repo, links, installed, n)
            <==> && Exists(after, Path(installed, n))
                 && Follow(after, Path(installed, n), {}) == Follow(after, Path(repo, n), {})
  {
    AppliedRewires(fs, repo, links, installed);
    EndTogetherIff(fs, Applied(fs, PlanOf(fs, repo, installed), links), Changed(fs, repo, installed),
                   Managed(fs, repo), links, Path(installed, n), Path(repo, n));
  }

  /** After a run every managed name is a link. */
  lemma InstalledIsLink(fs: Fs, repo: string, links: string, installed: string, n: string)
    requires n in Managed(fs, repo)
    ensures IsSymlink(Applied(fs, PlanOf(fs, repo, installed), links), Path(installed, n))
  {
    var target := Path(installed, n);
    PlanMembers(fs, repo, installed);
    AppliedAgrees(fs, repo, links, installed);
    assert Decide(fs, repo, target) == ToKeep ==> target !in Changed(fs, repo, installed);
  }

  /** One managed name after any run: kept if it settles, relinked otherwise. */
  lemma NameAfterApply(fs: Fs, repo: string, links: string, installed: string, n: string)
    requires n in Managed(fs, repo)
    ensures Decide(Applied(fs, PlanOf(fs, repo, installed), links), repo, Path(installed, n))
         == if Settles(fs, repo, links, installed, n) then ToKeep else ToRelink
  {
    InstalledIsLink(fs, repo, links, installed, n);
    SettlesIff(fs, repo, links, installed, n);
  }

  /** The convergence theorem, for every file system: planning again after a run finds
      nothing to link and nothing to prune; it finds nothing to relink, and keeps exactly
      the managed names, if and only if every managed name settles. */
  lemma ConvergesIff(fs: Fs, repo: string, links: string, installed: string)
    ensures var again := PlanOf(Applied(fs, PlanOf(fs, repo, installed), links), repo, installed);
            && again.link == [] && again.prune == []
            && (again.relink == [] <==> forall n | n in Managed(fs, repo) :: Settles(fs, repo, links, installed, n))
            && (again.relink == [] ==>
                  forall p: Path :: p in again.keep <==> p.dir == installed && p.name in Managed(fs, repo))
  {
    var after := Applied(fs, PlanOf(fs, repo, installed), links);
    SourcesStay(fs, repo, links, installed);
    NothingStale(fs, repo, links, installed);
    forall n | n in Managed(fs, repo)
      ensures Decide(after, repo, Path(installed, n))
           == if Settles(fs, repo, links, installed, n) then ToKeep else ToRelink
    {
      NameAfterApply(fs, repo, links, installed, n);
    }
    ListsByDecision(after, repo, installed, Managed(fs, repo),
                    set n | n in Managed(fs, repo) && Settles(fs, repo, links, installed, n));
  }

  lemma ListsByDecision(fs: Fs, repo: string, installed: string, names: seq<string>, settled: set<string>)
    requires names == Managed(fs, repo)
    requires forall n | n in names :: Decide(fs, repo, Path(installed, n)) == if n in settled then ToKeep else ToRelink
    ensures var plan := PlanOf(fs, repo, installed);
            && plan.link == []
            && (plan.relink == [] <==> forall n | n in names :: n in settled)
            && (plan.relink == [] ==> forall p: Path :: p in plan.keep <==> p.dir == installed && p.name in names)
  {
    PlanByDecision(fs, repo, installed);
  }

  // ------------------------------------------------------ undisturbed sources

  /** No managed source leads through a path that the plan replaces or removes. */
  ghost predicate SourcesUndisturbed(fs: Fs, repo: string, installed: string) {
    forall n | n in Managed(fs, repo) :: Avoids(fs, Path(repo, n), Changed(fs, repo, installed))
  }

  /** If the chain of the link for `n` leads through a path that the plan changes,
      then the first such path is installed for a source that leads to the same file. */
  ghost predicate Harmless(fs: Fs, repo: string, installed: string, n: string) {
    forall k, x | FirstMet(fs, Path(installed, n), Changed(fs, repo, installed), k, x) ::
      x.name in Managed(fs, repo) && Follow(fs, Path(repo, x.name), {}) == Follow(fs, Path(repo, n), {})
  }

  /** Two chains with the same end, if any. */
  lemma SameEnd(fs: Fs, p: Path, q: Path, end: End)
    requires forall e :: Follow(fs, p, {}) == Reaches(e) <==> end == Reaches(e)
    requires forall e :: Follow(fs, q, {}) == Reaches(e) <==> end == Reaches(e)
    ensures Exists(fs, p) <==> end.Reaches?
    ensures Exists(fs, p) ==> Follow(fs, p, {}) == Follow(fs, q, {}) == end
  {
    if Exists(fs, p) {
      assert Follow(fs, p, {}) == Reaches(Follow(fs, p, {}).p);
    }
    if end.Reaches? {
      assert end == Reaches(end.p);
    }
  }

  /** A new link is right exactly when its source exists. */
  lemma NewLinkEnds(fs: Fs, after: Fs, repo: string, target: Path, changed: set<Path>)
    requires AgreeOutside(fs, after, changed) && Avoids(fs, Path(repo, target.name), changed)
    requires target in after && after[target] == Link(Path(repo, target.name))
    ensures Decide(after, repo, target) == if Exists(fs, Path(repo, target.name)) then ToKeep else ToRelink
  {
    var source := Path(repo, target.name);
    assert At(after, target, 1) == At(after, source, 0) == Some(source);
    forall e ensures Follow(after, target, {}) == Reaches(e) <==> Follow(fs, source, {}) == Reaches(e) {
      ReachesThrough(after, target, 1, source, e);
      EndUnchanged(fs, after, source, changed, e);
    }
    forall e ensures Follow(after, source, {}) == Reaches(e) <==> Follow(fs, source, {}) == Reaches(e) {
      EndUnchanged(fs, after, source, changed, e);
    }
    SameEnd(after, target, source, Follow(fs, source, {}));
  }

  /** A kept link still leads to its file exactly when no detour spoils it. */
  lemma KeptLinkEnds(fs: Fs, repo: string, installed: string, n: string)
    requires SourcesUndisturbed(fs, repo, installed)
    ensures var after := Applied(fs, PlanOf(fs, repo, installed), repo);
            n in Managed(fs, repo) && Decide(fs, repo, Path(installed, n)) == ToKeep ==>
              (Follow(after, Path(installed, n), {}) == Follow(fs, Path(repo, n), {})
               <==> Harmless(fs, repo, installed, n))
  {
    var target, changed := Path(installed, n), Changed(fs, repo, installed);
    var after, end := Applied(fs, PlanOf(fs, repo, installed), repo), Follow(fs, Path(repo, n), {});
    AppliedAgrees(fs, repo, repo, installed);
    if n in Managed(fs, repo) && Decide(fs, repo, target) == ToKeep {
      if Avoids(fs, target, changed) {
        EndUnchanged(fs, after, target, changed, end.p);
      } else {
        var k :| At(fs, target, k).Some? && At(fs, target, k).value in changed;
        var first := MeetsFirst(fs, target, changed, k);
        var x := At(fs, target, first).value;
        AtUnchanged(fs, after, target, changed, first);
        ReachesThrough(after, target, first, x, end.p);
        ChangedPathEnds(fs, repo, installed, x, end.p);
        forall m, y | FirstMet(fs, target, changed, m, y) ensures y == x {
          FirstIsUnique(fs, target, changed, first, x, m, y);
        }
      }
    }
  }

  /** Where a changed path leads afterwards: where its source leads, or nowhere. */
  lemma ChangedPathEnds(fs: Fs, repo: string, installed: string, x: Path, e: Path)
    requires SourcesUndisturbed(fs, repo, installed)
    ensures var after := Applied(fs, PlanOf(fs, repo, installed), repo);
            x in Changed(fs, repo, installed) ==>
              (Follow(after, x, {}) == Reaches(e)
               <==> x.name in Managed(fs, repo) && Follow(fs, Path(repo, x.name), {}) == Reaches(e))
  {
    var after, source := Applied(fs, PlanOf(fs, repo, installed), repo), Path(repo, x.name);
    PlanMembers(fs, repo, installed);
    AppliedAgrees(fs, repo, repo, installed);
    if x in Changed(fs, repo, installed) && x !in PlanOf(fs, repo, installed).prune {
      assert At(after, x, 1) == At(after, source, 0) == Some(source);
      ReachesThrough(after, x, 1, source, e);
      EndUnchanged(fs, after, source, Changed(fs, repo, installed), e);
    }
  }

  /** For undisturbed sources and absolute paths a name settles exactly when its source
      exists and, if its link was right before, no detour spoils it. */
  lemma UndisturbedSettles(fs: Fs, repo: string, installed: string, n: string)
    requires SourcesUndisturbed(fs, repo, installed)
    ensures n in Managed(fs, repo) ==>
              (Settles(fs, repo, repo, installed, n)
               <==> && Exists(fs, Path(repo, n))
                    && (Decide(fs, repo, Path(installed, n)) == ToKeep ==> Harmless(fs, repo, installed, n)))
  {
    var target, source := Path(installed, n), Path(repo, n);
    var after := Applied(fs, PlanOf(fs, repo, installed), repo);
    var changed := Changed(fs, repo, installed);
    if n in Managed(fs, repo) {
      NameAfterApply(fs, repo, repo, installed, n);
      PlanMembers(fs, repo, installed);
      AppliedAgrees(fs, repo, repo, installed);
      if Decide(fs, repo, target) == ToKeep {
        assert target !in changed && Exists(fs, source);
        KeptLinkEnds(fs, repo, installed, n);
        EndUnchanged(fs, after, source, changed, Follow(fs, source, {}).p);
      } else {
        assert target in changed && after[target] == Link(source);
        NewLinkEnds(fs, after, repo, target, changed);
      }
    }
  }

  /** The convergence condition for undisturbed sources: every source exists and no
      kept link is spoilt by a detour. */
  lemma UndisturbedConvergesIff(fs: Fs, repo: string, installed: string)
    requires SourcesUndisturbed(fs, repo, installed)
    ensures PlanOf(Applied(fs, PlanOf(fs, repo, installed), repo), repo, installed).relink == []
       <==> forall n | n in Managed(fs, repo) ::
              && Exists(fs, Path(repo, n))
              && (Decide(fs, repo, Path(installed, n)) == ToKeep ==> Harmless(fs, repo, installed, n))
  {
    ConvergesIff(fs, repo, repo, installed);
    forall n | n in Managed(fs, repo)
      ensures Settles(fs, repo, repo, installed, n)
         <==> && Exists(fs, Path(repo, n))
              && (Decide(fs, repo, Path(installed, n)) == ToKeep ==> Harmless(fs, repo, installed, n))
    {
      UndisturbedSettles(fs, repo, installed, n);
    }
  }

  /** Sources that are no links themselves, in another directory, are undisturbed. */
  lemma PlainSourcesUndisturbed(fs: Fs, repo: string, installed: string)
    requires repo != installed
    requires forall n | n in Managed(fs, repo) :: !IsSymlink(fs, Path(repo, n))
    ensures SourcesUndisturbed(fs, repo, installed)
  {
    PlanMembers(fs, repo, installed);
    forall n, k | n in Managed(fs, repo) && At(fs, Path(repo, n), k).Some?
      ensures At(fs, Path(repo, n), k).value !in Changed(fs, repo, installed)
    {
      assert k == 0;
    }
  }

  // ------------------------------------------------------ two runs

  /** Nothing is left to do. */
  predicate Idle(actions: Actions) {
    actions.link == [] && actions.relink == [] && actions.prune == []
  }

  /** A plan that was stopped by a directory is stopped by it again. */
  lemma StoppedStaysBusy(fs: Fs, after: Fs, repo: string, installed: string, at: Path)
    requires IsDirectory(after, at)
    ensures var plan := PlanOf(fs, repo, installed);
            && AgreeOutside(fs, after, Changed(fs, repo, installed))
            && at in plan.link + plan.relink + plan.prune
            && (forall p: Path | p in fs && p !in plan.prune :: p in after)
            ==> !Idle(PlanOf(after, repo, installed))
  {
    var plan, again := PlanOf(fs, repo, installed), PlanOf(after, repo, installed);
    PlanMembers(fs, repo, installed);
    PlanMembers(after, repo, installed);
    ManagedMembers(fs, repo);
    ManagedMembers(after, repo);
    if AgreeOutside(fs, after, Changed(fs, repo, installed)) && at in plan.link + plan.relink + plan.prune
       && forall p: Path | p in fs && p !in plan.prune :: p in after {
      if at.name in Managed(fs, repo) {
        assert Path(repo, at.name) in after;
        DirectoryIsRelinked(after, repo, at);
        assert at in again.relink;
      } else {
        assert Path(repo, at.name) !in after;
        assert at in again.prune;
      }
    }
  }

  lemma DirectoryIsRelinked(fs: Fs, repo: string, at: Path)
    requires IsDirectory(fs, at)
    ensures Decide(fs, repo, at) == ToRelink
  {
    assert Follow(fs, at, {}) == Reaches(at);
  }

  /** Two runs of the installer. The second plan is idle if and only if no directory
      was in the way of the first and every managed name settles. */
  method PlanApplyPlan(files: FileSystem, repo: string, links: string, installed: string)
    returns (outcome: Outcome, again: Actions)
    modifies files
    ensures outcome.Done? <==>
            var plan := PlanOf(old(files.nodes), repo, installed);
            NoDirectories(old(files.nodes), plan.link + plan.relink + plan.prune)
    ensures again == PlanOf(files.nodes, repo, installed)
    ensures Idle(again) <==>
            && outcome.Done?
            && forall n | n in Managed(old(files.nodes), repo) :: Settles(old(files.nodes), repo, links, installed, n)
  {
    ghost var fs := files.nodes;
    var plan := files.Plan(repo, installed);
    PlanPartitions(fs, repo, installed);
    outcome := files.Apply(plan, repo, links, false);
    again := files.Plan(repo, installed);
    if outcome.Done? {
      ConvergesIff(fs, repo, links, installed);
    } else {
      StoppedStaysBusy(fs, files.nodes, repo, installed, outcome.at);
    }
  }

  // ------------------------------------------------------ runs that do not converge

  /** Installing a directory into itself replaces a plain file by a link to itself. */
  lemma SameDirectoryLosesFile(fs: Fs, dir: string, name: string)
    requires IsCommand(name) && Path(dir, name) in fs && fs[Path(dir, name)].File?
    ensures var after := Applied(fs, PlanOf(fs, dir, dir), dir);
            && Path(dir, name) in after && after[Path(dir, name)] == Link(Path(dir, name))
            && !Exists(after, Path(dir, name))
  {
    var p := Path(dir, name);
    ManagedMembers(fs, dir);
    PlanMembers(fs, dir, dir);
    AppliedAgrees(fs, dir, dir, dir);
    assert p in PlanOf(fs, dir, dir).relink;
    LinkToItself(Applied(fs, PlanOf(fs, dir, dir), dir), p);
  }

  lemma LinkToItself(fs: Fs, p: Path)
    requires p in fs && fs[p] == Link(p)
    ensures !Exists(fs, p)
  {
    assert Follow(fs, p, {}) == Follow(fs, p, {} + {p});
    assert Follow(fs, p, {} + {p}) == Loops;
  }

  /** A kept link that leads through another installed name which the same plan
      relinks is not kept by the next plan: the first run does not converge. */
  lemma DetourDoesNotConverge(fs: Fs, repo: string, installed: string, a: string, b: string)
    requires repo != installed && a != b && IsCommand(a) && IsCommand(b)
    requires Path(repo, a) in fs && fs[Path(repo, a)].File? && Path(repo, b) in fs && fs[Path(repo, b)].File?
    requires Path(installed, a) in fs && fs[Path(installed, a)] == Link(Path(installed, b))
    requires Path(installed, b) in fs && fs[Path(installed, b)] == Link(Path(repo, a))
    ensures var plan := PlanOf(fs, repo, installed);
            var again := PlanOf(Applied(fs, plan, repo), repo, installed);
            Path(installed, a) in plan.keep && Path(installed, a) in again.relink
  {
    var ia, ib := Path(installed, a), Path(installed, b);
    var after := Applied(fs, PlanOf(fs, repo, installed), repo);
    ManagedMembers(fs, repo);
    PlanMembers(fs, repo, installed);
    DetourBefore(fs, repo, ia, ib);
    AppliedAgrees(fs, repo, repo, installed);
    DetourAfter(fs, after, ia, ib, repo, Changed(fs, repo, installed));
    SourcesStay(fs, repo, repo, installed);
    PlanMembers(after, repo, installed);
  }

  lemma DetourBefore(fs: Fs, repo: string, ia: Path, ib: Path)
    requires ia != ib && ia.name != ib.name
    requires ia in fs && fs[ia] == Link(ib) && ib in fs && fs[ib] == Link(Path(repo, ia.name))
    requires Path(repo, ia.name) in fs && fs[Path(repo, ia.name)].File?
    requires Path(repo, ib.name) in fs && fs[Path(repo, ib.name)].File?
    ensures Decide(fs, repo, ib) == ToRelink && Decide(fs, repo, ia) == ToKeep
  {
    TwoSteps(fs, ia, ib, Path(repo, ia.name));
    PlainFile(fs, Path(repo, ia.name));
    PlainFile(fs, Path(repo, ib.name));
  }

  lemma DetourAfter(fs: Fs, after: Fs, ia: Path, ib: Path, repo: string, changed: set<Path>)
    requires AgreeOutside(fs, after, changed) && ia != ib && ia.name != ib.name
    requires var ra, rb := Path(repo, ia.name), Path(repo, ib.name);
             && ia !in changed && ra !in changed && rb !in changed
             && ia in fs && fs[ia] == Link(ib)
             && ra in fs && fs[ra].File? && rb in fs && fs[rb].File?
             && ib in after && after[ib] == Link(rb)
    ensures Decide(after, repo, ia) == ToRelink
  {
    TwoSteps(after, ia, ib, Path(repo, ib.name));
    PlainFile(after, Path(repo, ia.name));
  }

  lemma PlainFile(fs: Fs, p: Path)
    requires p in fs && fs[p].File?
    ensures Follow(fs, p, {}) == Reaches(p)
  {
  }

  /** A link to a link to a file. */
  lemma TwoSteps(fs: Fs, p: Path, q: Path, file: Path)
    requires p != q && p in fs && q in fs && file in fs
    requires fs[p] == Link(q) && fs[q] == Link(file) && fs[file].File?
    ensures Follow(fs, p, {}) == Follow(fs, q, {}) == Follow(fs, file, {}) == Reaches(file)
  {
    assert Follow(fs, q, {} + {p}) == Follow(fs, file, {} + {p} + {q});
  }

  /** A repo file that links back to the installed one: the run replaces the installed
      file by a link to the repo, and both are links to each other. */
  lemma LinkBackLosesFile(fs: Fs, repo: string, installed: string, n: string)
    requires repo != installed && IsCommand(n)
    requires Path(installed, n) in fs && fs[Path(installed, n)].File?
    requires Path(repo, n) in fs && fs[Path(repo, n)] == Link(Path(installed, n))
    ensures var after, target := Applied(fs, PlanOf(fs, repo, installed), repo), Path(installed, n);
            && target in after && after[target] == Link(Path(repo, n))
            && !Exists(after, target)
            && !SourcesUndisturbed(fs, repo, installed)
            && !Settles(fs, repo, repo, installed, n)
  {
    var target, source := Path(installed, n), Path(repo, n);
    var after := Applied(fs, PlanOf(fs, repo, installed), repo);
    ManagedMembers(fs, repo);
    PlanMembers(fs, repo, installed);
    AppliedAgrees(fs, repo, repo, installed);
    assert target in PlanOf(fs, repo, installed).relink;
    assert At(fs, source, 1) == At(fs, target, 0) == Some(target);
    LinkCycle(after, target, source);
    SettlesIff(fs, repo, repo, installed, n);
  }

  lemma LinkCycle(fs: Fs, p: Path, q: Path)
    requires p in fs && q in fs && p != q && fs[p] == Link(q) && fs[q] == Link(p)
    ensures !Exists(fs, p)
  {
    assert Follow(fs, p, {}) == Follow(fs, q, {} + {p}) == Follow(fs, p, {} + {p} + {q}) == Loops;
  }

  /** With a relative `--repo-dir` the link text names another directory. If it has no
      file of that name, the new link dangles, and every further run relinks it. */
  lemma RelativeRepoRelinksForever(fs: Fs, repo: string, links: string, installed: string, n: string)
    requires n in Managed(fs, repo) && links != installed && Path(links, n) !in fs
    requires Decide(fs, repo, Path(installed, n)) != ToKeep
    ensures var after := Applied(fs, PlanOf(fs, repo, installed), links);
            && Path(installed, n) in PlanOf(after, repo, installed).relink
            && n in Managed(after, repo) && Path(links, n) !in after
  {
    var after, target := Applied(fs, PlanOf(fs, repo, installed), links), Path(installed, n);
    PlanMembers(fs, repo, installed);
    AppliedAgrees(fs, repo, links, installed);
    SourcesStay(fs, repo, links, installed);
    assert Path(links, n) !in Changed(fs, repo, installed);
    DanglingIsRelinked(after, repo, target, Path(links, n));
    PlanMembers(after, repo, installed);
  }

  lemma DanglingIsRelinked(fs: Fs, repo: string, target: Path, to: Path)
    requires target in fs && fs[target] == Link(to) && to !in fs
    ensures Decide(fs, repo, target) == ToRelink
  {
    assert Follow(fs, target, {}) == Follow(fs, to, {} + {target}) == Dangles(to);
  }
}
