/** Restarting the media stack itself, with its container names spelled out
    (control-panel-django/host/services.py, control-panel-django/core/docker_client.py). */
module RestartReports {
  import opened Text
  import opened Selection
  import opened RestartOrder

  /** The consumers that are restarted last. */
  predicate IsDependent(name: string) {
    name == "radarr" || name == "sonarr" || name == "plex" || name == "unpackerr" || name == "cleanuparr"
  }

  lemma StackNames(name: string)
    ensures name in STACK.prereqs <==> name == "nzbdav"
    ensures name in STACK.providers <==> name == "nzbdav_rclone"
    ensures name in STACK.dependents <==> IsDependent(name)
  {
  }

  /** The worker's steps for the stack, run from the panel `me`. */
  function StackTrace(me: Container, containers: seq<Container>): seq<Step> {
    Trace(Filter(containers, Except(me)), STACK)
  }

  /** Before any step of nzbdav_rclone, nzbdav has been restarted and waited for; before any
      step of another container, nzbdav_rclone has. */
  lemma MountsComeFirst(me: Container, containers: seq<Container>, i: nat, c: Container)
    requires i < |StackTrace(me, containers)| && c in containers && c.id != me.id
    ensures var name := StackTrace(me, containers)[i].c.name;
            || (c.name == "nzbdav" && name == "nzbdav_rclone")
            || (c.name == "nzbdav_rclone" && name != "nzbdav" && name != "nzbdav_rclone")
            ==> ReadyBefore(StackTrace(me, containers), i, c)
  {
    var targets, name := Filter(containers, Except(me)), StackTrace(me, containers)[i].c.name;
    FilterIff(containers, Except(me), c);
    StackIsDisjoint();
    StackNames(c.name);
    StackNames(name);
    if c.name == "nzbdav" && name == "nzbdav_rclone" {
      PrereqsBeforeProviders(targets, STACK, i, c);
    }
    if c.name == "nzbdav_rclone" && name != "nzbdav" && name != "nzbdav_rclone" {
      ProvidersBeforeConsumers(targets, STACK, i, c);
    }
  }

  /** The dependents come after every container that serves no mount and needs none. */
  lemma DependentsComeLast(me: Container, containers: seq<Container>, i: nat, j: nat)
    requires i < |StackTrace(me, containers)| && j < |StackTrace(me, containers)|
    requires var name := StackTrace(me, containers)[i].c.name;
             name != "nzbdav" && name != "nzbdav_rclone" && !IsDependent(name)
    requires IsDependent(StackTrace(me, containers)[j].c.name)
    ensures i < j
  {
    StackIsDisjoint();
    StackNames(StackTrace(me, containers)[i].c.name);
    StackNames(StackTrace(me, containers)[j].c.name);
    OthersBeforeDependents(Filter(containers, Except(me)), STACK, i, j);
  }

  lemma {:induction false} FilteredCount(cs: seq<Container>, keep: Container -> bool, c: Container)
    ensures multiset(Filter(cs, keep))[c] == if keep(c) then multiset(cs)[c] else 0
  {
    if cs != [] {
      var init, last := cs[..|cs| - 1], cs[|cs| - 1];
      FilteredCount(init, keep, c);
      assert cs == init + [last];
    }
  }

  /** Every container but the panel is restarted once, and nzbdav twice. */
  lemma RestartedOnce(me: Container, containers: seq<Container>, c: Container)
    ensures multiset(Attempts(StackTrace(me, containers)))[c]
         == if c.id == me.id then 0 else multiset(containers)[c] * if c.name == "nzbdav" then 2 else 1
  {
    var targets := Filter(containers, Except(me));
    StackIsDisjoint();
    StackNames(c.name);
    RestartCounts(targets, STACK);
    FilteredCount(containers, Except(me), c);
    FilteredCount(targets, Named(STACK.prereqs), c);
  }

  /** Only nzbdav and nzbdav_rclone are waited for, each once. */
  lemma WaitedOnce(me: Container, containers: seq<Container>, c: Container)
    ensures multiset(Waited(StackTrace(me, containers)))[c]
         == if c.id != me.id && (c.name == "nzbdav" || c.name == "nzbdav_rclone") then multiset(containers)[c] else 0
  {
    var targets := Filter(containers, Except(me));
    var prereqs, providers := Filter(targets, Named(STACK.prereqs)), Filter(targets, Named(STACK.providers));
    StackNames(c.name);
    WaitsAre(targets, STACK);
    FilteredCount(containers, Except(me), c);
    FilteredCount(targets, Named(STACK.prereqs), c);
    FilteredCount(targets, Named(STACK.providers), c);
    assert multiset(prereqs + providers) == multiset(prereqs) + multiset(providers);
    assert |"nzbdav"| != |"nzbdav_rclone"|;
  }

  /** The run ends with restarts of nzbdav, after every step of another container. */
  lemma NzbdavRebindsLast(me: Container, containers: seq<Container>, i: nat, c: Container) returns (j: nat)
    requires i < |StackTrace(me, containers)| && StackTrace(me, containers)[i].c.name != "nzbdav"
    requires c in containers && c.id != me.id && c.name == "nzbdav"
    ensures i < j < |StackTrace(me, containers)| && StackTrace(me, containers)[j] == Restart(c)
    ensures forall k | j <= k < |StackTrace(me, containers)| ::
              StackTrace(me, containers)[k].Restart? && StackTrace(me, containers)[k].c.name == "nzbdav"
  {
    FilterIff(containers, Except(me), c);
    StackIsDisjoint();
    StackNames(StackTrace(me, containers)[i].c.name);
    StackNames(c.name);
    j := PrereqsRebindLast(Filter(containers, Except(me)), STACK, i, c);
    forall k | j <= k < |StackTrace(me, containers)| ensures StackTrace(me, containers)[k].c.name == "nzbdav" {
      StackNames(StackTrace(me, containers)[k].c.name);
    }
  }
}
