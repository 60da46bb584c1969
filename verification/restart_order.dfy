/** Restarting the whole stack in mount order (control-panel-django/host/services.py,
    control-panel-django/core/docker_client.py). */
module RestartOrder {
  import opened Text
  import opened Selection

  datatype Container = Container(id: string, name: string)

  /** The container names that take part in serving the mounts. */
  datatype Mounts = Mounts(prereqs: set<string>, providers: set<string>, dependents: set<string>) {
    predicate Disjoint() {
      prereqs !! providers && prereqs !! dependents && providers !! dependents
    }

    function Staged(): set<string> {
      prereqs + providers + dependents
    }
  }

  const STACK := Mounts({"nzbdav"}, {"nzbdav_rclone"}, {"radarr", "sonarr", "plex", "unpackerr", "cleanuparr"})

  lemma StackIsDisjoint()
    ensures STACK.Disjoint()
  {
    assert |"nzbdav"| != |"nzbdav_rclone"|;
    assert forall s | s in STACK.dependents :: s[0] != 'n';
  }

  datatype Step = Restart(c: Container) | Wait(c: Container)

  function Named(names: set<string>): Container -> bool {
    (c: Container) => c.name in names
  }

  function Except(me: Container): Container -> bool {
    (c: Container) => c.id != me.id
  }

  function Restarts(cs: seq<Container>): (steps: seq<Step>)
    ensures |steps| == |cs|
  {
    seq(|cs|, i requires 0 <= i < |cs| => Restart(cs[i]))
  }

  function Waits(cs: seq<Container>): (steps: seq<Step>)
    ensures |steps| == |cs|
  {
    seq(|cs|, i requires 0 <= i < |cs| => Wait(cs[i]))
  }

  /** Restarts, then waits. */
  function Block(cs: seq<Container>): seq<Step> {
    Restarts(cs) + Waits(cs)
  }

  /** The worker's steps for the four groups of containers. */
  function Schedule(prereqs: seq<Container>, providers: seq<Container>, rest: seq<Container>,
                    dependents: seq<Container>): seq<Step> {
    Block(prereqs) + Block(providers) + (Restarts(rest) + Restarts(dependents)) + Restarts(prereqs)
  }

  function Trace(targets: seq<Container>, m: Mounts): seq<Step> {
    Schedule(Filter(targets, Named(m.prereqs)), Filter(targets, Named(m.providers)),
             Filter(targets, Not(Named(m.Staged()))), Filter(targets, Named(m.dependents)))
  }

  function IsRestart(step: Step): bool {
    step.Restart?
  }

  function IsWait(step: Step): bool {
    step.Wait?
  }

  function Subject(step: Step): Container {
    step.c
  }

  /** The containers whose restart was attempted, in order. */
  function Attempts(trace: seq<Step>): seq<Container> {
    Pick(trace, IsRestart, Subject)
  }

  /** The attempts that raise; `works(n)` tells whether the n-th one succeeds. */
  function Failures(attempts: seq<Container>, works: nat -> bool): seq<string> {
    if attempts == [] then []
    else
      var n := |attempts| - 1;
      var before := Failures(attempts[..n], works);
      if works(n) then before else before + [attempts[n].name]
  }

  // ------------------------------------------------------------ the worker

  class Worker {
    var trace: seq<Step>
    var log: seq<string>
    const works: nat -> bool

    ghost predicate Valid()
      reads this
    {
      log == Failures(Attempts(trace), works)
    }

    constructor (works: nat -> bool)
      ensures Valid() && trace == [] && this.works == works
    {
      trace, log := [], [];
      this.works := works;
    }

    method RestartOne(c: Container)
      requires Valid()
      modifies this
      ensures Valid() && trace == old(trace) + [Restart(c)]
    {
      AttemptNext(trace, c);
      if !works(|Attempts(trace)|) {
        log := log + [c.name];
      }
      trace := trace + [Restart(c)];
    }

    /** One restart loop: a failure is logged and the loop goes on. */
    method RestartEach(cs: seq<Container>)
      requires Valid()
      modifies this
      ensures Valid() && trace == old(trace) + Restarts(cs)
    {
      for i := 0 to |cs|
        invariant Valid() && trace == old(trace) + Restarts(cs[..i])
      {
        RestartOne(cs[i]);
        assert Restarts(cs[..i + 1]) == Restarts(cs[..i]) + [Restart(cs[i])];
      }
      assert cs[..|cs|] == cs;
    }

    method WaitEach(cs: seq<Container>)
      requires Valid()
      modifies `trace
      ensures Valid() && trace == old(trace) + Waits(cs)
    {
      for i := 0 to |cs|
        invariant Valid() && trace == old(trace) + Waits(cs[..i])
      {
        WaitNext(trace, cs[i]);
        trace := trace + [Wait(cs[i])];
        assert Waits(cs[..i + 1]) == Waits(cs[..i]) + [Wait(cs[i])];
      }
      assert cs[..|cs|] == cs;
    }

    /** The background thread. Whatever fails, its trace is the same. */
    method Work(prereqs: seq<Container>, providers: seq<Container>, rest: seq<Container>, dependents: seq<Container>)
      requires Valid() && trace == []
      modifies this
      ensures Valid() && trace == Schedule(prereqs, providers, rest, dependents)
    {
      RestartEach(prereqs);
      WaitEach(prereqs);
      assert trace == Block(prereqs);
      RestartEach(providers);
      WaitEach(providers);
      Assoc(Block(prereqs), Restarts(providers), Waits(providers));
      RestartEach(rest);
      RestartEach(dependents);
      Assoc(Block(prereqs) + Block(providers), Restarts(rest), Restarts(dependents));
      RestartEach(prereqs);
    }

    /** `restart_all`: None when there is nothing to restart. */
    method RestartAll(me: Container, containers: seq<Container>, m: Mounts) returns (names: Option<set<string>>)
      requires Valid() && trace == []
      modifies this
      ensures Valid()
      ensures names.None? <==> Filter(containers, Except(me)) == []
      ensures names.Some? ==>
                forall n :: n in names.value <==> exists c | c in Filter(containers, Except(me)) :: c.name == n
      ensures trace == Trace(Filter(containers, Except(me)), m)
    {
      var targets := Filter(containers, Except(me));
      if targets == [] {
        return None;
      }
      Work(Filter(targets, Named(m.prereqs)), Filter(targets, Named(m.providers)),
           Filter(targets, Not(Named(m.Staged()))), Filter(targets, Named(m.dependents)));
      names := Some(set c | c in targets :: c.name);
    }
  }

  lemma AttemptNext(trace: seq<Step>, c: Container)
    ensures Attempts(trace + [Restart(c)]) == Attempts(trace) + [c]
  {
    assert (trace + [Restart(c)])[..|trace|] == trace;
  }

  lemma WaitNext(trace: seq<Step>, c: Container)
    ensures Attempts(trace + [Wait(c)]) == Attempts(trace)
  {
    assert (trace + [Wait(c)])[..|trace|] == trace;
  }

  // ------------------------------------------------------------ who is restarted

  lemma StepsOf(cs: seq<Container>, step: Step)
    ensures step in Restarts(cs) <==> step.Restart? && step.c in cs
    ensures step in Waits(cs) <==> step.Wait? && step.c in cs
  {
    if step.c in cs {
      var i :| 0 <= i < |cs| && cs[i] == step.c;
      assert Restarts(cs)[i] == Restart(step.c) && Waits(cs)[i] == Wait(step.c);
    }
  }

  /** The panel itself is never restarted or waited for. */
  lemma PanelUntouched(me: Container, containers: seq<Container>, m: Mounts, step: Step)
    requires step in Trace(Filter(containers, Except(me)), m)
    ensures step.c.id != me.id && step.c in containers
  {
    var targets := Filter(containers, Except(me));
    StepsOf(Filter(targets, Named(m.prereqs)), step);
    StepsOf(Filter(targets, Named(m.providers)), step);
    StepsOf(Filter(targets, Named(m.dependents)), step);
    StepsOf(Filter(targets, Not(Named(m.Staged()))), step);
    FilterIff(targets, Named(m.prereqs), step.c);
    FilterIff(targets, Named(m.providers), step.c);
    FilterIff(targets, Named(m.dependents), step.c);
    FilterIff(targets, Not(Named(m.Staged())), step.c);
    FilterIff(containers, Except(me), step.c);
  }

  lemma {:induction false} AttemptsJoin(a: seq<Step>, b: seq<Step>)
    ensures Attempts(a + b) == Attempts(a) + Attempts(b)
  {
    if b == [] {
      assert a + b == a;
    } else {
      var n := |b| - 1;
      AttemptsJoin(a, b[..n]);
      assert (a + b)[..|a + b| - 1] == a + b[..n];
    }
  }

  lemma {:induction false} AttemptsOfLoops(cs: seq<Container>)
    ensures Attempts(Restarts(cs)) == cs && Attempts(Waits(cs)) == []
  {
    if cs != [] {
      var n := |cs| - 1;
      AttemptsOfLoops(cs[..n]);
      assert Restarts(cs)[..n] == Restarts(cs[..n]) && Waits(cs)[..n] == Waits(cs[..n]);
      assert cs == cs[..n] + [cs[n]];
    }
  }

  lemma AttemptsOfBlock(cs: seq<Container>)
    ensures Attempts(Block(cs)) == cs
  {
    AttemptsOfLoops(cs);
    AttemptsJoin(Restarts(cs), Waits(cs));
  }

  lemma {:induction false} StagesPartition(targets: seq<Container>, m: Mounts)
    requires m.Disjoint()
    ensures multiset(Filter(targets, Named(m.prereqs))) + multiset(Filter(targets, Named(m.providers)))
          + multiset(Filter(targets, Not(Named(m.Staged())))) + multiset(Filter(targets, Named(m.dependents)))
         == multiset(targets)
  {
    if targets != [] {
      var init, last := targets[..|targets| - 1], targets[|targets| - 1];
      StagesPartition(init, m);
      assert targets == init + [last];
    }
  }

  /** Every target is restarted exactly once, prerequisites exactly twice. */
  lemma RestartCounts(targets: seq<Container>, m: Mounts)
    requires m.Disjoint()
    ensures multiset(Attempts(Trace(targets, m)))
         == multiset(targets) + multiset(Filter(targets, Named(m.prereqs)))
  {
    var prereqs, providers := Filter(targets, Named(m.prereqs)), Filter(targets, Named(m.providers));
    var rest, dependents := Filter(targets, Not(Named(m.Staged()))), Filter(targets, Named(m.dependents));
    AttemptsOfBlock(prereqs);
    AttemptsOfBlock(providers);
    AttemptsOfLoops(rest);
    AttemptsOfLoops(dependents);
    AttemptsOfLoops(prereqs);
    AttemptsJoin(Restarts(rest), Restarts(dependents));
    AttemptsJoin(Block(prereqs), Block(providers));
    var consumers := Restarts(rest) + Restarts(dependents);
    AttemptsJoin(Block(prereqs) + Block(providers), consumers);
    AttemptsJoin(Block(prereqs) + Block(providers) + consumers, Restarts(prereqs));
    StagesPartition(targets, m);
  }

  lemma WaitsOfBlock(cs: seq<Container>)
    ensures Waited(Block(cs)) == cs
  {
    WaitsOfLoops(cs);
    PickJoins(Restarts(cs), Waits(cs), IsWait, Subject);
  }

  lemma {:induction false} WaitsOfLoops(cs: seq<Container>)
    ensures Waited(Restarts(cs)) == [] && Waited(Waits(cs)) == cs
  {
    if cs != [] {
      var n := |cs| - 1;
      WaitsOfLoops(cs[..n]);
      assert Restarts(cs)[..n] == Restarts(cs[..n]) && Waits(cs)[..n] == Waits(cs[..n]);
      assert cs == cs[..n] + [cs[n]];
    }
  }

  /** The containers that were waited for, in order. */
  function Waited(trace: seq<Step>): seq<Container> {
    Pick(trace, IsWait, Subject)
  }

  /** The worker waits for each prerequisite and each provider once, and for nothing else. */
  lemma WaitsAre(targets: seq<Container>, m: Mounts)
    ensures Waited(Trace(targets, m)) == Filter(targets, Named(m.prereqs)) + Filter(targets, Named(m.providers))
  {
    var prereqs, providers := Filter(targets, Named(m.prereqs)), Filter(targets, Named(m.providers));
    var rest, dependents := Filter(targets, Not(Named(m.Staged()))), Filter(targets, Named(m.dependents));
    var consumers := Restarts(rest) + Restarts(dependents);
    WaitsOfBlock(prereqs);
    WaitsOfBlock(providers);
    WaitsOfLoops(rest);
    WaitsOfLoops(dependents);
    WaitsOfLoops(prereqs);
    PickJoins(Restarts(rest), Restarts(dependents), IsWait, Subject);
    PickJoins(Block(prereqs), Block(providers), IsWait, Subject);
    PickJoins(Block(prereqs) + Block(providers), consumers, IsWait, Subject);
    PickJoins(Block(prereqs) + Block(providers) + consumers, Restarts(prereqs), IsWait, Subject);
  }

  /** The log names the attempts that failed, in their order. */
  lemma {:induction false} FailuresAre(attempts: seq<Container>, works: nat -> bool) returns (at: seq<nat>)
    ensures |at| == |Failures(attempts, works)|
    ensures forall k | 0 <= k < |at| :: at[k] < |attempts| && Failures(attempts, works)[k] == attempts[at[k]].name
    ensures forall k, l | 0 <= k < l < |at| :: at[k] < at[l]
    ensures forall i: nat | i < |attempts| :: i in at <==> !works(i)
  {
    if attempts == [] {
      at := [];
    } else {
      var n := |attempts| - 1;
      at := FailuresAre(attempts[..n], works);
      if !works(n) {
        at := at + [n];
      }
    }
  }

  // ------------------------------------------------------------ in which order

  /** Before step `i`, `c` was restarted and then waited for. */
  ghost predicate ReadyBefore(trace: seq<Step>, i: nat, c: Container) {
    exists j: nat, k: nat | j < k < i && k < |trace| :: trace[j] == Restart(c) && trace[k] == Wait(c)
  }

  lemma BlockIsReady(before: seq<Step>, cs: seq<Container>, after: seq<Step>, c: Container, i: nat)
    requires c in cs && i >= |before| + |Block(cs)|
    ensures ReadyBefore(before + Block(cs) + after, i, c)
  {
    var trace := before + Block(cs) + after;
    var k :| 0 <= k < |cs| && cs[k] == c;
    assert trace[|before| + k] == Restart(c) && trace[|before| + |cs| + k] == Wait(c);
  }

  lemma BlockSteps(cs: seq<Container>, step: Step)
    requires step in Block(cs)
    ensures step.c in cs
  {
    StepsOf(cs, step);
  }

  /** Every provider comes after every prerequisite has been restarted and waited for. */
  lemma PrereqsBeforeProviders(targets: seq<Container>, m: Mounts, i: nat, p: Container)
    requires m.Disjoint() && i < |Trace(targets, m)| && p in targets && p.name in m.prereqs
    requires Trace(targets, m)[i].c.name in m.providers
    ensures ReadyBefore(Trace(targets, m), i, p)
  {
    var prereqs := Filter(targets, Named(m.prereqs));
    var trace, step := Trace(targets, m), Trace(targets, m)[i];
    var consumers := Restarts(Filter(targets, Not(Named(m.Staged())))) + Restarts(Filter(targets, Named(m.dependents)));
    var after := Block(Filter(targets, Named(m.providers))) + consumers + Restarts(prereqs);
    assert trace == [] + Block(prereqs) + after;
    FilterIff(targets, Named(m.prereqs), p);
    FilterIff(targets, Named(m.prereqs), step.c);
    if i < |Block(prereqs)| {
      assert step in Block(prereqs);
      BlockSteps(prereqs, step);
      assert false;
    }
    BlockIsReady([], prereqs, after, p, i);
  }

  /** Every consumer of the mounts, a dependent or any other container, comes after
      every provider has been restarted and waited for. */
  lemma ProvidersBeforeConsumers(targets: seq<Container>, m: Mounts, i: nat, v: Container)
    requires m.Disjoint() && i < |Trace(targets, m)| && v in targets && v.name in m.providers
    requires Trace(targets, m)[i].c.name !in m.prereqs + m.providers
    ensures ReadyBefore(Trace(targets, m), i, v)
  {
    var prereqs, providers := Filter(targets, Named(m.prereqs)), Filter(targets, Named(m.providers));
    var trace, step := Trace(targets, m), Trace(targets, m)[i];
    var consumers := Restarts(Filter(targets, Not(Named(m.Staged())))) + Restarts(Filter(targets, Named(m.dependents)));
    var after := consumers + Restarts(prereqs);
    assert trace == Block(prereqs) + Block(providers) + after;
    FilterIff(targets, Named(m.providers), v);
    FilterIff(targets, Named(m.prereqs), step.c);
    FilterIff(targets, Named(m.providers), step.c);
    if i < |Block(prereqs)| {
      assert step in Block(prereqs);
      BlockSteps(prereqs, step);
      assert false;
    } else if i < |Block(prereqs)| + |Block(providers)| {
      assert step == Block(providers)[i - |Block(prereqs)|];
      BlockSteps(providers, step);
      assert false;
    }
    BlockIsReady(Block(prereqs), providers, after, v, i);
  }

  /** Everything outside the mount stages is restarted before any dependent. */
  lemma OthersBeforeDependents(targets: seq<Container>, m: Mounts, i: nat, j: nat)
    requires m.Disjoint() && i < |Trace(targets, m)| && j < |Trace(targets, m)|
    requires Trace(targets, m)[i].c.name !in m.Staged() && Trace(targets, m)[j].c.name in m.dependents
    ensures i < j
  {
    var prereqs, providers := Filter(targets, Named(m.prereqs)), Filter(targets, Named(m.providers));
    var rest, dependents := Filter(targets, Not(Named(m.Staged()))), Filter(targets, Named(m.dependents));
    var trace := Trace(targets, m);
    var start := |Block(prereqs)| + |Block(providers)|;
    forall k: nat | k < |trace| && trace[k].c.name in m.dependents ensures k >= start + |rest| {
      SectionOf(prereqs, providers, rest, dependents, k);
      FilterIff(targets, Named(m.prereqs), trace[k].c);
      FilterIff(targets, Named(m.providers), trace[k].c);
      FilterIff(targets, Not(Named(m.Staged())), trace[k].c);
    }
    SectionOf(prereqs, providers, rest, dependents, i);
    FilterIff(targets, Named(m.prereqs), trace[i].c);
    FilterIff(targets, Named(m.providers), trace[i].c);
    FilterIff(targets, Named(m.dependents), trace[i].c);
  }

  /** Which group a step of the schedule belongs to, by its position. */
  lemma SectionOf(prereqs: seq<Container>, providers: seq<Container>, rest: seq<Container>,
                  dependents: seq<Container>, k: nat)
    requires k < |Schedule(prereqs, providers, rest, dependents)|
    ensures var c, start := Schedule(prereqs, providers, rest, dependents)[k].c, 2 * |prereqs| + 2 * |providers|;
            || (k < start && (c in prereqs || c in providers))
            || (start <= k < start + |rest| && c in rest)
            || (start + |rest| <= k < start + |rest| + |dependents| && c in dependents)
            || (start + |rest| + |dependents| <= k && c in prereqs)
  {
    var step := Schedule(prereqs, providers, rest, dependents)[k];
    if k < 2 * |prereqs| {
      assert step in Block(prereqs);
      BlockSteps(prereqs, step);
    } else if k < 2 * |prereqs| + 2 * |providers| {
      assert step == Block(providers)[k - 2 * |prereqs|];
      BlockSteps(providers, step);
    }
  }

  /** After every other restart, each prerequisite is restarted again; the trace ends
      with these restarts. */
  lemma PrereqsRebindLast(targets: seq<Container>, m: Mounts, i: nat, p: Container) returns (j: nat)
    requires m.Disjoint() && i < |Trace(targets, m)| && p in targets && p.name in m.prereqs
    requires Trace(targets, m)[i].c.name !in m.prereqs
    ensures i < j < |Trace(targets, m)| && Trace(targets, m)[j] == Restart(p)
    ensures forall k | j <= k < |Trace(targets, m)| ::
              Trace(targets, m)[k].Restart? && Trace(targets, m)[k].c.name in m.prereqs
  {
    var prereqs := Filter(targets, Named(m.prereqs));
    var trace, step := Trace(targets, m), Trace(targets, m)[i];
    var start := |trace| - |prereqs|;
    FilterIff(targets, Named(m.prereqs), p);
    var k :| 0 <= k < |prereqs| && prereqs[k] == p;
    j := start + k;
    forall l | start <= l < |trace| ensures trace[l].Restart? && trace[l].c.name in m.prereqs {
      FilterIff(targets, Named(m.prereqs), prereqs[l - start]);
      assert trace[l] == Restart(prereqs[l - start]);
    }
  }

  // ------------------------------------------------------------ waiting for health

  /** The seconds that the first `polls` polls take. */
  function Busy(busy: nat -> real, polls: nat): real {
    if polls == 0 then 0.0 else Busy(busy, polls - 1) + busy(polls - 1)
  }

  /** `wait_for_healthy`. Poll `k` answers `report(k)` (None when the reload raises or
      there is no health check) and takes `busy(k)` seconds before the 2 s sleep. Ten more
      seconds follow when no poll ever had a status. */
  method WaitForHealthy(timeout: real, report: nat -> Option<string>, busy: nat -> real)
    returns (polls: nat, healthy: bool, elapsed: real)
    requires forall k :: busy(k) >= 0.0
    ensures polls > 0 ==> 2.0 * (polls as real - 1.0) < timeout
    ensures healthy <==> polls > 0 && report(polls - 1) == Some("healthy")
    ensures forall k: nat | k + 1 < polls :: report(k) != Some("healthy")
    ensures forall k: nat | k < polls :: Busy(busy, k) + 2.0 * k as real < timeout
    ensures healthy ==> elapsed == Busy(busy, polls) + 2.0 * (polls as real - 1.0)
    ensures !healthy ==> Busy(busy, polls) + 2.0 * polls as real >= timeout
    ensures !healthy && (exists k: nat | k < polls :: report(k).Some? && report(k).value != "") ==>
              elapsed == Busy(busy, polls) + 2.0 * polls as real
    ensures !healthy && (forall k: nat | k < polls :: report(k).None? || report(k).value == "") ==>
              elapsed == Busy(busy, polls) + 2.0 * polls as real + 10.0
  {
    polls, healthy, elapsed := 0, false, 0.0;
    var sawHealthBlock := false;
    while elapsed < timeout
      invariant elapsed == Busy(busy, polls) + 2.0 * polls as real && elapsed >= 2.0 * polls as real
      invariant polls > 0 ==> 2.0 * (polls as real - 1.0) < timeout
      invariant forall k: nat | k < polls :: report(k) != Some("healthy")
      invariant forall k: nat | k < polls :: Busy(busy, k) + 2.0 * k as real < timeout
      invariant sawHealthBlock <==> exists k: nat | k < polls :: report(k).Some? && report(k).value != ""
      decreases timeout - elapsed
    {
      var status := if report(polls).Some? then report(polls).value else "";
      elapsed := elapsed + busy(polls);
      polls := polls + 1;
      if status != "" {
        sawHealthBlock := true;
        if status == "healthy" {
          healthy := true;
          return;
        }
      }
      elapsed := elapsed + 2.0;
    }
    if !sawHealthBlock {
      elapsed := elapsed + 10.0;
    }
  }
}
