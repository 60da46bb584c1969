/** What the Plex watchdog does, in terms of what the polls measured
    (scripts/plex-health-monitor.py). */
module HealthReports {
  import opened Text
  import opened Selection
  import opened HealthMonitor

  predicate IsScan(a: Activity) {
    a.kind == Some("library.update.section")
  }

  /** The progress a list of activities shows: that of its first library scan, which may
      be none, and none without a scan. */
  predicate Shows(activities: seq<Activity>, progress: Option<real>) {
    || (exists i | 0 <= i < |activities| ::
          && activities[i].kind == Some("library.update.section") && activities[i].progress == progress
          && forall j | 0 <= j < i :: activities[j].kind != Some("library.update.section"))
    || (progress == None && forall a | a in activities :: a.kind != Some("library.update.section"))
  }

  lemma ShowsOne(activities: seq<Activity>, p: Option<real>, q: Option<real>)
    requires Shows(activities, p) && Shows(activities, q)
    ensures p == q
  {
  }

  /** `scan_progress` walks the whole list. */
  lemma {:induction false} ScanProgressShows(activities: seq<Activity>)
    ensures Shows(activities, ScanProgress(activities))
  {
    if activities != [] && activities[0].kind != Some("library.update.section") {
      ScanProgressShows(activities[1..]);
      assert activities == [activities[0]] + activities[1..];
      var rest := activities[1..];
      if i :| 0 <= i < |rest| && IsScan(rest[i]) && rest[i].progress == ScanProgress(rest)
              && forall j | 0 <= j < i :: !IsScan(rest[j]) {
        assert activities[i + 1] == rest[i];
        assert forall j | 0 <= j < i :: activities[j + 1] == rest[j];
        forall j | 0 <= j < i + 1 ensures !IsScan(activities[j]) {
          if j > 0 {
            assert activities[j] == rest[j - 1];
          }
        }
      }
    }
  }

  predicate IsAnswered(p: Poll) {
    p.Answered?
  }

  /** What the answered polls showed and when, after the "nothing yet" of the start. */
  ghost predicate Seen(start: real, polls: seq<Poll>, obs: seq<Observation>) {
    var answers := Filter(polls, IsAnswered);
    && |obs| == |answers| + 1
    && obs[0] == Observation(None, start)
    && forall k | 0 <= k < |answers| ::
         && answers[k].Answered? && obs[k + 1].at == answers[k].now
         && Shows(answers[k].health.activities, obs[k + 1].progress)
  }

  /** From `b` on the progress has not moved, and before `b` it was another. */
  ghost predicate FlatFrom(obs: seq<Observation>, b: nat) {
    && b < |obs|
    && (forall k | b <= k < |obs| :: obs[k].progress == obs[|obs| - 1].progress)
    && (b > 0 ==> obs[b - 1].progress != obs[|obs| - 1].progress)
  }

  lemma {:induction false} ObservationsAreSeen(start: real, polls: seq<Poll>)
    ensures Seen(start, polls, Observations(start, polls))
  {
    if polls != [] {
      var before, p := polls[..|polls| - 1], polls[|polls| - 1];
      ObservationsAreSeen(start, before);
      if p.Answered? {
        ScanProgressShows(p.health.activities);
      }
    }
  }

  lemma SeenOnce(start: real, polls: seq<Poll>, obs: seq<Observation>)
    requires Seen(start, polls, obs)
    ensures obs == Observations(start, polls)
  {
    ObservationsAreSeen(start, polls);
    var all, answers := Observations(start, polls), Filter(polls, IsAnswered);
    forall k | 0 <= k < |obs| ensures obs[k] == all[k] {
      if k > 0 {
        ShowsOne(answers[k - 1].health.activities, obs[k].progress, all[k].progress);
      }
    }
  }

  lemma FlatFromIsStreak(obs: seq<Observation>, b: nat)
    requires FlatFrom(obs, b)
    ensures b == StreakStart(obs)
  {
    var c := StreakStart(obs);
  }

  /** The poll measured a library scan whose progress has stood still for `seconds`. */
  ghost predicate StoodStill(obs: seq<Observation>, b: nat, p: Poll, seconds: real)
    requires FlatFrom(obs, b) && p.Answered?
  {
    obs[|obs| - 1].progress.Some? && obs[b].at != 0.0 && p.now - obs[b].at >= seconds
  }

  lemma LagMeans(start: real, polls: seq<Poll>, p: Poll, obs: seq<Observation>, b: nat)
    requires p.Answered? && Seen(start, polls + [p], obs) && FlatFrom(obs, b)
    ensures obs[|obs| - 1].progress == ScanProgress(p.health.activities)
    ensures FlatSince(start, polls + [p]) == obs[b].at
  {
    SeenOnce(start, polls + [p], obs);
    FlatFromIsStreak(obs, b);
    RunExtends(start, polls, p);
  }

  /** The alert in force after an answered poll. A scan alerts only on a progress that has
      stood still for 30 s; the mere state "scanning" never does. */
  lemma AlertMeans(start: real, polls: seq<Poll>, p: Poll, obs: seq<Observation>, b: nat)
    requires p.Answered? && Seen(start, polls + [p], obs) && FlatFrom(obs, b)
    ensures var alert, h := After(start, polls + [p]).activeAlert, p.health;
            var hang := h.dstateThreads > 0 || !h.mountOk;
            && (alert == Some(Failure(HardHang)) <==> hang)
            && (alert == Some(Failure(BusyDb)) <==> !hang && h.busyDbErrors > 0)
            && (alert == Some(Failure(ScanLag)) <==>
                  !hang && h.busyDbErrors <= 0 && !h.analysisActive && StoodStill(obs, b, p, 30.0))
            && alert != Some(PollUnreachable)
  {
    LagMeans(start, polls, p, obs, b);
    StateAfterAnswer(start, polls, p);
  }

  lemma {:induction false} RestartTimesAre(events: seq<Event>, t: real)
    ensures t in RestartTimes(events) <==> exists e | e in events :: e.Restarted? && e.at == t
  {
    if events != [] {
      var init, last := events[..|events| - 1], events[|events| - 1];
      assert events == init + [last];
      RestartTimesAre(init, t);
      if t in RestartTimes(init) {
        var e :| e in init && e.Restarted? && e.at == t;
        assert e in events;
      }
    }
  }

  /** No restart of the run so far is less than 600 s back, nor is the clock's zero. */
  ghost predicate CooledDown(start: real, polls: seq<Poll>, now: real) {
    if exists e | e in Events(start, polls) :: e.Restarted?
    then forall e | e in Events(start, polls) && e.Restarted? :: now - e.at >= 600.0
    else now >= 600.0
  }

  lemma CooledDownIff(start: real, polls: seq<Poll>, now: real)
    ensures now - LastRestart(start, polls) >= 600.0 <==> CooledDown(start, polls, now)
  {
    var events, times := Events(start, polls), RestartTimes(Events(start, polls));
    RestartsAreSpaced(start, polls);
    forall t ensures t in times <==> exists e | e in events :: e.Restarted? && e.at == t {
      RestartTimesAre(events, t);
    }
    forall e | e in events && e.Restarted? ensures e.at in times {
    }
    if times != [] {
      var last := times[|times| - 1];
      assert last in times;
      forall e | e in events && e.Restarted? ensures e.at <= last {
        assert e.at in times;
        var i :| 0 <= i < |times| && times[i] == e.at;
      }
    }
  }

  /** A poll restarts Plex exactly when there is no hang and either the database is busy,
      or there is no analysis and the scan has stood still for 90 s, and the last restart
      is 600 s back. It then restarts once and reports the outcome of the call. */
  lemma RestartMeans(start: real, polls: seq<Poll>, p: Poll, obs: seq<Observation>, b: nat)
    returns (more: seq<Event>)
    requires p.Answered? && Seen(start, polls + [p], obs) && FlatFrom(obs, b)
    ensures Events(start, polls + [p]) == Events(start, polls) + more
    ensures var h := p.health;
            (exists e | e in more :: e.Restarted?)
            <==> && h.dstateThreads == 0 && h.mountOk
                 && (h.busyDbErrors > 0 || (!h.analysisActive && StoodStill(obs, b, p, 90.0)))
                 && CooledDown(start, polls, p.now)
    ensures forall e | e in more && e.Restarted? :: e == Restarted(p.now, p.restartOk)
    ensures |RestartTimes(more)| <= 1
  {
    LagMeans(start, polls, p, obs, b);
    CooledDownIff(start, polls, p.now);
    RestartIff(start, polls, p);
    more := RestartReports(start, polls, p);
    RestartTimesAppend(Events(start, polls), more);
    var before, now := RestartTimes(Events(start, polls)), RestartTimes(more);
    assert (before + now)[|before|..] == now;
    RestartTimesAre(more, p.now);
  }

  /** Every restart of every run, by cause: never on a hang, but at a poll with busy
      database errors, or at one without analysis that ends a span of at least 90 s in
      which all answered polls showed the same progress. */
  lemma RestartCause(start: real, polls: seq<Poll>, p: Poll, obs: seq<Observation>)
    requires p.Answered? && Seen(start, polls + [p], obs)
    requires RestartTimes(Events(start, polls + [p])) != RestartTimes(Events(start, polls))
    ensures p.health.dstateThreads == 0 && p.health.mountOk
    ensures p.health.busyDbErrors > 0 || (!p.health.analysisActive && exists b :: FlatSpan(obs, b, p.now))
  {
    SeenOnce(start, polls + [p], obs);
    RestartsAreSpaced(start, polls);
    RestartIff(start, polls, p);
    if p.health.busyDbErrors <= 0 {
      LongLag(start, polls, p);
    }
  }

  /** A maximal stretch of failed polls that ends posts one "unreachable" at its fourth
      poll and one "responding again" at its end, if it has four, and neither otherwise. */
  lemma OutageIsReportedOnce(start: real, polls: seq<Poll>, outage: seq<Poll>, p: Poll)
    requires polls == [] || polls[|polls| - 1].Answered?
    requires p.Answered? && forall q | q in outage :: q.Failed?
    ensures OutageEvents(Events(start, polls + outage + [p]))
         == OutageEvents(Events(start, polls))
            + if |outage| >= 4 then [Unreachable(4), Responding(|outage|)] else []
  {
    var n := |outage|;
    assert outage == Outage(n) by {
      forall k | 0 <= k < n ensures outage[k] == Outage(n)[k] {
        assert outage[k] in outage && Outage(n)[k] in Outage(n);
      }
    }
    OutagePostsOnce(start, polls, n, p);
    TwoNotices(n);
  }

  lemma TwoNotices(n: nat)
    ensures Maybe(n >= 4, Unreachable(4)) + Maybe(n >= 4, Responding(n))
         == if n >= 4 then [Unreachable(4), Responding(n)] else []
  {
  }
}
