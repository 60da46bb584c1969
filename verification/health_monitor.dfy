/** The Plex watchdog loop (scripts/plex-health-monitor.py).

    A run is a sequence of polls: each one failed, or was answered with the
    parsed scan-health data at some clock reading. `Monitor` is the loop with its
    six variables; `Run` is the same run as a function of the polls. */
module HealthMonitor {
  import opened Text

  const SCAN_LAG_ALERT_SECONDS := 30.0
  const SCAN_LAG_RESTART_SECONDS := 90.0
  const RESTART_COOLDOWN_SECONDS := 600.0
  const CONSECUTIVE_POLL_FAILURE_ALERT := 4

  datatype Activity = Activity(kind: Option<string>, progress: Option<real>)

  /** `mountOk` is the truth of the key's value, so false for null; an absent key counts as mounted. */
  datatype Health = Health(activities: seq<Activity>, dstateThreads: nat, mountOk: bool,
                           busyDbErrors: int, analysisActive: bool, state: Option<string>)

  datatype Kind = HardHang | BusyDb | ScanLag

  datatype Alert = Failure(kind: Kind) | PollUnreachable

  /** `restartOk` is how the restart call would answer at this poll. */
  datatype Poll = Failed | Answered(health: Health, now: real, restartOk: bool)

  datatype Event =
    | Alerted(kind: Kind)
    | Unreachable(failures: nat)
    | Responding(failures: nat)
    | Restarted(at: real, ok: bool)
    | Recovered(from: Alert)

  /** Progress of the first library scan activity, even when that is None. */
  function ScanProgress(activities: seq<Activity>): Option<real> {
    if activities == [] then None
    else if activities[0].kind == Some("library.update.section") then activities[0].progress
    else ScanProgress(activities[1..])
  }

  function Classify(h: Health): Option<Kind> {
    if h.dstateThreads > 0 || !h.mountOk then Some(HardHang)
    else if h.busyDbErrors > 0 then Some(BusyDb)
    else if h.analysisActive then None
    else if ScanProgress(h.activities).Some? || h.state == Some("scanning") || h.state == Some("stalled_suspected")
    then Some(ScanLag)
    else None
  }

  predicate Failing(kind: Option<Kind>, lag: real) {
    kind == Some(HardHang) || kind == Some(BusyDb) || (kind == Some(ScanLag) && lag >= SCAN_LAG_ALERT_SECONDS)
  }

  // ------------------------------------------------------------ one poll

  datatype State = State(lastProgress: Option<real>, lastProgressTs: real, lagStartedTs: Option<real>,
                         activeAlert: Option<Alert>, lastRestartTs: real, failures: nat)

  function Init(start: real): State {
    State(None, start, None, None, 0.0, 0)
  }

  /** Python truthiness of an optional float: zero counts as absent. */
  predicate Truthy(x: Option<real>) {
    x.Some? && x.value != 0.0
  }

  function Reconnect(s: State): State {
    s.(failures := 0, activeAlert := if s.activeAlert == Some(PollUnreachable) then None else s.activeAlert)
  }

  function TrackProgress(s: State, progress: Option<real>, now: real): State {
    if progress != s.lastProgress then s.(lastProgress := progress, lastProgressTs := now, lagStartedTs := None)
    else if progress.Some? then
      s.(lagStartedTs := if Truthy(s.lagStartedTs) then s.lagStartedTs else Some(s.lastProgressTs))
    else s
  }

  function LagSeconds(s: State, kind: Option<Kind>, now: real): real {
    if kind == Some(ScanLag) && Truthy(s.lagStartedTs) then now - s.lagStartedTs.value else 0.0
  }

  predicate ShouldRestart(lastRestartTs: real, kind: Option<Kind>, lag: real, now: real) {
    && Failing(kind, lag)
    && kind != Some(HardHang)
    && now - lastRestartTs >= RESTART_COOLDOWN_SECONDS
    && (kind == Some(BusyDb) || lag >= SCAN_LAG_RESTART_SECONDS)
  }

  function Maybe(posts: bool, e: Event): seq<Event> {
    if posts then [e] else []
  }

  /** Alert, restart and recovery decisions of a poll once the lag is known. */
  function Decide(s: State, kind: Option<Kind>, lag: real, now: real, restartOk: bool): (State, seq<Event>) {
    if Failing(kind, lag) then
      var restarts := ShouldRestart(s.lastRestartTs, kind, lag, now);
      (s.(activeAlert := Some(Failure(kind.value)), lastRestartTs := if restarts then now else s.lastRestartTs),
       Maybe(s.activeAlert != Some(Failure(kind.value)), Alerted(kind.value))
       + Maybe(restarts, Restarted(now, restartOk)))
    else if s.activeAlert.Some? then (s.(activeAlert := None, lagStartedTs := None), [Recovered(s.activeAlert.value)])
    else (s, [])
  }

  predicate WasUnreachable(s: State) {
    s.failures >= CONSECUTIVE_POLL_FAILURE_ALERT
  }

  function Track(s: State, health: Health, now: real): State {
    TrackProgress(Reconnect(s), ScanProgress(health.activities), now)
  }

  function Judge(tracked: State, health: Health, now: real, restartOk: bool): (State, seq<Event>) {
    var kind := Classify(health);
    Decide(tracked, kind, LagSeconds(tracked, kind, now), now, restartOk)
  }

  function Step(s: State, p: Poll): (State, seq<Event>) {
    match p
    case Failed =>
      var n := s.failures + 1;
      var alerts := n == CONSECUTIVE_POLL_FAILURE_ALERT && s.activeAlert != Some(PollUnreachable);
      (s.(failures := n, activeAlert := if alerts then Some(PollUnreachable) else s.activeAlert),
       Maybe(alerts, Unreachable(n)))
    case Answered(health, now, restartOk) =>
      var (next, events) := Judge(Track(s, health, now), health, now, restartOk);
      (next, Maybe(WasUnreachable(s), Responding(s.failures)) + events)
  }

  function Run(start: real, polls: seq<Poll>): (State, seq<Event>) {
    if polls == [] then (Init(start), [])
    else
      var (s, events) := Run(start, polls[..|polls| - 1]);
      var (next, new_) := Step(s, polls[|polls| - 1]);
      (next, events + new_)
  }

  // ------------------------------------------------------------ the loop

  /** The variables of the loop, and the notifications and restarts posted so far. */
  class Watchdog {
    var lastProgress: Option<real>
    var lastProgressTs: real
    var lagStartedTs: Option<real>
    var activeAlert: Option<Alert>
    var lastRestartTs: real
    var consecutivePollFailures: nat
    var events: seq<Event>

    ghost function View(): State
      reads this
    {
      State(lastProgress, lastProgressTs, lagStartedTs, activeAlert, lastRestartTs, consecutivePollFailures)
    }

    constructor (start: real)
      ensures View() == Init(start) && events == []
    {
      lastProgress, lastProgressTs, lagStartedTs := None, start, None;
      activeAlert, lastRestartTs, consecutivePollFailures := None, 0.0, 0;
      events := [];
    }

    method PollFailed()
      modifies this
      ensures View() == Step(old(View()), Failed).0
      ensures events == old(events) + Step(old(View()), Failed).1
    {
      consecutivePollFailures := consecutivePollFailures + 1;
      if consecutivePollFailures == CONSECUTIVE_POLL_FAILURE_ALERT && activeAlert != Some(PollUnreachable) {
        activeAlert := Some(PollUnreachable);
        events := events + [Unreachable(consecutivePollFailures)];
      }
    }

    /** The answered poll up to the progress bookkeeping. */
    method Observe(health: Health, now: real)
      modifies this
      ensures View() == Track(old(View()), health, now)
      ensures events == old(events) + Maybe(WasUnreachable(old(View())), Responding(old(consecutivePollFailures)))
    {
      if consecutivePollFailures >= CONSECUTIVE_POLL_FAILURE_ALERT {
        events := events + [Responding(consecutivePollFailures)];
      }
      consecutivePollFailures := 0;
      if activeAlert == Some(PollUnreachable) {
        activeAlert := None;
      }
      var progress := ScanProgress(health.activities);
      if progress != lastProgress {
        lastProgress := progress;
        lastProgressTs := now;
        lagStartedTs := None;
      } else if progress.Some? {
        lagStartedTs := if Truthy(lagStartedTs) then lagStartedTs else Some(lastProgressTs);
      }
    }

    /** The rest of the answered poll: classify, alert, restart, recover. */
    method Respond(health: Health, now: real, restartOk: bool)
      modifies this
      ensures View() == Judge(old(View()), health, now, restartOk).0
      ensures events == old(events) + Judge(old(View()), health, now, restartOk).1
    {
      var kind := Classify(health);
      var lagSeconds := if kind == Some(ScanLag) && Truthy(lagStartedTs) then now - lagStartedTs.value else 0.0;
      var isFailing := Failing(kind, lagSeconds);
      if isFailing && activeAlert != Some(Failure(kind.value)) {
        activeAlert := Some(Failure(kind.value));
        events := events + [Alerted(kind.value)];
      }
      var shouldRestart := isFailing && kind != Some(HardHang)
                           && now - lastRestartTs >= RESTART_COOLDOWN_SECONDS
                           && (kind == Some(BusyDb) || lagSeconds >= SCAN_LAG_RESTART_SECONDS);
      if shouldRestart {
        lastRestartTs := now;
        events := events + [Restarted(now, restartOk)];
      }
      if !isFailing && activeAlert.Some? {
        events := events + [Recovered(activeAlert.value)];
        activeAlert := None;
        lagStartedTs := None;
      }
    }

    method Poll(p: Poll)
      modifies this
      ensures View() == Step(old(View()), p).0
      ensures events == old(events) + Step(old(View()), p).1
    {
      match p
      case Failed =>
        PollFailed();
      case Answered(health, now, restartOk) =>
        Observe(health, now);
        Respond(health, now, restartOk);
    }
  }

  /** `main`, for as many rounds as there are polls. */
  method Monitor(start: real, polls: seq<Poll>) returns (w: Watchdog)
    ensures w.View() == After(start, polls)
    ensures w.events == Events(start, polls)
  {
    w := new Watchdog(start);
    for i := 0 to |polls|
      invariant fresh(w)
      invariant w.View() == After(start, polls[..i])
      invariant w.events == Events(start, polls[..i])
    {
      w.Poll(polls[i]);
      assert polls[..i + 1] == polls[..i] + [polls[i]];
      RunExtends(start, polls[..i], polls[i]);
    }
    assert polls[..|polls|] == polls;
  }

  // ------------------------------------------- the state as a view of the history

  datatype Observation = Observation(progress: Option<real>, at: real)

  /** What the answered polls showed, oldest first, after the "nothing yet" of the start. */
  function Observations(start: real, polls: seq<Poll>): (obs: seq<Observation>)
    ensures obs != []
  {
    if polls == [] then [Observation(None, start)]
    else
      var obs := Observations(start, polls[..|polls| - 1]);
      match polls[|polls| - 1]
      case Failed => obs
      case Answered(health, now, _) => obs + [Observation(ScanProgress(health.activities), now)]
  }

  /** Where the current flat stretch of progress began. */
  function StreakStart(obs: seq<Observation>): (b: nat)
    requires obs != []
    ensures b < |obs|
    ensures forall k | b <= k < |obs| :: obs[k].progress == obs[|obs| - 1].progress
    ensures b > 0 ==> obs[b - 1].progress != obs[|obs| - 1].progress
  {
    var n := |obs|;
    if n == 1 then 0
    else if obs[n - 2].progress != obs[n - 1].progress then n - 1
    else StreakStart(obs[..n - 1])
  }

  /** How many polls in a row have failed at the end of the history. */
  function TrailingFailures(polls: seq<Poll>): (n: nat)
    ensures n <= |polls| && forall k | |polls| - n <= k < |polls| :: polls[k].Failed?
    ensures n < |polls| ==> polls[|polls| - n - 1].Answered?
  {
    if polls == [] || polls[|polls| - 1].Answered? then 0
    else 1 + TrailingFailures(polls[..|polls| - 1])
  }

  ghost function After(start: real, polls: seq<Poll>): State {
    Run(start, polls).0
  }

  ghost function Events(start: real, polls: seq<Poll>): seq<Event> {
    Run(start, polls).1
  }

  /** Since when the progress shown at the end of the history has not moved. */
  ghost function FlatSince(start: real, polls: seq<Poll>): real {
    var obs := Observations(start, polls);
    obs[StreakStart(obs)].at
  }

  /** The lag that the last, answered, poll of a history is judged by. */
  ghost function LagOf(start: real, polls: seq<Poll>): real
    requires polls != [] && polls[|polls| - 1].Answered?
  {
    var p := polls[|polls| - 1];
    var since := FlatSince(start, polls);
    if Classify(p.health) == Some(ScanLag) && ScanProgress(p.health.activities).Some? && since != 0.0
    then p.now - since else 0.0
  }

  /** What the watchdog knows after any history at all. */
  ghost predicate Tracks(start: real, polls: seq<Poll>) {
    var s := After(start, polls);
    var obs := Observations(start, polls);
    && s.lastProgress == obs[|obs| - 1].progress
    && s.lastProgressTs == FlatSince(start, polls)
    && (s.lagStartedTs.Some? ==> s.lagStartedTs.value == s.lastProgressTs && s.lastProgress.Some?)
    && s.failures == TrailingFailures(polls)
    && (s.activeAlert == Some(PollUnreachable) <==> s.failures >= CONSECUTIVE_POLL_FAILURE_ALERT)
  }

  lemma StreakExtends(obs: seq<Observation>, o: Observation)
    requires obs != []
    ensures StreakStart(obs + [o])
            == if o.progress == obs[|obs| - 1].progress then StreakStart(obs) else |obs|
  {
    assert (obs + [o])[..|obs|] == obs;
  }

  /** The lag computed from the loop variables is the lag of the history. */
  lemma LagIsFlatTime(start: real, polls: seq<Poll>, p: Poll)
    requires p.Answered? && Tracks(start, polls)
    ensures var tracked := Track(After(start, polls), p.health, p.now);
            && tracked.lastProgressTs == FlatSince(start, polls + [p])
            && (tracked.lagStartedTs.Some? ==>
                  tracked.lagStartedTs.value == tracked.lastProgressTs && tracked.lastProgress.Some?)
            && LagSeconds(tracked, Classify(p.health), p.now) == LagOf(start, polls + [p])
  {
    assert (polls + [p])[..|polls|] == polls;
    var obs := Observations(start, polls);
    var o := Observation(ScanProgress(p.health.activities), p.now);
    assert Observations(start, polls + [p]) == obs + [o];
    StreakExtends(obs, o);
  }

  lemma RunExtends(start: real, polls: seq<Poll>, p: Poll)
    ensures After(start, polls + [p]) == Step(After(start, polls), p).0
    ensures Events(start, polls + [p]) == Events(start, polls) + Step(After(start, polls), p).1
    ensures Observations(start, polls + [p])
            == Observations(start, polls)
               + if p.Failed? then [] else [Observation(ScanProgress(p.health.activities), p.now)]
    ensures TrailingFailures(polls + [p]) == if p.Failed? then TrailingFailures(polls) + 1 else 0
  {
    assert (polls + [p])[..|polls|] == polls;
  }

  lemma {:induction false} AlwaysTracks(start: real, polls: seq<Poll>)
    ensures Tracks(start, polls)
  {
    if polls != [] {
      var before, p := polls[..|polls| - 1], polls[|polls| - 1];
      assert polls == before + [p];
      AlwaysTracks(start, before);
      if p.Failed? {
        TracksAfterFailure(start, before);
      } else {
        TracksAfterAnswer(start, before, p);
      }
    }
  }

  lemma TracksAfterFailure(start: real, before: seq<Poll>)
    requires Tracks(start, before)
    ensures Tracks(start, before + [Failed])
  {
    RunExtends(start, before, Failed);
    assert Observations(start, before + [Failed]) == Observations(start, before);
  }

  lemma TracksAfterAnswer(start: real, before: seq<Poll>, p: Poll)
    requires Tracks(start, before) && p.Answered?
    ensures Tracks(start, before + [p])
  {
    RunExtends(start, before, p);
    LagIsFlatTime(start, before, p);
  }

  /** After every answered poll of every run the six variables are read off the
      history: which progress, since when, how much lag, which alert. */
  lemma StateAfterAnswer(start: real, polls: seq<Poll>, p: Poll)
    requires p.Answered?
    ensures var s := After(start, polls + [p]);
            var kind := Classify(p.health);
            var failing := Failing(kind, LagOf(start, polls + [p]));
            var recovered := exists a :: Recovered(a) in Step(After(start, polls), p).1;
            && s.lastProgress == ScanProgress(p.health.activities)
            && s.lastProgressTs == FlatSince(start, polls + [p])
            && s.failures == 0
            && s.activeAlert == (if failing then Some(Failure(kind.value)) else None)
            && (s.lagStartedTs.Some? ==> s.lagStartedTs == Some(s.lastProgressTs))
            && (s.lagStartedTs.Some? <==>
                  && s.lastProgress.Some?
                  && s.lastProgress == After(start, polls).lastProgress
                  && !recovered)
  {
    AlwaysTracks(start, polls);
    AlwaysTracks(start, polls + [p]);
    RunExtends(start, polls, p);
    LagIsFlatTime(start, polls, p);
    var s0 := After(start, polls);
    var tracked := Track(s0, p.health, p.now);
    var events := Step(s0, p).1;
    if !Failing(Classify(p.health), LagOf(start, polls + [p])) && tracked.activeAlert.Some? {
      assert events[|events| - 1] == Recovered(tracked.activeAlert.value);
    }
  }

  // --------------------------------------------------------- the event stream

  /** The alert an observer of the notifications would believe to be active. */
  function Believed(events: seq<Event>): Option<Alert> {
    if events == [] then None
    else
      match events[|events| - 1]
      case Alerted(kind) => Some(Failure(kind))
      case Unreachable(_) => Some(PollUnreachable)
      case Responding(_) => None
      case Recovered(_) => None
      case Restarted(_, _) => Believed(events[..|events| - 1])
  }

  /** Which event may follow which belief. */
  predicate Legal(active: Option<Alert>, e: Event) {
    match e
    case Alerted(kind) => active != Some(Failure(kind)) && active != Some(PollUnreachable)
    case Unreachable(n) => n == CONSECUTIVE_POLL_FAILURE_ALERT && active != Some(PollUnreachable)
    case Responding(n) => n >= CONSECUTIVE_POLL_FAILURE_ALERT && active == Some(PollUnreachable)
    case Recovered(a) => a.Failure? && active == Some(a)
    case Restarted(_, _) => active == Some(Failure(BusyDb)) || active == Some(Failure(ScanLag))
  }

  ghost predicate WellBracketed(events: seq<Event>) {
    forall i | 0 <= i < |events| :: Legal(Believed(events[..i]), events[i])
  }

  lemma AppendMaybe(events: seq<Event>, posts: bool, e: Event)
    requires WellBracketed(events) && (posts ==> Legal(Believed(events), e))
    ensures WellBracketed(events + Maybe(posts, e))
    ensures Believed(events + Maybe(posts, e))
            == if !posts || e.Restarted? then Believed(events) else Believed([e])
  {
    var all := events + Maybe(posts, e);
    if posts {
      assert all[..|events|] == events;
      forall i | 0 <= i < |all| ensures Legal(Believed(all[..i]), all[i]) {
        if i < |events| {
          assert all[..i] == events[..i];
        }
      }
    } else {
      assert all == events;
    }
  }

  /** The decisions of an answered poll, appended one event at a time. */
  lemma DecideIsLegal(events: seq<Event>, s: State, kind: Option<Kind>, lag: real, now: real, restartOk: bool)
    requires WellBracketed(events) && Believed(events) == s.activeAlert
    requires s.activeAlert != Some(PollUnreachable)
    ensures var (next, more) := Decide(s, kind, lag, now, restartOk);
            WellBracketed(events + more) && Believed(events + more) == next.activeAlert
  {
    if Failing(kind, lag) {
      var alert, restart := Alerted(kind.value), Restarted(now, restartOk);
      var alerts := s.activeAlert != Some(Failure(kind.value));
      var restarts := ShouldRestart(s.lastRestartTs, kind, lag, now);
      AppendMaybe(events, alerts, alert);
      var alerted := events + Maybe(alerts, alert);
      assert Believed(alerted) == Some(Failure(kind.value));
      AppendMaybe(alerted, restarts, restart);
      Assoc(events, Maybe(alerts, alert), Maybe(restarts, restart));
    } else if s.activeAlert.Some? {
      AppendMaybe(events, true, Recovered(s.activeAlert.value));
    } else {
      assert events + [] == events;
    }
  }

  lemma {:induction false} EventsAreBracketed(start: real, polls: seq<Poll>)
    ensures WellBracketed(Events(start, polls))
    ensures Believed(Events(start, polls)) == After(start, polls).activeAlert
  {
    if polls != [] {
      var before, p := polls[..|polls| - 1], polls[|polls| - 1];
      assert polls == before + [p];
      EventsAreBracketed(start, before);
      AlwaysTracks(start, before);
      RunExtends(start, before, p);
      StepIsLegal(Events(start, before), After(start, before), p);
    }
  }

  lemma StepIsLegal(events: seq<Event>, s: State, p: Poll)
    requires WellBracketed(events) && Believed(events) == s.activeAlert
    requires s.activeAlert == Some(PollUnreachable) <==> WasUnreachable(s)
    ensures var (next, more) := Step(s, p);
            WellBracketed(events + more) && Believed(events + more) == next.activeAlert
  {
    match p
    case Failed =>
      var n := s.failures + 1;
      var alerts := n == CONSECUTIVE_POLL_FAILURE_ALERT && s.activeAlert != Some(PollUnreachable);
      AppendMaybe(events, alerts, Unreachable(n));
    case Answered(health, now, restartOk) =>
      AnswerIsLegal(events, s, health, now, restartOk);
  }

  lemma AnswerIsLegal(events: seq<Event>, s: State, health: Health, now: real, restartOk: bool)
    requires WellBracketed(events) && Believed(events) == s.activeAlert
    requires s.activeAlert == Some(PollUnreachable) <==> WasUnreachable(s)
    ensures var back := Maybe(WasUnreachable(s), Responding(s.failures));
            var (next, more) := Judge(Track(s, health, now), health, now, restartOk);
            WellBracketed(events + (back + more)) && Believed(events + (back + more)) == next.activeAlert
  {
    var back, tracked := Maybe(WasUnreachable(s), Responding(s.failures)), Track(s, health, now);
    AppendMaybe(events, WasUnreachable(s), Responding(s.failures));
    assert Believed(events + back) == tracked.activeAlert;
    JudgeIsLegal(events + back, tracked, health, now, restartOk);
    Assoc(events, back, Judge(tracked, health, now, restartOk).1);
  }

  lemma JudgeIsLegal(events: seq<Event>, tracked: State, health: Health, now: real, restartOk: bool)
    requires WellBracketed(events) && Believed(events) == tracked.activeAlert
    requires tracked.activeAlert != Some(PollUnreachable)
    ensures var (next, more) := Judge(tracked, health, now, restartOk);
            WellBracketed(events + more) && Believed(events + more) == next.activeAlert
  {
    var kind := Classify(health);
    DecideIsLegal(events, tracked, kind, LagSeconds(tracked, kind, now), now, restartOk);
  }

  /** The alert believed at `j` was raised at some `i` and nothing ended it since. */
  ghost predicate RaisedAt(events: seq<Event>, i: nat, j: nat, kind: Kind) {
    && i < j <= |events|
    && events[i] == Alerted(kind)
    && forall m | i < m < j :: events[m].Restarted?
  }

  lemma {:induction false} BeliefWasRaised(events: seq<Event>, j: nat, kind: Kind)
    requires j <= |events| && Believed(events[..j]) == Some(Failure(kind))
    ensures exists i :: RaisedAt(events, i, j, kind)
  {
    assert events[..j][..j - 1] == events[..j - 1];
    if events[j - 1].Restarted? {
      BeliefWasRaised(events, j - 1, kind);
      var i :| RaisedAt(events, i, j - 1, kind);
      assert RaisedAt(events, i, j, kind);
    } else {
      assert RaisedAt(events, j - 1, j, kind);
    }
  }

  lemma {:induction false} RaisedIsBelieved(events: seq<Event>, i: nat, j: nat, kind: Kind)
    requires RaisedAt(events, i, j, kind)
    ensures Believed(events[..j]) == Some(Failure(kind))
  {
    assert events[..j][..j - 1] == events[..j - 1];
    if i < j - 1 {
      RaisedIsBelieved(events, i, j - 1, kind);
    }
  }

  /** What takes an alert of this class out of force. */
  predicate EndsAlert(e: Event, kind: Kind) {
    (e.Alerted? && e.kind != kind) || e.Unreachable? || e == Recovered(Failure(kind))
  }

  /** An alert that is raised again has been ended in between. */
  lemma {:induction false} AlertEnds(events: seq<Event>, i: nat, m: nat, j: nat, kind: Kind) returns (end: nat)
    requires WellBracketed(events) && RaisedAt(events, i, m, kind)
    requires m <= j < |events| && events[j] == Alerted(kind)
    ensures end < j && RaisedAt(events, i, end, kind) && EndsAlert(events[end], kind)
    decreases j - m
  {
    RaisedIsBelieved(events, i, m, kind);
    assert Legal(Believed(events[..m]), events[m]);
    if events[m].Restarted? {
      end := AlertEnds(events, i, m + 1, j, kind);
    } else {
      end := m;
    }
  }

  /** In every run each recovery and each restart belongs to the latest alert, and a
      class is alerted again only after its last alert was ended: by an alert of another
      class, by an unreachable notice or by its recovery. */
  lemma AlertsAndRecoveries(start: real, polls: seq<Poll>)
    ensures var events := Events(start, polls);
            && (forall j | 0 <= j < |events| && events[j].Recovered? ::
                  events[j].from.Failure? && exists i :: RaisedAt(events, i, j, events[j].from.kind))
            && (forall j | 0 <= j < |events| && events[j].Restarted? ::
                  exists i, kind | kind != HardHang :: RaisedAt(events, i, j, kind))
            && (forall i, j | 0 <= i < j < |events| && events[i].Alerted? && events[j] == events[i] ::
                  exists m: nat | m < j ::
                    RaisedAt(events, i, m, events[i].kind) && EndsAlert(events[m], events[i].kind))
  {
    EventsAreBracketed(start, polls);
    var events := Events(start, polls);
    forall j | 0 <= j < |events| && events[j].Recovered?
      ensures events[j].from.Failure? && exists i :: RaisedAt(events, i, j, events[j].from.kind)
    {
      assert Legal(Believed(events[..j]), events[j]);
      BeliefWasRaised(events, j, events[j].from.kind);
    }
    forall j | 0 <= j < |events| && events[j].Restarted?
      ensures exists i, kind | kind != HardHang :: RaisedAt(events, i, j, kind)
    {
      assert Legal(Believed(events[..j]), events[j]);
      BeliefWasRaised(events, j, Believed(events[..j]).value.kind);
    }
    forall i, j | 0 <= i < j < |events| && events[i].Alerted? && events[j] == events[i]
      ensures exists m: nat | m < j :: RaisedAt(events, i, m, events[i].kind) && EndsAlert(events[m], events[i].kind)
    {
      var end := AlertEnds(events, i, i + 1, j, events[i].kind);
    }
  }

  // --------------------------------------------------------- poll outages

  function Outage(n: nat): (polls: seq<Poll>)
    ensures |polls| == n && forall p | p in polls :: p.Failed?
  {
    if n == 0 then [] else Outage(n - 1) + [Failed]
  }

  lemma OutageGrows(polls: seq<Poll>, n: nat)
    requires n > 0
    ensures polls + Outage(n) == polls + Outage(n - 1) + [Failed]
  {
    Assoc(polls, Outage(n - 1), [Failed]);
  }

  lemma {:induction false} OutageLength(polls: seq<Poll>, n: nat)
    requires TrailingFailures(polls) == 0
    ensures TrailingFailures(polls + Outage(n)) == n
  {
    if n == 0 {
      assert polls + Outage(0) == polls;
    } else {
      OutageLength(polls, n - 1);
      OutageGrows(polls, n);
      var before := polls + Outage(n - 1);
      assert (before + [Failed])[..|before|] == before;
    }
  }

  lemma OneMoreFailure(start: real, before: seq<Poll>)
    ensures Events(start, before + [Failed])
         == Events(start, before) + Maybe(TrailingFailures(before) + 1 == CONSECUTIVE_POLL_FAILURE_ALERT,
                                          Unreachable(CONSECUTIVE_POLL_FAILURE_ALERT))
  {
    AlwaysTracks(start, before);
    RunExtends(start, before, Failed);
  }

  lemma {:induction false} DuringOutage(start: real, polls: seq<Poll>, n: nat)
    requires TrailingFailures(polls) == 0
    ensures Events(start, polls + Outage(n))
            == Events(start, polls)
               + Maybe(n >= CONSECUTIVE_POLL_FAILURE_ALERT, Unreachable(CONSECUTIVE_POLL_FAILURE_ALERT))
  {
    if n == 0 {
      assert polls + Outage(0) == polls;
    } else {
      DuringOutage(start, polls, n - 1);
      OutageLength(polls, n - 1);
      OutageGrows(polls, n);
      LongerOutage(start, polls + Outage(n - 1), Events(start, polls), n);
    }
  }

  lemma LongerOutage(start: real, before: seq<Poll>, base: seq<Event>, n: nat)
    requires n > 0 && TrailingFailures(before) == n - 1
    requires Events(start, before)
          == base + Maybe(n - 1 >= CONSECUTIVE_POLL_FAILURE_ALERT, Unreachable(CONSECUTIVE_POLL_FAILURE_ALERT))
    ensures Events(start, before + [Failed])
         == base + Maybe(n >= CONSECUTIVE_POLL_FAILURE_ALERT, Unreachable(CONSECUTIVE_POLL_FAILURE_ALERT))
  {
    OneMoreFailure(start, before);
  }

  /** The notifications about the endpoint itself, in order. */
  function OutageEvents(events: seq<Event>): seq<Event> {
    if events == [] then []
    else
      var e := events[|events| - 1];
      OutageEvents(events[..|events| - 1]) + Maybe(e.Unreachable? || e.Responding?, e)
  }

  lemma {:induction false} OutageEventsAppend(a: seq<Event>, b: seq<Event>)
    ensures OutageEvents(a + b) == OutageEvents(a) + OutageEvents(b)
  {
    if b == [] {
      assert a + b == a;
    } else {
      OutageEventsAppend(a, b[..|b| - 1]);
      assert (a + b)[..|a + b| - 1] == a + b[..|b| - 1];
      var e := b[|b| - 1];
      Assoc(OutageEvents(a), OutageEvents(b[..|b| - 1]), Maybe(e.Unreachable? || e.Responding?, e));
    }
  }

  lemma {:induction false} NoOutageEvents(events: seq<Event>)
    requires forall e | e in events :: !e.Unreachable? && !e.Responding?
    ensures OutageEvents(events) == []
  {
    if events != [] {
      NoOutageEvents(events[..|events| - 1]);
    }
  }

  /** A maximal stretch of n failed polls that ends posts one "unreachable" and one
      "responding again" when n >= 4, and neither otherwise. */
  lemma OutagePostsOnce(start: real, polls: seq<Poll>, n: nat, p: Poll)
    requires TrailingFailures(polls) == 0 && p.Answered?
    ensures OutageEvents(Events(start, polls + Outage(n) + [p]))
            == OutageEvents(Events(start, polls))
               + (Maybe(n >= 4, Unreachable(4)) + Maybe(n >= 4, Responding(n)))
  {
    var during := polls + Outage(n);
    DuringOutage(start, polls, n);
    OutageLength(polls, n);
    AlwaysTracks(start, during);
    RunExtends(start, during, p);
    var s := After(start, during);
    StepOutageEvents(s, p);
    OutageEventsAppend(Events(start, during), Step(s, p).1);
    var lost := Maybe(n >= CONSECUTIVE_POLL_FAILURE_ALERT, Unreachable(CONSECUTIVE_POLL_FAILURE_ALERT));
    OutageEventsAppend(Events(start, polls), lost);
    OutageEventsOfOne(n >= CONSECUTIVE_POLL_FAILURE_ALERT, Unreachable(CONSECUTIVE_POLL_FAILURE_ALERT));
    Assoc(OutageEvents(Events(start, polls)), lost, Maybe(WasUnreachable(s), Responding(n)));
  }

  lemma StepOutageEvents(s: State, p: Poll)
    requires p.Answered?
    ensures OutageEvents(Step(s, p).1) == Maybe(WasUnreachable(s), Responding(s.failures))
  {
    var back := Maybe(WasUnreachable(s), Responding(s.failures));
    var judged := Judge(Track(s, p.health, p.now), p.health, p.now, p.restartOk).1;
    NoOutageEvents(judged);
    OutageEventsAppend(back, judged);
    OutageEventsOfOne(WasUnreachable(s), Responding(s.failures));
  }

  lemma OutageEventsOfOne(posts: bool, e: Event)
    requires e.Unreachable? || e.Responding?
    ensures OutageEvents(Maybe(posts, e)) == Maybe(posts, e)
  {
    assert [e][..0] == [];
  }

  /** `active_alert` reads "poll_unreachable" exactly while 4 or more polls in a row have failed. */
  lemma UnreachableIff(start: real, polls: seq<Poll>)
    ensures After(start, polls).activeAlert == Some(PollUnreachable)
            <==> TrailingFailures(polls) >= 4
  {
    AlwaysTracks(start, polls);
  }

  // --------------------------------------------------------------- restarts

  function RestartTimes(events: seq<Event>): seq<real> {
    if events == [] then []
    else
      var times := RestartTimes(events[..|events| - 1]);
      var e := events[|events| - 1];
      if e.Restarted? then times + [e.at] else times
  }

  lemma {:induction false} RestartTimesAppend(a: seq<Event>, b: seq<Event>)
    ensures RestartTimes(a + b) == RestartTimes(a) + RestartTimes(b)
  {
    if b == [] {
      assert a + b == a;
    } else {
      RestartTimesAppend(a, b[..|b| - 1]);
      assert (a + b)[..|a + b| - 1] == a + b[..|b| - 1];
    }
  }

  ghost function LastRestart(start: real, polls: seq<Poll>): real {
    var times := RestartTimes(Events(start, polls));
    if times == [] then 0.0 else times[|times| - 1]
  }

  lemma RestartTimesOfOne(posts: bool, e: Event)
    ensures RestartTimes(Maybe(posts, e)) == if posts && e.Restarted? then [e.at] else []
  {
    assert [e][..0] == [];
  }

  lemma DecideRestarts(s: State, kind: Option<Kind>, lag: real, now: real, restartOk: bool)
    ensures var (next, events) := Decide(s, kind, lag, now, restartOk);
            var restarts := ShouldRestart(s.lastRestartTs, kind, lag, now);
            && RestartTimes(events) == (if restarts then [now] else [])
            && next.lastRestartTs == (if restarts then now else s.lastRestartTs)
  {
    if Failing(kind, lag) {
      var alert, restart := Alerted(kind.value), Restarted(now, restartOk);
      var alerts := s.activeAlert != Some(Failure(kind.value));
      var restarts := ShouldRestart(s.lastRestartTs, kind, lag, now);
      RestartTimesOfOne(alerts, alert);
      RestartTimesOfOne(restarts, restart);
      RestartTimesAppend(Maybe(alerts, alert), Maybe(restarts, restart));
    } else if s.activeAlert.Some? {
      RestartTimesOfOne(true, Recovered(s.activeAlert.value));
    }
  }

  lemma RestartStep(start: real, polls: seq<Poll>, p: Poll)
    requires p.Answered? && LastRestart(start, polls) == After(start, polls).lastRestartTs
    ensures var restarts := && (|| Classify(p.health) == Some(BusyDb)
                                || (Classify(p.health) == Some(ScanLag)
                                    && LagOf(start, polls + [p]) >= SCAN_LAG_RESTART_SECONDS))
                            && p.now - LastRestart(start, polls) >= RESTART_COOLDOWN_SECONDS;
            && RestartTimes(Events(start, polls + [p]))
               == RestartTimes(Events(start, polls)) + (if restarts then [p.now] else [])
            && After(start, polls + [p]).lastRestartTs == LastRestart(start, polls + [p])
  {
    AlwaysTracks(start, polls);
    RunExtends(start, polls, p);
    LagIsFlatTime(start, polls, p);
    var s := After(start, polls);
    StepRestartTimes(s, p);
    RestartTimesAppend(Events(start, polls), Step(s, p).1);
  }

  lemma StepRestartTimes(s: State, p: Poll)
    requires p.Answered?
    ensures var kind := Classify(p.health);
            var lag := LagSeconds(Track(s, p.health, p.now), kind, p.now);
            var restarts := ShouldRestart(s.lastRestartTs, kind, lag, p.now);
            && RestartTimes(Step(s, p).1) == (if restarts then [p.now] else [])
            && Step(s, p).0.lastRestartTs == (if restarts then p.now else s.lastRestartTs)
  {
    var tracked, kind := Track(s, p.health, p.now), Classify(p.health);
    DecideRestarts(tracked, kind, LagSeconds(tracked, kind, p.now), p.now, p.restartOk);
    RestartTimesOfOne(WasUnreachable(s), Responding(s.failures));
    RestartTimesAppend(Maybe(WasUnreachable(s), Responding(s.failures)),
                       Judge(tracked, p.health, p.now, p.restartOk).1);
  }

  lemma NoRestartOnFailedPoll(start: real, polls: seq<Poll>)
    ensures RestartTimes(Events(start, polls + [Failed])) == RestartTimes(Events(start, polls))
    ensures After(start, polls + [Failed]).lastRestartTs == After(start, polls).lastRestartTs
  {
    RunExtends(start, polls, Failed);
    var s := After(start, polls);
    RestartTimesOfOne(Step(s, Failed).1 != [], Unreachable(s.failures + 1));
    RestartTimesAppend(Events(start, polls), Step(s, Failed).1);
  }

  ghost predicate Spaced(times: seq<real>) {
    forall i, j | 0 <= i < j < |times| :: times[j] - times[i] >= 600.0 * (j - i) as real
  }

  lemma {:induction false} RestartsAreSpaced(start: real, polls: seq<Poll>)
    ensures LastRestart(start, polls) == After(start, polls).lastRestartTs
    ensures Spaced(RestartTimes(Events(start, polls)))
  {
    if polls != [] {
      var before, p := polls[..|polls| - 1], polls[|polls| - 1];
      assert polls == before + [p];
      RestartsAreSpaced(start, before);
      if p.Failed? {
        NoRestartOnFailedPoll(start, before);
      } else {
        RestartStep(start, before, p);
        SpacedAppend(RestartTimes(Events(start, before)), p.now);
      }
    }
  }

  lemma {:induction false} RestartsWithinRun(start: real, polls: seq<Poll>, first: real, last: real)
    requires forall p | p in polls && p.Answered? :: first <= p.now <= last
    ensures forall t | t in RestartTimes(Events(start, polls)) :: first <= t <= last
  {
    if polls != [] {
      var before, p := polls[..|polls| - 1], polls[|polls| - 1];
      assert polls == before + [p];
      RestartsWithinRun(start, before, first, last);
      if p.Failed? {
        NoRestartOnFailedPoll(start, before);
      } else {
        RestartsAreSpaced(start, before);
        RestartStep(start, before, p);
        assert p in polls;
      }
    }
  }

  lemma SpacedAppend(times: seq<real>, t: real)
    requires Spaced(times)
    ensures times == [] || t - times[|times| - 1] >= RESTART_COOLDOWN_SECONDS ==> Spaced(times + [t])
  {
    if times != [] && t - times[|times| - 1] >= RESTART_COOLDOWN_SECONDS {
      var all, n := times + [t], |times|;
      forall i, j | 0 <= i < j < |all| ensures all[j] - all[i] >= RESTART_COOLDOWN_SECONDS * (j - i) as real {
        if j == n && i < n - 1 {
          assert times[n - 1] - times[i] >= RESTART_COOLDOWN_SECONDS * (n - 1 - i) as real;
        }
      }
    }
  }

  /** A run whose clock readings lie between `first` and `last` restarts Plex at
      most 1 + (last - first) / 600 times. */
  lemma RestartCount(start: real, polls: seq<Poll>, first: real, last: real)
    requires forall p | p in polls && p.Answered? :: first <= p.now <= last
    requires first <= last
    ensures 600.0 * (|RestartTimes(Events(start, polls))| - 1) as real <= last - first
  {
    RestartsAreSpaced(start, polls);
    RestartsWithinRun(start, polls, first, last);
    var times := RestartTimes(Events(start, polls));
    if |times| > 1 {
      assert times[0] in times && times[|times| - 1] in times;
      assert times[|times| - 1] - times[0] >= RESTART_COOLDOWN_SECONDS * (|times| - 1 - 0) as real;
    }
  }

  /** A restart is issued by a poll exactly when the class is busy_db, or scan_lag
      on a progress that has stood still for 90 s, and the last restart is 600 s
      back. In particular never on a hard hang. */
  lemma RestartIff(start: real, polls: seq<Poll>, p: Poll)
    requires p.Answered?
    ensures var restarts := && (|| Classify(p.health) == Some(BusyDb)
                                || (Classify(p.health) == Some(ScanLag)
                                    && LagOf(start, polls + [p]) >= 90.0))
                            && p.now - LastRestart(start, polls) >= 600.0;
            RestartTimes(Events(start, polls + [p]))
            == RestartTimes(Events(start, polls)) + (if restarts then [p.now] else [])
  {
    RestartsAreSpaced(start, polls);
    RestartStep(start, polls, p);
  }

  /** A poll restarts at its own clock reading and reports how its restart call ended. */
  lemma RestartReports(start: real, polls: seq<Poll>, p: Poll) returns (more: seq<Event>)
    requires p.Answered?
    ensures Events(start, polls + [p]) == Events(start, polls) + more
    ensures forall e | e in more && e.Restarted? :: e == Restarted(p.now, p.restartOk)
  {
    RunExtends(start, polls, p);
    more := Step(After(start, polls), p).1;
  }

  /** From observation `b` on, 90 s ago or more, the progress is present and never changes. */
  ghost predicate FlatSpan(obs: seq<Observation>, b: nat, now: real) {
    && b < |obs|
    && now - obs[b].at >= 90.0
    && forall k | b <= k < |obs| :: obs[k].progress.Some? && obs[k].progress == obs[b].progress
  }

  /** A lag of 90 s is 90 s of answered polls with one and the same progress. */
  lemma LongLag(start: real, polls: seq<Poll>, p: Poll)
    requires p.Answered? && LagOf(start, polls + [p]) >= 90.0
    ensures exists b :: FlatSpan(Observations(start, polls + [p]), b, p.now)
  {
    RunExtends(start, polls, p);
    var obs := Observations(start, polls + [p]);
    var b := StreakStart(obs);
    assert obs[|obs| - 1].progress == ScanProgress(p.health.activities);
    assert FlatSpan(obs, b, p.now);
  }

  // -------------------------------------------- where the description differs

  function Scanning(analysis: bool): Health {
    Health([Activity(Some("library.update.section"), Some(40.0))], 0, true, 0, analysis, Some("scanning"))
  }

  lemma ScanBegins()
    ensures var (next, events) := Step(Init(990.0), Answered(Scanning(false), 1000.0, true));
            next == State(Some(40.0), 1000.0, None, None, 0.0, 0) && events == []
  {
  }

  lemma ScanIsAnalysed()
    ensures var (next, events) := Step(State(Some(40.0), 1000.0, None, None, 0.0, 0),
                                       Answered(Scanning(true), 1045.0, true));
            next == State(Some(40.0), 1000.0, Some(1000.0), None, 0.0, 0) && events == []
  {
  }

  lemma ScanIsLate()
    ensures Step(State(Some(40.0), 1000.0, Some(1000.0), None, 0.0, 0), Answered(Scanning(false), 1090.0, true)).1
         == [Alerted(ScanLag), Restarted(1090.0, true)]
  {
  }

  /** Polls during media analysis raise no alert, but they do not stop the flat-progress
      clock either: the first poll after the analysis alerts and restarts at once. */
  lemma AnalysisStillCountsAsLag()
    ensures var polls := [Answered(Scanning(false), 1000.0, true), Answered(Scanning(true), 1045.0, true)];
            && Events(990.0, polls) == []
            && Events(990.0, polls + [Answered(Scanning(false), 1090.0, true)])
               == [Alerted(ScanLag), Restarted(1090.0, true)]
  {
    var p, q, r := Answered(Scanning(false), 1000.0, true), Answered(Scanning(true), 1045.0, true),
                   Answered(Scanning(false), 1090.0, true);
    RunExtends(990.0, [], p);
    RunExtends(990.0, [p], q);
    RunExtends(990.0, [p, q], r);
    assert [] + [p] == [p] && [p] + [q] == [p, q];
    ScanBegins();
    ScanIsAnalysed();
    ScanIsLate();
  }

  /** Restarts are not edge-triggered: while one unbroken busy_db alert lasts, the
      container is restarted again as soon as the cooldown has passed. */
  lemma BusyDbRestartsAgain(busy: Health)
    requires Classify(busy) == Some(BusyDb)
    ensures Events(990.0, [Answered(busy, 1000.0, true), Answered(busy, 1600.0, true)])
            == [Alerted(BusyDb), Restarted(1000.0, true), Restarted(1600.0, true)]
  {
    var p, q := Answered(busy, 1000.0, true), Answered(busy, 1600.0, true);
    RunExtends(990.0, [], p);
    RunExtends(990.0, [p], q);
    assert [] + [p] == [p] && [p] + [q] == [p, q];
  }
}
