/**
 Waking, spawning and losing container processes. A wake suspends at the
 awaits of its set-up; the promise's `finally` runs some time after the set-up
 ends. A run is any sequence of steps, over any number of sessions.
 */
module ContainerRunner {
  type SessionId = string
  type Pid = nat

  /** An entry of the wake-promise map: still in set-up, or settled with `finally` pending. */
  datatype Wake = Setup | Settled

  /**
   `running` holds the children whose end has not been reported, `ended` those
   whose end has.
   */
  datatype State = State(
    active: map<SessionId, Pid>,
    wakes: map<SessionId, Wake>,
    running: map<Pid, SessionId>,
    ended: map<Pid, SessionId>,
    next: Pid)

  const INIT := State(map[], map[], map[], map[], 0)

  datatype Step =
    | WakeCall(session: SessionId)
    | SpawnSucceeds(session: SessionId)
    | SpawnFails(session: SessionId)
    | Finally(session: SessionId)
    | Kill(session: SessionId)
    | ReportEnd(pid: Pid)
    | ReportEndAgain(pid: Pid)

  /** True when this call starts a spawn rather than finding a container or joining a wake. */
  predicate StartsSpawn(s: State, session: SessionId) {
    session !in s.active && session !in s.wakes
  }

  function Apply(s: State, step: Step): State {
    match step
    case WakeCall(session) =>
      if StartsSpawn(s, session) then s.(wakes := s.wakes[session := Setup]) else s
    case SpawnSucceeds(session) =>
      if session !in s.wakes || s.wakes[session] != Setup then s
      else s.(active := s.active[session := s.next], wakes := s.wakes[session := Settled],
              running := s.running[s.next := session], next := s.next + 1)
    case SpawnFails(session) =>
      if session !in s.wakes || s.wakes[session] != Setup then s
      else s.(wakes := s.wakes[session := Settled])
    case Finally(session) =>
      if session !in s.wakes || s.wakes[session] != Settled then s
      else s.(wakes := s.wakes - {session})
    case Kill(_) => s  // asks the runtime to stop the child; its end is reported later
    case ReportEnd(pid) =>
      if pid !in s.running then s
      else s.(active := s.active - {s.running[pid]}, running := s.running - {pid},
              ended := s.ended[pid := s.running[pid]])
    case ReportEndAgain(pid) =>
      if pid !in s.ended then s else s.(active := s.active - {s.ended[pid]})
  }

  function Run(s: State, steps: seq<Step>): State {
    if steps == [] then s else Apply(Run(s, steps[..|steps| - 1]), steps[|steps| - 1])
  }

  /**
   A child that reports its end again, by 'close' after 'error', does harm only if
   its session has a registered container by then: the successor's.
   */
  predicate Harmless(s: State, step: Step) {
    step.ReportEndAgain? && step.pid in s.ended ==> s.ended[step.pid] !in s.active
  }

  /** Every repeated report of the run comes while its session has no container registered. */
  predicate NoLateReports(steps: seq<Step>) {
    steps == [] ||
    (NoLateReports(steps[..|steps| - 1]) && Harmless(Run(INIT, steps[..|steps| - 1]), steps[|steps| - 1]))
  }

  predicate Inv(s: State) {
    && (forall session | session in s.active ::
          s.active[session] in s.running && s.running[s.active[session]] == session)
    && (forall pid | pid in s.running ::
          pid < s.next && s.running[pid] in s.active && s.active[s.running[pid]] == pid)
    && (forall session | session in s.wakes && s.wakes[session] == Setup :: session !in s.active)
  }

  lemma {:induction false} InvHolds(steps: seq<Step>)
    requires NoLateReports(steps)
    ensures Inv(Run(INIT, steps))
  {
    if steps != [] {
      InvHolds(steps[..|steps| - 1]);
    }
  }

  function LiveChildren(s: State, session: SessionId): set<Pid> {
    set pid | pid in s.running && s.running[pid] == session
  }

  predicate InSetup(s: State, session: SessionId) {
    session in s.wakes && s.wakes[session] == Setup
  }

  /** Per session, spawns in progress plus live containers never exceed one, in every run without a late report. */
  lemma AtMostOneContainer(steps: seq<Step>, session: SessionId)
    requires NoLateReports(steps)
    ensures var s := Run(INIT, steps);
            |LiveChildren(s, session)| + (if InSetup(s, session) then 1 else 0) <= 1
  {
    InvHolds(steps);
    var s := Run(INIT, steps);
    var live := LiveChildren(s, session);
    if live != {} {
      var pid :| pid in live;
      assert forall p | p in live :: p == s.active[session];
      assert live == {pid};
    }
  }

  /**
   A wake call always finds a live container, joins a set-up in progress, waits
   for a pending `finally`, or starts a spawn; once pending `finally` callbacks
   have run, a session with neither gets a fresh spawn.
   */
  lemma WakeIsNeverBlocked(steps: seq<Step>, session: SessionId)
    requires NoLateReports(steps)
    ensures var s := Run(INIT, steps);
            var calm := Apply(s, Finally(session));
            && (InSetup(s, session) || LiveChildren(s, session) != {} ==> !StartsSpawn(calm, session))
            && (!InSetup(s, session) && LiveChildren(s, session) == {} ==>
                  InSetup(Apply(calm, WakeCall(session)), session))
  {
    InvHolds(steps);
    var s := Run(INIT, steps);
    if session in s.active {
      assert s.active[session] in LiveChildren(s, session);
    }
    if pid :| pid in LiveChildren(s, session) {
      assert s.running[pid] == session;
    }
  }

  lemma RunAppend(s: State, steps: seq<Step>, step: Step)
    ensures Run(s, steps + [step]) == Apply(Run(s, steps), step)
  {
    assert (steps + [step])[..|steps|] == steps;
  }

  /**
   In particular a failed spawn leaves the way free: its set-up is over, and once the `finally` has run
   the next wake itself starts a new one.
   */
  lemma FailedSpawnIsRetried(steps: seq<Step>, session: SessionId)
    requires NoLateReports(steps) && InSetup(Run(INIT, steps), session)
    ensures var failed := Run(INIT, steps + [SpawnFails(session)]);
            !InSetup(failed, session) && failed.active == Run(INIT, steps).active
    ensures StartsSpawn(Run(INIT, steps + [SpawnFails(session)] + [Finally(session)]), session)
    ensures InSetup(Run(INIT, steps + [SpawnFails(session)] + [Finally(session)] + [WakeCall(session)]), session)
  {
    InvHolds(steps);
    RunAppend(INIT, steps, SpawnFails(session));
    RunAppend(INIT, steps + [SpawnFails(session)], Finally(session));
    RunAppend(INIT, steps + [SpawnFails(session)] + [Finally(session)], WakeCall(session));
  }

  /** A spawn that succeeds ends the set-up and leaves the session with one registered container, a new one. */
  lemma SpawnRegistersOne(steps: seq<Step>, session: SessionId)
    requires NoLateReports(steps) && InSetup(Run(INIT, steps), session)
    ensures var s, s' := Run(INIT, steps), Run(INIT, steps + [SpawnSucceeds(session)]);
            && !InSetup(s', session)
            && session in s'.active && LiveChildren(s', session) == {s'.active[session]}
            && s'.active[session] !in s.running
  {
    InvHolds(steps);
    var s, s' := Run(INIT, steps), Run(INIT, steps + [SpawnSucceeds(session)]);
    RunAppend(INIT, steps, SpawnSucceeds(session));
    assert forall pid | pid in s.running && s.running[pid] == session :: false;
    assert LiveChildren(s', session) == {s.next};
  }

  /** The session a step is about. */
  function About(s: State, step: Step): set<SessionId> {
    match step
    case ReportEnd(pid) => if pid in s.running then {s.running[pid]} else {}
    case ReportEndAgain(pid) => if pid in s.ended then {s.ended[pid]} else {}
    case _ => {step.session}
  }

  /** No step touches the wake, the registration or the children of another session. */
  lemma OtherSessionsAreUntouched(s: State, step: Step, session: SessionId)
    requires Inv(s) && session !in About(s, step)
    ensures var s' := Apply(s, step);
            && (session in s'.wakes <==> session in s.wakes)
            && (session in s.wakes ==> s'.wakes[session] == s.wakes[session])
            && (session in s'.active <==> session in s.active)
            && (session in s.active ==> s'.active[session] == s.active[session])
            && LiveChildren(s', session) == LiveChildren(s, session)
  {
    var s' := Apply(s, step);
    assert s.next !in s.running;
    hide Inv;
    assert forall pid :: pid in LiveChildren(s', session) <==> pid in LiveChildren(s, session);
  }

  /** A reported end takes its child, and the session can be woken again. */
  lemma EndFreesTheSession(steps: seq<Step>, pid: Pid)
    requires NoLateReports(steps) && pid in Run(INIT, steps).running
    ensures var s, s' := Run(INIT, steps), Run(INIT, steps + [ReportEnd(pid)]);
            var session := s.running[pid];
            && pid !in s'.running && pid in s'.ended && s'.ended[pid] == session
            && LiveChildren(s', session) == {}
            && StartsSpawn(Apply(s', Finally(session)), session)
  {
    InvHolds(steps);
    RunAppend(INIT, steps, ReportEnd(pid));
    var s := Run(INIT, steps);
    assert forall p | p in s.running && s.running[p] == s.running[pid] :: p == pid;
  }

  /** What a wake right after a repeated report leads to, on its session. */
  function WokenAfterReport(s: State, pid: Pid): State
    requires pid in s.ended
  {
    var session := s.ended[pid];
    Apply(Apply(Apply(Apply(s, ReportEndAgain(pid)), Finally(session)), WakeCall(session)), SpawnSucceeds(session))
  }

  /** The same as steps. */
  function WakeSteps(session: SessionId, pid: Pid): seq<Step> {
    [ReportEndAgain(pid)] + [Finally(session)] + [WakeCall(session)] + [SpawnSucceeds(session)]
  }

  /**
   The end handlers forget the session's entry without looking at the process. So
   a repeated report lets the next wake start a twin exactly when it is late, in
   every state with the invariant.
   */
  lemma LateReportStartsTwin(s: State, pid: Pid)
    requires Inv(s) && pid in s.ended
    ensures |LiveChildren(WokenAfterReport(s, pid), s.ended[pid])| == 2 <==> !Harmless(s, ReportEndAgain(pid))
  {
    var session := s.ended[pid];
    var s' := WokenAfterReport(s, pid);
    if session in s.active {
      var live := s.active[session];
      assert forall p | p in s.running && s.running[p] == session :: p == live;
      assert LiveChildren(s', session) == {live, s.next};
    } else {
      assert forall p | p in s.running :: s.running[p] != session;
      assert LiveChildren(s', session) <= {s.next};
      if LiveChildren(s', session) != {} {
        assert LiveChildren(s', session) == {s.next};
      }
    }
  }

  /** Over runs: the first repeated report that breaks at-most-one is exactly the first late one. */
  lemma TwinsExactlyWhenLate(steps: seq<Step>, pid: Pid)
    requires NoLateReports(steps) && pid in Run(INIT, steps).ended
    ensures var session := Run(INIT, steps).ended[pid];
            var twins := |LiveChildren(Run(INIT, steps + WakeSteps(session, pid)), session)| == 2;
            twins <==> !NoLateReports(steps + [ReportEndAgain(pid)])
  {
    InvHolds(steps);
    var session := Run(INIT, steps).ended[pid];
    var reported := steps + [ReportEndAgain(pid)];
    assert reported[..|reported| - 1] == steps;
    RunAppend(INIT, steps, ReportEndAgain(pid));
    RunAppend(INIT, reported, Finally(session));
    RunAppend(INIT, reported + [Finally(session)], WakeCall(session));
    RunAppend(INIT, reported + [Finally(session)] + [WakeCall(session)], SpawnSucceeds(session));
    assert steps + WakeSteps(session, pid)
        == reported + [Finally(session)] + [WakeCall(session)] + [SpawnSucceeds(session)];
    LateReportStartsTwin(Run(INIT, steps), pid);
  }

  /** A run from the start in which a dead child's second report comes late, and two successors live at once. */
  lemma LateReportAllowsTwins(session: SessionId) returns (steps: seq<Step>)
    ensures |LiveChildren(Run(INIT, steps), session)| == 2
  {
    var s;
    steps, s := Respawn([], INIT, session);
    steps, s := Then(steps, s, ReportEnd(0));
    assert s == State(map[], map[], map[], map[0 := session], 1);
    steps, s := Respawn(steps, s, session);
    steps, s := Then(steps, s, ReportEndAgain(0));
    steps, s := Respawn(steps, s, session);
    assert LiveChildren(s, session) == {1, 2};
  }

  lemma Then(steps: seq<Step>, s: State, step: Step) returns (steps': seq<Step>, s': State)
    requires Run(INIT, steps) == s
    ensures s' == Apply(s, step) == Run(INIT, steps')
  {
    steps', s' := steps + [step], Apply(s, step);
    RunAppend(INIT, steps, step);
  }

  /** A wake call that spawns, up to its `finally`. */
  lemma Respawn(steps: seq<Step>, s: State, session: SessionId) returns (steps': seq<Step>, s': State)
    requires Run(INIT, steps) == s && StartsSpawn(s, session)
    ensures Run(INIT, steps') == s'
    ensures s' == s.(active := s.active[session := s.next], running := s.running[s.next := session], next := s.next + 1)
  {
    steps', s' := Then(steps, s, WakeCall(session));
    steps', s' := Then(steps', s', SpawnSucceeds(session));
    steps', s' := Then(steps', s', Finally(session));
    assert s'.wakes == s.wakes;
  }

  /** The module's two maps, with the calls and handlers that change them. */
  class Runner {
    var activeContainers: map<SessionId, Pid>
    var wakePromises: map<SessionId, Wake>
    ghost var running: map<Pid, SessionId>
    ghost var ended: map<Pid, SessionId>
    var next: Pid

    ghost function View(): State
      reads this
    {
      State(activeContainers, wakePromises, running, ended, next)
    }

    constructor ()
      ensures View() == INIT
    {
      activeContainers, wakePromises, next := map[], map[], 0;
      running, ended := map[], map[];
    }

    method WakeContainer(session: SessionId) returns (spawning: bool)
      modifies this`wakePromises
      ensures View() == Apply(old(View()), WakeCall(session))
      ensures spawning <==> StartsSpawn(old(View()), session)
    {
      if session in activeContainers {
        return false;
      }
      if session in wakePromises {
        return false;
      }
      wakePromises := wakePromises[session := Setup];
      return true;
    }

    /** The end of spawnContainer's set-up, by return or by throw. */
    method SetupEnds(session: SessionId, ok: bool)
      requires InSetup(View(), session)
      modifies this
      ensures View() == Apply(old(View()), if ok then SpawnSucceeds(session) else SpawnFails(session))
    {
      if ok {
        activeContainers := activeContainers[session := next];
        running := running[next := session];
        next := next + 1;
      }
      wakePromises := wakePromises[session := Settled];
    }

    method WakeFinally(session: SessionId)
      requires session in wakePromises && wakePromises[session] == Settled
      modifies this`wakePromises
      ensures View() == Apply(old(View()), Finally(session))
    {
      wakePromises := wakePromises - {session};
    }

    /** The 'close' or 'error' handler of a child spawned for `session`, the first time or again. */
    method OnEnd(pid: Pid, session: SessionId)
      requires (pid in running && running[pid] == session) || (pid !in running && pid in ended && ended[pid] == session)
      modifies this
      ensures View() == Apply(old(View()), if pid in old(running) then ReportEnd(pid) else ReportEndAgain(pid))
    {
      activeContainers := activeContainers - {session};
      if pid in running {
        running, ended := running - {pid}, ended[pid := session];
      }
    }
  }
}
