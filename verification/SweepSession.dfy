/**
 One tick of the host's sweep as the source runs it, stage after stage, and its
 agreement with the interleaved machine of Protocol when nothing else moves.

 What the queries of a tick return is passed in: the finished acks and the
 processing claims of outbound.db, in any order.
 */
module SweepSession {
  import opened Wrappers
  import opened SessionDb
  import opened HostSweep
  import opened Protocol

  /**
   What the host sees around the tables: its clock, its container map, whether a wake would spawn
   (one that does not throws), heartbeat and tool.
   */
  datatype Surroundings = Surroundings(
    now: Time, registered: bool, spawns: bool, heartbeat: Time, tool: Option<ContainerState>)

  function ClaimIds(timed: seq<HostSweep.Claim>): (r: seq<MsgId>)
    ensures |r| == |timed| && forall i | 0 <= i < |r| :: r[i] == timed[i].id
  {
    seq(|timed|, i requires 0 <= i < |timed| => timed[i].id)
  }

  /** `timed` is what the claims query returns: every processing row once. */
  predicate ClaimRows(acks: Acks, timed: seq<HostSweep.Claim>) {
    ListsTimedClaims(acks, timed) && Distinct(ClaimIds(timed))
  }

  // ------------------------------------------------------------------ specification

  function WakesContainer(rows: seq<Row>, env: Surroundings): bool {
    CountDue(rows, env.now) > 0 && !env.registered
  }

  /** The tick ends with the wake: the source's `try` around the stages has no `catch`. */
  predicate WakeThrows(rows: seq<Row>, env: Surroundings) {
    WakesContainer(rows, env) && !env.spawns
  }

  /** After a wake stage that does not throw; a spawn removes the heartbeat file. */
  function AfterWake(rows: seq<Row>, env: Surroundings): Surroundings {
    if WakesContainer(rows, env) then env.(registered := true, heartbeat := 0) else env
  }

  function Verdict(env: Surroundings, timed: seq<HostSweep.Claim>): Decision {
    Decide(env.now, env.heartbeat, env.tool, timed)
  }

  /** True when the tick resets the claimed messages: no container and no wake, or a container it kills. */
  predicate Resets(rows: seq<Row>, env: Surroundings, timed: seq<HostSweep.Claim>) {
    var env' := AfterWake(rows, env);
    !WakeThrows(rows, env) && (!env'.registered || !Verdict(env', timed).Keep?)
  }

  function Instants(n: nat, now: Time): (r: seq<Time>)
    ensures |r| == n && forall i | 0 <= i < n :: r[i] == now
  {
    seq(n, _ => now)
  }

  function TickRows(rows: seq<Row>, acks: Acks, env: Surroundings, timed: seq<HostSweep.Claim>): seq<Row> {
    var synced := SyncRows(rows, Finished(acks));
    if Resets(synced, env, timed) then ResetAll(synced, ClaimIds(timed), env.now, Instants(|timed|, env.now))
    else synced
  }

  /** Row by row: a finished ack completes, a claim is reset if the tick resets at all, every other row stays. */
  lemma TickActsPerRow(rows: seq<Row>, acks: Acks, env: Surroundings, timed: seq<HostSweep.Claim>, i: nat)
    requires ClaimRows(acks, timed) && i < |rows|
    ensures |TickRows(rows, acks, env, timed)| == |rows|
    ensures var synced := SyncRows(rows, Finished(acks));
            TickRows(rows, acks, env, timed)[i]
              == if rows[i].Id() in Finished(acks) then Complete(rows[i])
                 else if Resets(synced, env, timed) && rows[i].Id() in Claims(acks)
                     then ResetRow(rows[i], env.now, env.now)
                 else rows[i]
  {
    hide Resets, ResetRow;
    var synced, ids := SyncRows(rows, Finished(acks)), ClaimIds(timed);
    ResetsEachClaimOnce(synced, ids, env.now, Instants(|timed|, env.now), i);
    ClaimIdsAreClaims(acks, timed);
    if rows[i].Id() in Claims(acks) {
      var k :| 0 <= k < |ids| && ids[k] == rows[i].Id();
    }
  }

  /** No ack has finished message `j`, it may wake the agent, and its time has come. */
  predicate DueAfterSync(rows: seq<Row>, acks: Acks, now: Time, j: nat)
    requires j < |rows|
  {
    rows[j].msg.trigger && rows[j].Id() !in Finished(acks) && Due(rows[j], now)
  }

  /** Some claim is older than a container without a heartbeat is allowed to leave it. */
  predicate ClaimIsPastTolerance(acks: Acks, env: Surroundings) {
    exists id :: id in Claims(acks) && env.now - acks[id].changed > AtLeast(CLAIM_STUCK, BashTimeout(env.tool))
  }

  lemma SyncedIsDue(rows: seq<Row>, acks: Acks, now: Time)
    ensures CountDue(SyncRows(rows, Finished(acks)), now) > 0
       <==> exists j | 0 <= j < |rows| :: DueAfterSync(rows, acks, now, j)
  {
    hide Finished;
    var synced := SyncRows(rows, Finished(acks));
    if j :| 0 <= j < |rows| && DueAfterSync(rows, acks, now, j) {
      assert synced[j].msg.trigger && Due(synced[j], now);
    }
    if j :| 0 <= j < |rows| && synced[j].msg.trigger && Due(synced[j], now) {
      assert DueAfterSync(rows, acks, now, j);
    }
  }

  lemma FreshVerdict(acks: Acks, env: Surroundings, timed: seq<HostSweep.Claim>)
    requires ListsTimedClaims(acks, timed) && env.heartbeat == 0
    ensures !Verdict(env, timed).Keep? <==> ClaimIsPastTolerance(acks, env)
  {
    KillsExactlyWhen(env.now, env.heartbeat, env.tool, timed);
    if c :| c in timed && Stuck(c, env.now, 0, BashTimeout(env.tool)) {
      assert c.id in Claims(acks) && c.claimedAt == Some(acks[c.id].changed);
    }
    if id :| id in Claims(acks) && env.now - acks[id].changed > AtLeast(CLAIM_STUCK, BashTimeout(env.tool)) {
      var c :| c in timed && c.id == id;
      assert Stuck(c, env.now, 0, BashTimeout(env.tool));
    }
  }

  /**
   A session without a container has its claimed messages reset by a tick exactly when no trigger row
   is due after the sync, or when there is one and the container it wakes is killed in the same tick.
   A failed wake resets nothing.
   */
  lemma AbsentContainerResetsExactlyWhen(
      rows: seq<Row>, acks: Acks, env: Surroundings, timed: seq<HostSweep.Claim>, i: nat)
    requires ClaimRows(acks, timed) && !env.registered && i < |rows|
    requires rows[i].Id() in Claims(acks) && rows[i].status == Pending && rows[i].tries <= MAX_TRIES
    requires rows[i].processAfter.None? || rows[i].processAfter.value <= env.now
    ensures var work := exists j | 0 <= j < |rows| :: DueAfterSync(rows, acks, env.now, j);
            TickRows(rows, acks, env, timed)[i] != rows[i] <==> !work || (env.spawns && ClaimIsPastTolerance(acks, env))
  {
    hide TickRows, Verdict, ResetRow, DueAfterSync, ClaimIsPastTolerance, CountDue;
    SyncedIsDue(rows, acks, env.now);
    TickActsPerRow(rows, acks, env, timed, i);
    ResetProgresses(rows[i], env.now, env.now);
    ListedTimed(acks, timed);
    FreshVerdict(acks, env.(registered := true, heartbeat := 0), timed);
    SameTolerance(acks, env);
  }

  lemma SameTolerance(acks: Acks, env: Surroundings)
    ensures ClaimIsPastTolerance(acks, env.(registered := true, heartbeat := 0)) <==> ClaimIsPastTolerance(acks, env)
  {
  }

  lemma ClaimIdsAreClaims(acks: Acks, timed: seq<HostSweep.Claim>)
    requires ClaimRows(acks, timed)
    ensures ListsClaims(acks, ClaimIds(timed))
  {
    var ids := ClaimIds(timed);
    forall id
      ensures id in Elems(ids) <==> id in Claims(acks)
    {
      if id in ids {
        var k :| 0 <= k < |ids| && ids[k] == id;
        assert timed[k] in timed;
      }
      if id in Claims(acks) {
        var c :| c in timed && c.id == id;
        var k :| 0 <= k < |timed| && timed[k] == c;
        assert ids[k] == id;
      }
    }
  }

  // ------------------------------------------------------------------------- methods

  /** Stage 3: the verdict on a running container, and its consequences. */
  method EnforceRunningContainerSla(inDb: InboundDb, env: Surroundings, timed: seq<HostSweep.Claim>)
      returns (killed: bool)
    requires UniqueIds(inDb.rows)
    modifies inDb
    ensures killed <==> !Verdict(env, timed).Keep?
    ensures var reset := ResetAll(old(inDb.rows), ClaimIds(timed), env.now, Instants(|timed|, env.now));
            inDb.rows == if killed then reset else old(inDb.rows)
  {
    var decision := DecideStuckAction(env.now, env.heartbeat, env.tool, timed);
    if decision.Keep? {
      return false;
    }
    ResetStuckProcessingRows(inDb, ClaimIds(timed), env.now, Instants(|timed|, env.now));
    return true;
  }

  /** How a tick ends: by the wake's exception, or having gone through all stages. */
  datatype Ending = Threw | Swept(left: Surroundings, killed: bool)

  /** The whole tick, on existing databases. `left` is what it leaves behind before a kill takes effect. */
  method SweepSession(
      inDb: InboundDb, outDb: OutboundDb, env: Surroundings, finished: seq<MsgId>, timed: seq<HostSweep.Claim>)
      returns (ending: Ending)
    requires UniqueIds(inDb.rows)
    requires Elems(finished) == Finished(outDb.acks) && ClaimRows(outDb.acks, timed)
    modifies inDb
    ensures inDb.rows == TickRows(old(inDb.rows), outDb.acks, env, timed)
    ensures var synced := SyncRows(old(inDb.rows), Finished(outDb.acks));
            && (ending.Threw? <==> WakeThrows(synced, env))
            && (ending.Swept? ==>
                  && ending.left == AfterWake(synced, env)
                  && (ending.killed <==> ending.left.registered && !Verdict(ending.left, timed).Keep?))
  {
    inDb.SyncProcessingAcks(finished);

    var env' := env;
    var dueCount := CountDue(inDb.rows, env.now);
    if dueCount > 0 && !env.registered {
      if !env.spawns {
        return Threw;
      }
      env' := env.(registered := true, heartbeat := 0);
    }

    var killed := false;
    if env'.registered {
      killed := EnforceRunningContainerSla(inDb, env', timed);
    } else {
      ResetStuckProcessingRows(inDb, ClaimIds(timed), env.now, Instants(|timed|, env.now));
    }
    return Swept(env', killed);
  }

  // ------------------------------------------------------------------ a pass over all

  /** What a pass finds when it comes to a session. */
  datatype Visit = Visit(rows: seq<Row>, acks: Acks, env: Surroundings, timed: seq<HostSweep.Claim>)
  {
    predicate Throws() { WakeThrows(SyncRows(rows, Finished(acks)), env) }

    function Ticked(): seq<Row> { TickRows(rows, acks, env, timed) }
  }

  /** A session's databases, with what the host sees and the queries return at its turn. */
  datatype Turn = Turn(
    inDb: InboundDb, outDb: OutboundDb, env: Surroundings, finished: seq<MsgId>, timed: seq<HostSweep.Claim>)
  {
    function Found(): Visit
      reads inDb, outDb
    {
      Visit(inDb.rows, outDb.acks, env, timed)
    }

    ghost predicate Valid()
      reads inDb, outDb
    {
      UniqueIds(inDb.rows) && Elems(finished) == Finished(outDb.acks) && ClaimRows(outDb.acks, timed)
    }
  }

  function Visits(turns: seq<Turn>): (r: seq<Visit>)
    reads set t | t in turns :: t.inDb, set t | t in turns :: t.outDb
    ensures |r| == |turns| && forall i | 0 <= i < |r| :: r[i] == turns[i].Found()
  {
    if turns == [] then [] else Visits(turns[..|turns| - 1]) + [turns[|turns| - 1].Found()]
  }

  /** An earlier session's wake throws. */
  predicate CutOff(visits: seq<Visit>, i: nat)
    requires i <= |visits|
  {
    exists j | 0 <= j < i :: visits[j].Throws()
  }

  /** The tables after a pass: a session is swept exactly when no earlier one's wake throws. */
  function PassRows(visits: seq<Visit>): (r: seq<seq<Row>>)
    ensures |r| == |visits|
  {
    seq(|visits|, i requires 0 <= i < |visits| => if CutOff(visits, i) then visits[i].rows else visits[i].Ticked())
  }

  /** The pass: the loop stands in one `try`, so the first exception ends it. */
  method Sweep(turns: seq<Turn>)
    requires forall t | t in turns :: t.Valid()
    requires forall i, j | 0 <= i < j < |turns| :: turns[i].inDb != turns[j].inDb
    modifies set t | t in turns :: t.inDb
    ensures forall i | 0 <= i < |turns| :: turns[i].inDb.rows == PassRows(old(Visits(turns)))[i]
  {
    hide PassRows, CutOff, TickRows, WakeThrows, ClaimRows, UniqueIds, SyncRows;
    ghost var visits := Visits(turns);
    NothingCutOff(visits);
    for n := 0 to |turns|
      invariant !CutOff(visits, n)
      invariant forall i | 0 <= i < |turns| ::
                  turns[i].inDb.rows == if i < n then PassRows(visits)[i] else visits[i].rows
    {
      var turn := turns[n];
      assert turn in turns && turn.Found() == visits[n];
      var ending := SweepSession(turn.inDb, turn.outDb, turn.env, turn.finished, turn.timed);
      if ending.Threw? {
        CutOffAfter(visits, n);
        return;
      }
      OneMoreVisit(visits, n);
    }
  }

  lemma NothingCutOff(visits: seq<Visit>)
    ensures !CutOff(visits, 0)
  {
  }

  lemma CutOffAfter(visits: seq<Visit>, n: nat)
    requires n < |visits| && !CutOff(visits, n) && visits[n].Throws()
    ensures PassRows(visits)[n] == visits[n].Ticked()
    ensures forall i | n < i < |visits| :: PassRows(visits)[i] == visits[i].rows
  {
    assert forall i | n < i < |visits| :: CutOff(visits, i);
  }

  lemma OneMoreVisit(visits: seq<Visit>, n: nat)
    requires n < |visits| && !CutOff(visits, n)
    ensures CutOff(visits, n + 1) <==> visits[n].Throws()
    ensures PassRows(visits)[n] == visits[n].Ticked()
  {
  }

  /**
   Session `j` has a due message no ack finishes, no container, and wakes that throw, pass after pass;
   between passes the host may add messages to it. Anything else is arbitrary.
   */
  predicate KeepsThrowing(passes: seq<seq<Visit>>, j: nat, k: nat) {
    && (forall p | 0 <= p < |passes| ::
          && j < |passes[p]| && !passes[p][j].env.registered && !passes[p][j].env.spawns
          && k < |passes[p][j].rows| && passes[p][j].rows[k].Id() !in Finished(passes[p][j].acks))
    && (forall p | 0 < p < |passes| ::
          && PassRows(passes[p - 1])[j] <= passes[p][j].rows
          && passes[p - 1][j].env.now <= passes[p][j].env.now)
    && (passes != [] ==> DueAfterSync(passes[0][j].rows, passes[0][j].acks, passes[0][j].env.now, k))
  }

  /** Then no session after `j` is swept in any of the passes. */
  lemma FailingWakeBlocksTheRest(passes: seq<seq<Visit>>, j: nat, k: nat, p: nat, i: nat)
    requires KeepsThrowing(passes, j, k)
    requires p < |passes| && j < i < |passes[p]|
    ensures PassRows(passes[p])[i] == passes[p][i].rows
  {
    StillThrows(passes, j, k, p);
  }

  lemma {:induction false} StillThrows(passes: seq<seq<Visit>>, j: nat, k: nat, p: nat)
    requires KeepsThrowing(passes, j, k) && p < |passes|
    ensures var v := passes[p][j]; v.Throws() && DueAfterSync(v.rows, v.acks, v.env.now, k)
  {
    var v := passes[p][j];
    if p > 0 {
      StillThrows(passes, j, k, p - 1);
      assert PassRows(passes[p - 1])[j][k] == passes[p - 1][j].rows[k];
    }
    SyncedIsDue(v.rows, v.acks, v.env.now);
  }

  // ---------------------------------------------------------------- and the machine

  function Repeat(s: Step, n: nat): (r: seq<Step>)
    ensures |r| == n
  {
    if n == 0 then [] else Repeat(s, n - 1) + [s]
  }

  function WakeSteps(rows: seq<Row>, env: Surroundings): seq<Step> {
    if !WakesContainer(rows, env) then [] else if env.spawns then [Spawn, SweepWakeReturns] else [SweepWakeThrows]
  }

  function ResetSteps(timed: seq<HostSweep.Claim>): seq<Step> {
    [SweepReadClaims(ClaimIds(timed))] + Repeat(SweepResetNext, |timed| + 1)
  }

  /** The steps of one undisturbed tick. */
  function TickSteps(rows: seq<Row>, acks: Acks, env: Surroundings, timed: seq<HostSweep.Claim>): seq<Step> {
    var synced := SyncRows(rows, Finished(acks));
    [SweepReadAcks, SweepSync, SweepCountDue]
    + WakeSteps(synced, env)
    + (if WakeThrows(synced, env) then [] else [SweepSla(timed)])
    + if Resets(synced, env, timed) then ResetSteps(timed) else []
  }

  predicate Around(w: World, env: Surroundings) {
    w.now == env.now && w.registered == env.registered && w.heartbeat == env.heartbeat && w.tool == env.tool
  }

  lemma RunOne(w: World, s: Step)
    ensures Run(w, [s]) == Apply(w, s)
  {
    assert [s][..0] == [] && Run(w, []) == w;
  }

  lemma CountStep(w: World, env: Surroundings)
    requires w.sweep.Synced? && Around(w, env)
    ensures Apply(w, SweepCountDue) == w.(sweep := if WakesContainer(w.rows, env) then Waking else Checking)
  {
  }

  lemma SlaStep(w: World, env: Surroundings, timed: seq<HostSweep.Claim>)
    requires w.sweep.Checking? && Around(w, env) && ListsTimedClaims(w.acks, timed)
    ensures Apply(w, SweepSla(timed))
         == w.(sweep := if !env.registered || !Verdict(env, timed).Keep? then MustReset else Idle)
  {
    hide ListsTimedClaims, Decide;
  }

  lemma ReadClaimsStep(w: World, claims: seq<MsgId>)
    requires w.sweep.MustReset? && ListsClaims(w.acks, claims)
    ensures Apply(w, SweepReadClaims(claims)) == w.(sweep := Resetting(claims, w.now))
  {
    hide ListsClaims;
  }

  lemma LastResetStep(w: World)
    requires w.sweep.Resetting? && w.sweep.claims == []
    ensures Apply(w, SweepResetNext) == w.(sweep := Idle)
  {
  }

  lemma OpeningRuns(w: World, env: Surroundings)
    requires w.sweep.Idle? && Around(w, env)
    ensures var synced := SyncRows(w.rows, Finished(w.acks));
            Run(w, [SweepReadAcks, SweepSync, SweepCountDue])
              == w.(rows := synced, sweep := if WakesContainer(synced, env) then Waking else Checking)
  {
    hide SyncRows, WakesContainer, Finished, Apply, Run;
    RunThree(w, SweepReadAcks, SweepSync, SweepCountDue);
    ReadAcksStep(w);
    SyncStep(w.(sweep := Syncing(Finished(w.acks))));
    CountStep(w.(rows := SyncRows(w.rows, Finished(w.acks)), sweep := Synced), env);
  }

  lemma WakeStepIs(w: World)
    requires w.sweep.Waking? && !w.registered
    ensures Apply(w, SweepWakeThrows) == w.(sweep := Idle)
    ensures Apply(w, Spawn) == SpawnContainer(w)
    ensures Apply(SpawnContainer(w), SweepWakeReturns) == SpawnContainer(w).(sweep := Checking)
  {
  }

  lemma WakeRuns(w: World, env: Surroundings)
    requires Around(w, env) && w.sweep == if WakesContainer(w.rows, env) then Waking else Checking
    ensures var w' := Run(w, WakeSteps(w.rows, env));
            && w'.sweep == (if WakeThrows(w.rows, env) then Idle else Checking)
            && (!WakeThrows(w.rows, env) ==> Around(w', AfterWake(w.rows, env)))
            && w'.rows == w.rows && w'.records == w.records && w'.acks == w.acks
  {
    hide CountDue, Run, Apply;
    if !WakesContainer(w.rows, env) {
      RunNone(w);
    } else {
      WakeStepIs(w);
      if env.spawns {
        assert [Spawn, SweepWakeReturns] == [Spawn] + [SweepWakeReturns];
        RunConcat(w, [Spawn], [SweepWakeReturns]);
        RunOne(w, Spawn);
        RunOne(SpawnContainer(w), SweepWakeReturns);
      } else {
        RunOne(w, SweepWakeThrows);
      }
    }
  }

  lemma NextResetStep(w: World, claims: seq<MsgId>)
    requires claims != [] && w.sweep == Resetting(claims, w.now)
    ensures var w' := Apply(w, SweepResetNext);
            w'.sweep == Resetting(claims[1..], w.now) && w'.now == w.now
                && w'.rows == ResetOne(w.rows, claims[0], w.now, w.now)
  {
    hide ResetOne, NoteAll;
  }

  lemma {:induction false} ResetsRun(w: World, claims: seq<MsgId>, n: nat)
    requires w.sweep == Resetting(claims, w.now) && n <= |claims|
    ensures var w' := Run(w, Repeat(SweepResetNext, n));
            && w'.sweep == Resetting(claims[n..], w.now) && w'.now == w.now
            && w'.rows == ResetAll(w.rows, claims[..n], w.now, Instants(n, w.now))
  {
    hide ResetOne, Apply, Run;
    if n == 0 {
      RunNone(w);
    } else {
      ResetsRun(w, claims, n - 1);
      var mid := Run(w, Repeat(SweepResetNext, n - 1));
      RunConcat(w, Repeat(SweepResetNext, n - 1), [SweepResetNext]);
      RunOne(mid, SweepResetNext);
      NextResetStep(mid, claims[n - 1..]);
      assert claims[n - 1..][0] == claims[n - 1] && claims[n - 1..][1..] == claims[n..];
      assert claims[..n][..n - 1] == claims[..n - 1] && Instants(n, w.now)[..n - 1] == Instants(n - 1, w.now);
    }
  }

  lemma ClosingRuns(w: World, timed: seq<HostSweep.Claim>)
    requires w.sweep.MustReset? && ClaimRows(w.acks, timed)
    ensures var w' := Run(w, ResetSteps(timed));
            w'.sweep == Idle && w'.rows == ResetAll(w.rows, ClaimIds(timed), w.now, Instants(|timed|, w.now))
  {
    hide ResetAll, ClaimRows, ListsClaims, ClaimIds, Instants, Apply, Run;
    var ids, n := ClaimIds(timed), |timed|;
    ClaimIdsAreClaims(w.acks, timed);
    var read := w.(sweep := Resetting(ids, w.now));
    RunConcat(w, [SweepReadClaims(ids)], Repeat(SweepResetNext, n + 1));
    RunOne(w, SweepReadClaims(ids));
    ReadClaimsStep(w, ids);
    var done := Run(read, Repeat(SweepResetNext, n));
    ResetsRun(read, ids, n);
    RunConcat(read, Repeat(SweepResetNext, n), [SweepResetNext]);
    RunOne(done, SweepResetNext);
    assert ids[..n] == ids && ids[n..] == [];
    LastResetStep(done);
  }

  /**
   Left undisturbed, the machine's tick does to the table what the source's straight-line tick does,
   whether the wake spawns or throws.
   */
  lemma TickIsTheMachine(w: World, env: Surroundings, timed: seq<HostSweep.Claim>)
    requires w.sweep.Idle? && Around(w, env) && ClaimRows(w.acks, timed)
    ensures var w' := Run(w, TickSteps(w.rows, w.acks, env, timed));
            w'.sweep == Idle && w'.rows == TickRows(w.rows, w.acks, env, timed)
  {
    hide SyncRows, Finished, WakesContainer, WakeThrows, Verdict, ResetAll, ClaimRows, ListsTimedClaims, Apply, Run,
        ClaimIds, Instants, WakeSteps, ResetSteps, AfterWake;
    var synced := SyncRows(w.rows, Finished(w.acks));
    var opening: seq<Step> := [SweepReadAcks, SweepSync, SweepCountDue];
    var waking := WakeSteps(synced, env);
    var checking: seq<Step> := if WakeThrows(synced, env) then [] else [SweepSla(timed)];
    var closing: seq<Step> := if Resets(synced, env, timed) then ResetSteps(timed) else [];
    OpeningRuns(w, env);
    var w1 := Run(w, opening);
    WakeRuns(w1, env);
    var w2 := Run(w1, waking);
    var w3 := Run(w2, checking);
    RunConcat(w, opening, waking);
    RunConcat(w, opening + waking, checking);
    RunConcat(w, opening + waking + checking, closing);
    if WakeThrows(synced, env) {
      RunNone(w2);
    } else {
      ListedTimed(w2.acks, timed);
      SlaStep(w2, AfterWake(synced, env), timed);
      RunOne(w2, SweepSla(timed));
      AfterWakeKeepsClock(synced, env);
    }
    if Resets(synced, env, timed) {
      ClosingRuns(w3, timed);
    } else {
      RunNone(w3);
    }
  }

  lemma AfterWakeKeepsClock(rows: seq<Row>, env: Surroundings)
    ensures AfterWake(rows, env).now == env.now
  {
  }

  lemma RunNone(w: World)
    ensures Run(w, []) == w
  {
  }

  lemma ListedTimed(acks: Acks, timed: seq<HostSweep.Claim>)
    requires ClaimRows(acks, timed)
    ensures ListsTimedClaims(acks, timed)
  {
  }
}
