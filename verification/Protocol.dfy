/**
 One session as host and container run it together: every statement that
 touches a shared table, the clock, the heartbeat or the process is one step,
 and a run is any sequence of steps. A step that its side cannot take where it
 stands changes nothing, so the sequences are exactly the interleavings,
 crashes included.
 */
module Protocol {
  import opened Wrappers
  import opened SessionDb
  import opened HostSweep
  import opened PollLoop

  // ------------------------------------------------------------------------ state

  /** Where the container's poll loop stands. */
  datatype Runner =
    | Down
    | Booting
    | AtHead
    | Polled(batch: seq<Row>)
    | Claimed(batch: seq<Row>)
    | PreTask(normal: set<MsgId>)
    | Querying(prompted: set<MsgId>, follow: FollowUps)

  datatype FollowUps = NoFollowUps | Read(rows: seq<Row>) | Pushing(ids: set<MsgId>)

  /** Where the host's sweep of this session stands. */
  datatype Sweep =
    | Idle
    | Syncing(done: set<MsgId>)
    | Synced
    | Waking
    | Checking
    | MustReset
    | Resetting(claims: seq<MsgId>, readAt: Time)

  /** When the host reset a message and when it failed it. */
  datatype Record = Record(resets: seq<Time>, failedAt: Option<Time>)

  /** `records[i]` is the record of `rows[i]`; no step reads it. */
  datatype World = World(
    now: Time,
    rows: seq<Row>,
    acks: Acks,
    runner: Runner,
    registered: bool,
    spawnedAt: Time,
    heartbeat: Time,
    tool: Option<ContainerState>,
    sweep: Sweep,
    records: seq<Record>)

  const INIT := World(0, [], map[], Down, false, 0, 0, None, Idle, [])

  datatype Step =
    // environment
    | Tick(ms: nat)
    | HostInsert(m: Message)
    | Spawn
    | Crash
    | ReportExit
    | HostRestart
    // container
    | Boot
    | TouchHeartbeat
    | SetTool(tool: Option<ContainerState>)
    | Poll(limit: nat)
    | ClaimBatch
    | CompleteCommands
    | CompleteSkipped(skipped: set<MsgId>)
    | QueryResult
    | PollFollowUp(limit: nat)
    | ClaimFollowUp
    | CompleteFollowUp
    | EndQuery
    | AnswerQuestion(id: MsgId)
    // host sweep
    | SweepReadAcks
    | SweepSync
    | SweepCountDue
    | SweepWakeReturns
    | SweepWakeThrows
    | SweepSla(timed: seq<HostSweep.Claim>)
    | SweepReadClaims(claims: seq<MsgId>)
    | SweepResetNext

  const NO_RECORD := Record([], None)

  // ------------------------------------------------------------------------ steps

  function Mark(w: World, ids: set<MsgId>, status: AckStatus): World {
    w.(acks := MarkAll(w.acks, ids, status, w.now))
  }

  /** The claims a sweep reads: every processing row once, in any order. */
  predicate ListsClaims(acks: Acks, claims: seq<MsgId>) {
    Distinct(claims) && Elems(claims) == Claims(acks)
  }

  predicate ListsTimedClaims(acks: Acks, claims: seq<HostSweep.Claim>) {
    && (forall c | c in claims :: c.id in Claims(acks) && c.claimedAt == Some(acks[c.id].changed))
    && (forall id | id in Claims(acks) :: exists c :: c in claims && c.id == id)
  }

  /** A new container process: spawnContainer removes the heartbeat file, then registers the child. */
  function SpawnContainer(w: World): World {
    if w.registered then w
    else w.(registered := true, spawnedAt := w.now, heartbeat := 0, runner := Booting)
  }

  function EnvironmentStep(w: World, s: Step): World {
    match s
    case Tick(ms) => w.(now := w.now + ms)
    case HostInsert(m) =>
      w.(rows := Insert(w.rows, m), records := if HasId(w.rows, m.id) then w.records else w.records + [NO_RECORD])
    case Spawn => SpawnContainer(w)
    case Crash => w.(runner := Down)
    case ReportExit => if w.runner.Down? then w.(registered := false) else w
    case HostRestart => w.(runner := Down, registered := false, sweep := Idle)
    case _ => w
  }

  predicate IsAnswer(r: Row) { r.msg.kind == System && r.status == Pending }

  function ContainerStep(w: World, s: Step): World {
    match (s, w.runner)
    case (Boot, Booting) => w.(acks := ClearStale(w.acks), runner := AtHead)
    case (TouchHeartbeat, r) => if r.Down? then w else w.(heartbeat := w.now)
    case (SetTool(tool), r) => if r.Down? then w else w.(tool := tool)
    case (Poll(limit), AtHead) =>
      var batch := IdleBatch(w.rows, w.acks, w.now, limit);
      if Wakes(batch) then w.(runner := Polled(batch)) else w
    case (ClaimBatch, Polled(batch)) => Mark(w, Ids(batch), Processing).(runner := Claimed(batch))
    case (CompleteCommands, Claimed(batch)) =>
      var normal := Ids(batch) - Commands(batch);
      Mark(w, Commands(batch), Done).(runner := if normal == {} then AtHead else PreTask(normal))
    case (CompleteSkipped(skipped), PreTask(normal)) =>
      var prompted := normal - skipped;
      Mark(w, normal * skipped, Done).(runner := if prompted == {} then AtHead else Querying(prompted, NoFollowUps))
    case (QueryResult, Querying(prompted, _)) => Mark(w, prompted, Done)
    case (PollFollowUp(limit), Querying(prompted, NoFollowUps)) =>
      w.(runner := Querying(prompted, Read(FollowUpBatch(w.rows, w.acks, w.now, limit))))
    case (ClaimFollowUp, Querying(prompted, Read(rows))) =>
      Mark(w, Ids(rows), Processing).(runner := Querying(prompted, Pushing(Ids(rows))))
    case (CompleteFollowUp, Querying(prompted, Pushing(ids))) =>
      Mark(w, ids, Done).(runner := Querying(prompted, NoFollowUps))
    case (EndQuery, Querying(prompted, NoFollowUps)) => Mark(w, prompted, Done).(runner := AtHead)
    case (AnswerQuestion(id), r) =>
      // the question tool acks a pending system response that no one has acked
      if r.Down? || id in w.acks then w
      else if !(exists i | 0 <= i < |w.rows| :: w.rows[i].Id() == id && IsAnswer(w.rows[i])) then w
      else Mark(w, {id}, Done)
    case _ => w
  }

  function Note(record: Record, before: Row, after: Row, now: Time): Record {
    if after == before then record
    else if after.status == Failed then record.(failedAt := Some(now))
    else record.(resets := record.resets + [now])
  }

  function NoteAll(records: seq<Record>, rows: seq<Row>, rows': seq<Row>, now: Time): (r: seq<Record>)
    requires |records| == |rows| == |rows'|
    ensures |r| == |records|
    ensures forall i | 0 <= i < |r| :: r[i] == Note(records[i], rows[i], rows'[i], now)
  {
    seq(|records|, i requires 0 <= i < |records| => Note(records[i], rows[i], rows'[i], now))
  }

  /** One message of the reset loop. */
  function ResetNext(w: World, id: MsgId, readAt: Time): World {
    var rows := ResetOne(w.rows, id, readAt, w.now);
    w.(rows := rows, records := if |w.records| == |rows| then NoteAll(w.records, w.rows, rows, w.now) else w.records)
  }

  /**
   The sweep's stages in source order; the fan-out of recurring tasks is a later HostInsert.
   A wake that returns has registered a container: the early return for an unknown agent group
   cannot follow the tick's own check for it. A wake that throws ends the tick.
   */
  function SweepStep(w: World, s: Step): World {
    match (s, w.sweep)
    case (SweepReadAcks, Idle) => w.(sweep := Syncing(Finished(w.acks)))
    case (SweepSync, Syncing(done)) => w.(rows := SyncRows(w.rows, done), sweep := Synced)
    case (SweepCountDue, Synced) =>
      w.(sweep := if CountDue(w.rows, w.now) > 0 && !w.registered then Waking else Checking)
    case (SweepWakeReturns, Waking) => if w.registered then w.(sweep := Checking) else w
    case (SweepWakeThrows, Waking) => w.(sweep := Idle)
    case (SweepSla(timed), Checking) =>
      if !w.registered then w.(sweep := MustReset)
      else if !ListsTimedClaims(w.acks, timed) then w
      else w.(sweep := if Decide(w.now, w.heartbeat, w.tool, timed).Keep? then Idle else MustReset)
    case (SweepReadClaims(claims), MustReset) =>
      if ListsClaims(w.acks, claims) then w.(sweep := Resetting(claims, w.now)) else w
    case (SweepResetNext, Resetting(claims, readAt)) =>
      if claims == [] then w.(sweep := Idle)
      else ResetNext(w, claims[0], readAt).(sweep := Resetting(claims[1..], readAt))
    case _ => w
  }

  function Apply(w: World, s: Step): World {
    if s.Tick? || s.HostInsert? || s.Spawn? || s.Crash? || s.ReportExit? || s.HostRestart? then EnvironmentStep(w, s)
    else if s.SweepReadAcks? || s.SweepSync? || s.SweepCountDue? || s.SweepWakeReturns? || s.SweepWakeThrows?
            || s.SweepSla? || s.SweepReadClaims? || s.SweepResetNext? then SweepStep(w, s)
    else ContainerStep(w, s)
  }

  function Run(w: World, steps: seq<Step>): World {
    if steps == [] then w else Apply(Run(w, steps[..|steps| - 1]), steps[|steps| - 1])
  }

  // ------------------------------------------------------------------- invariants

  /** Every consecutive pair of resets is at least the earlier one's back-off apart. */
  predicate Spaced(h: seq<Time>) {
    forall k | 0 < k < |h| :: Sec(h[k]) >= Sec(h[k - 1]) + BackoffSec(k - 1)
  }

  /** The time the message was scheduled for, if any, is not after `now`. */
  predicate HasCome(m: Message, now: Time) {
    m.processAfter.None? || Sec(m.processAfter.value) <= Sec(now)
  }

  predicate HistoryOk(r: Row, record: Record, now: Time) {
    var h, f := record.resets, record.failedAt;
    && |h| == r.tries <= MAX_TRIES
    && Spaced(h)
    && (h != [] ==>
          && h[|h| - 1] <= now
          && r.processAfter == Some(Seconds(Sec(h[|h| - 1]) + BackoffSec(|h| - 1))))
    && (h == [] ==> r.processAfter == r.msg.processAfter)
    && (h != [] ==> HasCome(r.msg, h[0]))
    && (r.status == Failed ==> f.Some?)
    && (r.status == Pending ==> f.None?)
    && (f.Some? ==> r.tries == MAX_TRIES && Sec(f.value) >= Sec(h[MAX_TRIES - 1]) + BackoffSec(MAX_TRIES - 1))
  }

  predicate RowOk(w: World, i: nat)
    requires i < |w.rows| == |w.records|
  {
    && HistoryOk(w.rows[i], w.records[i], w.now)
    && (w.rows[i].status == Completed ==> w.rows[i].Id() in Finished(w.acks))
  }

  predicate TableOk(w: World) {
    && UniqueIds(w.rows)
    && |w.records| == |w.rows|
    && forall i | 0 <= i < |w.rows| :: RowOk(w, i)
  }

  /** The rows of a batch that is read but not yet claimed. */
  predicate Waiting(w: World, batch: seq<Row>) {
    forall r | r in batch ::
      && r.Id() !in w.acks
      && r.msg.kind != System
      && exists i | 0 <= i < |w.rows| :: w.rows[i].msg == r.msg
  }

  predicate RunnerOk(w: World) {
    var claims := Claims(w.acks);
    match w.runner
    case Down => true
    case Booting => true
    case AtHead => claims == {}
    case Polled(batch) => claims == {} && Waiting(w, batch) && Wakes(batch)
    case Claimed(batch) => claims <= Ids(batch) <= w.acks.Keys && Wakes(batch)
    case PreTask(normal) => claims <= normal <= w.acks.Keys
    case Querying(prompted, NoFollowUps) => claims <= prompted <= w.acks.Keys
    case Querying(prompted, Read(rows)) => claims <= prompted <= w.acks.Keys && Waiting(w, rows)
    case Querying(prompted, Pushing(ids)) => claims <= prompted + ids && prompted <= w.acks.Keys
  }

  predicate ProcessOk(w: World) {
    && (!w.runner.Down? ==> w.registered)
    && w.spawnedAt <= w.now
    && (w.registered ==> w.heartbeat == 0 || w.spawnedAt <= w.heartbeat <= w.now)
  }

  predicate SweepOk(w: World) {
    match w.sweep
    case Syncing(done) => done <= Finished(w.acks)
    case Resetting(_, readAt) => readAt <= w.now
    case _ => true
  }

  predicate Inv(w: World) {
    TableOk(w) && RunnerOk(w) && ProcessOk(w) && SweepOk(w)
  }

  // ------------------------------------------------------------ what each step keeps

  lemma MarkingAcks(acks: Acks, ids: set<MsgId>, status: AckStatus, now: Time)
    ensures MarkAll(acks, ids, status, now).Keys == acks.Keys + ids
    ensures status != Processing ==> Finished(MarkAll(acks, ids, status, now)) == Finished(acks) + ids
    ensures status != Processing ==> Claims(MarkAll(acks, ids, status, now)) == Claims(acks) - ids
    ensures status == Processing ==> Claims(MarkAll(acks, ids, status, now)) == Claims(acks) + ids
    ensures status == Processing && ids !! acks.Keys ==> Finished(MarkAll(acks, ids, status, now)) == Finished(acks)
  {
  }

  /** A step that leaves the host's rows alone keeps the table, as long as no finished ack is lost. */
  lemma TableFrame(w: World, w': World)
    requires TableOk(w)
    requires w'.rows == w.rows && w'.records == w.records
    requires w.now <= w'.now && Finished(w.acks) <= Finished(w'.acks)
    ensures TableOk(w')
  {
    forall i | 0 <= i < |w'.rows|
      ensures RowOk(w', i)
    {
      assert RowOk(w, i);
    }
  }

  lemma ContainerStepKeepsFinished(w: World, s: Step)
    requires Inv(w)
    ensures Finished(w.acks) <= Finished(ContainerStep(w, s).acks)
  {
    hide MarkAll, IdleBatch, FollowUpBatch, TableOk, SweepOk;
    match (s, w.runner)
    case (Boot, Booting) =>
    case (ClaimBatch, Polled(batch)) => MarkingAcks(w.acks, Ids(batch), Processing, w.now);
    case (CompleteCommands, Claimed(batch)) => MarkingAcks(w.acks, Commands(batch), Done, w.now);
    case (CompleteSkipped(skipped), PreTask(normal)) => MarkingAcks(w.acks, normal * skipped, Done, w.now);
    case (QueryResult, Querying(prompted, _)) => MarkingAcks(w.acks, prompted, Done, w.now);
    case (ClaimFollowUp, Querying(_, Read(rows))) => MarkingAcks(w.acks, Ids(rows), Processing, w.now);
    case (CompleteFollowUp, Querying(_, Pushing(ids))) => MarkingAcks(w.acks, ids, Done, w.now);
    case (EndQuery, Querying(prompted, NoFollowUps)) => MarkingAcks(w.acks, prompted, Done, w.now);
    case (AnswerQuestion(id), _) => MarkingAcks(w.acks, {id}, Done, w.now);
    case _ =>
  }

  /** The question tool acks a system row, and no batch holds one. */
  lemma AnswerKeepsRunner(w: World, id: MsgId)
    requires Inv(w)
    ensures RunnerOk(ContainerStep(w, AnswerQuestion(id)))
  {
    hide MarkAll, IdleBatch, FollowUpBatch, RowOk;
    MarkingAcks(w.acks, {id}, Done, w.now);
    var w' := ContainerStep(w, AnswerQuestion(id));
    forall batch: seq<Row> | Waiting(w, batch)
      ensures Waiting(w', batch)
    {
    }
  }

  lemma QueryStepKeepsRunner(w: World, s: Step)
    requires Inv(w) && w.runner.Querying? && !s.AnswerQuestion?
    ensures RunnerOk(ContainerStep(w, s))
  {
    hide MarkAll, FollowUpBatch, TableOk, SweepOk, Claims;
    match (s, w.runner)
    case (QueryResult, Querying(prompted, _)) => MarkingAcks(w.acks, prompted, Done, w.now);
    case (ClaimFollowUp, Querying(_, Read(rows))) => MarkingAcks(w.acks, Ids(rows), Processing, w.now);
    case (CompleteFollowUp, Querying(_, Pushing(ids))) => MarkingAcks(w.acks, ids, Done, w.now);
    case (EndQuery, Querying(prompted, NoFollowUps)) => MarkingAcks(w.acks, prompted, Done, w.now);
    case (PollFollowUp(limit), Querying(_, NoFollowUps)) => FollowUpBatchWaits(w, limit);
    case _ =>
  }

  lemma BatchStepKeepsRunner(w: World, s: Step)
    requires Inv(w) && !w.runner.Querying? && !s.AnswerQuestion?
    ensures RunnerOk(ContainerStep(w, s))
  {
    hide MarkAll, IdleBatch, TableOk, SweepOk;
    match (s, w.runner)
    case (Poll(limit), AtHead) => IdleBatchWaits(w, limit);
    case (ClaimBatch, Polled(batch)) => MarkingAcks(w.acks, Ids(batch), Processing, w.now);
    case (CompleteCommands, Claimed(batch)) => MarkingAcks(w.acks, Commands(batch), Done, w.now);
    case (CompleteSkipped(skipped), PreTask(normal)) => MarkingAcks(w.acks, normal * skipped, Done, w.now);
    case _ =>
  }

  lemma ContainerStepKeepsRunner(w: World, s: Step)
    requires Inv(w)
    ensures RunnerOk(ContainerStep(w, s))
  {
    hide Inv, RunnerOk, ContainerStep;
    if s.AnswerQuestion? {
      AnswerKeepsRunner(w, s.id);
    } else if w.runner.Querying? {
      QueryStepKeepsRunner(w, s);
    } else {
      BatchStepKeepsRunner(w, s);
    }
  }

  lemma IdleBatchWaits(w: World, limit: nat)
    ensures Waiting(w, IdleBatch(w.rows, w.acks, w.now, limit))
  {
    hide IdleBatch;
    assert forall r | r in w.rows :: exists i | 0 <= i < |w.rows| :: w.rows[i] == r;
  }

  lemma FollowUpBatchWaits(w: World, limit: nat)
    ensures Waiting(w, FollowUpBatch(w.rows, w.acks, w.now, limit))
  {
    hide FollowUpBatch;
    assert forall r | r in w.rows :: exists i | 0 <= i < |w.rows| :: w.rows[i] == r;
  }

  lemma ContainerStepKeepsInv(w: World, s: Step)
    requires Inv(w)
    ensures Inv(ContainerStep(w, s))
  {
    ContainerStepKeepsFinished(w, s);
    ContainerStepKeepsRunner(w, s);
    TableFrame(w, ContainerStep(w, s));
  }

  lemma InsertKeepsTable(w: World, m: Message)
    requires TableOk(w)
    ensures TableOk(EnvironmentStep(w, HostInsert(m)))
  {
    var w' := EnvironmentStep(w, HostInsert(m));
    if !HasId(w.rows, m.id) {
      forall i | 0 <= i < |w'.rows|
        ensures RowOk(w', i)
      {
        assert i < |w.rows| ==> RowOk(w, i);
      }
    }
  }

  /** Growing or updating the table keeps a batch waiting: a row's message never changes. */
  lemma WaitingFrame(w: World, w': World)
    requires RunnerOk(w)
    requires w'.acks == w.acks && w'.runner == w.runner && |w.rows| <= |w'.rows|
    requires forall i | 0 <= i < |w.rows| :: w'.rows[i].msg == w.rows[i].msg
    ensures RunnerOk(w')
  {
    forall batch: seq<Row> | Waiting(w, batch)
      ensures Waiting(w', batch)
    {
      forall r | r in batch
        ensures exists i | 0 <= i < |w'.rows| :: w'.rows[i].msg == r.msg
      {
        var i :| 0 <= i < |w.rows| && w.rows[i].msg == r.msg;
        assert w'.rows[i].msg == r.msg;
      }
    }
  }

  lemma EnvironmentStepKeepsInv(w: World, s: Step)
    requires Inv(w)
    ensures Inv(EnvironmentStep(w, s))
  {
    if s.HostInsert? {
      InsertKeepsTable(w, s.m);
      WaitingFrame(w, EnvironmentStep(w, s));
    } else {
      var w' := EnvironmentStep(w, s);
      TableFrame(w, w');
      if w'.runner == w.runner {
        WaitingFrame(w, w');
      }
    }
  }

  lemma SyncKeepsTable(w: World, done: set<MsgId>)
    requires TableOk(w) && done <= Finished(w.acks)
    ensures TableOk(w.(rows := SyncRows(w.rows, done)))
  {
    var w' := w.(rows := SyncRows(w.rows, done));
    forall i | 0 <= i < |w'.rows|
      ensures RowOk(w', i) && w'.rows[i].Id() == w.rows[i].Id()
    {
      assert RowOk(w, i);
    }
  }

  lemma SecIsMonotone(a: Time, b: Time)
    requires a <= b
    ensures Sec(a) <= Sec(b)
  {
  }

  /** A reset happens only once the row has sat out its last back-off, so the record stays spaced. */
  lemma ResetKeepsHistory(r: Row, record: Record, now: Time, readAt: Time)
    requires HistoryOk(r, record, now) && readAt <= now
    ensures var r' := ResetRow(r, readAt, now); HistoryOk(r', Note(record, r, r', now), now)
  {
    var h, n := record.resets, |record.resets|;
    if ResetRow(r, readAt, now) != r && n > 0 {
      var due := Sec(h[n - 1]) + BackoffSec(n - 1);
      SecIsMonotone(Seconds(due), now);
      assert Sec(now) >= due;
    }
  }

  lemma ResetKeepsTable(w: World, id: MsgId, readAt: Time)
    requires TableOk(w) && readAt <= w.now
    ensures TableOk(ResetNext(w, id, readAt))
  {
    var w' := ResetNext(w, id, readAt);
    forall i | 0 <= i < |w'.rows|
      ensures RowOk(w', i) && w'.rows[i].Id() == w.rows[i].Id()
    {
      assert RowOk(w, i);
      ResetKeepsHistory(w.rows[i], w.records[i], w.now, readAt);
    }
  }

  lemma SweepSyncKeepsInv(w: World)
    requires Inv(w) && w.sweep.Syncing?
    ensures Inv(SweepStep(w, SweepSync))
  {
    var w' := SweepStep(w, SweepSync);
    SyncKeepsTable(w, w.sweep.done);
    TableFrame(w.(rows := SyncRows(w.rows, w.sweep.done)), w');
    WaitingFrame(w, w');
  }

  lemma SweepResetKeepsInv(w: World)
    requires Inv(w) && w.sweep.Resetting?
    ensures Inv(SweepStep(w, SweepResetNext))
  {
    var w' := SweepStep(w, SweepResetNext);
    if w.sweep.claims == [] {
      TableFrame(w, w');
    } else {
      var mid := ResetNext(w, w.sweep.claims[0], w.sweep.readAt);
      ResetKeepsTable(w, w.sweep.claims[0], w.sweep.readAt);
      TableFrame(mid, w');
    }
    WaitingFrame(w, w');
  }

  lemma SweepStepKeepsInv(w: World, s: Step)
    requires Inv(w)
    ensures Inv(SweepStep(w, s))
  {
    if s.SweepSync? && w.sweep.Syncing? {
      SweepSyncKeepsInv(w);
    } else if s.SweepResetNext? && w.sweep.Resetting? {
      SweepResetKeepsInv(w);
    } else {
      var w' := SweepStep(w, s);
      assert w' == w.(sweep := w'.sweep) && SweepOk(w');
      TableFrame(w, w');
    }
  }

  lemma StepKeepsInv(w: World, s: Step)
    requires Inv(w)
    ensures Inv(Apply(w, s))
  {
    EnvironmentStepKeepsInv(w, s);
    ContainerStepKeepsInv(w, s);
    SweepStepKeepsInv(w, s);
  }

  /** Every state of every run satisfies the invariant. */
  lemma {:induction false} InvHolds(steps: seq<Step>)
    ensures Inv(Run(INIT, steps))
  {
    if steps != [] {
      InvHolds(steps[..|steps| - 1]);
      StepKeepsInv(Run(INIT, steps[..|steps| - 1]), steps[|steps| - 1]);
    }
  }

  // ------------------------------------------------------------------ main results

  function Rank(s: Status): nat {
    match s
    case Pending => 0
    case Failed => 1
    case Completed => 2
  }

  /**
   No row vanishes or changes its message, status only rises, tries and records only grow, no
   finished ack is lost.
   */
  predicate Evolves(w: World, w': World) {
    && w.now <= w'.now
    && Finished(w.acks) <= Finished(w'.acks)
    && |w.rows| == |w.records| <= |w'.records| == |w'.rows|
    && forall i | 0 <= i < |w.rows| :: RowEvolves(w.rows[i], w.records[i], w'.rows[i], w'.records[i])
  }

  predicate RowEvolves(r: Row, record: Record, r': Row, record': Record) {
    && r'.msg == r.msg && r'.seqNo == r.seqNo
    && Rank(r.status) <= Rank(r'.status)
    && r.tries <= r'.tries
    && record.resets <= record'.resets
    && (record.failedAt.Some? ==> record'.failedAt == record.failedAt)
  }

  lemma ResetRowEvolves(r: Row, record: Record, now: Time, readAt: Time)
    requires HistoryOk(r, record, now)
    ensures var r' := ResetRow(r, readAt, now); RowEvolves(r, record, r', Note(record, r, r', now))
  {
  }

  lemma SweepStepEvolves(w: World, s: Step)
    requires Inv(w)
    ensures Evolves(w, SweepStep(w, s))
  {
    if s.SweepResetNext? && w.sweep.Resetting? {
      if w.sweep.claims != [] {
        var mid := ResetNext(w, w.sweep.claims[0], w.sweep.readAt);
        forall i | 0 <= i < |w.rows|
          ensures RowEvolves(w.rows[i], w.records[i], mid.rows[i], mid.records[i])
        {
          assert RowOk(w, i);
          ResetRowEvolves(w.rows[i], w.records[i], w.now, w.sweep.readAt);
        }
      }
    } else if s.SweepSync? && w.sweep.Syncing? {
      assert SweepStep(w, s) == w.(rows := SyncRows(w.rows, w.sweep.done), sweep := Synced);
    } else {
      var w' := SweepStep(w, s);
      assert w' == w.(sweep := w'.sweep);
    }
  }

  lemma StepEvolves(w: World, s: Step)
    requires Inv(w)
    ensures Evolves(w, Apply(w, s))
  {
    SweepStepEvolves(w, s);
    ContainerStepKeepsFinished(w, s);
    var c := ContainerStep(w, s);
    assert c.rows == w.rows && c.records == w.records && c.now == w.now;
  }

  /** Along every run, from any point reached to any later one, the session's rows only evolve. */
  lemma {:induction false} RunsEvolve(before: seq<Step>, after: seq<Step>)
    ensures Inv(Run(Run(INIT, before), after))
    ensures Evolves(Run(INIT, before), Run(Run(INIT, before), after))
  {
    var w := Run(INIT, before);
    InvHolds(before);
    if after != [] {
      var n := |after| - 1;
      RunsEvolve(before, after[..n]);
      var mid := Run(w, after[..n]);
      StepKeepsInv(mid, after[n]);
      StepEvolves(mid, after[n]);
      EvolvesIsTransitive(w, mid, Apply(mid, after[n]));
    }
  }

  lemma EvolvesIsTransitive(a: World, b: World, c: World)
    requires Evolves(a, b) && Evolves(b, c)
    ensures Evolves(a, c)
  {
    forall i | 0 <= i < |a.rows|
      ensures RowEvolves(a.rows[i], a.records[i], c.rows[i], c.records[i])
    {
      assert RowEvolves(a.rows[i], a.records[i], b.rows[i], b.records[i]);
      assert RowEvolves(b.rows[i], b.records[i], c.rows[i], c.records[i]);
    }
  }

  predicate Earned(r: Row, acks: Acks) {
    && r.tries <= MAX_TRIES
    && (r.status == Failed ==> r.tries == MAX_TRIES)
    && (r.status == Completed ==> r.Id() in acks && acks[r.Id()].status != Processing)
  }

  lemma RowIsEarned(w: World, i: nat)
    requires i < |w.rows| == |w.records| && RowOk(w, i)
    ensures Earned(w.rows[i], w.acks)
  {
    hide Spaced;
    var r := w.rows[i];
    assert HistoryOk(r, w.records[i], w.now);
  }

  /** Retry cap and honesty of the final statuses, in every reachable state. */
  lemma StatusesAreEarned(steps: seq<Step>)
    ensures var w := Run(INIT, steps);
            UniqueIds(w.rows) && forall i | 0 <= i < |w.rows| :: Earned(w.rows[i], w.acks)
  {
    hide Earned, RowOk, Run;
    InvHolds(steps);
    var w := Run(INIT, steps);
    forall i | 0 <= i < |w.rows|
      ensures Earned(w.rows[i], w.acks)
    {
      RowIsEarned(w, i);
    }
  }

  lemma {:induction false} SpacedSum(h: seq<Time>, k: nat)
    requires Spaced(h) && k < |h|
    ensures Sec(h[k]) >= Sec(h[0]) + 5 * (Pow2(k) - 1)
  {
    if k > 0 {
      SpacedSum(h, k - 1);
      BackoffIsWhole(k - 1);
    }
  }

  predicate BackedOff(r: Row, record: Record) {
    var h := record.resets;
    && |h| == r.tries <= 5
    && (forall k | 0 <= k < |h| :: Sec(h[k]) >= Sec(h[0]) + 5 * (Pow2(k) - 1))
    && (h != [] ==> r.processAfter.Some? && Sec(r.processAfter.value) >= Sec(h[0]) + 5 * (Pow2(|h|) - 1))
    && (record.failedAt.Some? ==> |h| == 5 && Sec(record.failedAt.value) >= Sec(h[0]) + 155)
    && (r.status == Failed ==> record.failedAt.Some?)
  }

  lemma HistoryIsBackedOff(r: Row, record: Record, now: Time)
    requires HistoryOk(r, record, now)
    ensures BackedOff(r, record)
  {
    var h := record.resets;
    forall k | 0 <= k < |h|
      ensures Sec(h[k]) >= Sec(h[0]) + 5 * (Pow2(k) - 1)
    {
      SpacedSum(h, k);
    }
    if h != [] {
      BackoffIsWhole(|h| - 1);
    }
    if |h| == 5 {
      assert Pow2(5) == 32 && Pow2(4) == 16;
    }
  }

  /**
   The exponential back-off bound: a message is reset at most five times; after
   its k-th reset it is scheduled no earlier than 5·(2^k − 1) s after the first,
   and it is failed no earlier than 155 s after the first.
   */
  lemma BackoffBound(steps: seq<Step>)
    ensures var w := Run(INIT, steps);
            |w.records| == |w.rows| && forall i | 0 <= i < |w.rows| :: BackedOff(w.rows[i], w.records[i])
  {
    hide HistoryOk, BackedOff, Run;
    InvHolds(steps);
    var w := Run(INIT, steps);
    forall i | 0 <= i < |w.rows|
      ensures BackedOff(w.rows[i], w.records[i])
    {
      assert RowOk(w, i);
      HistoryIsBackedOff(w.rows[i], w.records[i], w.now);
    }
  }

  /** In every run a message that was never reset is due from the time it was written for, and not before. */
  lemma FirstDueAsScheduled(steps: seq<Step>, i: nat, now: Time)
    requires var w := Run(INIT, steps); i < |w.rows| && w.rows[i].tries == 0
    ensures var r := Run(INIT, steps).rows[i];
            && r.processAfter == r.msg.processAfter
            && (r.status == Pending ==> (Due(r, now) <==> HasCome(r.msg, now)))
  {
    hide Run, Spaced;
    InvHolds(steps);
    assert RowOk(Run(INIT, steps), i);
  }

  lemma NotDueEarly(steps: seq<Step>, r: Row, now: Time)
    requires r in Run(INIT, steps).rows && Due(r, now)
    ensures HasCome(r.msg, now)
  {
    hide Run;
    InvHolds(steps);
    var w := Run(INIT, steps);
    var i :| 0 <= i < |w.rows| && w.rows[i] == r;
    assert RowOk(w, i);
    var h := w.records[i].resets;
    if h != [] {
      SpacedGrows(h, 0, |h| - 1);
      hide Spaced;
      assert Sec(now) >= Sec(h[|h| - 1]) + BackoffSec(|h| - 1);
      assert Sec(h[0]) <= Sec(now);
    }
  }

  /**
   However often it has been retried, in every run: a message scheduled for later is in no batch and
   wakes no container before the second it is scheduled for.
   */
  lemma NothingRunsEarly(steps: seq<Step>, acks: Acks, now: Time, limit: nat)
    ensures var rows := Run(INIT, steps).rows;
            && (forall r | r in IdleBatch(rows, acks, now, limit) :: HasCome(r.msg, now))
            && (forall r | r in FollowUpBatch(rows, acks, now, limit) :: HasCome(r.msg, now))
            && (CountDue(rows, now) > 0 ==> exists r | r in rows :: r.msg.trigger && HasCome(r.msg, now))
  {
    hide Run, Due, IdleBatch, FollowUpBatch, HasCome;
    var rows := Run(INIT, steps).rows;
    IdleBatchIsDue(rows, acks, now, limit);
    forall r | r in rows && Due(r, now)
      ensures HasCome(r.msg, now)
    {
      NotDueEarly(steps, r, now);
    }
    if CountDue(rows, now) > 0 {
      var i :| 0 <= i < |rows| && rows[i].msg.trigger && Due(rows[i], now);
      assert rows[i] in rows;
    }
  }

  lemma IdleBatchIsDue(rows: seq<Row>, acks: Acks, now: Time, limit: nat)
    ensures forall r | r in IdleBatch(rows, acks, now, limit) :: r in rows && Due(r, now)
    ensures forall r | r in FollowUpBatch(rows, acks, now, limit) :: r in rows && Due(r, now)
  {
    hide Due;
  }

  /** A failed message is never due again, nor retried: at no later point of any run, at no time. */
  lemma FailedIsNeverDue(before: seq<Step>, after: seq<Step>, i: nat, t: Time)
    requires var w := Run(INIT, before); i < |w.rows| && w.rows[i].status == Failed
    ensures var w, w' := Run(INIT, before), Run(Run(INIT, before), after);
            && i < |w'.rows| && w'.rows[i].msg == w.rows[i].msg
            && w'.rows[i].tries == MAX_TRIES && !Due(w'.rows[i], t)
  {
    hide Run, Spaced;
    InvHolds(before);
    RunsEvolve(before, after);
    var w, w' := Run(INIT, before), Run(Run(INIT, before), after);
    assert RowOk(w, i) && RowOk(w', i);
    assert RowEvolves(w.rows[i], w.records[i], w'.rows[i], w'.records[i]);
  }

  lemma {:induction false} SpacedGrows(h: seq<Time>, k: nat, n: nat)
    requires Spaced(h) && k <= n < |h|
    ensures Sec(h[k]) + BackoffSec(k) <= Sec(h[n]) + BackoffSec(n)
    decreases n
  {
    if k < n {
      SpacedGrows(h, k, n - 1);
    }
  }

  /**
   Once a message has been reset for the n-th time it stays out of every batch until the n-th back-off
   is over, at every later point of any run; and while it is not reset again it is due from then on.
   */
  lemma RetryIsDueAfterBackoff(before: seq<Step>, after: seq<Step>, i: nat, t: Time)
    requires var w := Run(INIT, before); i < |w.records| && w.records[i].resets != []
    ensures var h := Run(INIT, before).records[i].resets;
            var w' := Run(Run(INIT, before), after);
            var end := Sec(h[|h| - 1]) + BackoffSec(|h| - 1);
            && i < |w'.rows| == |w'.records|
            && (Due(w'.rows[i], t) ==> Sec(t) >= end)
            && (w'.rows[i].status == Pending && w'.records[i].resets == h ==> (Due(w'.rows[i], t) <==> Sec(t) >= end))
  {
    hide Run, Spaced, BackoffSec;
    RunsEvolve(before, after);
    var w, w' := Run(INIT, before), Run(Run(INIT, before), after);
    assert RowOk(w', i);
    assert RowEvolves(w.rows[i], w.records[i], w'.rows[i], w'.records[i]);
    var h, h' := w.records[i].resets, w'.records[i].resets;
    assert h'[|h| - 1] == h[|h| - 1];
    SpacedGrows(h', |h| - 1, |h'| - 1);
  }

  /**
   At the loop head of a live runner nothing is claimed, in every run; a working
   runner's claims are its own batch's, and a batch is only taken up when it
   holds a row that may wake the agent.
   */
  lemma ClaimsBelongToTheRunner(steps: seq<Step>)
    ensures var w := Run(INIT, steps);
            match w.runner
            case Down => true
            case Booting => true
            case AtHead => Claims(w.acks) == {}
            case Polled(batch) => Claims(w.acks) == {} && exists r | r in batch :: r.msg.trigger
            case Claimed(batch) => Claims(w.acks) <= Ids(batch) && exists r | r in batch :: r.msg.trigger
            case PreTask(normal) => Claims(w.acks) <= normal
            case Querying(prompted, NoFollowUps) => Claims(w.acks) <= prompted
            case Querying(prompted, Read(_)) => Claims(w.acks) <= prompted
            case Querying(prompted, Pushing(ids)) => Claims(w.acks) <= prompted + ids
  {
    InvHolds(steps);
  }

  /**
   In every run, a sweep that checks a container within 59 s of its spawn never
   kills it by the ceiling. It kills it exactly when the container has not touched
   its heartbeat file yet and a claim is past the tolerance; every such claim was
   made before the spawn, so by an earlier container.
   */
  lemma FreshContainerDiesOnlyForOldClaims(steps: seq<Step>, timed: seq<HostSweep.Claim>)
    requires var w := Run(INIT, steps);
             && w.registered && w.now <= w.spawnedAt + CLAIM_STUCK - 1000
             && ListsTimedClaims(w.acks, timed)
    ensures var w := Run(INIT, steps);
            var d := Decide(w.now, w.heartbeat, w.tool, timed);
            && !d.KillCeiling?
            && (d.KillClaim? ==> d.id in Claims(w.acks) && w.acks[d.id].changed + 1000 < w.spawnedAt)
            && (d.KillClaim? <==>
                  && w.heartbeat == 0
                  && exists id :: id in Claims(w.acks)
                                  && w.now - w.acks[id].changed > AtLeast(CLAIM_STUCK, BashTimeout(w.tool)))
  {
    InvHolds(steps);
    var w := Run(INIT, steps);
    FreshContainerVerdict(w.spawnedAt, w.now, w.heartbeat, w.tool, timed);
    if id :| id in Claims(w.acks) && w.now - w.acks[id].changed > AtLeast(CLAIM_STUCK, BashTimeout(w.tool)) {
      var c :| c in timed && c.id == id;
      assert c.claimedAt == Some(w.acks[id].changed);
    }
  }

  lemma RunAppend(w: World, steps: seq<Step>, s: Step)
    ensures Run(w, steps + [s]) == Apply(Run(w, steps), s)
  {
    assert (steps + [s])[..|steps|] == steps;
  }

  /** A lemma-sized run: it takes one more step and reports where it stands. */
  lemma Then(steps: seq<Step>, w: World, s: Step) returns (steps': seq<Step>, w': World)
    requires Run(INIT, steps) == w
    ensures steps' == steps + [s] && w' == Apply(w, s) && Run(INIT, steps') == w'
  {
    steps', w' := steps + [s], Apply(w, s);
    RunAppend(INIT, steps, s);
  }

  const M := Message("m", Chat, true, None, "", false)
  const M_ROW := FreshRow(M, 2)

  lemma OneRowBatch()
    ensures IdleBatch([M_ROW], map[], 0, 10) == [M_ROW] && Wakes([M_ROW])
  {
    OneRowFilters();
    hide DueRows, Unacked, NonSystem;
    assert M_ROW in [M_ROW];
  }

  lemma OneRowFilters()
    ensures DueRows([M_ROW], 0) == [M_ROW] && Unacked([M_ROW], map[]) == [M_ROW] && NonSystem([M_ROW]) == [M_ROW]
  {
    OneIsDue(M_ROW, 0);
    OneIsUnacked(M_ROW);
    OneIsNoSystem(M_ROW);
  }

  lemma OneIsDue(r: Row, now: Time)
    requires Due(r, now)
    ensures DueRows([r], now) == [r]
  {
    hide Due;
    assert [r][..0] == [] && DueRows([], now) == [];
  }

  lemma OneIsUnacked(r: Row)
    ensures Unacked([r], map[]) == [r]
  {
    assert [r][..0] == [] && Unacked([], map[]) == [];
  }

  lemma OneIsNoSystem(r: Row)
    requires r.msg.kind != System
    ensures NonSystem([r]) == [r]
  {
    assert [r][1..] == [] && NonSystem([]) == [];
  }

  function OneRow(acks: Acks, runner: Runner): World {
    World(0, [M_ROW], acks, runner, !runner.Down?, 0, 0, None, Idle, [NO_RECORD])
  }

  lemma InsertStep()
    ensures Apply(INIT, HostInsert(M)) == OneRow(map[], Down)
  {
    assert Insert([], M) == [M_ROW];
  }

  lemma PollStep()
    ensures Apply(OneRow(map[], AtHead), Poll(10)) == OneRow(map[], Polled([M_ROW]))
  {
    OneRowBatch();
    hide IdleBatch, Wakes;
  }

  lemma ClaimStep()
    ensures Apply(OneRow(map[], Polled([M_ROW])), ClaimBatch)
        == OneRow(map["m" := Ack(Processing, 0)], Claimed([M_ROW]))
  {
    assert M_ROW in [M_ROW];
    assert Ids([M_ROW]) == {"m"};
    hide Ids;
  }

  lemma BootSteps()
    ensures Apply(OneRow(map[], Down), Spawn) == OneRow(map[], Booting)
    ensures Apply(OneRow(map[], Booting), Boot) == OneRow(map[], AtHead)
  {
    assert ClearStale(map[]) == map[];
  }

  lemma OneMessageClaimed() returns (steps: seq<Step>)
    ensures Run(INIT, steps) == OneRow(map["m" := Ack(Processing, 0)], Claimed([M_ROW]))
  {
    var w;
    steps, w := Then([], INIT, HostInsert(M));
    assert w == OneRow(map[], Down) by { InsertStep(); }
    steps, w := Then(steps, w, Spawn);
    assert w == OneRow(map[], Booting) by { BootSteps(); }
    steps, w := Then(steps, w, Boot);
    assert w == OneRow(map[], AtHead) by { BootSteps(); }
    steps, w := Then(steps, w, Poll(10));
    assert w == OneRow(map[], Polled([M_ROW])) by { PollStep(); }
    steps, w := Then(steps, w, ClaimBatch);
    ClaimStep();
  }

  /** A container claims its one message, dies, and 61 s pass. */
  lemma ClaimLeftBehind() returns (steps: seq<Step>)
    ensures Run(INIT, steps) ==
            World(61000, [M_ROW], map["m" := Ack(Processing, 0)], Down, false, 0, 0, None, Idle, [NO_RECORD])
  {
    steps := OneMessageClaimed();
    var w := Run(INIT, steps);
    steps, w := Then(steps, w, Crash);
    steps, w := Then(steps, w, ReportExit);
    steps, w := Then(steps, w, Tick(61000));
  }

  /** The host after its container died 61 s ago with a claim, its sweep at the given stage. */
  function Orphaned(sweep: Sweep): World {
    World(61000, [M_ROW], map["m" := Ack(Processing, 0)], Down, false, 0, 0, None, sweep, [NO_RECORD])
  }

  function Respawned(sweep: Sweep): World {
    World(61000, [M_ROW], map["m" := Ack(Processing, 0)], Booting, true, 61000, 0, None, sweep, [NO_RECORD])
  }

  lemma OrphanedSweepSteps()
    ensures Apply(Orphaned(Idle), SweepReadAcks) == Orphaned(Syncing({}))
    ensures Apply(Orphaned(Syncing({})), SweepSync) == Orphaned(Synced)
  {
    assert Finished(map["m" := Ack(Processing, 0)]) == {};
    assert SyncRows([M_ROW], {}) == [M_ROW];
    hide Finished, SyncRows, M_ROW;
  }

  lemma OrphanIsDue()
    ensures Apply(Orphaned(Synced), SweepCountDue) == Orphaned(Waking)
  {
    assert [M_ROW][0].msg.trigger && Due([M_ROW][0], 61000);
    assert CountDue([M_ROW], 61000) > 0;
  }

  lemma RespawnSteps()
    ensures Apply(Orphaned(Waking), Spawn) == Respawned(Waking)
    ensures Apply(Respawned(Waking), SweepWakeReturns) == Respawned(Checking)
  {
  }

  lemma OldClaimKills() returns (timed: seq<HostSweep.Claim>)
    ensures ListsTimedClaims(map["m" := Ack(Processing, 0)], timed)
    ensures Decide(61000, 0, None, timed).KillClaim?
  {
    timed := [HostSweep.Claim("m", Some(0))];
    assert timed[0] in timed && Claims(map["m" := Ack(Processing, 0)]) == {"m"};
    assert Stuck(timed[0], 61000, 0, None);
  }

  lemma WakingForTheClaim() returns (steps: seq<Step>)
    ensures Run(INIT, steps) == Orphaned(Waking)
  {
    steps := ClaimLeftBehind();
    assert Run(INIT, steps) == Orphaned(Idle);
    hide *;
    var w;
    OrphanedSweepSteps();
    OrphanIsDue();
    steps, w := Then(steps, Orphaned(Idle), SweepReadAcks);
    steps, w := Then(steps, w, SweepSync);
    steps, w := Then(steps, w, SweepCountDue);
  }

  /**
   The sweep that wakes a container can kill it in the same tick, before it has
   cleared the claim its predecessor left: the order of stages 2 and 3 gives the
   new container no chance.
   */
  lemma SameTickKill() returns (steps: seq<Step>, timed: seq<HostSweep.Claim>)
    ensures var w := Run(INIT, steps);
            && w.registered && w.spawnedAt == w.now && w.runner == Booting
            && w.sweep == Checking && ListsTimedClaims(w.acks, timed)
            && Decide(w.now, w.heartbeat, w.tool, timed).KillClaim?
            && Apply(w, SweepSla(timed)).sweep == MustReset
  {
    hide Decide, ListsTimedClaims, Run;
    var w;
    steps := WakingForTheClaim();
    RespawnSteps();
    steps, w := Then(steps, Orphaned(Waking), Spawn);
    steps, w := Then(steps, w, SweepWakeReturns);
    timed := OldClaimKills();
  }

  // ------------------------------------------------------------ killed before it boots

  lemma {:induction false} RunConcat(w: World, a: seq<Step>, b: seq<Step>)
    ensures Run(w, a + b) == Run(Run(w, a), b)
  {
    hide Apply;
    if b == [] {
      assert a + b == a;
    } else {
      var n := |b| - 1;
      RunConcat(w, a, b[..n]);
      assert (a + b)[..|a + b| - 1] == a + b[..n];
    }
  }

  /** A session with one message, claimed at time `c` by a container that is gone. */
  datatype Solo = Solo(now: Time, spawnedAt: Time, row: Row, c: Time, record: Record)
  {
    function At(sweep: Sweep): World {
      World(now, [row], map[row.Id() := Ack(Processing, c)], Down, false, spawnedAt, 0, None, sweep, [record])
    }

    /** With a container that has been started this instant. */
    function Started(sweep: Sweep): World {
      At(sweep).(runner := Booting, registered := true, spawnedAt := now)
    }

    function Claims(): seq<HostSweep.Claim> { [HostSweep.Claim(row.Id(), Some(c))] }

    predicate Overdue() {
      && row.msg.trigger && row.status == Pending && row.tries <= MAX_TRIES
      && (row.processAfter.None? || row.processAfter.value <= now)
      && now > c + CLAIM_STUCK
    }

    function AfterReset(): Solo {
      var row' := ResetRow(row, now, now);
      this.(row := row', record := Note(record, row, row', now))
    }

    /** The killed container is gone and the back-off is over. */
    function NextRound(): Solo {
      AfterReset().(spawnedAt := now, now := now + Seconds(BackoffSec(row.tries)))
    }
  }

  /** One tick that wakes a container and kills it before it boots, and the wait for the next such tick. */
  function Round(x: Solo): seq<Step> {
    [SweepReadAcks, SweepSync, SweepCountDue] + [Spawn, SweepWakeReturns, SweepSla(x.Claims())]
    + [SweepReadClaims([x.row.Id()]), SweepResetNext, SweepResetNext]
    + [Crash, ReportExit, Tick(Seconds(BackoffSec(x.row.tries)))]
  }

  lemma RunThree(w: World, a: Step, b: Step, c: Step)
    ensures Run(w, [a, b, c]) == Apply(Apply(Apply(w, a), b), c)
  {
    hide Apply;
    assert Run(w, []) == w;
    RunAppend(w, [], a);
    RunAppend(w, [a], b);
    RunAppend(w, [a, b], c);
    assert [] + [a] == [a] && [a] + [b] == [a, b] && [a, b] + [c] == [a, b, c];
  }

  lemma ReadAcksStep(w: World)
    requires w.sweep.Idle?
    ensures Apply(w, SweepReadAcks) == w.(sweep := Syncing(Finished(w.acks)))
  {
  }

  lemma SyncStep(w: World)
    requires w.sweep.Syncing?
    ensures Apply(w, SweepSync) == w.(rows := SyncRows(w.rows, w.sweep.done), sweep := Synced)
  {
  }

  lemma SoloWakes(x: Solo)
    requires x.Overdue()
    ensures Run(x.At(Idle), [SweepReadAcks, SweepSync, SweepCountDue]) == x.At(Waking)
  {
    hide Run, CountDue, SyncRows;
    RunThree(x.At(Idle), SweepReadAcks, SweepSync, SweepCountDue);
    ReadAcksStep(x.At(Idle));
    assert Finished(x.At(Idle).acks) == {};
    SyncStep(x.At(Syncing({})));
    assert SyncRows([x.row], {}) == [x.row];
    SoloIsDue(x);
  }

  lemma SoloIsDue(x: Solo)
    requires x.Overdue()
    ensures CountDue([x.row], x.now) > 0
  {
    SecIsMonotone(if x.row.processAfter.Some? then x.row.processAfter.value else 0, x.now);
    assert [x.row][0].msg.trigger && Due([x.row][0], x.now);
  }

  lemma SoloIsKilled(x: Solo)
    requires x.Overdue()
    ensures Run(x.At(Waking), [Spawn, SweepWakeReturns, SweepSla(x.Claims())]) == x.Started(MustReset)
  {
    RunThree(x.At(Waking), Spawn, SweepWakeReturns, SweepSla(x.Claims()));
    hide Run;
    assert Stuck(x.Claims()[0], x.now, 0, None);
    assert x.Claims()[0] in x.Claims();
    assert ListsTimedClaims(x.At(Waking).acks, x.Claims());
  }

  lemma SoloIsReset(x: Solo)
    ensures Run(x.Started(MustReset), [SweepReadClaims([x.row.Id()]), SweepResetNext, SweepResetNext])
         == x.AfterReset().Started(Idle)
  {
    var id := x.row.Id();
    RunThree(x.Started(MustReset), SweepReadClaims([id]), SweepResetNext, SweepResetNext);
    hide Run;
    assert ListsClaims(x.At(Idle).acks, [id]);
    assert ResetOne([x.row], id, x.now, x.now) == [x.AfterReset().row];
    assert NoteAll([x.record], [x.row], [x.AfterReset().row], x.now) == [x.AfterReset().record];
    assert [id][1..] == [];
  }

  lemma SoloIsGone(x: Solo, ms: nat)
    ensures Run(x.Started(Idle), [Crash, ReportExit, Tick(ms)])
         == x.(spawnedAt := x.now, now := x.now + ms).At(Idle)
  {
    RunThree(x.Started(Idle), Crash, ReportExit, Tick(ms));
  }

  lemma RoundRuns(x: Solo)
    requires x.Overdue()
    ensures Run(x.At(Idle), Round(x)) == x.NextRound().At(Idle)
  {
    hide Run, Solo.At, Solo.Started, Solo.Overdue;
    var wake: seq<Step> := [SweepReadAcks, SweepSync, SweepCountDue];
    var kill := [Spawn, SweepWakeReturns, SweepSla(x.Claims())];
    var reset := [SweepReadClaims([x.row.Id()]), SweepResetNext, SweepResetNext];
    var gone := [Crash, ReportExit, Tick(Seconds(BackoffSec(x.row.tries)))];
    SoloWakes(x);
    SoloIsKilled(x);
    SoloIsReset(x);
    SoloIsGone(x.AfterReset(), Seconds(BackoffSec(x.row.tries)));
    RunConcat(x.At(Idle), wake, kill);
    RunConcat(x.At(Idle), wake + kill, reset);
    RunConcat(x.At(Idle), wake + kill + reset, gone);
  }

  /** Round after round until the message is failed. */
  function Rounds(x: Solo): seq<Step>
    decreases MAX_TRIES - x.row.tries, if x.row.status == Pending then 1 else 0
  {
    if !x.Overdue() then [] else Round(x) + Rounds(x.NextRound())
  }

  function Spawns(steps: seq<Step>): nat {
    if steps == [] then 0 else Spawns(steps[..|steps| - 1]) + if steps[|steps| - 1].Spawn? then 1 else 0
  }

  lemma {:induction false} SpawnsConcat(a: seq<Step>, b: seq<Step>)
    ensures Spawns(a + b) == Spawns(a) + Spawns(b)
  {
    if b == [] {
      assert a + b == a;
    } else {
      var n := |b| - 1;
      SpawnsConcat(a, b[..n]);
      assert (a + b)[..|a + b| - 1] == a + b[..n];
    }
  }

  lemma OneSpawnPerRound(x: Solo)
    ensures Spawns(Round(x)) == 1
    ensures forall s | s in Round(x) :: !s.Boot? && !s.ClaimBatch?
  {
    var wake: seq<Step> := [SweepReadAcks, SweepSync, SweepCountDue];
    var kill := [Spawn, SweepWakeReturns, SweepSla(x.Claims())];
    var reset := [SweepReadClaims([x.row.Id()]), SweepResetNext, SweepResetNext];
    var gone := [Crash, ReportExit, Tick(Seconds(BackoffSec(x.row.tries)))];
    SpawnsConcat(wake, kill);
    SpawnsConcat(wake + kill, reset);
    SpawnsConcat(wake + kill + reset, gone);
    assert Spawns(wake) == 0 && Spawns(kill) == 1 && Spawns(reset) == 0 && Spawns(gone) == 0 by {
      SpawnsOfThree(SweepReadAcks, SweepSync, SweepCountDue);
      SpawnsOfThree(Spawn, SweepWakeReturns, SweepSla(x.Claims()));
      SpawnsOfThree(SweepReadClaims([x.row.Id()]), SweepResetNext, SweepResetNext);
      SpawnsOfThree(Crash, ReportExit, Tick(Seconds(BackoffSec(x.row.tries))));
    }
  }

  lemma SpawnsOfThree(a: Step, b: Step, c: Step)
    ensures Spawns([a, b, c])
         == (if a.Spawn? then 1 else 0) + (if b.Spawn? then 1 else 0) + if c.Spawn? then 1 else 0
  {
    assert [a, b, c] == [a] + [b] + [c];
    SpawnsConcat([a] + [b], [c]);
    SpawnsConcat([a], [b]);
    assert [a][..0] == [] && [b][..0] == [] && [c][..0] == [];
  }

  lemma RoundGoesOn(x: Solo)
    requires x.Overdue()
    ensures var y := x.NextRound();
            && x.row.tries <= MAX_TRIES && y.row.msg == x.row.msg
            && (x.row.tries < MAX_TRIES ==>
                  y.Overdue() && y.row.tries == x.row.tries + 1 && |y.record.resets| == |x.record.resets| + 1)
            && (x.row.tries == MAX_TRIES ==>
                  !y.Overdue() && y.row == Fail(x.row) && y.record == x.record.(failedAt := Some(x.now)))
  {
    BackoffIsWhole(x.row.tries);
  }

  /**
   However many tries are left, each can go to a container that the tick that wakes it kills before it
   boots: the message is failed without any container having looked at it again.
   */
  lemma {:induction false} KilledUntilFailed(x: Solo) returns (y: Solo)
    requires x.Overdue()
    ensures Run(x.At(Idle), Rounds(x)) == y.At(Idle)
    ensures y.row.msg == x.row.msg && y.row.status == Failed && y.row.tries == MAX_TRIES
    ensures |y.record.resets| == |x.record.resets| + MAX_TRIES - x.row.tries && y.record.failedAt.Some?
    ensures Spawns(Rounds(x)) == MAX_TRIES + 1 - x.row.tries
    ensures forall s | s in Rounds(x) :: !s.Boot? && !s.ClaimBatch?
    decreases MAX_TRIES - x.row.tries
  {
    hide Run, Round, Solo.At, Solo.NextRound, Solo.Overdue;
    var next := x.NextRound();
    RoundRuns(x);
    RoundGoesOn(x);
    OneSpawnPerRound(x);
    RunConcat(x.At(Idle), Round(x), Rounds(next));
    SpawnsConcat(Round(x), Rounds(next));
    if x.row.tries < MAX_TRIES {
      y := KilledUntilFailed(next);
    } else {
      y := next;
      assert Run(next.At(Idle), []) == next.At(Idle) by { RunOfNone(next.At(Idle)); }
    }
  }

  lemma RunOfNone(w: World)
    ensures Run(w, []) == w
  {
  }

  /**
   A run from the start in which every tick wakes a container and kills it before it boots, until the
   message is failed at its sixth reset: six containers are started for it and none sees it.
   */
  lemma KilledBeforeEveryBoot() returns (claiming: seq<Step>, x: Solo, y: Solo)
    ensures Run(INIT, claiming) == x.At(Idle) && x.row == M_ROW && x.record == NO_RECORD
    ensures Run(INIT, claiming + Rounds(x)) == y.At(Idle)
    ensures y.row.msg == M && y.row.status == Failed && |y.record.resets| == 5 && y.record.failedAt.Some?
    ensures Spawns(Rounds(x)) == 6
    ensures forall s | s in Rounds(x) :: !s.Boot? && !s.ClaimBatch?
  {
    claiming := ClaimLeftBehind();
    x := Solo(61000, 0, M_ROW, 0, NO_RECORD);
    y := KilledUntilFailed(x);
    RunConcat(INIT, claiming, Rounds(x));
  }

  // ------------------------------------------------------------- when the wake throws

  /** Message `i` is due work, no ack is about to complete it, and the session has no container. */
  predicate WantsWake(w: World, i: nat) {
    && i < |w.rows| && w.rows[i].msg.trigger && Due(w.rows[i], w.now)
    && !w.registered && w.runner.Down?
    && w.rows[i].Id() !in Finished(w.acks)
    && match w.sweep
       case Syncing(done) => w.rows[i].Id() !in done
       case s => s.Idle? || s.Synced? || s.Waking?
  }

  lemma WakelessStepKeeps(w: World, i: nat, s: Step)
    requires |w.records| == |w.rows| && WantsWake(w, i) && !s.Spawn?
    ensures var w' := Apply(w, s);
            && |w'.records| == |w'.rows| && w.records <= w'.records
            && WantsWake(w', i) && w'.rows[i] == w.rows[i] && w'.acks == w.acks
  {
    hide CountDue, Finished, MarkAll, Decide;
    if s.Tick? {
      SecIsMonotone(w.now, w.now + s.ms);
    }
    if s.SweepCountDue? && w.sweep.Synced? {
      assert CountDue(w.rows, w.now) > 0;
    }
  }

  /**
   As long as no wake succeeds, whatever else happens, a message that is due work stays exactly as it
   is and no message of its session is reset: the clean-up after a crash is never reached.
   */
  lemma {:induction false} FailingWakesNeverReset(before: seq<Step>, after: seq<Step>, i: nat)
    requires WantsWake(Run(INIT, before), i)
    requires forall s | s in after :: !s.Spawn?
    ensures var w, w' := Run(INIT, before), Run(Run(INIT, before), after);
            && |w'.records| == |w'.rows| && w.records <= w'.records
            && WantsWake(w', i) && w'.rows[i] == w.rows[i] && w'.acks == w.acks
  {
    hide WantsWake, Apply;
    InvHolds(before);
    if after != [] {
      var n := |after| - 1;
      FailingWakesNeverReset(before, after[..n], i);
      WakelessStepKeeps(Run(Run(INIT, before), after[..n]), i, after[n]);
    }
  }

  /**
   The claim of a dead container, 61 s old, with its message due: the tick's wake throws, and the tick
   ends with claim and message as they were.
   */
  lemma FailedWakeLeavesClaims() returns (steps: seq<Step>)
    ensures Run(INIT, steps) == Orphaned(Waking)
    ensures Run(INIT, steps + [SweepWakeThrows]) == Orphaned(Idle)
    ensures WantsWake(Orphaned(Idle), 0) && Claims(Orphaned(Idle).acks) == {M_ROW.Id()}
  {
    steps := WakingForTheClaim();
    RunAppend(INIT, steps, SweepWakeThrows);
    hide Run;
    assert Orphaned(Idle).rows[0] == M_ROW;
  }

  // ------------------------------------------------------- one undisturbed iteration

  lemma MarksCompose(acks: Acks, ids: set<MsgId>, commands: set<MsgId>, skipped: set<MsgId>, now: Time)
    requires commands <= ids
    ensures var claimed := MarkAll(acks, ids, Processing, now);
            var answered := MarkAll(claimed, commands, Done, now);
            var gated := MarkAll(answered, (ids - commands) * skipped, Done, now);
            MarkAll(gated, ids - commands - skipped, Done, now) == MarkAll(acks, ids, Done, now)
  {
    var claimed := MarkAll(acks, ids, Processing, now);
    var answered := MarkAll(claimed, commands, Done, now);
    var gated := MarkAll(answered, (ids - commands) * skipped, Done, now);
    var done := MarkAll(gated, ids - commands - skipped, Done, now);
    assert done.Keys == acks.Keys + ids;
  }

  lemma CommandsAreClaimed(batch: seq<Row>)
    ensures Commands(batch) <= Ids(batch)
  {
  }

  /**
   Left undisturbed, the runner's steps take it from the loop's head back to it:
   with exactly the batch completed if the batch wakes the agent, whatever part of
   it were commands or skipped by scripts, and with nothing changed if it does not.
   */
  lemma UndisturbedIteration(w: World, limit: nat, skipped: set<MsgId>)
    requires w.runner.AtHead?
    ensures var batch := IdleBatch(w.rows, w.acks, w.now, limit);
            Run(w, [Poll(limit)] + [ClaimBatch] + [CompleteCommands] + [CompleteSkipped(skipped)] + [EndQuery])
              == if Wakes(batch) then w.(acks := MarkAll(w.acks, Ids(batch), Done, w.now)) else w
  {
    hide IdleBatch, MarkAll, Wakes, Commands, Ids, Apply, Run;
    var batch := IdleBatch(w.rows, w.acks, w.now, limit);
    var ids, commands := Ids(batch), Commands(batch);
    RunFive(w, Poll(limit), ClaimBatch, CompleteCommands, CompleteSkipped(skipped), EndQuery);
    BatchIsClaimed(w, limit);
    if Wakes(batch) {
      CommandsAreClaimed(batch);
      MarksCompose(w.acks, ids, commands, skipped, w.now);
      var claimed := Mark(w, ids, Processing).(runner := Claimed(batch));
      CommandsStep(claimed, batch);
      var answered := Apply(claimed, CompleteCommands);
      SkippedStep(answered, skipped);
      var gated := Apply(answered, CompleteSkipped(skipped));
      EndStep(gated);
      NoMarks(answered.acks, w.now);
      NoMarks(gated.acks, w.now);
      if ids - commands == {} {
        assert (ids - commands) * skipped == {} && ids - commands - skipped == {};
      }
    } else {
      NothingClaimed(w);
      SkippedStep(w, skipped);
      EndStep(w);
    }
  }

  lemma BatchIsClaimed(w: World, limit: nat)
    requires w.runner.AtHead?
    ensures var batch := IdleBatch(w.rows, w.acks, w.now, limit);
            Apply(Apply(w, Poll(limit)), ClaimBatch)
              == if Wakes(batch) then Mark(w, Ids(batch), Processing).(runner := Claimed(batch)) else w
  {
    hide IdleBatch, MarkAll, Wakes, Ids;
    var batch := IdleBatch(w.rows, w.acks, w.now, limit);
    assert Apply(w, Poll(limit)) == if Wakes(batch) then w.(runner := Polled(batch)) else w;
  }

  lemma NothingClaimed(w: World)
    requires w.runner.AtHead?
    ensures Apply(w, CompleteCommands) == w
  {
  }

  lemma CommandsStep(w: World, batch: seq<Row>)
    requires w.runner == Claimed(batch)
    ensures var normal := Ids(batch) - Commands(batch);
            var next := if normal == {} then AtHead else PreTask(normal);
            Apply(w, CompleteCommands) == Mark(w, Commands(batch), Done).(runner := next)
  {
    hide MarkAll, Commands, Ids;
  }

  lemma SkippedStep(w: World, skipped: set<MsgId>)
    ensures w.runner.AtHead? ==> Apply(w, CompleteSkipped(skipped)) == w
    ensures w.runner.PreTask? ==>
              var prompted := w.runner.normal - skipped;
              var next := if prompted == {} then AtHead else Querying(prompted, NoFollowUps);
              Apply(w, CompleteSkipped(skipped)) == Mark(w, w.runner.normal * skipped, Done).(runner := next)
  {
    hide MarkAll;
  }

  lemma EndStep(w: World)
    ensures w.runner.AtHead? ==> Apply(w, EndQuery) == w
    ensures w.runner.Querying? && w.runner.follow.NoFollowUps? ==>
              Apply(w, EndQuery) == Mark(w, w.runner.prompted, Done).(runner := AtHead)
  {
    hide MarkAll;
  }

  lemma NoMarks(acks: Acks, now: Time)
    ensures MarkAll(acks, {}, Done, now) == acks
  {
  }

  lemma RunFive(w: World, a: Step, b: Step, c: Step, d: Step, e: Step)
    ensures Run(w, [a] + [b] + [c] + [d] + [e]) == Apply(Apply(Apply(Apply(Apply(w, a), b), c), d), e)
  {
    hide Apply;
    assert [a][..0] == [];
    assert Run(w, [a]) == Apply(w, a);
    RunAppend(w, [a], b);
    RunAppend(w, [a] + [b], c);
    RunAppend(w, [a] + [b] + [c], d);
    RunAppend(w, [a] + [b] + [c] + [d], e);
  }

  /** Left undisturbed, one follow-up poll during a query completes what it pushes, and the query goes on. */
  lemma UndisturbedFollowUp(w: World, limit: nat, prompted: set<MsgId>)
    requires w.runner == Querying(prompted, NoFollowUps)
    ensures var ids := Ids(FollowUpBatch(w.rows, w.acks, w.now, limit));
            Run(w, [PollFollowUp(limit), ClaimFollowUp, CompleteFollowUp])
              == w.(acks := MarkAll(w.acks, ids, Done, w.now))
  {
    hide FollowUpBatch, Run, MarkAll, Ids, Apply;
    RunThree(w, PollFollowUp(limit), ClaimFollowUp, CompleteFollowUp);
    FollowUpStepsAre(w, limit, prompted, FollowUpBatch(w.rows, w.acks, w.now, limit));
    MarkTwice(w.acks, Ids(FollowUpBatch(w.rows, w.acks, w.now, limit)), w.now);
  }

  /** A result of the query completes what it was asked, and the query goes on. */
  lemma ResultCompletesThePrompt(w: World, id: MsgId)
    requires w.runner.Querying?
    ensures var w' := Apply(w, QueryResult);
            && (id in w.runner.prompted ==> id in w'.acks && w'.acks[id].status == Done)
            && (id !in w.runner.prompted ==> (id in w'.acks <==> id in w.acks))
            && (id !in w.runner.prompted && id in w.acks ==> w'.acks[id] == w.acks[id])
            && w' == w.(acks := w'.acks)
  {
  }

  lemma FollowUpStepsAre(w: World, limit: nat, prompted: set<MsgId>, rows: seq<Row>)
    requires w.runner == Querying(prompted, NoFollowUps) && rows == FollowUpBatch(w.rows, w.acks, w.now, limit)
    ensures var read := w.(runner := Querying(prompted, Read(rows)));
            var claimed := Mark(w, Ids(rows), Processing).(runner := Querying(prompted, Pushing(Ids(rows))));
            && Apply(w, PollFollowUp(limit)) == read
            && Apply(read, ClaimFollowUp) == claimed
            && Apply(claimed, CompleteFollowUp) == w.(acks := MarkAll(claimed.acks, Ids(rows), Done, w.now))
  {
    hide FollowUpBatch, MarkAll, Ids;
    FollowUpIsReadAndClaimed(w, prompted, rows);
    assert Apply(w, PollFollowUp(limit)) == ContainerStep(w, PollFollowUp(limit));
  }

  lemma FollowUpIsReadAndClaimed(w: World, prompted: set<MsgId>, rows: seq<Row>)
    ensures var read := w.(runner := Querying(prompted, Read(rows)));
            Apply(read, ClaimFollowUp)
              == Mark(read, Ids(rows), Processing).(runner := Querying(prompted, Pushing(Ids(rows))))
    ensures var claimed := w.(runner := Querying(prompted, Pushing(Ids(rows))));
            Apply(claimed, CompleteFollowUp)
              == Mark(claimed, Ids(rows), Done).(runner := Querying(prompted, NoFollowUps))
  {
    hide MarkAll, Ids;
  }

  lemma MarkTwice(acks: Acks, ids: set<MsgId>, now: Time)
    ensures MarkAll(MarkAll(acks, ids, Processing, now), ids, Done, now) == MarkAll(acks, ids, Done, now)
  {
  }

  // -------------------------------------------------------- life signs and restarts

  /** A spawn finds a registered container and stops, or starts one that has given no sign of life yet. */
  lemma SpawnsExactlyWhenFree(w: World)
    ensures var w' := Apply(w, Spawn);
            && (w.registered ==> w' == w)
            && (!w.registered ==> w'.registered && w'.runner == Booting && w'.spawnedAt == w.now && w'.heartbeat == 0)
            && w'.rows == w.rows && w'.acks == w.acks && w'.sweep == w.sweep && w'.now == w.now
  {
  }

  /** A process that is down does nothing to the tables. */
  lemma DeadIsSilent(w: World, s: Step)
    requires w.runner.Down?
    ensures ContainerStep(w, s) == w
  {
  }

  /**
   A container that reports its tool and touches its heartbeat is not killed for the next 60 s, nor, in a
   Bash call with a declared timeout, for as long as it declared, whatever it has claimed.
   */
  lemma LifeSignProtects(w: World, tool: Option<ContainerState>, timed: seq<HostSweep.Claim>, ms: nat)
    requires !w.runner.Down?
    requires ms <= 60_000 || exists t :: tool == Some(ContainerState(Some("Bash"), Some(t))) && ms <= t
    ensures var w' := Apply(Apply(Apply(w, SetTool(tool)), TouchHeartbeat), Tick(ms));
            && w'.tool == tool && w'.heartbeat == w.now
            && Decide(w'.now, w'.heartbeat, w'.tool, timed) == Keep
  {
    KillsExactlyWhen(w.now + ms, w.now, tool, timed);
  }

  /**
   A restarted host forgets its containers and the tick it was in; the tables stay, and its next tick
   starts with the sync and tries a wake exactly when there is due work.
   */
  lemma RestartStartsOver(w: World)
    ensures var w', synced := Apply(w, HostRestart), SyncRows(w.rows, Finished(w.acks));
            && !w'.registered && w'.runner.Down? && w'.rows == w.rows && w'.acks == w.acks
            && Run(w', [SweepReadAcks, SweepSync, SweepCountDue])
                 == w'.(rows := synced, sweep := if CountDue(synced, w.now) > 0 then Waking else Checking)
  {
    hide SyncRows, CountDue, Finished, Run, Apply;
    var w', synced := w.(runner := Down, registered := false, sweep := Idle), SyncRows(w.rows, Finished(w.acks));
    RestartIs(w);
    RunThree(w', SweepReadAcks, SweepSync, SweepCountDue);
    ReadAcksStep(w');
    SyncStep(w'.(sweep := Syncing(Finished(w.acks))));
    CountIs(w'.(rows := synced, sweep := Synced));
  }

  /**
   The sync of a tick completes every message with a finished ack, a failed one too, whose answer came
   late, and leaves every other message and everything else of each as it was.
   */
  lemma SyncCompletesExactly(w: World, i: nat)
    requires w.sweep.Idle? && i < |w.rows|
    ensures var w' := Apply(Apply(w, SweepReadAcks), SweepSync);
            var r := w.rows[i];
            var finished := r.msg.id in w.acks && w.acks[r.msg.id].status != Processing;
            && |w'.rows| == |w.rows|
            && w'.rows[i] == (if finished then r.(status := Completed) else r)
            && w'.acks == w.acks && w'.records == w.records && w'.runner == w.runner
  {
    ReadAcksStep(w);
    SyncStep(w.(sweep := Syncing(Finished(w.acks))));
    hide Apply;
  }

  /** A tick judges and resets by the claims that the table holds at that moment, every one of them once. */
  lemma SweepReadsEveryClaim(w: World, timed: seq<HostSweep.Claim>, claims: seq<MsgId>, id: MsgId)
    ensures w.sweep.Checking? && w.registered && Apply(w, SweepSla(timed)) != w ==>
              ((id in w.acks && w.acks[id].status == Processing) <==> exists c :: c in timed && c.id == id)
    ensures w.sweep.MustReset? && Apply(w, SweepReadClaims(claims)) != w ==>
              && ((id in w.acks && w.acks[id].status == Processing) <==> id in claims)
              && (forall i, j | 0 <= i < j < |claims| :: claims[i] != claims[j])
  {
    hide Decide;
    assert id in Elems(claims) <==> id in claims;
    assert id in Claims(w.acks) <==> id in w.acks && w.acks[id].status == Processing;
  }

  lemma RestartIs(w: World)
    ensures Apply(w, HostRestart) == w.(runner := Down, registered := false, sweep := Idle)
  {
  }

  lemma CountIs(w: World)
    requires w.sweep.Synced? && !w.registered
    ensures Apply(w, SweepCountDue) == w.(sweep := if CountDue(w.rows, w.now) > 0 then Waking else Checking)
  {
    hide CountDue;
  }

  /** The question tool acks exactly a pending, unacked system message of the session, and nothing else happens. */
  lemma AnswerAcksItsQuestion(w: World, id: MsgId)
    ensures var w' := Apply(w, AnswerQuestion(id));
            var answers := && !w.runner.Down? && id !in w.acks
                           && exists r | r in w.rows :: r.Id() == id && r.msg.kind == System && r.status == Pending;
            && (answers ==> w'.acks.Keys == w.acks.Keys + {id} && w'.acks[id].status == Done)
            && (forall x | x in w.acks && x != id :: x in w'.acks && w'.acks[x] == w.acks[x])
            && (!answers ==> w' == w)
            && w' == w.(acks := w'.acks)
  {
    if r :| r in w.rows && r.Id() == id && r.msg.kind == System && r.status == Pending {
      var i :| 0 <= i < |w.rows| && w.rows[i] == r;
    }
    if i :| 0 <= i < |w.rows| && w.rows[i].Id() == id && IsAnswer(w.rows[i]) {
      assert w.rows[i] in w.rows;
    }
  }

  // ------------------------------------------------------- when the two gates disagree

  lemma AppendInOrder(rows: seq<Row>, m: Message)
    requires InOrder(rows)
    ensures InOrder(Insert(rows, m))
  {
  }

  lemma StepKeepsOrder(w: World, s: Step)
    requires InOrder(w.rows)
    ensures InOrder(Apply(w, s).rows)
  {
    hide NoteAll, ResetRow, Decide, ListsClaims, ListsTimedClaims;
    var w' := Apply(w, s);
    if s.HostInsert? {
      AppendInOrder(w.rows, s.m);
    } else {
      assert |w'.rows| == |w.rows| && forall i | 0 <= i < |w.rows| :: w'.rows[i].seqNo == w.rows[i].seqNo by {
        StepKeepsNumbers(w, s);
      }
    }
  }

  lemma StepKeepsNumbers(w: World, s: Step)
    requires !s.HostInsert?
    ensures |Apply(w, s).rows| == |w.rows|
    ensures forall i | 0 <= i < |w.rows| :: Apply(w, s).rows[i].seqNo == w.rows[i].seqNo
  {
    hide NoteAll, Decide, ListsClaims, ListsTimedClaims, MarkAll, IdleBatch, FollowUpBatch;
  }

  /** In every run the session's rows stand in the order of their numbers. */
  lemma {:induction false} RowsStayInOrder(steps: seq<Step>)
    ensures InOrder(Run(INIT, steps).rows)
  {
    hide InOrder, Apply;
    if steps == [] {
      NoRowsInOrder();
    } else {
      RowsStayInOrder(steps[..|steps| - 1]);
      StepKeepsOrder(Run(INIT, steps[..|steps| - 1]), steps[|steps| - 1]);
    }
  }

  lemma NoRowsInOrder()
    ensures InOrder([])
  {
  }

  /** No runner can take the row up: it is acked, a system message, or behind `limit` due rows. */
  predicate OutOfReach(r: Row, rows: seq<Row>, acks: Acks, now: Time, limit: nat) {
    r.Id() in acks || r.msg.kind == System || DueAfter(rows, r.seqNo, now) >= limit
  }

  /**
   The host has work and the idle runner does not, exactly when there are due trigger rows and all
   are out of reach.
   */
  lemma GatesDisagreeExactlyWhen(rows: seq<Row>, acks: Acks, now: Time, limit: nat)
    requires InOrder(rows)
    ensures CountDue(rows, now) > 0 && !Wakes(IdleBatch(rows, acks, now, limit))
       <==> && (exists r | r in rows :: r.msg.trigger && Due(r, now))
            && (forall r | r in rows && r.msg.trigger && Due(r, now) :: OutOfReach(r, rows, acks, now, limit))
  {
    hide IdleBatch, Due, DueAfter, InOrder;
    IdleBatchExactly(rows, acks, now, limit);
    if CountDue(rows, now) > 0 {
      var i :| 0 <= i < |rows| && rows[i].msg.trigger && Due(rows[i], now);
      assert rows[i] in rows;
    }
    if r :| r in rows && r.msg.trigger && Due(r, now) {
      var i :| 0 <= i < |rows| && rows[i] == r;
    }
  }

  /** One trigger message, then `n` context messages with ids "mm", "mmm", …. */
  function OldTrigger(n: nat): seq<Message> {
    if n == 0 then [M]
    else OldTrigger(n - 1) + [Message(seq(n + 1, _ => 'm'), Chat, false, None, "", false)]
  }

  lemma {:induction false} OldTriggerShape(n: nat)
    ensures |OldTrigger(n)| == n + 1 && OldTrigger(n)[0] == M
    ensures forall m | m in OldTrigger(n) :: m.kind == Chat && m.processAfter == None
    ensures forall i | 1 <= i < |OldTrigger(n)| :: |OldTrigger(n)[i].id| == i + 1 && !OldTrigger(n)[i].trigger
  {
    if n > 0 {
      OldTriggerShape(n - 1);
    }
  }

  function Inserts(history: seq<Message>): seq<Step> {
    if history == [] then [] else Inserts(history[..|history| - 1]) + [HostInsert(history[|history| - 1])]
  }

  lemma {:induction false} InsertsRun(history: seq<Message>)
    ensures Run(INIT, Inserts(history)).rows == InsertAll([], history)
  {
    hide Insert;
    if history != [] {
      InsertsRun(history[..|history| - 1]);
      RunAppend(INIT, Inserts(history[..|history| - 1]), HostInsert(history[|history| - 1]));
    }
  }

  lemma {:induction false} DistinctAreFirstWrites(history: seq<Message>)
    requires forall i, j | 0 <= i < j < |history| :: history[i].id != history[j].id
    ensures FirstWrites(history) == history
  {
    if history != [] {
      var init := history[..|history| - 1];
      DistinctAreFirstWrites(init);
      assert !HasMessage(init, history[|history| - 1].id);
      assert history == init + [history[|history| - 1]];
    }
  }

  lemma {:induction false} AllDue(rows: seq<Row>, now: Time)
    requires forall r | r in rows :: Due(r, now)
    ensures DueRows(rows, now) == rows
  {
    hide Due;
    if rows != [] {
      AllDue(rows[..|rows| - 1], now);
      assert rows == rows[..|rows| - 1] + [rows[|rows| - 1]];
    }
  }

  lemma OldTriggerTable(limit: nat)
    ensures var rows := InsertAll([], OldTrigger(limit));
            && |rows| == limit + 1 && InOrder(rows) && rows[0] == M_ROW
            && forall i | 0 <= i < |rows| :: (rows[i].msg.trigger <==> i == 0) && forall now :: Due(rows[i], now)
  {
    hide FirstWrites, InsertAll, OldTrigger;
    var history := OldTrigger(limit);
    OldTriggerShape(limit);
    TableIsNumberedFirstWrites(history);
    assert |history[0].id| == 1 && forall i | 0 <= i < |history| :: history[i] in history;
    DistinctAreFirstWrites(history);
  }

  /**
   The host wakes a container for every due trigger row, but an idle runner reads
   only the newest `limit` due rows. So one trigger message followed by `limit`
   context messages is work to the host, at every time, and no runner at the head
   of its loop ever moves for it, whatever it has acked.
   */
  lemma OldTriggerRowStarves(limit: nat)
    requires limit > 0
    ensures var rows := Run(INIT, Inserts(OldTrigger(limit))).rows;
            && rows == InsertAll([], OldTrigger(limit))
            && (forall now :: CountDue(rows, now) > 0)
            && (forall w: World | w.rows == rows && w.runner.AtHead? :: Apply(w, Poll(limit)) == w)
  {
    hide CountDue, Due, InsertAll, OldTrigger, Run, Inserts, IdleBatch, Wakes;
    var rows := InsertAll([], OldTrigger(limit));
    InsertsRun(OldTrigger(limit));
    OldTriggerTable(limit);
    forall now, acks
      ensures CountDue(rows, now) > 0 && !Wakes(IdleBatch(rows, acks, now, limit))
    {
      OldTriggerDisagrees(rows, acks, now, limit);
    }
  }

  lemma OldTriggerDisagrees(rows: seq<Row>, acks: Acks, now: Time, limit: nat)
    requires |rows| == limit + 1 && InOrder(rows)
    requires forall i | 0 <= i < |rows| :: (rows[i].msg.trigger <==> i == 0) && Due(rows[i], now)
    ensures CountDue(rows, now) > 0 && !Wakes(IdleBatch(rows, acks, now, limit))
  {
    hide Due, IdleBatch, Wakes, CountDue, DueRows, DueAfter, InOrder;
    AllDue(rows, now);
    DueRowsCount(rows, now);
    assert DueAfter(rows, rows[0].seqNo, now) == limit;
    assert rows[0] in rows;
    GatesDisagreeExactlyWhen(rows, acks, now, limit);
  }
}
