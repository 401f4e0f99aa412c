/**
 One iteration of the container's poll loop: claim a batch, split it into
 commands, script-skipped tasks and prompt messages, and complete every id.
 */
module PollLoop {
  import opened SessionDb

  /** What the query's event stream and the 500 ms follow-up poll bring while the query runs. */
  datatype Event = Result | OtherEvent | FollowUp(rows: seq<Row>)

  function NonSystem(rows: seq<Row>): (r: seq<Row>)
    ensures forall x :: x in r <==> x in rows && x.msg.kind != System
  {
    if rows == [] then []
    else if rows[0].msg.kind != System then [rows[0]] + NonSystem(rows[1..])
    else NonSystem(rows[1..])
  }

  /** The batch an idle runner reads: pending, due, unacked, not a system message. */
  function IdleBatch(rows: seq<Row>, acks: Acks, now: Time, limit: nat): (r: seq<Row>)
    ensures forall x :: x in r ==> x in rows && Due(x, now) && x.Id() !in acks && x.msg.kind != System
  {
    NonSystem(PendingBatch(rows, acks, now, limit))
  }

  lemma {:induction false} NonSystemInOrder(rows: seq<Row>)
    requires InOrder(rows)
    ensures InOrder(NonSystem(rows))
  {
    if rows != [] {
      NonSystemInOrder(rows[1..]);
      FirstIsLeast(rows, NonSystem(rows[1..]));
    }
  }

  /** A row in front of rows that come after it. */
  lemma FirstIsLeast(rows: seq<Row>, rest: seq<Row>)
    requires rows != [] && InOrder(rows) && InOrder(rest) && forall r | r in rest :: r in rows[1..]
    ensures InOrder([rows[0]] + rest)
  {
    forall i | 0 <= i < |rest|
      ensures rows[0].seqNo < rest[i].seqNo
    {
      assert rest[i] in rows[1..];
    }
  }

  /**
   What an idle runner reads, row by row and in order: the rows it may act on that are among the
   `limit` newest due.
   */
  lemma IdleBatchExactly(rows: seq<Row>, acks: Acks, now: Time, limit: nat)
    requires InOrder(rows)
    ensures InOrder(IdleBatch(rows, acks, now, limit))
    ensures forall x :: x in IdleBatch(rows, acks, now, limit) <==>
              && x in rows && Due(x, now) && x.Id() !in acks && x.msg.kind != System
              && DueAfter(rows, x.seqNo, now) < limit
  {
    hide Due, DueAfter, PendingBatch, NonSystem, InOrder;
    PendingBatchExactly(rows, acks, now, limit);
    NonSystemInOrder(PendingBatch(rows, acks, now, limit));
  }

  predicate IsClear(r: Row) {
    r.msg.kind == Chat && r.msg.clear
  }

  function NotClear(rows: seq<Row>): (r: seq<Row>)
    ensures forall x :: x in r <==> x in rows && !IsClear(x)
  {
    if rows == [] then []
    else if IsClear(rows[0]) then NotClear(rows[1..])
    else [rows[0]] + NotClear(rows[1..])
  }

  /** The batch an active query's follow-up poll reads. */
  function FollowUpBatch(rows: seq<Row>, acks: Acks, now: Time, limit: nat): (r: seq<Row>)
    ensures forall x :: x in r ==> x in rows && Due(x, now) && x.Id() !in acks && x.msg.kind != System && !IsClear(x)
  {
    NotClear(IdleBatch(rows, acks, now, limit))
  }

  lemma {:induction false} NotClearInOrder(rows: seq<Row>)
    requires InOrder(rows)
    ensures InOrder(NotClear(rows))
  {
    if rows != [] {
      NotClearInOrder(rows[1..]);
      FirstIsLeast(rows, NotClear(rows[1..]));
    }
  }

  /** What the follow-up poll reads: the same rows without the /clear commands. */
  lemma FollowUpBatchExactly(rows: seq<Row>, acks: Acks, now: Time, limit: nat)
    requires InOrder(rows)
    ensures InOrder(FollowUpBatch(rows, acks, now, limit))
    ensures forall x :: x in FollowUpBatch(rows, acks, now, limit) <==>
              && x in rows && Due(x, now) && x.Id() !in acks && x.msg.kind != System && !IsClear(x)
              && DueAfter(rows, x.seqNo, now) < limit
  {
    hide Due, DueAfter, IdleBatch, IsClear, InOrder;
    IdleBatchExactly(rows, acks, now, limit);
    NotClearInOrder(IdleBatch(rows, acks, now, limit));
  }

  predicate Wakes(batch: seq<Row>) {
    exists r | r in batch :: r.msg.trigger
  }

  function IdsOf(rows: seq<Row>): (r: seq<MsgId>)
    ensures |r| == |rows| && Elems(r) == Ids(rows)
  {
    if rows == [] then []
    else
      var tail := IdsOf(rows[1..]);
      assert rows == [rows[0]] + rows[1..];
      ElemsAppend([rows[0].Id()], tail);
      [rows[0].Id()] + tail
  }

  /** `ids.filter(id => !a.includes(id) && !b.includes(id))` */
  function Without(ids: seq<MsgId>, a: seq<MsgId>, b: seq<MsgId>): (r: seq<MsgId>)
    ensures Elems(r) == Elems(ids) - Elems(a) - Elems(b)
  {
    if ids == [] then []
    else
      var tail := Without(ids[1..], a, b);
      assert ids == [ids[0]] + ids[1..];
      ElemsAppend([ids[0]], tail);
      if ids[0] in a || ids[0] in b then tail else [ids[0]] + tail
  }

  /** Every ack of `before` is untouched, and every other ack of `after` is a completion. */
  predicate OnlyCompletes(before: Acks, after: Acks) {
    && (forall id | id in before :: id in after && after[id] == before[id])
    && (forall id | id in after && id !in before :: after[id].status == Done)
  }

  predicate SkippedBy(r: Row, gate: Row -> bool) {
    !IsClear(r) && r.msg.kind == Task && gate(r)
  }

  function Commands(batch: seq<Row>): set<MsgId> {
    set r | r in batch && IsClear(r) :: r.Id()
  }

  function Skipped(batch: seq<Row>, gate: Row -> bool): set<MsgId> {
    set r | r in batch && SkippedBy(r, gate) :: r.Id()
  }

  function Prompted(batch: seq<Row>, gate: Row -> bool): set<MsgId> {
    set r | r in batch && !IsClear(r) && !SkippedBy(r, gate) :: r.Id()
  }

  /** With unique ids the three groups partition the claimed ids. */
  lemma GroupsPartitionTheBatch(rows: seq<Row>, batch: seq<Row>, gate: Row -> bool)
    requires UniqueIds(rows) && forall r | r in batch :: r in rows
    ensures Commands(batch) + Skipped(batch, gate) + Prompted(batch, gate) == Ids(batch)
    ensures Commands(batch) !! Skipped(batch, gate) !! Prompted(batch, gate)
  {
    forall r, s | r in batch && s in batch && r.Id() == s.Id()
      ensures r == s
    {
      var i :| 0 <= i < |rows| && rows[i] == r;
      var j :| 0 <= j < |rows| && rows[j] == s;
    }
  }

  /** Commands are the chat messages `/clear`, skipped are the tasks whose script says so, the rest is the prompt. */
  lemma GroupsExactly(rows: seq<Row>, batch: seq<Row>, gate: Row -> bool, r: Row)
    requires UniqueIds(rows) && (forall x | x in batch :: x in rows) && r in batch
    ensures var isClear, isSkipped := r.msg.kind == Chat && r.msg.clear, r.msg.kind == Task && gate(r);
            && (r.Id() in Commands(batch) <==> isClear)
            && (r.Id() in Skipped(batch, gate) <==> isSkipped)
            && (r.Id() in Prompted(batch, gate) <==> !isClear && !isSkipped)
  {
    forall s | s in batch && r.Id() == s.Id()
      ensures r == s
    {
      var i :| 0 <= i < |rows| && rows[i] == r;
      var j :| 0 <= j < |rows| && rows[j] == s;
    }
  }

  /** The follow-up poll's callback: claim, push into the query, complete. */
  method PollFollowUps(db: OutboundDb, rows: seq<Row>, limit: nat, now: Time)
    modifies db
    ensures OnlyCompletes(old(db.acks), db.acks)
    ensures forall r | r in FollowUpBatch(rows, old(db.acks), now, limit) ::
              r.Id() in db.acks && db.acks[r.Id()].status == Done
  {
    var batch := FollowUpBatch(rows, db.acks, now, limit);
    var ids := IdsOf(batch);
    assert forall id | id in Elems(ids) :: id !in db.acks;
    db.MarkProcessing(ids, now);
    db.MarkCompleted(ids, now);
  }

  /** The scan that answers `/clear` commands and collects the rest. */
  method SplitCommands(batch: seq<Row>) returns (commands: seq<MsgId>, normal: seq<Row>)
    ensures Elems(commands) == Commands(batch)
    ensures forall r :: r in normal <==> r in batch && !IsClear(r)
  {
    commands, normal := [], [];
    for i := 0 to |batch|
      invariant Elems(commands) == Commands(batch[..i])
      invariant forall r :: r in normal <==> r in batch[..i] && !IsClear(r)
    {
      assert batch[..i + 1] == batch[..i] + [batch[i]];
      if IsClear(batch[i]) {
        ElemsAppend(commands, [batch[i].Id()]);
        commands := commands + [batch[i].Id()];
      } else {
        normal := normal + [batch[i]];
      }
    }
    assert batch[..|batch|] == batch;
  }

  /** `gate` is a task script's verdict to skip the row. */
  method ApplyPreTaskScripts(normal: seq<Row>, gate: Row -> bool) returns (keep: seq<Row>, skipped: seq<MsgId>)
    ensures Elems(skipped) == Skipped(normal, gate)
    ensures forall r :: r in keep <==> r in normal && !SkippedBy(r, gate)
  {
    keep, skipped := [], [];
    for i := 0 to |normal|
      invariant Elems(skipped) == Skipped(normal[..i], gate)
      invariant forall r :: r in keep <==> r in normal[..i] && !SkippedBy(r, gate)
    {
      assert normal[..i + 1] == normal[..i] + [normal[i]];
      if SkippedBy(normal[i], gate) {
        ElemsAppend(skipped, [normal[i].Id()]);
        skipped := skipped + [normal[i].Id()];
      } else {
        keep := keep + [normal[i]];
      }
    }
    assert normal[..|normal|] == normal;
  }

  /** `acks` is `base` plus claims whose completion is still owed for `owed` only. */
  predicate Owes(base: Acks, acks: Acks, owed: set<MsgId>) {
    && (forall id | id in base :: id in acks && acks[id] == base[id])
    && (forall id | id in acks && id !in base :: acks[id].status == Done || id in owed)
  }

  /** The query: it may end, or throw, after any events; the caller completes the batch either way. */
  method ProcessQuery(db: OutboundDb, batch: seq<MsgId>, limit: nat, now: Time, events: seq<Event>, ghost base: Acks)
    requires Owes(base, db.acks, Elems(batch)) && Elems(batch) !! base.Keys
    modifies db
    ensures Owes(base, db.acks, Elems(batch))
    ensures old(db.acks).Keys <= db.acks.Keys
  {
    for i := 0 to |events|
      invariant Owes(base, db.acks, Elems(batch))
      invariant old(db.acks).Keys <= db.acks.Keys
    {
      match events[i]
      case Result => db.MarkCompleted(batch, now);
      case OtherEvent =>
      case FollowUp(rows) => PollFollowUps(db, rows, limit, now);
    }
  }

  /** Claim to completion for a batch that wakes the agent. */
  method RunBatch(
      db: OutboundDb, batch: seq<Row>, limit: nat, now: Time, gate: Row -> bool, events: seq<Event>)
    returns (commands: seq<MsgId>, skipped: seq<MsgId>, processed: seq<MsgId>)
    requires Ids(batch) !! db.acks.Keys
    requires Commands(batch) + Skipped(batch, gate) + Prompted(batch, gate) == Ids(batch)
    requires Commands(batch) !! Skipped(batch, gate) !! Prompted(batch, gate)
    modifies db
    ensures Elems(commands) == Commands(batch)
    ensures Elems(skipped) == Skipped(batch, gate)
    ensures Elems(processed) == Prompted(batch, gate)
    ensures Owes(old(db.acks), db.acks, {}) && Ids(batch) <= db.acks.Keys
  {
    skipped, processed := [], [];
    ghost var base := db.acks;
    var ids := IdsOf(batch);
    db.MarkProcessing(ids, now);

    var normal;
    commands, normal := SplitCommands(batch);
    db.MarkCompleted(commands, now);
    if normal == [] {
      assert forall r | r in batch :: IsClear(r);
      var remaining := Without(ids, commands, []);
      db.MarkCompleted(remaining, now);
      return;
    }

    var keep;
    keep, skipped := ApplyPreTaskScripts(normal, gate);
    assert Skipped(normal, gate) == Skipped(batch, gate);
    db.MarkCompleted(skipped, now);
    if keep == [] {
      assert forall r | r in normal :: SkippedBy(r, gate);
      assert Prompted(batch, gate) == {};
      return;
    }

    processed := Without(ids, commands, skipped);
    ProcessQuery(db, processed, limit, now, events, base);
    db.MarkCompleted(processed, now);
  }

  /** One loop iteration; `ran` is false when it only sleeps. */
  method RunIteration(
      db: OutboundDb, rows: seq<Row>, limit: nat, now: Time, gate: Row -> bool, events: seq<Event>)
    returns (ran: bool, commands: seq<MsgId>, skipped: seq<MsgId>, processed: seq<MsgId>)
    requires UniqueIds(rows)
    modifies db
    ensures var batch := IdleBatch(rows, old(db.acks), now, limit);
            && (ran <==> Wakes(batch))
            && (ran ==> Elems(commands) == Commands(batch)
                        && Elems(skipped) == Skipped(batch, gate)
                        && Elems(processed) == Prompted(batch, gate)
                        && forall id | id in Ids(batch) :: id in db.acks && db.acks[id].status == Done)
    ensures !ran ==> db.acks == old(db.acks)
    ensures OnlyCompletes(old(db.acks), db.acks)
  {
    ran, commands, skipped, processed := false, [], [], [];
    var batch := IdleBatch(rows, db.acks, now, limit);
    if Wakes(batch) {
      ran := true;
      GroupsPartitionTheBatch(rows, batch, gate);
      commands, skipped, processed := RunBatch(db, batch, limit, now, gate, events);
    }
  }
}
