/**
 The two tables that host and container share for one session: `messages_in`
 (written by the host only) and `processing_ack` (written by the container
 only), with the statements each side runs on them.

 A table is the sequence of its rows in insertion order. Times are
 milliseconds on one UTC clock; a time that SQL's `datetime` produced or
 compares is rounded down to whole seconds.
 */
module SessionDb {
  import opened Wrappers

  type MsgId = string
  type Time = nat

  /** Whole seconds of a time, as `datetime` keeps them, and back. */
  function Sec(t: Time): nat { t / 1000 }

  function Seconds(s: nat): Time { s * 1000 }

  datatype Kind = Chat | Task | Webhook | System
  datatype Status = Pending | Failed | Completed

  /** `clear` says that the message is the chat command `/clear`. */
  datatype Message = Message(
    id: MsgId, kind: Kind, trigger: bool, processAfter: Option<Time>, content: string, clear: bool)

  datatype Row = Row(msg: Message, seqNo: nat, status: Status, tries: nat, processAfter: Option<Time>)
  {
    function Id(): MsgId { msg.id }
  }

  datatype AckStatus = Processing | Done | Errored
  datatype Ack = Ack(status: AckStatus, changed: Time)
  type Acks = map<MsgId, Ack>

  // ------------------------------------------------------------------ messages_in

  predicate HasId(rows: seq<Row>, id: MsgId) {
    exists i | 0 <= i < |rows| :: rows[i].Id() == id
  }

  predicate UniqueIds(rows: seq<Row>) {
    forall i, j | 0 <= i < j < |rows| :: rows[i].Id() != rows[j].Id()
  }

  function MaxSeq(rows: seq<Row>): (m: nat)
    ensures forall i | 0 <= i < |rows| :: rows[i].seqNo <= m
    ensures m == 0 || exists i | 0 <= i < |rows| :: rows[i].seqNo == m
  {
    if rows == [] then 0
    else
      var last := rows[|rows| - 1];
      var m := MaxSeq(rows[..|rows| - 1]);
      if last.seqNo > m then last.seqNo else m
  }

  function NextEvenSeq(rows: seq<Row>): (n: nat)
    ensures n % 2 == 0 && n >= 2
    ensures forall i | 0 <= i < |rows| :: rows[i].seqNo < n
    ensures n >= 4 ==> exists i | 0 <= i < |rows| :: rows[i].seqNo >= n - 2
  {
    var m := MaxSeq(rows);
    if m < 2 then 2 else m + 2 - m % 2
  }

  function FreshRow(m: Message, seqNo: nat): Row {
    Row(m, seqNo, Pending, 0, m.processAfter)
  }

  /** INSERT … ON CONFLICT(id) DO NOTHING. */
  function Insert(rows: seq<Row>, m: Message): seq<Row> {
    if HasId(rows, m.id) then rows else rows + [FreshRow(m, NextEvenSeq(rows))]
  }

  predicate Due(r: Row, now: Time) {
    r.status.Pending? && (r.processAfter.None? || Sec(r.processAfter.value) <= Sec(now))
  }

  function CountDue(rows: seq<Row>, now: Time): (n: nat)
    ensures n > 0 <==> exists i | 0 <= i < |rows| :: rows[i].msg.trigger && Due(rows[i], now)
  {
    if rows == [] then 0
    else
      var last := rows[|rows| - 1];
      CountDue(rows[..|rows| - 1], now) + if last.msg.trigger && Due(last, now) then 1 else 0
  }

  /** Every due trigger row counts once. */
  lemma {:induction false} CountDueCounts(rows: seq<Row>, now: Time)
    ensures CountDue(rows, now) == |set i | 0 <= i < |rows| && rows[i].msg.trigger && Due(rows[i], now)|
  {
    var counted := set i | 0 <= i < |rows| && rows[i].msg.trigger && Due(rows[i], now);
    if rows != [] {
      var n := |rows| - 1;
      CountDueCounts(rows[..n], now);
      hide Due;
      assert counted - {n} == set i | 0 <= i < n && rows[..n][i].msg.trigger && Due(rows[..n][i], now);
    }
  }

  /** UPDATE … WHERE id = ?, with `f` the assignment list. */
  function UpdateRow(rows: seq<Row>, id: MsgId, f: Row -> Row): (r: seq<Row>)
    ensures |r| == |rows|
    ensures forall i | 0 <= i < |rows| :: r[i] == if rows[i].Id() == id then f(rows[i]) else rows[i]
  {
    seq(|rows|, i requires 0 <= i < |rows| => if rows[i].Id() == id then f(rows[i]) else rows[i])
  }

  function Complete(r: Row): Row { r.(status := Completed) }

  function Fail(r: Row): Row { r.(status := Failed) }

  function Retry(r: Row, backoffSec: nat, now: Time): Row {
    r.(tries := r.tries + 1, processAfter := Some(Seconds(Sec(now) + backoffSec)))
  }

  /** What the ack sync makes of the table: every row whose id is in `done` is completed. */
  function SyncRows(rows: seq<Row>, done: set<MsgId>): (r: seq<Row>)
    ensures |r| == |rows|
    ensures forall i | 0 <= i < |rows| :: r[i] == if rows[i].Id() in done then Complete(rows[i]) else rows[i]
  {
    seq(|rows|, i requires 0 <= i < |rows| => if rows[i].Id() in done then Complete(rows[i]) else rows[i])
  }

  // --------------------------------------------------------------- processing_ack

  function Finished(acks: Acks): set<MsgId> {
    set id | id in acks && acks[id].status != Processing
  }

  function Claims(acks: Acks): set<MsgId> {
    set id | id in acks && acks[id].status == Processing
  }

  /** INSERT OR REPLACE of one status for every id of a batch. */
  function MarkAll(acks: Acks, ids: set<MsgId>, status: AckStatus, now: Time): Acks {
    map id | id in acks.Keys + ids :: if id in ids then Ack(status, Seconds(Sec(now))) else acks[id]
  }

  function ClearStale(acks: Acks): Acks {
    map id | id in acks && acks[id].status != Processing :: acks[id]
  }

  // -------------------------------------------------------- the container's batch

  function DueRows(rows: seq<Row>, now: Time): (r: seq<Row>)
    ensures forall x :: x in r <==> x in rows && Due(x, now)
  {
    if rows == [] then []
    else
      var last := rows[|rows| - 1];
      var init := DueRows(rows[..|rows| - 1], now);
      assert rows == rows[..|rows| - 1] + [last];
      if Due(last, now) then init + [last] else init
  }

  function Unacked(rows: seq<Row>, acks: Acks): (r: seq<Row>)
    ensures forall x :: x in r <==> x in rows && x.Id() !in acks
  {
    if rows == [] then []
    else
      var last := rows[|rows| - 1];
      var init := Unacked(rows[..|rows| - 1], acks);
      assert rows == rows[..|rows| - 1] + [last];
      if last.Id() in acks then init else init + [last]
  }

  /** ORDER BY seq DESC LIMIT n, reversed: the n newest rows, oldest first. */
  function Newest(rows: seq<Row>, n: nat): seq<Row> {
    if |rows| <= n then rows else rows[|rows| - n..]
  }

  /** getPendingMessages: the limit is applied before acked rows are filtered out. */
  function PendingBatch(rows: seq<Row>, acks: Acks, now: Time, limit: nat): (r: seq<Row>)
    ensures forall x :: x in r ==> x in rows && Due(x, now) && x.Id() !in acks
  {
    Unacked(Newest(DueRows(rows, now), limit), acks)
  }

  predicate InOrder(rows: seq<Row>) {
    forall i, j | 0 <= i < j < |rows| :: rows[i].seqNo < rows[j].seqNo
  }

  /** How many due rows were written after number `s`. */
  function DueAfter(rows: seq<Row>, s: nat, now: Time): nat {
    if rows == [] then 0
    else
      var last := rows[|rows| - 1];
      DueAfter(rows[..|rows| - 1], s, now) + if Due(last, now) && last.seqNo > s then 1 else 0
  }

  lemma {:induction false} NoneAfter(rows: seq<Row>, s: nat, now: Time)
    requires forall i | 0 <= i < |rows| :: rows[i].seqNo <= s
    ensures DueAfter(rows, s, now) == 0
  {
    if rows != [] {
      NoneAfter(rows[..|rows| - 1], s, now);
    }
  }

  lemma {:induction false} DueRowsCount(rows: seq<Row>, now: Time)
    requires InOrder(rows)
    ensures InOrder(DueRows(rows, now))
    ensures forall i | 0 <= i < |DueRows(rows, now)| ::
              DueAfter(rows, DueRows(rows, now)[i].seqNo, now) == |DueRows(rows, now)| - 1 - i
  {
    hide Due;
    if rows != [] {
      var init, last := rows[..|rows| - 1], rows[|rows| - 1];
      DueRowsCount(init, now);
      NoneAfter(init, last.seqNo, now);
      var due := DueRows(init, now);
      forall i | 0 <= i < |due|
        ensures due[i].seqNo < last.seqNo
      {
        assert due[i] in init;
      }
    }
  }

  lemma InOrderAppend(rows: seq<Row>, r: Row)
    requires InOrder(rows) && forall x | x in rows :: x.seqNo < r.seqNo
    ensures InOrder(rows + [r])
  {
    assert forall i | 0 <= i < |rows| :: rows[i] in rows;
  }

  lemma {:induction false} UnackedInOrder(rows: seq<Row>, acks: Acks)
    requires InOrder(rows)
    ensures InOrder(Unacked(rows, acks))
  {
    if rows != [] {
      var init, last := rows[..|rows| - 1], rows[|rows| - 1];
      UnackedInOrder(init, acks);
      assert forall r | r in init :: r.seqNo < last.seqNo;
      hide InOrder;
      if last.Id() !in acks {
        InOrderAppend(Unacked(init, acks), last);
      }
    }
  }

  lemma NewestInOrder(due: seq<Row>, limit: nat)
    requires InOrder(due)
    ensures InOrder(Newest(due, limit))
    ensures forall x | x in Newest(due, limit) :: x in due
    ensures forall i | 0 <= i < |due| :: due[i] in Newest(due, limit) <==> |due| - 1 - i < limit
  {
    var newest := Newest(due, limit);
    var cut := if |due| <= limit then 0 else |due| - limit;
    assert forall j | 0 <= j < |newest| :: newest[j] == due[j + cut];
    forall i | 0 <= i < |due|
      ensures due[i] in newest <==> i >= cut
    {
      if i >= cut {
        assert newest[i - cut] == due[i];
      }
    }
  }

  /**
   The batch is exactly the due, unacked rows with fewer than `limit` due rows
   after them, oldest first. Acked rows count against the limit.
   */
  lemma PendingBatchExactly(rows: seq<Row>, acks: Acks, now: Time, limit: nat)
    requires InOrder(rows)
    ensures InOrder(PendingBatch(rows, acks, now, limit))
    ensures forall x :: x in PendingBatch(rows, acks, now, limit) <==>
              x in rows && Due(x, now) && x.Id() !in acks && DueAfter(rows, x.seqNo, now) < limit
  {
    hide Due, DueAfter, DueRows, Unacked, Newest, InOrder;
    DueRowsCount(rows, now);
    var due := DueRows(rows, now);
    NewestInOrder(due, limit);
    UnackedInOrder(Newest(due, limit), acks);
    forall x | x in due
      ensures x in Newest(due, limit) <==> DueAfter(rows, x.seqNo, now) < limit
    {
      var i :| 0 <= i < |due| && due[i] == x;
    }
  }

  function Elems(ids: seq<MsgId>): set<MsgId> {
    set id | id in ids
  }

  lemma ElemsAppend(a: seq<MsgId>, b: seq<MsgId>)
    ensures Elems(a + b) == Elems(a) + Elems(b)
  {
  }

  function Ids(rows: seq<Row>): set<MsgId> {
    set r | r in rows :: r.Id()
  }

  // --------------------------------------------------------- histories of inserts

  function InsertAll(rows: seq<Row>, history: seq<Message>): seq<Row> {
    if history == [] then rows
    else Insert(InsertAll(rows, history[..|history| - 1]), history[|history| - 1])
  }

  predicate HasMessage(history: seq<Message>, id: MsgId) {
    exists i | 0 <= i < |history| :: history[i].id == id
  }

  /** A history with every message after the first of its id removed. */
  function FirstWrites(history: seq<Message>): seq<Message> {
    if history == [] then []
    else
      var init := FirstWrites(history[..|history| - 1]);
      var last := history[|history| - 1];
      if HasMessage(history[..|history| - 1], last.id) then init else init + [last]
  }

  function Numbered(history: seq<Message>): seq<Row> {
    seq(|history|, i requires 0 <= i < |history| => FreshRow(history[i], 2 * (i + 1)))
  }

  lemma {:induction false} FirstWritesKeepEveryId(history: seq<Message>, id: MsgId)
    ensures HasMessage(FirstWrites(history), id) <==> HasMessage(history, id)
  {
    if history != [] {
      var init, last := history[..|history| - 1], history[|history| - 1];
      FirstWritesKeepEveryId(init, id);
      assert history == init + [last];
      var w := FirstWrites(init);
      if HasMessage(init, id) {
        var i :| 0 <= i < |init| && init[i].id == id;
        assert history[i].id == id;
        var j :| 0 <= j < |w| && w[j].id == id;
        assert FirstWrites(history)[j].id == id;
      } else if last.id == id {
        assert history[|init|].id == id;
        assert FirstWrites(history)[|w|].id == id;
      }
    }
  }

  lemma InsertIntoNumbered(w: seq<Message>, m: Message)
    ensures HasId(Numbered(w), m.id) <==> HasMessage(w, m.id)
    ensures Insert(Numbered(w), m) == if HasMessage(w, m.id) then Numbered(w) else Numbered(w + [m])
  {
    var t := Numbered(w);
    assert forall i | 0 <= i < |w| :: t[i].Id() == w[i].id;
    if w != [] {
      assert t[|w| - 1].seqNo == 2 * |w|;
    }
    assert NextEvenSeq(t) == 2 * (|w| + 1);
    assert Numbered(w + [m]) == t + [FreshRow(m, 2 * (|w| + 1))];
  }

  /**
   The whole inbound table after any history of writes: one pending row for the
   first write of each id, in order, numbered 2, 4, 6, ….
   */
  lemma {:induction false} TableIsNumberedFirstWrites(history: seq<Message>)
    ensures InsertAll([], history) == Numbered(FirstWrites(history))
  {
    if history != [] {
      var init, last := history[..|history| - 1], history[|history| - 1];
      TableIsNumberedFirstWrites(init);
      FirstWritesKeepEveryId(init, last.id);
      InsertIntoNumbered(FirstWrites(init), last);
    }
  }

  /** Each of those rows holds its message, pending, untried, and scheduled as the message asks. */
  lemma RowsAreAsWritten(history: seq<Message>)
    ensures var rows, written := InsertAll([], history), FirstWrites(history);
            && |rows| == |written|
            && forall i | 0 <= i < |rows| ::
                 rows[i] == Row(written[i], 2 * (i + 1), Pending, 0, written[i].processAfter)
  {
    TableIsNumberedFirstWrites(history);
  }

  /** The surviving messages have pairwise distinct ids, each the first of its id in the history. */
  lemma {:induction false} FirstWritesAreDistinct(history: seq<Message>)
    ensures forall i, j | 0 <= i < j < |FirstWrites(history)| ::
        FirstWrites(history)[i].id != FirstWrites(history)[j].id
    ensures forall m | m in FirstWrites(history) ::
              exists k | 0 <= k < |history| :: history[k] == m && !HasMessage(history[..k], m.id)
  {
    if history != [] {
      var init, last := history[..|history| - 1], history[|history| - 1];
      FirstWritesAreDistinct(init);
      FirstWritesKeepEveryId(init, last.id);
      var w := FirstWrites(init);
      forall m | m in FirstWrites(history)
        ensures exists k | 0 <= k < |history| :: history[k] == m && !HasMessage(history[..k], m.id)
      {
        if m in w {
          var k :| 0 <= k < |init| && init[k] == m && !HasMessage(init[..k], m.id);
          assert history[k] == m && history[..k] == init[..k];
        } else {
          assert history[|init|] == m;
        }
      }
    }
  }

  /** Replaying messages that were already written, in any number and order, changes nothing. */
  lemma {:induction false} ReplayChangesNothing(history: seq<Message>, replay: seq<Message>)
    requires forall i | 0 <= i < |replay| :: HasMessage(history, replay[i].id)
    ensures InsertAll([], history + replay) == InsertAll([], history)
  {
    hide HasMessage, Insert;
    if replay == [] {
      assert history + replay == history;
    } else {
      var init, last := replay[..|replay| - 1], replay[|replay| - 1];
      var all := history + replay;
      assert all[..|all| - 1] == history + init && all[|all| - 1] == last;
      assert forall i | 0 <= i < |init| :: init[i] == replay[i];
      ReplayChangesNothing(history, init);
      RepeatedInsert(history, last);
    }
  }

  lemma RepeatedInsert(history: seq<Message>, m: Message)
    requires HasMessage(history, m.id)
    ensures Insert(InsertAll([], history), m) == InsertAll([], history)
  {
    hide *;
    FirstWritesKeepEveryId(history, m.id);
    TableIsNumberedFirstWrites(history);
    InsertIntoNumbered(FirstWrites(history), m);
  }

  // ------------------------------------------------ what the updates mean for a batch

  /**
   Clearing stale acks gives the messages a dead container had claimed back to the
   next batch, and only those: what was finished stays out of it for good.
   */
  lemma ClearingGivesClaimsBack(rows: seq<Row>, acks: Acks, now: Time, limit: nat)
    requires InOrder(rows)
    ensures Claims(ClearStale(acks)) == {} && Finished(ClearStale(acks)) == Finished(acks)
    ensures forall x :: x in PendingBatch(rows, ClearStale(acks), now, limit) <==>
              || x in PendingBatch(rows, acks, now, limit)
              || (&& x in rows && Due(x, now) && x.Id() in Claims(acks)
                  && DueAfter(rows, x.seqNo, now) < limit)
  {
    hide Due, DueAfter, PendingBatch, InOrder;
    PendingBatchExactly(rows, acks, now, limit);
    PendingBatchExactly(rows, ClearStale(acks), now, limit);
  }

  // ------------------------------------------------------------- the two handles

  /** The host's handle on inbound.db. */
  class InboundDb {
    var rows: seq<Row>

    constructor ()
      ensures rows == []
    {
      rows := [];
    }

    method InsertMessage(m: Message) returns (inserted: bool)
      modifies this
      ensures rows == Insert(old(rows), m)
      ensures inserted == !HasId(old(rows), m.id)
      ensures inserted ==> rows == old(rows) + [Row(m, NextEvenSeq(old(rows)), Pending, 0, m.processAfter)]
    {
      inserted := !HasId(rows, m.id);
      if inserted {
        rows := rows + [FreshRow(m, NextEvenSeq(rows))];
      }
    }

    method MarkMessageFailed(id: MsgId)
      modifies this
      ensures rows == UpdateRow(old(rows), id, Fail)
    {
      rows := UpdateRow(rows, id, Fail);
    }

    method RetryWithBackoff(id: MsgId, backoffSec: nat, now: Time)
      modifies this
      ensures rows == UpdateRow(old(rows), id, r => Retry(r, backoffSec, now))
    {
      rows := UpdateRow(rows, id, r => Retry(r, backoffSec, now));
    }

    method GetMessageForRetry(id: MsgId) returns (r: Option<Row>)
      ensures r.Some? ==> r.value in rows && r.value.Id() == id && r.value.status == Pending
      ensures r.None? ==> forall x | x in rows && x.Id() == id :: x.status != Pending
    {
      for i := 0 to |rows|
        invariant forall j | 0 <= j < i :: rows[j].Id() == id ==> rows[j].status != Pending
      {
        if rows[i].Id() == id && rows[i].status == Pending {
          return Some(rows[i]);
        }
      }
      return None;
    }

    /** The order in which `finished` lists the finished acks does not matter. */
    method SyncProcessingAcks(finished: seq<MsgId>)
      modifies this
      ensures rows == SyncRows(old(rows), Elems(finished))
    {
      for i := 0 to |finished|
        invariant rows == SyncRows(old(rows), Elems(finished[..i]))
      {
        var before := rows;
        rows := UpdateRow(rows, finished[i], (r: Row) => if r.status != Completed then Complete(r) else r);
        assert finished[..i + 1] == finished[..i] + [finished[i]];
      }
      assert finished[..|finished|] == finished;
    }
  }

  /** The container's handle on outbound.db. */
  class OutboundDb {
    var acks: Acks

    constructor ()
      ensures acks == map[]
    {
      acks := map[];
    }

    method Mark(ids: seq<MsgId>, status: AckStatus, now: Time)
      modifies this
      ensures acks == MarkAll(old(acks), Elems(ids), status, now)
    {
      for i := 0 to |ids|
        invariant acks == MarkAll(old(acks), Elems(ids[..i]), status, now)
      {
        acks := acks[ids[i] := Ack(status, Seconds(Sec(now)))];
        assert ids[..i + 1] == ids[..i] + [ids[i]];
      }
      assert ids[..|ids|] == ids;
    }

    method MarkProcessing(ids: seq<MsgId>, now: Time)
      modifies this
      ensures acks == MarkAll(old(acks), Elems(ids), Processing, now)
    {
      Mark(ids, Processing, now);
    }

    method MarkCompleted(ids: seq<MsgId>, now: Time)
      modifies this
      ensures acks == MarkAll(old(acks), Elems(ids), Done, now)
    {
      Mark(ids, Done, now);
    }

    method ClearStaleProcessingAcks()
      modifies this
      ensures acks == ClearStale(old(acks))
    {
      acks := ClearStale(acks);
    }
  }
}
