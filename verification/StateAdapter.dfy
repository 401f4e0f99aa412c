/**
 The persistent state adapter: locks with a time to live and a fencing token,
 and a bounded queue kept in an indexed list table.
 */
module StateAdapter {
  import opened Wrappers

  type Thread = string
  type Token = string
  type Value = string

  // ------------------------------------------------------------------------ locks

  datatype LockRow = LockRow(token: Token, expiresAt: int)
  type LockTable = map<Thread, LockRow>

  /** DELETE the thread's row if it expired before `now`. */
  function Purge(t: LockTable, thread: Thread, now: int): LockTable {
    if thread in t && t[thread].expiresAt < now then t - {thread} else t
  }

  predicate Grants(t: LockTable, thread: Thread, now: int) {
    thread !in Purge(t, thread, now)
  }

  function AcquireIn(t: LockTable, thread: Thread, token: Token, ttl: int, now: int): LockTable {
    var purged := Purge(t, thread, now);
    if thread in purged then purged else purged[thread := LockRow(token, now + ttl)]
  }

  predicate Holds(t: LockTable, thread: Thread, token: Token) {
    thread in t && t[thread].token == token
  }

  function ReleaseIn(t: LockTable, thread: Thread, token: Token): LockTable {
    if Holds(t, thread, token) then t - {thread} else t
  }

  function ExtendIn(t: LockTable, thread: Thread, token: Token, ttl: int, now: int): LockTable {
    if Holds(t, thread, token) then t[thread := LockRow(token, now + ttl)] else t
  }

  function CleanLocks(t: LockTable, now: int): LockTable {
    map thread | thread in t && t[thread].expiresAt >= now :: t[thread]
  }

  /** The lock object a caller holds; extendLock updates it in place. */
  class Lock {
    const threadId: Thread
    const token: Token
    var expiresAt: int

    constructor (threadId: Thread, token: Token, expiresAt: int)
      ensures this.threadId == threadId && this.token == token && this.expiresAt == expiresAt
    {
      this.threadId, this.token, this.expiresAt := threadId, token, expiresAt;
    }
  }

  /** A lock as its holder knows it; `released` once it or a forced release gave it up. */
  datatype Issued = Issued(thread: Thread, expiresAt: int, released: bool)

  datatype LockState = LockState(now: int, table: LockTable, issued: map<Token, Issued>)

  datatype LockStep =
    | Tick(ms: nat)
    | Acquire(thread: Thread, token: Token, ttl: int)
    | Release(token: Token)
    | Extend(token: Token, ttl: int)
    | ForceRelease(thread: Thread)
    | CleanUp

  /** An acquire draws a token no lock was issued with before. */
  function Apply(s: LockState, step: LockStep): LockState {
    match step
    case Tick(ms) => s.(now := s.now + ms)
    case Acquire(thread, token, ttl) =>
      if token in s.issued then s
      else if !Grants(s.table, thread, s.now) then s
      else s.(table := AcquireIn(s.table, thread, token, ttl, s.now),
              issued := s.issued[token := Issued(thread, s.now + ttl, false)])
    case Release(token) =>
      if token !in s.issued then s
      else s.(table := ReleaseIn(s.table, s.issued[token].thread, token),
              issued := s.issued[token := s.issued[token].(released := true)])
    case Extend(token, ttl) =>
      if token !in s.issued || !Holds(s.table, s.issued[token].thread, token) then s
      else s.(table := ExtendIn(s.table, s.issued[token].thread, token, ttl, s.now),
              issued := s.issued[token := s.issued[token].(expiresAt := s.now + ttl)])
    case ForceRelease(thread) =>
      if thread !in s.table then s
      else
        var token := s.table[thread].token;
        s.(table := s.table - {thread},
           issued := if token in s.issued then s.issued[token := s.issued[token].(released := true)] else s.issued)
    case CleanUp => s.(table := CleanLocks(s.table, s.now))
  }

  function Run(s: LockState, steps: seq<LockStep>): LockState {
    if steps == [] then s else Apply(Run(s, steps[..|steps| - 1]), steps[|steps| - 1])
  }

  predicate Live(s: LockState, token: Token) {
    token in s.issued && !s.issued[token].released && s.issued[token].expiresAt >= s.now
  }

  /** The table names issued, unreleased locks as their holders know them, and holds every live one. */
  predicate LocksOk(s: LockState) {
    && (forall thread | thread in s.table ::
          var row := s.table[thread];
          row.token in s.issued && s.issued[row.token] == Issued(thread, row.expiresAt, false))
    && (forall token | token in s.issued :: Live(s, token) ==> Holds(s.table, s.issued[token].thread, token))
  }

  lemma LockStepKeeps(s: LockState, step: LockStep)
    requires LocksOk(s)
    ensures LocksOk(Apply(s, step))
  {
  }

  const NO_LOCKS := LockState(0, map[], map[])

  lemma {:induction false} LocksHold(steps: seq<LockStep>)
    ensures LocksOk(Run(NO_LOCKS, steps))
  {
    if steps != [] {
      LocksHold(steps[..|steps| - 1]);
      LockStepKeeps(Run(NO_LOCKS, steps[..|steps| - 1]), steps[|steps| - 1]);
    }
  }

  /** Mutual exclusion: in every run at most one issued, unreleased, unexpired lock per thread. */
  lemma MutualExclusion(steps: seq<LockStep>, a: Token, b: Token)
    requires var s := Run(NO_LOCKS, steps);
             Live(s, a) && Live(s, b) && s.issued[a].thread == s.issued[b].thread
    ensures a == b
  {
    LocksHold(steps);
  }

  /** A lock whose thread's row is gone or belongs to a later holder. */
  predicate Stale(s: LockState, token: Token) {
    token in s.issued && !Holds(s.table, s.issued[token].thread, token)
  }

  /**
   Fencing: once a token is stale it is stale in every continuation, it is never
   live again, and its holder's release and extend leave the table as it is.
   */
  lemma {:induction false} StaleForever(before: seq<LockStep>, after: seq<LockStep>, token: Token)
    requires Stale(Run(NO_LOCKS, before), token)
    ensures var s := Run(Run(NO_LOCKS, before), after);
            && LocksOk(s) && Stale(s, token) && !Live(s, token)
            && Apply(s, Release(token)).table == s.table
            && forall ttl :: Apply(s, Extend(token, ttl)) == s
  {
    LocksHold(before);
    if after != [] {
      var n := |after| - 1;
      StaleForever(before, after[..n], token);
      LockStepKeeps(Run(Run(NO_LOCKS, before), after[..n]), after[n]);
    }
  }

  /** A thread's lock can be had exactly when nobody holds a live one. */
  lemma GrantsExactlyWhenFree(steps: seq<LockStep>, thread: Thread)
    ensures var s := Run(NO_LOCKS, steps);
            Grants(s.table, thread, s.now) <==> forall token | Live(s, token) :: s.issued[token].thread != thread
  {
    LocksHold(steps);
    var s := Run(NO_LOCKS, steps);
    if !Grants(s.table, thread, s.now) {
      assert Live(s, s.table[thread].token);
    }
  }

  /**
   A forced release makes the thread's lock available and its holder's token stale,
   and leaves every lock of another thread live or dead as it was.
   */
  lemma ForcedReleaseFrees(steps: seq<LockStep>, thread: Thread)
    ensures var s := Run(NO_LOCKS, steps);
            var s' := Apply(s, ForceRelease(thread));
            && Grants(s'.table, thread, s'.now)
            && (forall token | token in s.issued && s.issued[token].thread == thread ::
                  Stale(s', token) && !Live(s', token))
            && (forall token | token in s.issued && s.issued[token].thread != thread ::
                  Live(s', token) <==> Live(s, token))
  {
    LocksHold(steps);
    LockStepKeeps(Run(NO_LOCKS, steps), ForceRelease(thread));
  }

  /** Clean-up takes no live lock away. */
  lemma CleanUpSparesLive(steps: seq<LockStep>, token: Token)
    ensures var s := Run(NO_LOCKS, steps);
            && (Live(Apply(s, CleanUp), token) <==> Live(s, token))
            && (Live(s, token) ==> Holds(Apply(s, CleanUp).table, s.issued[token].thread, token))
  {
    LocksHold(steps);
  }

  // ---------------------------------------------------------------- lists and queue

  datatype ListRow = ListRow(idx: nat, value: Value, expiresAt: Option<int>)

  /** MAX(idx) + 1, or 0 on an empty list. */
  function NextIdx(rows: seq<ListRow>): nat {
    if rows == [] then 0
    else
      var n := NextIdx(rows[..|rows| - 1]);
      var last := rows[|rows| - 1].idx;
      if last + 1 > n then last + 1 else n
  }

  /** DELETE … WHERE idx <= cutoff. */
  function Above(rows: seq<ListRow>, cutoff: int): seq<ListRow> {
    if rows == [] then []
    else if rows[0].idx > cutoff then [rows[0]] + Above(rows[1..], cutoff)
    else Above(rows[1..], cutoff)
  }

  /** A `maxLength` of 0 means no bound. */
  function Append(rows: seq<ListRow>, value: Value, expiresAt: Option<int>, maxLength: nat): seq<ListRow> {
    Trim(rows + [ListRow(NextIdx(rows), value, expiresAt)], NextIdx(rows), maxLength)
  }

  function Trim(rows: seq<ListRow>, next: nat, maxLength: nat): seq<ListRow> {
    if maxLength != 0 && next - maxLength >= 0 then Above(rows, next - maxLength) else rows
  }

  predicate Contiguous(rows: seq<ListRow>) {
    forall i | 0 <= i < |rows| :: rows[i].idx == rows[0].idx + i
  }

  function Values(rows: seq<ListRow>): (r: seq<Value>)
    ensures |r| == |rows| && forall i | 0 <= i < |rows| :: r[i] == rows[i].value
  {
    seq(|rows|, i requires 0 <= i < |rows| => rows[i].value)
  }

  /**
   `enqueue` awaits between its append and its reading of the depth, so a call is
   two operations of its caller, and others may come between them.
   */
  datatype QueueOp =
    | Enqueue(caller: nat, value: Value, maxSize: nat)
    | ReportDepth(caller: nat)
    | Dequeue

  datatype Output = Nothing | Depth(n: nat) | Taken(value: Option<Value>)

  /** The list table, and the callers that have appended and not yet read the depth. */
  datatype Queue = Queue(rows: seq<ListRow>, waiting: set<nat>)

  function TableStep(q: Queue, op: QueueOp): (Queue, Output) {
    match op
    case Enqueue(k, v, max) =>
      if k in q.waiting then (q, Nothing) else (Queue(Append(q.rows, v, None, max), q.waiting + {k}), Nothing)
    case ReportDepth(k) =>
      if k !in q.waiting then (q, Nothing) else (q.(waiting := q.waiting - {k}), Depth(|q.rows|))
    case Dequeue =>
      if q.rows == [] then (q, Taken(None)) else (q.(rows := q.rows[1..]), Taken(Some(q.rows[0].value)))
  }

  /** The abstract queue: everything that ever arrived, of which the first `gone` have left. */
  datatype Log = Log(arrivals: seq<Value>, gone: nat, waiting: set<nat>)

  /** Arrivals queue up; past the bound the oldest leave unseen; a dequeue takes the oldest present. */
  function LogStep(log: Log, op: QueueOp): (Log, Output)
    requires log.gone <= |log.arrivals|
  {
    match op
    case Enqueue(k, v, max) =>
      if k in log.waiting then (log, Nothing)
      else
        var arrivals := log.arrivals + [v];
        var gone := if max != 0 && |arrivals| - max > log.gone then |arrivals| - max else log.gone;
        (Log(arrivals, gone, log.waiting + {k}), Nothing)
    case ReportDepth(k) =>
      if k !in log.waiting then (log, Nothing)
      else (log.(waiting := log.waiting - {k}), Depth(|log.arrivals| - log.gone))
    case Dequeue =>
      if log.gone == |log.arrivals| then (log, Taken(None))
      else (log.(gone := log.gone + 1), Taken(Some(log.arrivals[log.gone])))
  }

  /** `rows` are in index order, as the primary key lists them. */
  predicate Represents(rows: seq<ListRow>, log: Log) {
    Contiguous(rows) && log.gone <= |log.arrivals| && Values(rows) == log.arrivals[log.gone..]
  }

  lemma {:induction false} AboveDropsPrefix(rows: seq<ListRow>, cutoff: int)
    requires Contiguous(rows) && rows != []
    ensures var drop := cutoff - rows[0].idx + 1;
            Above(rows, cutoff) == if drop <= 0 then rows else if drop >= |rows| then [] else rows[drop..]
  {
    var tail := rows[1..];
    assert forall i | 0 <= i < |tail| :: tail[i] == rows[i + 1];
    if tail != [] {
      AboveDropsPrefix(tail, cutoff);
    }
  }

  lemma {:induction false} NextAfterContiguous(rows: seq<ListRow>)
    requires Contiguous(rows)
    ensures NextIdx(rows) == if rows == [] then 0 else rows[0].idx + |rows|
  {
    if |rows| > 1 {
      assert rows[..|rows| - 1][0] == rows[0];
      NextAfterContiguous(rows[..|rows| - 1]);
    }
  }

  /** Dropping the first rows of a representation drops the oldest values. */
  lemma DropRefines(rows: seq<ListRow>, log: Log, drop: nat)
    requires Represents(rows, log) && drop <= |rows|
    ensures Represents(rows[drop..], log.(gone := log.gone + drop))
  {
  }

  lemma ContiguousExtends(rows: seq<ListRow>, row: ListRow)
    requires Contiguous(rows)
    requires row.idx == if rows == [] then 0 else rows[0].idx + |rows|
    ensures Contiguous(rows + [row])
  {
  }

  /** On contiguous rows the index arithmetic keeps exactly the newest `max`. */
  lemma TrimKeepsNewest(rows: seq<ListRow>, next: nat, max: nat)
    requires Contiguous(rows) && rows != [] && next == rows[|rows| - 1].idx
    ensures Trim(rows, next, max) == if max != 0 && |rows| > max then rows[|rows| - max..] else rows
  {
    AboveDropsPrefix(rows, next - max);
  }

  /** The abstract arrival of one value. */
  function Arrive(log: Log, v: Value, max: nat): Log {
    var arrivals := log.arrivals + [v];
    log.(arrivals := arrivals, gone := if max != 0 && |arrivals| - max > log.gone then |arrivals| - max else log.gone)
  }

  lemma AppendRefines(rows: seq<ListRow>, log: Log, v: Value, max: nat)
    requires Represents(rows, log)
    ensures Represents(Append(rows, v, None, max), Arrive(log, v, max))
    ensures |Append(rows, v, None, max)| == Bounded(|rows| + 1, max)
  {
    hide Above, Contiguous, NextIdx, Trim;
    NextAfterContiguous(rows);
    var row := ListRow(NextIdx(rows), v, None);
    ContiguousExtends(rows, row);
    var rows', full := rows + [row], log.(arrivals := log.arrivals + [v]);
    TrimKeepsNewest(rows', row.idx, max);
    if max != 0 && |rows'| > max {
      DropRefines(rows', full, |rows'| - max);
    }
  }

  /** An appended entry comes last, under a new number, with its value and its expiry. */
  lemma AppendPutsLast(rows: seq<ListRow>, v: Value, expiresAt: Option<int>, max: nat)
    requires Contiguous(rows)
    ensures var r := Append(rows, v, expiresAt, max);
            && r != [] && r[|r| - 1].value == v && r[|r| - 1].expiresAt == expiresAt
            && forall i | 0 <= i < |rows| :: rows[i].idx < r[|r| - 1].idx
  {
    hide Above, NextIdx, Trim;
    NextAfterContiguous(rows);
    var row := ListRow(NextIdx(rows), v, expiresAt);
    ContiguousExtends(rows, row);
    TrimKeepsNewest(rows + [row], row.idx, max);
  }

  /** min(n, max), where a bound of 0 is none. */
  function Bounded(n: nat, max: nat): nat {
    if max != 0 && n > max then max else n
  }

  predicate InStep(q: Queue, log: Log) {
    Represents(q.rows, log) && q.waiting == log.waiting
  }

  /** One operation on the table and on the abstract queue: same output, still in step. */
  lemma StepRefines(q: Queue, log: Log, op: QueueOp)
    requires InStep(q, log)
    ensures TableStep(q, op).1 == LogStep(log, op).1
    ensures InStep(TableStep(q, op).0, LogStep(log, op).0)
  {
    hide Append, Contiguous;
    match op
    case Enqueue(k, v, max) => AppendRefines(q.rows, log, v, max);
    case ReportDepth(k) => SameRows(q.rows, log, log.waiting - {k});
    case Dequeue =>
      if q.rows != [] {
        DropRefines(q.rows, log, 1);
      }
  }

  lemma SameRows(rows: seq<ListRow>, log: Log, waiting: set<nat>)
    requires Represents(rows, log)
    ensures Represents(rows, log.(waiting := waiting))
  {
  }

  const EMPTY := Queue([], {})

  function RunTable(ops: seq<QueueOp>): (Queue, seq<Output>) {
    if ops == [] then (EMPTY, [])
    else
      var (mid, out) := RunTable(ops[..|ops| - 1]);
      var (q, o) := TableStep(mid, ops[|ops| - 1]);
      (q, out + [o])
  }

  function RunLog(ops: seq<QueueOp>): (r: (Log, seq<Output>))
    ensures r.0.gone <= |r.0.arrivals|
  {
    if ops == [] then (Log([], 0, {}), [])
    else
      var (mid, out) := RunLog(ops[..|ops| - 1]);
      var (log, o) := LogStep(mid, ops[|ops| - 1]);
      (log, out + [o])
  }

  /** Every run of the table from empty, calls overlapping at will, answers exactly as the drop-oldest FIFO does. */
  lemma {:induction false} QueueRefinesFifo(ops: seq<QueueOp>)
    ensures RunTable(ops).1 == RunLog(ops).1
    ensures InStep(RunTable(ops).0, RunLog(ops).0)
  {
    hide InStep, TableStep, LogStep;
    if ops == [] {
      EmptyInStep();
    } else {
      QueueRefinesFifo(ops[..|ops| - 1]);
      StepRefines(RunTable(ops[..|ops| - 1]).0, RunLog(ops[..|ops| - 1]).0, ops[|ops| - 1]);
    }
  }

  lemma EmptyInStep()
    ensures InStep(EMPTY, Log([], 0, {}))
  {
  }

  /** What one operation does to a queue's depth and callers, by counting alone. */
  function CountStep(c: (nat, set<nat>), op: QueueOp): (nat, set<nat>) {
    match op
    case Enqueue(k, _, max) => if k in c.1 then c else (Bounded(c.0 + 1, max), c.1 + {k})
    case ReportDepth(k) => (c.0, c.1 - {k})
    case Dequeue => (if c.0 == 0 then 0 else c.0 - 1, c.1)
  }

  function DepthWalk(d: nat, waiting: set<nat>, ops: seq<QueueOp>): (nat, set<nat>) {
    if ops == [] then (d, waiting) else CountStep(DepthWalk(d, waiting, ops[..|ops| - 1]), ops[|ops| - 1])
  }

  lemma StepCounts(q: Queue, log: Log, op: QueueOp)
    requires InStep(q, log)
    ensures var q' := TableStep(q, op).0; (|q'.rows|, q'.waiting) == CountStep((|q.rows|, q.waiting), op)
  {
    hide Append, Represents;
    var q' := TableStep(q, op).0;
    var counted := CountStep((|q.rows|, q.waiting), op);
    if op.Enqueue? {
      AppendRefines(q.rows, log, op.value, op.maxSize);
    }
    assert |q'.rows| == counted.0 && q'.waiting == counted.1;
  }

  lemma {:induction false} RunCounts(before: seq<QueueOp>, ops: seq<QueueOp>)
    ensures var q, q' := RunTable(before).0, RunTable(before + ops).0;
            (|q'.rows|, q'.waiting) == DepthWalk(|q.rows|, q.waiting, ops)
  {
    if ops == [] {
      assert before + ops == before;
    } else {
      hide TableStep, CountStep, InStep;
      var n := |ops| - 1;
      RunCounts(before, ops[..n]);
      assert (before + ops)[..|before + ops| - 1] == before + ops[..n];
      QueueRefinesFifo(before + ops[..n]);
      StepCounts(RunTable(before + ops[..n]).0, RunLog(before + ops[..n]).0, ops[n]);
    }
  }

  /** What `op` would answer after a run. */
  function Answer(ops: seq<QueueOp>, op: QueueOp): Output {
    TableStep(RunTable(ops).0, op).1
  }

  predicate StillWaits(ops: seq<QueueOp>, caller: nat) {
    forall i | 0 <= i < |ops| :: ops[i] != ReportDepth(caller)
  }

  lemma {:induction false} WaitsOn(d: nat, waiting: set<nat>, ops: seq<QueueOp>, caller: nat)
    requires caller in waiting && StillWaits(ops, caller)
    ensures caller in DepthWalk(d, waiting, ops).1
  {
    if ops != [] {
      WaitsOn(d, waiting, ops[..|ops| - 1], caller);
    }
  }

  /** The depth a call reports counts everything that happened while it waited. */
  lemma ReportedDepth(before: seq<QueueOp>, caller: nat, v: Value, maxSize: nat, between: seq<QueueOp>)
    requires caller !in RunTable(before).0.waiting && StillWaits(between, caller)
    ensures var q := RunTable(before).0;
            Answer(before + [Enqueue(caller, v, maxSize)] + between, ReportDepth(caller))
              == Depth(DepthWalk(Bounded(|q.rows| + 1, maxSize), q.waiting + {caller}, between).0)
  {
    hide DepthWalk, Append;
    var q, first := RunTable(before).0, before + [Enqueue(caller, v, maxSize)];
    assert first[..|first| - 1] == before;
    QueueRefinesFifo(before);
    AppendRefines(q.rows, RunLog(before).0, v, maxSize);
    RunCounts(first, between);
    WaitsOn(Bounded(|q.rows| + 1, maxSize), q.waiting + {caller}, between, caller);
  }

  /** What the others do in between: appends with the same bound, each by a new call, dequeues and depth reads. */
  predicate Meanwhile(ops: seq<QueueOp>, waiting: set<nat>, maxSize: nat) {
    forall op | op in ops && op.Enqueue? :: op.maxSize == maxSize && op.caller !in waiting
  }

  predicate Appends(ops: seq<QueueOp>) { exists op | op in ops :: op.Enqueue? }

  predicate Takes(ops: seq<QueueOp>) { exists op | op in ops :: op.Dequeue? }

  /**
   So when calls overlap, the depth a call reports is min(old depth + 1, maxSize), its own, exactly in
   these cases: without dequeues in between, when the queue is full with the call's entry or no other
   call appends; without appends in between, when the queue is empty or nothing is dequeued.
   */
  lemma EnqueueDepthExactlyWhen(before: seq<QueueOp>, caller: nat, v: Value, maxSize: nat, between: seq<QueueOp>)
    requires caller !in RunTable(before).0.waiting && StillWaits(between, caller)
    requires Meanwhile(between, RunTable(before).0.waiting + {caller}, maxSize)
    ensures var own := Bounded(|RunTable(before).0.rows| + 1, maxSize);
            var reported := Answer(before + [Enqueue(caller, v, maxSize)] + between, ReportDepth(caller));
            && (!Takes(between) ==> (reported == Depth(own) <==> own == maxSize || !Appends(between)))
            && (!Appends(between) ==> (reported == Depth(own) <==> own == 0 || !Takes(between)))
  {
    hide Answer, RunTable, DepthWalk, Appends, Takes;
    var q := RunTable(before).0;
    var own := Bounded(|q.rows| + 1, maxSize);
    ReportedDepth(before, caller, v, maxSize, between);
    if !Takes(between) {
      AppendsOnlyGrow(own, q.waiting + {caller}, between, maxSize);
    }
    if !Appends(between) {
      DequeuesOnlyShrink(own, q.waiting + {caller}, between);
    }
  }

  lemma InitKinds(ops: seq<QueueOp>)
    requires ops != []
    ensures var init, last := ops[..|ops| - 1], ops[|ops| - 1];
            && (Appends(ops) <==> Appends(init) || last.Enqueue?)
            && (Takes(ops) <==> Takes(init) || last.Dequeue?)
  {
    var init, last := ops[..|ops| - 1], ops[|ops| - 1];
    assert forall op :: op in ops <==> op in init || op == last;
  }

  lemma {:induction false} AppendsOnlyGrow(d: nat, waiting: set<nat>, ops: seq<QueueOp>, maxSize: nat)
    requires Meanwhile(ops, waiting, maxSize) && !Takes(ops)
    requires Bounded(d, maxSize) == d && (d > 0 || maxSize > 0)
    ensures var (d', waiting') := DepthWalk(d, waiting, ops);
            && d <= d' && Bounded(d', maxSize) == d'
            && (d' == d <==> d == maxSize || !Appends(ops))
            && (!Appends(ops) ==> waiting' <= waiting)
  {
    if ops != [] {
      InitKinds(ops);
      hide Appends, Takes;
      AppendsOnlyGrow(d, waiting, ops[..|ops| - 1], maxSize);
    }
  }

  lemma {:induction false} DequeuesOnlyShrink(d: nat, waiting: set<nat>, ops: seq<QueueOp>)
    requires !Appends(ops)
    ensures var d' := DepthWalk(d, waiting, ops).0; d' <= d && (d' == d <==> d == 0 || !Takes(ops))
  {
    if ops != [] {
      InitKinds(ops);
      hide Appends, Takes;
      DequeuesOnlyShrink(d, waiting, ops[..|ops| - 1]);
    }
  }

  /**
   Two overlapping calls with the same bound: the first reports its own depth exactly
   when that already fills the queue, and otherwise the same, larger depth as the second.
   */
  lemma OverlappingCalls(before: seq<QueueOp>, a: nat, b: nat, v: Value, w: Value, maxSize: nat)
    requires a != b && a !in RunTable(before).0.waiting && b !in RunTable(before).0.waiting
    ensures var own := Bounded(|RunTable(before).0.rows| + 1, maxSize);
            var both := before + [Enqueue(a, v, maxSize)] + [Enqueue(b, w, maxSize)];
            && Answer(both, ReportDepth(a)) == Answer(both, ReportDepth(b)) == Depth(Bounded(own + 1, maxSize))
            && (Answer(both, ReportDepth(a)) == Depth(own) <==> own == maxSize)
  {
    hide RunTable;
    var q := RunTable(before).0;
    var own := Bounded(|q.rows| + 1, maxSize);
    var first := before + [Enqueue(a, v, maxSize)];
    ReportedDepth(before, a, v, maxSize, [Enqueue(b, w, maxSize)]);
    RunCounts(before, [Enqueue(a, v, maxSize)]);
    ReportedDepth(first, b, w, maxSize, []);
    assert first + [Enqueue(b, w, maxSize)] + [] == first + [Enqueue(b, w, maxSize)];
  }

  // --------------------------------------------------------------------- the class

  class SqliteStateAdapter {
    var locks: LockTable
    var lists: map<string, seq<ListRow>>

    constructor ()
      ensures locks == map[] && lists == map[]
    {
      locks, lists := map[], map[];
    }

    ghost function Rows(key: string): seq<ListRow>
      reads this
    {
      if key in lists then lists[key] else []
    }

    method AcquireLock(thread: Thread, ttl: int, now: int, token: Token) returns (lock: Lock?)
      modifies this`locks
      ensures locks == AcquireIn(old(locks), thread, token, ttl, now)
      ensures lock != null <==> Grants(old(locks), thread, now)
      ensures lock != null ==>
                fresh(lock) && lock.threadId == thread && lock.token == token && lock.expiresAt == now + ttl
    {
      if thread in locks && locks[thread].expiresAt < now {
        locks := locks - {thread};
      }
      if thread in locks {
        return null;
      }
      locks := locks[thread := LockRow(token, now + ttl)];
      lock := new Lock(thread, token, now + ttl);
    }

    method ReleaseLock(lock: Lock)
      modifies this`locks
      ensures locks == ReleaseIn(old(locks), lock.threadId, lock.token)
    {
      if lock.threadId in locks && locks[lock.threadId].token == lock.token {
        locks := locks - {lock.threadId};
      }
    }

    method ExtendLock(lock: Lock, ttl: int, now: int) returns (ok: bool)
      modifies this`locks, lock`expiresAt
      ensures locks == ExtendIn(old(locks), lock.threadId, lock.token, ttl, now)
      ensures ok == Holds(old(locks), lock.threadId, lock.token)
      ensures lock.expiresAt == if ok then now + ttl else old(lock.expiresAt)
    {
      ok := false;
      if lock.threadId in locks && locks[lock.threadId].token == lock.token {
        locks := locks[lock.threadId := LockRow(lock.token, now + ttl)];
        lock.expiresAt := now + ttl;
        ok := true;
      }
    }

    method ForceReleaseLock(thread: Thread)
      modifies this`locks
      ensures locks == old(locks) - {thread}
    {
      locks := locks - {thread};
    }

    method AppendToList(key: string, value: Value, expiresAt: Option<int>, maxLength: nat)
      modifies this`lists
      ensures Rows(key) == Append(old(Rows(key)), value, expiresAt, maxLength)
      ensures forall other | other != key :: Rows(other) == old(Rows(other))
    {
      var rows := if key in lists then lists[key] else [];
      var next := NextIdx(rows);
      var rows' := rows + [ListRow(next, value, expiresAt)];
      if maxLength != 0 {
        var cutoff := next - maxLength;
        if cutoff >= 0 {
          rows' := Above(rows', cutoff);
        }
      }
      assert rows' == Trim(rows + [ListRow(next, value, expiresAt)], next, maxLength);
      assert rows' == Append(rows, value, expiresAt, maxLength);
      lists := lists[key := rows'];
    }

    /** `enqueue` up to its await; `waiting` are the calls that stand there. */
    method EnqueueEntry(threadId: Thread, ghost caller: nat, ghost waiting: set<nat>, entry: Value, maxSize: nat)
      requires caller !in waiting
      modifies this`lists
      ensures Queue(Rows("queue:" + threadId), waiting + {caller})
           == TableStep(Queue(old(Rows("queue:" + threadId)), waiting), Enqueue(caller, entry, maxSize)).0
      ensures forall other | other != "queue:" + threadId :: Rows(other) == old(Rows(other))
    {
      AppendToList("queue:" + threadId, entry, None, maxSize);
    }

    /** `enqueue` after its await: what the call returns. */
    method EnqueueReturns(threadId: Thread, ghost caller: nat, ghost waiting: set<nat>) returns (depth: nat)
      requires caller in waiting
      ensures TableStep(Queue(Rows("queue:" + threadId), waiting), ReportDepth(caller)).1 == Depth(depth)
    {
      depth := QueueDepth(threadId);
    }

    method DequeueEntry(threadId: Thread, ghost waiting: set<nat>) returns (entry: Option<Value>)
      modifies this`lists
      ensures (Queue(Rows("queue:" + threadId), waiting), Taken(entry))
           == TableStep(Queue(old(Rows("queue:" + threadId)), waiting), Dequeue)
      ensures forall other | other != "queue:" + threadId :: Rows(other) == old(Rows(other))
    {
      var key := "queue:" + threadId;
      if key !in lists || lists[key] == [] {
        return None;
      }
      entry := Some(lists[key][0].value);
      lists := lists[key := lists[key][1..]];
    }

    method QueueDepth(threadId: Thread) returns (depth: nat)
      ensures depth == |Rows("queue:" + threadId)|
    {
      var key := "queue:" + threadId;
      depth := if key in lists then |lists[key]| else 0;
    }

    method Cleanup(now: int)
      modifies this
      ensures locks == CleanLocks(old(locks), now)
      ensures forall key :: Rows(key) == Unexpired(old(Rows(key)), now)
    {
      locks := CleanLocks(locks, now);
      lists := map key | key in lists :: Unexpired(lists[key], now);
    }
  }

  predicate InIndexOrder(rows: seq<ListRow>) {
    forall i, j | 0 <= i < j < |rows| :: rows[i].idx < rows[j].idx
  }

  predicate Lasts(row: ListRow, now: int) {
    row.expiresAt.None? || row.expiresAt.value >= now
  }

  /** Clean-up removes exactly what has expired: list rows here ... */
  lemma {:induction false} UnexpiredExactly(rows: seq<ListRow>, now: int)
    ensures forall x :: x in Unexpired(rows, now) <==> x in rows && Lasts(x, now)
  {
    if rows != [] {
      UnexpiredExactly(rows[1..], now);
      assert rows == [rows[0]] + rows[1..];
    }
  }

  /** ... leaving the others in their order, ... */
  lemma {:induction false} UnexpiredInOrder(rows: seq<ListRow>, now: int)
    requires InIndexOrder(rows)
    ensures InIndexOrder(Unexpired(rows, now))
  {
    if rows != [] {
      UnexpiredInOrder(rows[1..], now);
      UnexpiredExactly(rows[1..], now);
      var kept := Unexpired(rows[1..], now);
      forall j | 0 <= j < |kept|
        ensures rows[0].idx < kept[j].idx
      {
        assert kept[j] in rows[1..];
      }
    }
  }

  /** ... and locks here. */
  lemma CleanUpExactly(s: LockState, thread: Thread)
    ensures var s' := Apply(s, CleanUp);
            && (thread in s'.table <==> thread in s.table && s.table[thread].expiresAt >= s.now)
            && (thread in s'.table ==> s'.table[thread] == s.table[thread])
            && s'.now == s.now && s'.issued == s.issued
  {
  }

  /**
   In every run: whoever holds a lock can give it up, which frees the thread, and can extend it from now
   on; with a token that no longer holds, both leave the locks as they are.
   */
  lemma HolderReleasesAndExtends(steps: seq<LockStep>, token: Token, ttl: int, thread: Thread)
    requires token in Run(NO_LOCKS, steps).issued
    ensures var s := Run(NO_LOCKS, steps);
            var own := s.issued[token].thread;
            var released, extended := Apply(s, Release(token)), Apply(s, Extend(token, ttl));
            && (Holds(s.table, own, token) ==>
                  && own !in released.table && Grants(released.table, own, s.now)
                  && own in extended.table && extended.table[own] == LockRow(token, s.now + ttl)
                  && extended.issued[token].expiresAt == s.now + ttl)
            && (!Holds(s.table, own, token) ==> released.table == s.table && extended == s)
            && released.issued[token].released
            && (thread != own ==>
                  && (thread in released.table <==> thread in s.table)
                  && (thread in extended.table <==> thread in s.table)
                  && (thread in s.table ==> released.table[thread] == extended.table[thread] == s.table[thread]))
  {
    hide Run;
  }

  /** In every run, a lock that was granted and not extended frees its thread once its time has passed. */
  lemma LockRunsOut(steps: seq<LockStep>, thread: Thread, token: Token, ttl: int, ms: nat)
    requires var s := Run(NO_LOCKS, steps); token !in s.issued && Grants(s.table, thread, s.now)
    ensures var s' := Apply(Run(NO_LOCKS, steps), Acquire(thread, token, ttl));
            var later := Apply(s', Tick(ms));
            && Holds(s'.table, thread, token)
            && (Grants(later.table, thread, later.now) <==> ms > ttl)
  {
  }

  function Unexpired(rows: seq<ListRow>, now: int): (r: seq<ListRow>)
    ensures (forall i | 0 <= i < |rows| :: rows[i].expiresAt.None?) ==> r == rows
  {
    if rows == [] then []
    else if rows[0].expiresAt.Some? && rows[0].expiresAt.value < now then Unexpired(rows[1..], now)
    else [rows[0]] + Unexpired(rows[1..], now)
  }
}
