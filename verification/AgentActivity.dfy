/**
 The activity ledger: every session's container appends to its own outbound
 table, and the host copies new rows into the central table behind a cursor.
 */
module AgentActivity {
  datatype Row = Row(seq_: nat, body: string)

  /** A central row has its own random id and does not keep the sequence number. */
  datatype Entry = Entry(session: nat, body: string)

  // ------------------------------------------------------------------ one session's rows

  predicate Increasing(rows: seq<Row>) {
    && (forall i | 0 <= i < |rows| :: rows[i].seq_ > 0)
    && (forall i, j | 0 <= i < j < |rows| :: rows[i].seq_ < rows[j].seq_)
  }

  /** `SELECT ... FROM activity WHERE seq > c ORDER BY seq`, on a table stored in that order. */
  function GetOutboundActivity(rows: seq<Row>, c: nat): seq<Row> {
    if rows == [] then []
    else if rows[0].seq_ > c then [rows[0]] + GetOutboundActivity(rows[1..], c)
    else GetOutboundActivity(rows[1..], c)
  }

  function UpTo(rows: seq<Row>, c: nat): seq<Row> {
    if rows == [] then []
    else if rows[0].seq_ <= c then [rows[0]] + UpTo(rows[1..], c)
    else UpTo(rows[1..], c)
  }

  /** How many leading rows the cursor covers. */
  function Covered(rows: seq<Row>, c: nat): (n: nat)
    ensures n <= |rows|
    ensures forall i | 0 <= i < n :: rows[i].seq_ <= c
    ensures n < |rows| ==> rows[n].seq_ > c
  {
    if rows == [] || rows[0].seq_ > c then 0 else 1 + Covered(rows[1..], c)
  }

  lemma {:induction false} CoveredRows(rows: seq<Row>, c: nat)
    requires Increasing(rows)
    ensures UpTo(rows, c) == rows[..Covered(rows, c)]
  {
    if rows != [] {
      var head, tail := rows[0], rows[1..];
      CoveredRows(tail, c);
      assert tail == [] || tail[0].seq_ > head.seq_;
      hide Increasing;
      assert head.seq_ <= c ==> rows[..Covered(tail, c) + 1] == [head] + tail[..Covered(tail, c)];
    }
  }

  lemma {:induction false} RowsBehind(rows: seq<Row>, c: nat)
    requires Increasing(rows)
    ensures GetOutboundActivity(rows, c) == rows[Covered(rows, c)..]
  {
    if rows != [] {
      var head, tail := rows[0], rows[1..];
      RowsBehind(tail, c);
      assert tail == [] || tail[0].seq_ > head.seq_;
      var n := Covered(tail, c);
      if head.seq_ <= c {
        assert GetOutboundActivity(rows, c) == GetOutboundActivity(tail, c) && Covered(rows, c) == n + 1;
        hide *;
        assert rows[n + 1..] == tail[n..];
      } else {
        assert GetOutboundActivity(rows, c) == [head] + GetOutboundActivity(tail, c) && Covered(rows, c) == n == 0;
        hide *;
        assert rows[0..] == [head] + tail[0..];
      }
    }
  }

  /** On increasing rows the cursor splits them: the merged ones, and the ones that the query returns. */
  lemma CursorSplits(rows: seq<Row>, c: nat)
    requires Increasing(rows)
    ensures var n := Covered(rows, c); UpTo(rows, c) == rows[..n] && GetOutboundActivity(rows, c) == rows[n..]
  {
    CoveredRows(rows, c);
    RowsBehind(rows, c);
  }

  lemma CoveredIs(rows: seq<Row>, c: nat, n: nat)
    requires Increasing(rows) && n <= |rows|
    requires n > 0 ==> rows[n - 1].seq_ <= c
    requires n < |rows| ==> rows[n].seq_ > c
    ensures Covered(rows, c) == n
  {
    assert forall i | 0 <= i < n :: rows[i].seq_ <= rows[n - 1].seq_;
  }

  function Bodies(rows: seq<Row>): (b: seq<string>)
    ensures |b| == |rows|
  {
    if rows == [] then [] else Bodies(rows[..|rows| - 1]) + [rows[|rows| - 1].body]
  }

  lemma {:induction false} BodiesConcat(a: seq<Row>, b: seq<Row>)
    ensures Bodies(a + b) == Bodies(a) + Bodies(b)
  {
    if b == [] {
      assert a + b == a;
    } else {
      var n := |b| - 1;
      BodiesConcat(a, b[..n]);
      assert (a + b)[..|a + b| - 1] == a + b[..n];
    }
  }

  // ----------------------------------------------------------------- the merge itself

  function Entries(session: nat, rows: seq<Row>): (e: seq<Entry>)
    ensures |e| == |rows|
  {
    if rows == [] then [] else Entries(session, rows[..|rows| - 1]) + [Entry(session, rows[|rows| - 1].body)]
  }

  lemma EntriesAppend(central: seq<Entry>, session: nat, rows: seq<Row>, i: nat)
    requires i < |rows|
    ensures central + Entries(session, rows[..i + 1])
        == (central + Entries(session, rows[..i])) + [Entry(session, rows[i].body)]
  {
    assert rows[..i + 1][..i] == rows[..i];
  }

  function MaxSeq(rows: seq<Row>): (m: nat)
    ensures forall r | r in rows :: r.seq_ <= m
    ensures m == 0 || exists r | r in rows :: r.seq_ == m
  {
    if rows == [] then 0
    else
      var n := |rows| - 1;
      var m := MaxSeq(rows[..n]);
      assert rows == rows[..n] + [rows[n]];
      if rows[n].seq_ > m then rows[n].seq_ else m
  }

  /** `SET activity_synced_seq = max WHERE activity_synced_seq < max`. */
  function Advanced(cursor: nat, rows: seq<Row>): nat {
    if cursor < MaxSeq(rows) then MaxSeq(rows) else cursor
  }

  class Ledger {
    var central: seq<Entry>
    var cursors: seq<nat>

    /** Returns the new cursor value, or the unchanged one for an empty batch. */
    method MergeActivityBatch(session: nat, rows: seq<Row>) returns (synced: nat)
      requires session < |cursors|
      modifies this
      ensures central == old(central) + Entries(session, rows)
      ensures cursors == old(cursors)[session := Advanced(old(cursors)[session], rows)]
      ensures synced == if rows == [] then old(cursors)[session] else MaxSeq(rows)
    {
      if rows == [] {
        assert cursors == cursors[session := cursors[session]];
        return cursors[session];
      }
      var maxSeq := 0;
      for i := 0 to |rows|
        invariant maxSeq == MaxSeq(rows[..i])
      {
        assert rows[..i + 1][..i] == rows[..i];
        maxSeq := if rows[i].seq_ > maxSeq then rows[i].seq_ else maxSeq;
      }
      assert rows[..|rows|] == rows;
      for i := 0 to |rows|
        invariant central == old(central) + Entries(session, rows[..i]) && cursors == old(cursors)
      {
        EntriesAppend(old(central), session, rows, i);
        central := central + [Entry(session, rows[i].body)];
      }
      if cursors[session] < maxSeq {
        cursors := cursors[session := maxSeq];
      }
      return maxSeq;
    }
  }

  // ---------------------------------------------------------------------- every run

  /** Where the host is in draining one session; the inserts of an open transaction are visible to nobody. */
  datatype Drain =
    | Idle
    | HasCursor(since: nat)
    | HasRows(rows: seq<Row>)
    | InTransaction(rows: seq<Row>, inserted: nat)

  datatype State = State(outbound: seq<seq<Row>>, cursors: seq<nat>, drains: seq<Drain>, central: seq<Entry>)

  function Initial(sessions: nat): State {
    State(seq(sessions, i => []), seq(sessions, i => 0), seq(sessions, i => Idle), [])
  }

  datatype Step =
    | Append(session: nat, gap: nat, body: string)
    | ReadCursor(session: nat)
    | ReadRows(session: nat)
    | Begin(session: nat)
    | InsertOne(session: nat)
    | Commit(session: nat)
    | Throw(session: nat)
    | HostDies

  function LastSeq(rows: seq<Row>): nat {
    if rows == [] then 0 else rows[|rows| - 1].seq_
  }

  predicate WellSized(s: State) {
    |s.cursors| == |s.outbound| == |s.drains|
  }

  function Apply(s: State, step: Step): (r: State)
    requires WellSized(s)
    ensures WellSized(r) && |r.drains| == |s.drains|
  {
    if step == HostDies then s.(drains := seq(|s.drains|, i => Idle))
    else if step.session >= |s.drains| then s
    else
      var k, drain := step.session, s.drains[step.session];
      match step
      case Append(_, gap, body) =>
        var row := Row(LastSeq(s.outbound[k]) + 1 + gap, body);
        s.(outbound := s.outbound[k := s.outbound[k] + [row]])
      case ReadCursor(_) => if drain.Idle? then s.(drains := s.drains[k := HasCursor(s.cursors[k])]) else s
      case ReadRows(_) =>
        if !drain.HasCursor? then s
        else s.(drains := s.drains[k := HasRows(GetOutboundActivity(s.outbound[k], drain.since))])
      case Begin(_) =>
        if !drain.HasRows? then s
        else s.(drains := s.drains[k := if drain.rows == [] then Idle else InTransaction(drain.rows, 0)])
      case InsertOne(_) =>
        if drain.InTransaction? && drain.inserted < |drain.rows|
        then s.(drains := s.drains[k := InTransaction(drain.rows, drain.inserted + 1)]) else s
      case Commit(_) =>
        if drain.InTransaction? && drain.inserted == |drain.rows|
        then s.(drains := s.drains[k := Idle], central := s.central + Entries(k, drain.rows),
                cursors := s.cursors[k := Advanced(s.cursors[k], drain.rows)]) else s
      case Throw(_) => s.(drains := s.drains[k := Idle])
  }

  function Run(s: State, steps: seq<Step>): (r: State)
    requires WellSized(s)
    ensures WellSized(r)
    decreases |steps|
  {
    if steps == [] then s else Run(Apply(s, steps[0]), steps[1..])
  }

  /** What the central table says about one session. */
  function CentralOf(central: seq<Entry>, session: nat): seq<string> {
    if central == [] then []
    else
      var n := |central| - 1;
      CentralOf(central[..n], session) + if central[n].session == session then [central[n].body] else []
  }

  lemma CentralOfAppend(central: seq<Entry>, e: Entry, k: nat)
    ensures CentralOf(central + [e], k) == CentralOf(central, k) + if e.session == k then [e.body] else []
  {
    assert (central + [e])[..|central|] == central;
  }

  lemma {:induction false} CentralOfEntries(central: seq<Entry>, j: nat, rows: seq<Row>, k: nat)
    ensures CentralOf(central + Entries(j, rows), k) == CentralOf(central, k) + if j == k then Bodies(rows) else []
  {
    hide CentralOf;
    if rows == [] {
      assert central + Entries(j, rows) == central;
    } else {
      var n := |rows| - 1;
      var earlier, last := Entries(j, rows[..n]), Entry(j, rows[n].body);
      CentralOfEntries(central, j, rows[..n], k);
      CentralOfAppend(central + earlier, last, k);
      assert central + Entries(j, rows) == (central + earlier) + [last];
    }
  }

  /** The batch is the stretch of rows right after the cursor. */
  predicate NextBatch(outbound: seq<Row>, cursor: nat, rows: seq<Row>) {
    var n := Covered(outbound, cursor);
    n + |rows| <= |outbound| && rows == outbound[n..n + |rows|]
  }

  predicate DrainInv(outbound: seq<Row>, cursor: nat, drain: Drain) {
    match drain
    case Idle => true
    case HasCursor(since) => since == cursor
    case HasRows(rows) => NextBatch(outbound, cursor, rows)
    case InTransaction(rows, inserted) => rows != [] && inserted <= |rows| && NextBatch(outbound, cursor, rows)
  }

  predicate SessionInv(outbound: seq<Row>, cursor: nat, drain: Drain, merged: seq<string>) {
    && Increasing(outbound) && cursor <= LastSeq(outbound)
    && merged == Bodies(outbound[..Covered(outbound, cursor)])
    && DrainInv(outbound, cursor, drain)
  }

  predicate Inv(s: State) {
    && WellSized(s)
    && forall k | 0 <= k < |s.drains| ::
         SessionInv(s.outbound[k], s.cursors[k], s.drains[k], CentralOf(s.central, k))
  }

  lemma CoveredAppend(outbound: seq<Row>, cursor: nat, r: Row)
    requires Increasing(outbound) && cursor <= LastSeq(outbound) < r.seq_
    ensures Increasing(outbound + [r]) && Covered(outbound + [r], cursor) == Covered(outbound, cursor)
  {
    hide Covered;
    var grown := outbound + [r];
    assert forall i | 0 <= i < |outbound| :: grown[i] == outbound[i] && outbound[i].seq_ <= LastSeq(outbound);
    CoveredIs(grown, cursor, Covered(outbound, cursor));
  }

  lemma NextBatchAppend(outbound: seq<Row>, cursor: nat, r: Row, rows: seq<Row>)
    requires NextBatch(outbound, cursor, rows) && Covered(outbound + [r], cursor) == Covered(outbound, cursor)
    ensures NextBatch(outbound + [r], cursor, rows)
  {
    hide Covered;
    var n := Covered(outbound, cursor);
    assert (outbound + [r])[n..n + |rows|] == outbound[n..n + |rows|];
  }

  lemma AppendKeeps(outbound: seq<Row>, cursor: nat, drain: Drain, merged: seq<string>, r: Row)
    requires SessionInv(outbound, cursor, drain, merged) && r.seq_ > LastSeq(outbound)
    ensures SessionInv(outbound + [r], cursor, drain, merged)
  {
    hide Bodies, Covered, Increasing, NextBatch;
    CoveredAppend(outbound, cursor, r);
    assert (outbound + [r])[..Covered(outbound, cursor)] == outbound[..Covered(outbound, cursor)];
    match drain
    case HasRows(rows) => NextBatchAppend(outbound, cursor, r, rows);
    case InTransaction(rows, _) => NextBatchAppend(outbound, cursor, r, rows);
    case Idle =>
    case HasCursor(_) =>
  }

  lemma BatchMax(outbound: seq<Row>, cursor: nat, rows: seq<Row>)
    requires Increasing(outbound) && NextBatch(outbound, cursor, rows) && rows != []
    ensures var m := Covered(outbound, cursor) + |rows|;
            && MaxSeq(rows) == outbound[m - 1].seq_ > cursor
            && Covered(outbound, MaxSeq(rows)) == m
  {
    hide Covered, MaxSeq;
    var n := Covered(outbound, cursor);
    var m := n + |rows|;
    CoveredIs(outbound, outbound[m - 1].seq_, m);
  }

  lemma CommitKeeps(outbound: seq<Row>, cursor: nat, drain: Drain, merged: seq<string>)
    requires SessionInv(outbound, cursor, drain, merged) && drain.InTransaction?
    ensures SessionInv(outbound, Advanced(cursor, drain.rows), Idle, merged + Bodies(drain.rows))
    ensures Advanced(cursor, drain.rows) >= cursor
  {
    hide Bodies, MaxSeq, Covered;
    var n, rows := Covered(outbound, cursor), drain.rows;
    BatchMax(outbound, cursor, rows);
    BodiesConcat(outbound[..n], rows);
    assert outbound[..n + |rows|] == outbound[..n] + rows;
  }

  lemma ReadKeeps(outbound: seq<Row>, cursor: nat, drain: Drain, merged: seq<string>)
    requires SessionInv(outbound, cursor, drain, merged) && drain.HasCursor?
    ensures SessionInv(outbound, cursor, HasRows(GetOutboundActivity(outbound, drain.since)), merged)
  {
    CursorSplits(outbound, cursor);
  }

  /** What one step does to session `k`: its rows, its cursor, its drain, and its share of the central table. */
  predicate SessionStep(s: State, s': State, k: nat)
    requires WellSized(s) && WellSized(s') && k < |s.drains| == |s'.drains|
  {
    var out, cursor, drain, merged := s.outbound[k], s.cursors[k], s.drains[k], CentralOf(s.central, k);
    SessionInv(out, cursor, drain, merged) ==>
      SessionInv(s'.outbound[k], s'.cursors[k], s'.drains[k], CentralOf(s'.central, k)) && s'.cursors[k] >= cursor
  }

  lemma AppendStepKeeps(s: State, j: nat, gap: nat, body: string, k: nat)
    requires WellSized(s) && k < |s.drains|
    ensures SessionStep(s, Apply(s, Append(j, gap, body)), k)
  {
    hide SessionInv, CentralOf;
    if SessionInv(s.outbound[k], s.cursors[k], s.drains[k], CentralOf(s.central, k)) && j == k {
      AppendKeeps(s.outbound[k], s.cursors[k], s.drains[k], CentralOf(s.central, k),
          Row(LastSeq(s.outbound[k]) + 1 + gap, body));
    }
  }

  lemma CommitStepKeeps(s: State, j: nat, k: nat)
    requires WellSized(s) && k < |s.drains|
    ensures SessionStep(s, Apply(s, Commit(j)), k)
  {
    hide SessionInv, CentralOf, Entries, Advanced, Bodies;
    if j < |s.drains| && s.drains[j].InTransaction? {
      CentralOfEntries(s.central, j, s.drains[j].rows, k);
      assert CentralOf(s.central, k) + [] == CentralOf(s.central, k);
      if SessionInv(s.outbound[k], s.cursors[k], s.drains[k], CentralOf(s.central, k)) && j == k {
        CommitKeeps(s.outbound[k], s.cursors[k], s.drains[k], CentralOf(s.central, k));
      }
    }
  }

  lemma ReadStepKeeps(s: State, j: nat, k: nat)
    requires WellSized(s) && k < |s.drains|
    ensures SessionStep(s, Apply(s, ReadRows(j)), k)
  {
    hide SessionInv, CentralOf, GetOutboundActivity;
    if SessionInv(s.outbound[k], s.cursors[k], s.drains[k], CentralOf(s.central, k)) && j == k
        && s.drains[k].HasCursor? {
      ReadKeeps(s.outbound[k], s.cursors[k], s.drains[k], CentralOf(s.central, k));
    }
  }

  /** The other steps change drains only. */
  lemma DrainStepKeeps(s: State, step: Step, k: nat)
    requires WellSized(s) && k < |s.drains| && !step.Append? && !step.Commit? && !step.ReadRows?
    ensures SessionStep(s, Apply(s, step), k)
  {
    hide CentralOf, NextBatch, Increasing, Covered, Bodies, LastSeq;
  }

  lemma StepKeepsSession(s: State, step: Step, k: nat)
    requires WellSized(s) && k < |s.drains|
    ensures SessionStep(s, Apply(s, step), k)
  {
    hide *;
    match step
    case Append(j, gap, body) => AppendStepKeeps(s, j, gap, body, k);
    case Commit(j) => CommitStepKeeps(s, j, k);
    case ReadRows(j) => ReadStepKeeps(s, j, k);
    case _ => DrainStepKeeps(s, step, k);
  }

  lemma StepKeepsInv(s: State, step: Step)
    requires Inv(s)
    ensures Inv(Apply(s, step))
    ensures forall k | 0 <= k < |s.drains| :: Apply(s, step).cursors[k] >= s.cursors[k]
  {
    hide SessionInv, CentralOf, Apply;
    var s' := Apply(s, step);
    forall k | 0 <= k < |s.drains|
      ensures SessionInv(s'.outbound[k], s'.cursors[k], s'.drains[k], CentralOf(s'.central, k))
          && s'.cursors[k] >= s.cursors[k]
    {
      StepKeepsSession(s, step, k);
    }
  }

  predicate CursorsRise(s: State, t: State)
    requires WellSized(s) && WellSized(t)
  {
    |t.drains| == |s.drains| && forall k | 0 <= k < |s.drains| :: t.cursors[k] >= s.cursors[k]
  }

  lemma {:induction false} InvKept(s: State, steps: seq<Step>)
    requires Inv(s)
    ensures Inv(Run(s, steps)) && s.central <= Run(s, steps).central && CursorsRise(s, Run(s, steps))
    decreases |steps|
  {
    hide SessionInv, Entries;
    if steps != [] {
      var s' := Apply(s, steps[0]);
      StepKeepsInv(s, steps[0]);
      InvKept(s', steps[1..]);
      assert s.central <= s'.central;
    }
  }

  lemma InvHolds(sessions: nat, steps: seq<Step>)
    ensures Inv(Run(Initial(sessions), steps))
  {
    assert Inv(Initial(sessions)) by {
      assert Covered([], 0) == 0;
    }
    InvKept(Initial(sessions), steps);
  }

  /** Exactly once: the central rows of a session are its outbound rows up to the cursor, in order. */
  lemma MergedExactlyOnce(sessions: nat, steps: seq<Step>, k: nat)
    requires k < sessions
    ensures var s := Run(Initial(sessions), steps);
            |s.drains| == sessions && CentralOf(s.central, k) == Bodies(UpTo(s.outbound[k], s.cursors[k]))
  {
    hide Bodies, UpTo, CentralOf;
    InvHolds(sessions, steps);
    var s := Run(Initial(sessions), steps);
    SizeKept(Initial(sessions), steps);
    assert SessionInv(s.outbound[k], s.cursors[k], s.drains[k], CentralOf(s.central, k));
    CursorSplits(s.outbound[k], s.cursors[k]);
  }

  lemma {:induction false} SizeKept(s: State, steps: seq<Step>)
    requires WellSized(s)
    ensures |Run(s, steps).drains| == |s.drains|
    decreases |steps|
  {
    hide GetOutboundActivity, Entries, MaxSeq;
    if steps != [] {
      SizeKept(Apply(s, steps[0]), steps[1..]);
    }
  }

  /** Nothing merged is lost and no cursor falls, across deaths and failed transactions alike. */
  lemma CursorNeverFalls(sessions: nat, before: seq<Step>, after: seq<Step>)
    ensures var s := Run(Initial(sessions), before);
            s.central <= Run(s, after).central && CursorsRise(s, Run(s, after))
  {
    InvHolds(sessions, before);
    InvKept(Run(Initial(sessions), before), after);
  }

  // ------------------------------------------------------------------- catching up

  function Inserts(k: nat, n: nat): seq<Step> {
    if n == 0 then [] else [InsertOne(k)] + Inserts(k, n - 1)
  }

  lemma {:induction false} RunConcat(s: State, a: seq<Step>, b: seq<Step>)
    requires WellSized(s)
    ensures Run(s, a + b) == Run(Run(s, a), b)
    decreases |a|
  {
    hide Apply;
    if a == [] {
      assert a + b == b;
    } else {
      assert (a + b)[0] == a[0] && (a + b)[1..] == a[1..] + b;
      RunConcat(Apply(s, a[0]), a[1..], b);
    }
  }

  lemma {:induction false} InsertsRun(s: State, k: nat, n: nat, rows: seq<Row>, done: nat)
    requires WellSized(s) && k < |s.drains| && s.drains[k] == InTransaction(rows, done) && done + n == |rows|
    ensures Run(s, Inserts(k, n)) == s.(drains := s.drains[k := InTransaction(rows, |rows|)])
    decreases n
  {
    if n == 0 {
      assert s.drains[k := InTransaction(rows, |rows|)] == s.drains;
    } else {
      var s' := Apply(s, InsertOne(k));
      assert Inserts(k, n)[0] == InsertOne(k) && Inserts(k, n)[1..] == Inserts(k, n - 1);
      InsertsRun(s', k, n - 1, rows, done + 1);
    }
  }

  /** One undisturbed drain of a session. */
  function Drained(s: State, k: nat): State
    requires WellSized(s) && k < |s.drains|
  {
    var read := Run(s, [ReadCursor(k), ReadRows(k), Begin(k)]);
    var n := |GetOutboundActivity(s.outbound[k], s.cursors[k])|;
    Run(read, Inserts(k, n) + [Commit(k)])
  }

  lemma ReadsRun(s: State, k: nat)
    requires WellSized(s) && k < |s.drains| && s.drains[k].Idle?
    ensures var rows := GetOutboundActivity(s.outbound[k], s.cursors[k]);
            Run(s, [ReadCursor(k), ReadRows(k), Begin(k)])
              == s.(drains := s.drains[k := if rows == [] then Idle else InTransaction(rows, 0)])
  {
    hide GetOutboundActivity, Entries, MaxSeq;
    var steps := [ReadCursor(k), ReadRows(k), Begin(k)];
    var s1 := Apply(s, steps[0]);
    var s2 := Apply(s1, steps[1]);
    var s3 := Apply(s2, steps[2]);
    assert steps[1..][1..] == [Begin(k)] && steps[1..][0] == ReadRows(k);
    assert [Begin(k)][1..] == [];
    assert Run(s, steps) == Run(s1, steps[1..]) == Run(s2, [Begin(k)]) == Run(s3, []);
  }

  lemma EmptyDrain(s: State, k: nat)
    requires WellSized(s) && k < |s.drains| && s.drains[k].Idle?
        && GetOutboundActivity(s.outbound[k], s.cursors[k]) == []
    ensures Drained(s, k) == s
  {
    hide GetOutboundActivity;
    ReadsRun(s, k);
    assert s.drains[k := Idle] == s.drains;
    assert Run(s, [ReadCursor(k), ReadRows(k), Begin(k)]) == s;
    assert Inserts(k, 0) + [Commit(k)] == [Commit(k)] && [Commit(k)][1..] == [];
    assert Run(s, [Commit(k)]) == Apply(s, Commit(k)) == s;
  }

  lemma FullDrain(s: State, k: nat)
    requires WellSized(s) && k < |s.drains| && s.drains[k].Idle?
        && GetOutboundActivity(s.outbound[k], s.cursors[k]) != []
    ensures var rows := GetOutboundActivity(s.outbound[k], s.cursors[k]);
            Drained(s, k) == s.(central := s.central + Entries(k, rows),
                cursors := s.cursors[k := Advanced(s.cursors[k], rows)])
  {
    hide GetOutboundActivity, Entries, MaxSeq;
    var rows := GetOutboundActivity(s.outbound[k], s.cursors[k]);
    ReadsRun(s, k);
    var read := s.(drains := s.drains[k := InTransaction(rows, 0)]);
    RunConcat(read, Inserts(k, |rows|), [Commit(k)]);
    InsertsRun(read, k, |rows|, rows, 0);
    var full := read.(drains := read.drains[k := InTransaction(rows, |rows|)]);
    assert [Commit(k)][1..] == [];
    assert Run(full, [Commit(k)]) == Apply(full, Commit(k));
    assert full.drains[k := Idle] == s.drains;
  }

  /** What a session writes goes to the end of its own rows, under a number above all of them. */
  lemma AppendWrites(sessions: nat, steps: seq<Step>, k: nat, gap: nat, body: string)
    requires k < sessions
    ensures var s := Run(Initial(sessions), steps);
            |s.outbound| == sessions
            && var s' := Apply(s, Append(k, gap, body));
            && Bodies(s'.outbound[k]) == Bodies(s.outbound[k]) + [body] && Increasing(s'.outbound[k])
            && s' == s.(outbound := s.outbound[k := s'.outbound[k]])
  {
    hide Bodies;
    SizeKept(Initial(sessions), steps);
    InvHolds(sessions, steps);
    var s := Run(Initial(sessions), steps);
    assert SessionInv(s.outbound[k], s.cursors[k], s.drains[k], CentralOf(s.central, k));
    var s' := Apply(s, Append(k, gap, body));
    var row := s'.outbound[k][|s.outbound[k]|];
    AppendKeeps(s.outbound[k], s.cursors[k], s.drains[k], CentralOf(s.central, k), row);
    BodiesConcat(s.outbound[k], [row]);
    OneBody(row);
  }

  lemma OneBody(row: Row)
    ensures Bodies([row]) == [row.body]
  {
  }

  /**
   However often the host died or a drain threw before, one undisturbed drain brings over everything
   the session wrote.
   */
  lemma CleanDrainCatchesUp(sessions: nat, steps: seq<Step>, stop: Step, k: nat)
    requires k < sessions && (stop == HostDies || stop == Throw(k))
    ensures var s := Run(Initial(sessions), steps + [stop]);
            |s.drains| == sessions && CentralOf(Drained(s, k).central, k) == Bodies(s.outbound[k])
  {
    hide GetOutboundActivity, Bodies, CentralOf, Entries, MaxSeq, UpTo;
    var s := Run(Initial(sessions), steps + [stop]);
    SizeKept(Initial(sessions), steps);
    SizeKept(Initial(sessions), steps + [stop]);
    RunConcat(Initial(sessions), steps, [stop]);
    assert [stop][1..] == [];
    assert s == Apply(Run(Initial(sessions), steps), stop);
    MergedExactlyOnce(sessions, steps + [stop], k);
    InvHolds(sessions, steps + [stop]);
    var out, c := s.outbound[k], s.cursors[k];
    assert SessionInv(out, c, s.drains[k], CentralOf(s.central, k));
    CursorSplits(out, c);
    var n := Covered(out, c);
    BodiesConcat(out[..n], out[n..]);
    assert out == out[..n] + out[n..];
    if out[n..] == [] {
      EmptyDrain(s, k);
      assert out[..n] == out;
    } else {
      FullDrain(s, k);
      CentralOfEntries(s.central, k, out[n..], k);
    }
  }
}
