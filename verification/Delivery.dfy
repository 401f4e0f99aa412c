/**
 The outbound delivery loop. Two timer chains, and any other caller, may call
 deliverSessionMessages at any moment; a call can be suspended wherever the
 source awaits, which is at every send. A run is any sequence of steps.

 Message ids are unique across sessions: `outbox` gives each id its session.
 */
module Delivery {

  type MsgId = string
  type SessionId = string

  const MAX_DELIVERY_ATTEMPTS: nat := 3

  datatype Outcome = Delivered | GivenUp

  // ------------------------------------------------------------- one settled send

  datatype Ledger = Ledger(recorded: map<MsgId, Outcome>, attempts: map<MsgId, nat>)

  function Attempts(l: Ledger, id: MsgId): nat {
    if id in l.attempts then l.attempts[id] else 0
  }

  /** INSERT OR IGNORE into the delivered table. */
  function Record(l: Ledger, id: MsgId, o: Outcome): Ledger {
    l.(recorded := if id in l.recorded then l.recorded else l.recorded[id := o], attempts := l.attempts - {id})
  }

  /** What follows the await: a success, or a throw caught by the loop. */
  function Settle(l: Ledger, id: MsgId, ok: bool): Ledger {
    if ok then Record(l, id, Delivered)
    else if Attempts(l, id) + 1 >= MAX_DELIVERY_ATTEMPTS then Record(l, id, GivenUp)
    else l.(attempts := l.attempts[id := Attempts(l, id) + 1])
  }

  function Undelivered(due: seq<MsgId>, recorded: map<MsgId, Outcome>): (r: seq<MsgId>)
    ensures forall id :: id in r <==> id in due && id !in recorded
    ensures Distinct(due) ==> Distinct(r)
  {
    if due == [] then []
    else
      var last := due[|due| - 1];
      var init := Undelivered(due[..|due| - 1], recorded);
      assert due == due[..|due| - 1] + [last];
      if last in recorded then init else init + [last]
  }

  predicate Increasing(f: seq<nat>) {
    forall i, j | 0 <= i < j < |f| :: f[i] < f[j]
  }

  /** `f` are the places of the unrecorded rows in `due`, all of them and from left to right. */
  predicate Unrecorded(f: seq<nat>, due: seq<MsgId>, recorded: map<MsgId, Outcome>) {
    && Increasing(f)
    && (forall i | 0 <= i < |f| :: f[i] < |due| && due[f[i]] !in recorded)
    && (forall j | 0 <= j < |due| && due[j] !in recorded :: j in f)
  }

  function Picked(due: seq<MsgId>, f: seq<nat>): (r: seq<MsgId>)
    requires forall i | 0 <= i < |f| :: f[i] < |due|
    ensures |r| == |f| && forall i | 0 <= i < |f| :: r[i] == due[f[i]]
  {
    seq(|f|, i requires 0 <= i < |f| => due[f[i]])
  }

  lemma OneMoreUnrecorded(f: seq<nat>, due: seq<MsgId>, id: MsgId, recorded: map<MsgId, Outcome>)
    requires Unrecorded(f, due, recorded)
    ensures Unrecorded(if id in recorded then f else f + [|due|], due + [id], recorded)
  {
    assert |due| in f + [|due|];
  }

  lemma PickedFromInit(due: seq<MsgId>, id: MsgId, f: seq<nat>)
    requires forall i | 0 <= i < |f| :: f[i] < |due|
    ensures Picked(due + [id], f) == Picked(due, f)
    ensures Picked(due + [id], f + [|due|]) == Picked(due, f) + [id]
  {
  }

  /** What is left to deliver stands in the order of the query. */
  lemma {:induction false} UndeliveredKeepsOrder(due: seq<MsgId>, recorded: map<MsgId, Outcome>) returns (f: seq<nat>)
    ensures Unrecorded(f, due, recorded) && Undelivered(due, recorded) == Picked(due, f)
  {
    if due == [] {
      f := [];
    } else {
      var init, last := due[..|due| - 1], due[|due| - 1];
      assert due == init + [last];
      f := UndeliveredKeepsOrder(init, recorded);
      OneMoreUnrecorded(f, init, last, recorded);
      PickedFromInit(init, last, f);
      hide Unrecorded;
      f := if last in recorded then f else f + [|init|];
    }
  }

  predicate Distinct(ids: seq<MsgId>) {
    forall i, j | 0 <= i < j < |ids| :: ids[i] != ids[j]
  }

  // ------------------------------------------------------------------ the machine

  /** A call past its guard: `todo[0]` is with the channel adapter when `sending`. */
  datatype Drain = Drain(session: SessionId, todo: seq<MsgId>, sending: bool)

  /** `handed` counts calls of deliverMessage and `succeeded` its successes; no step reads them. */
  datatype State = State(
    outbox: map<MsgId, SessionId>,
    ledger: Ledger,
    inflight: set<SessionId>,
    drains: map<nat, Drain>,
    handed: map<MsgId, nat>,
    succeeded: set<MsgId>)

  const INIT := State(map[], Ledger(map[], map[]), {}, map[], map[], {})

  datatype Step =
    | Append(id: MsgId, session: SessionId)
    | Call(caller: nat, session: SessionId, due: seq<MsgId>)
    | Send(caller: nat)
    | Resolve(caller: nat, ok: bool)
    | Return(caller: nat)

  function Handed(s: State, id: MsgId): nat {
    if id in s.handed then s.handed[id] else 0
  }

  /** The due rows of a session's own outbound table, each once, in any order. */
  predicate DueRows(s: State, session: SessionId, due: seq<MsgId>) {
    Distinct(due) && forall id | id in due :: id in s.outbox && s.outbox[id] == session
  }

  function Apply(s: State, step: Step): State {
    match step
    case Append(id, session) => if id in s.outbox then s else s.(outbox := s.outbox[id := session])
    case Call(k, session, due) =>
      if k in s.drains || session in s.inflight || !DueRows(s, session, due) then s
      else s.(inflight := s.inflight + {session},
              drains := s.drains[k := Drain(session, Undelivered(due, s.ledger.recorded), false)])
    case Send(k) =>
      if k !in s.drains || s.drains[k].sending || s.drains[k].todo == [] then s
      else
        var id := s.drains[k].todo[0];
        s.(drains := s.drains[k := s.drains[k].(sending := true)], handed := s.handed[id := Handed(s, id) + 1])
    case Resolve(k, ok) =>
      if k !in s.drains || !s.drains[k].sending || s.drains[k].todo == [] then s
      else
        var d := s.drains[k];
        s.(ledger := Settle(s.ledger, d.todo[0], ok),
           drains := s.drains[k := Drain(d.session, d.todo[1..], false)],
           succeeded := if ok then s.succeeded + {d.todo[0]} else s.succeeded)
    case Return(k) =>
      if k !in s.drains || s.drains[k].sending || s.drains[k].todo != [] then s
      else s.(inflight := s.inflight - {s.drains[k].session}, drains := s.drains - {k})
  }

  function Run(s: State, steps: seq<Step>): State {
    if steps == [] then s else Apply(Run(s, steps[..|steps| - 1]), steps[|steps| - 1])
  }

  // -------------------------------------------------------------------- invariant

  function Sending(s: State): set<MsgId> {
    set k | k in s.drains && s.drains[k].sending && s.drains[k].todo != [] :: s.drains[k].todo[0]
  }

  predicate DrainOk(s: State, d: Drain) {
    && d.session in s.inflight
    && Distinct(d.todo)
    && (d.sending ==> d.todo != [])
    && forall id | id in d.todo :: id in s.outbox && s.outbox[id] == d.session && id !in s.ledger.recorded
  }

  /** One message against the ledger. */
  predicate MessageOk(s: State, id: MsgId) {
    && (id in s.ledger.attempts ==> 1 <= s.ledger.attempts[id] < MAX_DELIVERY_ATTEMPTS && id !in s.ledger.recorded)
    && (id !in s.ledger.recorded ==>
          && id !in s.succeeded
          && Handed(s, id) == Attempts(s.ledger, id) + if id in Sending(s) then 1 else 0)
    && (id in s.ledger.recorded ==>
          && id !in Sending(s)
          && 1 <= Handed(s, id) <= MAX_DELIVERY_ATTEMPTS
          && (s.ledger.recorded[id] == Delivered <==> id in s.succeeded)
          && (s.ledger.recorded[id] == GivenUp ==> Handed(s, id) == MAX_DELIVERY_ATTEMPTS))
  }

  ghost predicate Inv(s: State) {
    && (forall k | k in s.drains :: DrainOk(s, s.drains[k]))
    && (forall j, k | j in s.drains && k in s.drains && j != k :: s.drains[j].session != s.drains[k].session)
    && (forall id :: MessageOk(s, id))
  }

  lemma SendingAfterSend(s: State, k: nat)
    requires Inv(s) && Apply(s, Send(k)) != s
    ensures Sending(Apply(s, Send(k))) == Sending(s) + {s.drains[k].todo[0]}
  {
    hide Inv;
    var s' := Apply(s, Send(k));
    assert s'.drains[k].sending;
    forall x | x in Sending(s)
      ensures x in Sending(s')
    {
      var j :| j in s.drains && s.drains[j].sending && s.drains[j].todo != [] && s.drains[j].todo[0] == x;
      assert s'.drains[j] == s.drains[j];
    }
  }

  lemma SendKeepsInv(s: State, k: nat)
    requires Inv(s)
    ensures Inv(Apply(s, Send(k)))
  {
    hide Sending;
    var s' := Apply(s, Send(k));
    if s' != s {
      var id := s.drains[k].todo[0];
      assert DrainOk(s, s.drains[k]) && id in s.drains[k].todo;
      SendingIsOwn(s, k, id);
      SendingAfterSend(s, k);
      forall x
        ensures MessageOk(s', x)
      {
        assert MessageOk(s, x);
      }
      assert forall j | j in s'.drains :: DrainOk(s, s.drains[j]);
    }
  }

  /** A message on a call's list is with the adapter only through that call. */
  lemma SendingIsOwn(s: State, k: nat, id: MsgId)
    requires Inv(s) && k in s.drains && id in s.drains[k].todo
    ensures id in Sending(s) ==> s.drains[k].sending && s.drains[k].todo[0] == id
  {
    if id in Sending(s) {
      var j :| j in s.drains && s.drains[j].sending && s.drains[j].todo != [] && s.drains[j].todo[0] == id;
      assert DrainOk(s, s.drains[j]) && DrainOk(s, s.drains[k]);
      assert id in s.drains[j].todo;
    }
  }

  lemma SendingAfterResolve(s: State, k: nat, ok: bool)
    requires Inv(s) && k in s.drains && s.drains[k].sending
    ensures Sending(Apply(s, Resolve(k, ok))) == Sending(s) - {s.drains[k].todo[0]}
  {
    var s' := Apply(s, Resolve(k, ok));
    var id := s.drains[k].todo[0];
    assert DrainOk(s, s.drains[k]);
    assert id in s.drains[k].todo;
    forall j | j in s.drains && j != k && s.drains[j].sending
      ensures s.drains[j].todo != [] && s.drains[j].todo[0] != id
    {
      assert DrainOk(s, s.drains[j]);
      assert s.drains[j].todo[0] in s.drains[j].todo;
    }
    forall x | x in Sending(s) && x != id
      ensures x in Sending(s')
    {
      var j :| j in s.drains && s.drains[j].sending && s.drains[j].todo != [] && s.drains[j].todo[0] == x;
      assert s'.drains[j] == s.drains[j];
    }
  }

  lemma ResolveKeepsDrains(s: State, k: nat, ok: bool)
    requires Inv(s) && k in s.drains && s.drains[k].sending
    ensures forall j | j in s.drains :: DrainOk(Apply(s, Resolve(k, ok)), Apply(s, Resolve(k, ok)).drains[j])
  {
    var s' := Apply(s, Resolve(k, ok));
    var id := s.drains[k].todo[0];
    assert DrainOk(s, s.drains[k]);
    assert id in s.drains[k].todo;
    forall j | j in s.drains
      ensures DrainOk(s', s'.drains[j])
    {
      assert DrainOk(s, s.drains[j]);
      var todo := s.drains[j].todo;
      if j == k {
        assert forall i | 0 <= i < |todo| - 1 :: s'.drains[j].todo[i] == todo[i + 1];
        assert forall x | x in todo[1..] :: x in todo && x != id;
      }
    }
  }

  lemma ResolveKeepsInv(s: State, k: nat, ok: bool)
    requires Inv(s)
    ensures Inv(Apply(s, Resolve(k, ok)))
  {
    var s' := Apply(s, Resolve(k, ok));
    if k in s.drains && s.drains[k].sending && s.drains[k].todo != [] {
      var id := s.drains[k].todo[0];
      SendingAfterResolve(s, k, ok);
      ResolveKeepsDrains(s, k, ok);
      assert id in Sending(s) && id in s.drains[k].todo;
      assert DrainOk(s, s.drains[k]);
      forall x
        ensures MessageOk(s', x)
      {
        assert MessageOk(s, x);
      }
    }
  }

  lemma OtherStepsKeepInv(s: State, step: Step)
    requires Inv(s) && (step.Append? || step.Call? || step.Return?)
    ensures Inv(Apply(s, step))
  {
    var s' := Apply(s, step);
    if s' != s {
      forall k | k in s'.drains
        ensures DrainOk(s', s'.drains[k])
      {
        assert k in s.drains ==> DrainOk(s, s.drains[k]);
      }
      forall x | x in Sending(s)
        ensures x in Sending(s')
      {
        var j :| j in s.drains && s.drains[j].sending && s.drains[j].todo != [] && s.drains[j].todo[0] == x;
        assert s'.drains[j] == s.drains[j];
      }
      assert Sending(s') == Sending(s);
      forall x
        ensures MessageOk(s', x)
      {
        assert MessageOk(s, x);
      }
    }
  }

  lemma StepKeepsInv(s: State, step: Step)
    requires Inv(s)
    ensures Inv(Apply(s, step))
  {
    match step
    case Send(k) => SendKeepsInv(s, k);
    case Resolve(k, ok) => ResolveKeepsInv(s, k, ok);
    case _ => OtherStepsKeepInv(s, step);
  }

  lemma {:induction false} InvHolds(steps: seq<Step>)
    ensures Inv(Run(INIT, steps))
  {
    if steps != [] {
      InvHolds(steps[..|steps| - 1]);
      StepKeepsInv(Run(INIT, steps[..|steps| - 1]), steps[|steps| - 1]);
    }
  }

  // ----------------------------------------------------------------- main results

  /**
   In every run: a message is handed to the adapter at most three times; its
   recorded outcome says what happened; a counter left in the attempts map is 1
   or 2 and belongs to an unrecorded message; and a message handed over three
   times with no send in flight has its outcome.
   */
  lemma DeliveryIsBounded(steps: seq<Step>, id: MsgId)
    ensures var s := Run(INIT, steps);
            var recorded, attempts := s.ledger.recorded, s.ledger.attempts;
            && Handed(s, id) <= MAX_DELIVERY_ATTEMPTS
            && (id in attempts ==> attempts[id] in {1, 2} && id !in recorded)
            && (id in s.succeeded <==> id in recorded && recorded[id] == Delivered)
            && (id in recorded && recorded[id] == GivenUp ==> Handed(s, id) == MAX_DELIVERY_ATTEMPTS)
            && (Handed(s, id) == MAX_DELIVERY_ATTEMPTS && id !in Sending(s) ==> id in recorded)
  {
    InvHolds(steps);
    assert MessageOk(Run(INIT, steps), id);
  }

  /** A recorded message keeps its one outcome and is never handed over again. */
  predicate SettledForever(s: State, s': State, id: MsgId) {
    id in s.ledger.recorded ==>
      && id in s'.ledger.recorded
      && s'.ledger.recorded[id] == s.ledger.recorded[id]
      && Handed(s', id) == Handed(s, id)
  }

  lemma StepKeepsSettled(s: State, step: Step, id: MsgId)
    requires Inv(s)
    ensures SettledForever(s, Apply(s, step), id)
  {
    match step
    case Send(k) =>
      if k in s.drains && s.drains[k].todo != [] {
        assert DrainOk(s, s.drains[k]);
        assert s.drains[k].todo[0] in s.drains[k].todo;
      }
    case _ =>
  }

  /** After a success, or after giving up, no continuation of the run delivers the message again. */
  lemma {:induction false} NeverResent(before: seq<Step>, after: seq<Step>, id: MsgId)
    ensures Inv(Run(Run(INIT, before), after))
    ensures SettledForever(Run(INIT, before), Run(Run(INIT, before), after), id)
  {
    InvHolds(before);
    if after != [] {
      var n := |after| - 1;
      NeverResent(before, after[..n], id);
      var mid := Run(Run(INIT, before), after[..n]);
      StepKeepsInv(mid, after[n]);
      StepKeepsSettled(mid, after[n], id);
    }
  }

  /** Two calls are never inside the same session, so no row is with the adapter twice. */
  lemma CallsExcludeEachOther(steps: seq<Step>, j: nat, k: nat)
    requires var s := Run(INIT, steps); j in s.drains && k in s.drains && j != k
    ensures var s := Run(INIT, steps);
            && s.drains[j].session != s.drains[k].session
            && forall id | id in s.drains[j].todo :: id !in s.drains[k].todo
  {
    InvHolds(steps);
    var s := Run(INIT, steps);
    assert DrainOk(s, s.drains[j]) && DrainOk(s, s.drains[k]);
  }

  /** The messages that caller `k` hands to the adapter along a run, in order. */
  function Sent(s: State, steps: seq<Step>, k: nat): seq<MsgId> {
    if steps == [] then []
    else
      var n := |steps| - 1;
      var mid := Run(s, steps[..n]);
      Sent(s, steps[..n], k) + if steps[n] == Send(k) && Apply(mid, Send(k)) != mid then [mid.drains[k].todo[0]] else []
  }

  /** Caller numbers are used once. */
  predicate NoFurtherCall(steps: seq<Step>, k: nat) {
    forall step | step in steps :: step.Call? ==> step.caller != k
  }

  /** What `k` has sent, and what it has left, are its list; when it has returned it has sent all of it. */
  predicate SentSoFar(s: State, sent: seq<MsgId>, todo: seq<MsgId>, k: nat) {
    if k !in s.drains then sent == todo
    else if s.drains[k].sending then
      s.drains[k].todo != [] && sent != [] && sent[..|sent| - 1] + s.drains[k].todo == todo
      && sent[|sent| - 1] == s.drains[k].todo[0]
    else sent + s.drains[k].todo == todo
  }

  lemma StepSendsNext(s: State, step: Step, sent: seq<MsgId>, todo: seq<MsgId>, k: nat)
    requires SentSoFar(s, sent, todo, k) && !(step.Call? && step.caller == k)
    ensures var more := if step == Send(k) && Apply(s, Send(k)) != s then [s.drains[k].todo[0]] else [];
            SentSoFar(Apply(s, step), sent + more, todo, k)
  {
    hide Settle, Handed;
    assert sent + [] == sent;
    if k in s.drains && s.drains[k].todo != [] {
      var left := s.drains[k].todo;
      if step == Send(k) && !s.drains[k].sending {
        assert (sent + [left[0]])[..|sent|] == sent;
        assert Apply(s, step).drains[k].sending;
      }
      if step.Resolve? && step.caller == k && s.drains[k].sending {
        assert sent[..|sent| - 1] + left == sent + left[1..];
      }
    }
  }

  lemma {:induction false} SendsRun(s: State, steps: seq<Step>, k: nat, todo: seq<MsgId>)
    requires SentSoFar(s, [], todo, k) && NoFurtherCall(steps, k)
    ensures SentSoFar(Run(s, steps), Sent(s, steps, k), todo, k)
  {
    if steps != [] {
      hide SentSoFar, Apply;
      var n := |steps| - 1;
      assert forall step | step in steps[..n] :: step in steps;
      assert steps[n] in steps;
      SendsRun(s, steps[..n], k, todo);
      StepSendsNext(Run(s, steps[..n]), steps[n], Sent(s, steps[..n], k), todo, k);
    }
  }

  /**
   In every continuation, whatever other calls do, a call has handed over a prefix of its list, which
   is the query's rows without the recorded ones, in the query's order: no row goes out after a later
   one. Once it has returned it has handed over all of it.
   */
  lemma SendsInOrder(before: seq<Step>, k: nat, session: SessionId, due: seq<MsgId>, after: seq<Step>)
      returns (f: seq<nat>)
    requires var s := Run(INIT, before); k !in s.drains && session !in s.inflight && DueRows(s, session, due)
    requires NoFurtherCall(after, k)
    ensures var s := Run(INIT, before);
            var called := Apply(s, Call(k, session, due));
            var sent := Sent(called, after, k);
            && Unrecorded(f, due, s.ledger.recorded)
            && sent <= Picked(due, f)
            && (k !in Run(called, after).drains ==> sent == Picked(due, f))
  {
    hide Run, Sent, Increasing, DueRows;
    var s := Run(INIT, before);
    var called := Apply(s, Call(k, session, due));
    var todo := Undelivered(due, s.ledger.recorded);
    f := UndeliveredKeepsOrder(due, s.ledger.recorded);
    hide Unrecorded, Undelivered, Picked;
    assert [] + todo == todo;
    assert called.drains[k] == Drain(session, todo, false);
    SendsRun(called, after, k, todo);
    SentIsPrefix(Run(called, after), Sent(called, after, k), todo, k);
  }

  lemma SentIsPrefix(s: State, sent: seq<MsgId>, todo: seq<MsgId>, k: nat)
    requires SentSoFar(s, sent, todo, k)
    ensures sent <= todo && (k !in s.drains ==> sent == todo)
  {
    if k in s.drains && s.drains[k].sending {
      assert sent == sent[..|sent| - 1] + [s.drains[k].todo[0]];
    }
  }

  // --------------------------------------------------------------------- the code

  /** The ledger after a whole uninterrupted drain, `sends` telling how each send ends. */
  function DrainAll(l: Ledger, todo: seq<MsgId>, sends: seq<bool>): Ledger
    requires |todo| == |sends|
  {
    if todo == [] then l
    else Settle(DrainAll(l, todo[..|todo| - 1], sends[..|sends| - 1]), todo[|todo| - 1], sends[|sends| - 1])
  }

  /** The module's state: the attempts map, the in-flight set and the delivered tables. */
  class DeliveryLoop {
    var recorded: map<MsgId, Outcome>
    var deliveryAttempts: map<MsgId, nat>
    var inflightDeliveries: set<SessionId>

    ghost function Contents(): Ledger
      reads this
    {
      Ledger(recorded, deliveryAttempts)
    }

    constructor ()
      ensures Contents() == Ledger(map[], map[]) && inflightDeliveries == {}
    {
      recorded, deliveryAttempts, inflightDeliveries := map[], map[], {};
    }

    method MarkOutcome(id: MsgId, o: Outcome)
      modifies this`recorded
      ensures recorded == if id in old(recorded) then old(recorded) else old(recorded)[id := o]
    {
      if id !in recorded {
        recorded := recorded[id := o];
      }
    }

    /** The loop body after its await. */
    method SettleSend(id: MsgId, ok: bool)
      modifies this`recorded, this`deliveryAttempts
      ensures Contents() == Settle(old(Contents()), id, ok)
    {
      if ok {
        MarkOutcome(id, Delivered);
        deliveryAttempts := deliveryAttempts - {id};
      } else {
        var attempts := (if id in deliveryAttempts then deliveryAttempts[id] else 0) + 1;
        deliveryAttempts := deliveryAttempts[id := attempts];
        if attempts >= MAX_DELIVERY_ATTEMPTS {
          MarkOutcome(id, GivenUp);
          deliveryAttempts := deliveryAttempts - {id};
        }
      }
    }

    method DrainSession(due: seq<MsgId>, sends: seq<bool>)
      requires |sends| >= |due|
      modifies this`recorded, this`deliveryAttempts
      ensures var todo := Undelivered(due, old(recorded));
              |todo| <= |sends| && Contents() == DrainAll(old(Contents()), todo, sends[..|todo|])
    {
      var undelivered := Undelivered(due, recorded);
      UndeliveredIsShorter(due, recorded);
      for i := 0 to |undelivered|
        invariant Contents() == DrainAll(old(Contents()), undelivered[..i], sends[..i])
      {
        assert undelivered[..i + 1][..i] == undelivered[..i] && sends[..i + 1][..i] == sends[..i];
        SettleSend(undelivered[i], sends[i]);
      }
      assert undelivered[..|undelivered|] == undelivered;
    }

    method DeliverSessionMessages(session: SessionId, due: seq<MsgId>, sends: seq<bool>)
      requires |sends| >= |due|
      modifies this
      ensures inflightDeliveries == old(inflightDeliveries)
      ensures session in old(inflightDeliveries) ==> Contents() == old(Contents())
      ensures session !in old(inflightDeliveries) ==>
                var todo := Undelivered(due, old(recorded));
                |todo| <= |sends| && Contents() == DrainAll(old(Contents()), todo, sends[..|todo|])
    {
      if session in inflightDeliveries {
        return;
      }
      inflightDeliveries := inflightDeliveries + {session};
      DrainSession(due, sends);
      inflightDeliveries := inflightDeliveries - {session};
    }
  }

  lemma UndeliveredIsShorter(due: seq<MsgId>, recorded: map<MsgId, Outcome>)
    ensures |Undelivered(due, recorded)| <= |due|
  {
  }

  /** What one send does to one message of the ledger, by the failures it already had. */
  lemma SettledMessage(l: Ledger, id: MsgId, ok: bool)
    requires id !in l.recorded
    ensures var l' := Settle(l, id, ok);
            && (ok ==> id in l'.recorded && l'.recorded[id] == Delivered && id !in l'.attempts)
            && (!ok && Attempts(l, id) < 2 ==> id !in l'.recorded && Attempts(l', id) == Attempts(l, id) + 1)
            && (!ok && Attempts(l, id) >= 2 ==> id in l'.recorded && l'.recorded[id] == GivenUp && id !in l'.attempts)
            && (forall x | x != id :: x in l'.recorded <==> x in l.recorded)
            && (forall x | x != id :: x in l'.attempts <==> x in l.attempts)
            && (forall x | x != id && x in l.recorded :: l'.recorded[x] == l.recorded[x])
            && (forall x | x != id && x in l.attempts :: l'.attempts[x] == l.attempts[x])
  {
  }

  /** The two ledgers say the same of one message. */
  predicate SameFor(l: Ledger, l': Ledger, id: MsgId) {
    && (id in l.recorded <==> id in l'.recorded) && (id in l.recorded ==> l.recorded[id] == l'.recorded[id])
    && (id in l.attempts <==> id in l'.attempts) && (id in l.attempts ==> l.attempts[id] == l'.attempts[id])
  }

  /** A drain settles every row of its list once, by that row's own send, and no other message. */
  lemma {:induction false} DrainSettlesEachOnce(l: Ledger, todo: seq<MsgId>, sends: seq<bool>, id: MsgId)
    requires |todo| == |sends| && Distinct(todo)
    ensures id !in todo ==> SameFor(DrainAll(l, todo, sends), l, id)
    ensures forall i | 0 <= i < |todo| && todo[i] == id ::
              SameFor(DrainAll(l, todo, sends), Settle(l, id, sends[i]), id)
  {
    if todo != [] {
      var n := |todo| - 1;
      DrainSettlesEachOnce(l, todo[..n], sends[..n], id);
      assert todo == todo[..n] + [todo[n]];
      assert forall i | 0 <= i < n :: todo[..n][i] == todo[i] && sends[..n][i] == sends[i];
      SettleIsLocal(DrainAll(l, todo[..n], sends[..n]), l, todo[n], sends[n], id);
    }
  }

  lemma SettleIsLocal(l: Ledger, l': Ledger, id: MsgId, ok: bool, x: MsgId)
    ensures x != id ==> SameFor(Settle(l, id, ok), l, x)
    ensures SameFor(l, l', id) ==> SameFor(Settle(l, id, ok), Settle(l', id, ok), id)
  {
  }

  /** One call's steps when nothing else runs: send and resolve each row in turn. */
  function Alone(k: nat, sends: seq<bool>): seq<Step> {
    if sends == [] then [] else Alone(k, sends[..|sends| - 1]) + [Send(k), Resolve(k, sends[|sends| - 1])]
  }

  lemma RunTwo(s: State, steps: seq<Step>, a: Step, b: Step)
    ensures Run(s, steps + [a, b]) == Apply(Apply(Run(s, steps), a), b)
  {
    var all := steps + [a, b];
    assert all[..|all| - 1] == steps + [a];
    assert (steps + [a])[..|steps|] == steps;
  }

  /** The method and the machine agree: an undisturbed call leaves the ledger the loop computes. */
  lemma {:induction false} AloneIsTheLoop(s: State, k: nat, session: SessionId, todo: seq<MsgId>, sends: seq<bool>)
    requires k in s.drains && s.drains[k] == Drain(session, todo, false) && |sends| <= |todo|
    ensures var s' := Run(s, Alone(k, sends));
            && s'.ledger == DrainAll(s.ledger, todo[..|sends|], sends)
            && k in s'.drains && s'.drains[k] == Drain(session, todo[|sends|..], false)
  {
    if sends != [] {
      var n := |sends| - 1;
      AloneIsTheLoop(s, k, session, todo, sends[..n]);
      RunTwo(s, Alone(k, sends[..n]), Send(k), Resolve(k, sends[n]));
      assert todo[..n + 1][..n] == todo[..n];
      assert todo[n..][1..] == todo[n + 1..];
    }
  }

  lemma {:induction false} RunConcat(s: State, a: seq<Step>, b: seq<Step>)
    ensures Run(s, a + b) == Run(Run(s, a), b)
  {
    hide Apply;
    if b == [] {
      assert a + b == a;
    } else {
      var n := |b| - 1;
      RunConcat(s, a, b[..n]);
      assert (a + b)[..|a + b| - 1] == a + b[..n];
    }
  }

  lemma RunOne(s: State, step: Step)
    ensures Run(s, [step]) == Apply(s, step)
  {
    assert [step][..0] == [] && Run(s, []) == s;
  }

  lemma {:induction false} AloneKeepsTheRest(s: State, k: nat, sends: seq<bool>)
    ensures var s' := Run(s, Alone(k, sends)); s'.outbox == s.outbox && s'.inflight == s.inflight
    ensures forall j | j != k :: j in Run(s, Alone(k, sends)).drains <==> j in s.drains
  {
    hide Settle;
    if sends != [] {
      var n := |sends| - 1;
      AloneKeepsTheRest(s, k, sends[..n]);
      RunTwo(s, Alone(k, sends[..n]), Send(k), Resolve(k, sends[n]));
    }
  }

  /**
   A call that finds its session free goes through its whole list, leaves the ledger that the loop
   computes, and leaves the session free for the next call.
   */
  lemma UndisturbedCall(s: State, k: nat, session: SessionId, due: seq<MsgId>, sends: seq<bool>)
    requires k !in s.drains && session !in s.inflight && DueRows(s, session, due)
    requires |sends| == |Undelivered(due, s.ledger.recorded)|
    ensures var s' := Run(s, [Call(k, session, due)] + Alone(k, sends) + [Return(k)]);
            && s'.ledger == DrainAll(s.ledger, Undelivered(due, s.ledger.recorded), sends)
            && s'.inflight == s.inflight && k !in s'.drains && s'.outbox == s.outbox
  {
    hide Settle, Undelivered, DrainAll, Run;
    var todo := Undelivered(due, s.ledger.recorded);
    RunOne(s, Call(k, session, due));
    var called := Apply(s, Call(k, session, due));
    AloneIsTheLoop(called, k, session, todo, sends);
    AloneKeepsTheRest(called, k, sends);
    assert todo[..|sends|] == todo && todo[|sends|..] == [];
    var drained := Run(called, Alone(k, sends));
    RunConcat(s, [Call(k, session, due)], Alone(k, sends));
    RunConcat(s, [Call(k, session, due)] + Alone(k, sends), [Return(k)]);
    RunOne(drained, Return(k));
    assert s.inflight + {session} - {session} == s.inflight;
  }

  /** In every run, a new message of a free session is due, and a call that sends it records it as delivered. */
  lemma NewMessageIsDelivered(steps: seq<Step>, id: MsgId, k: nat, session: SessionId)
    requires var s := Run(INIT, steps); id !in s.outbox && id !in s.ledger.recorded
    requires var s := Run(INIT, steps); k !in s.drains && session !in s.inflight
    ensures var s' := Run(INIT, steps + [Append(id, session)]);
            && id in s'.outbox && s'.outbox[id] == session && DueRows(s', session, [id])
            && var s'' := Run(s', [Call(k, session, [id])] + Alone(k, [true]) + [Return(k)]);
            id in s''.ledger.recorded && s''.ledger.recorded[id] == Delivered && session !in s''.inflight
  {
    hide Undelivered, Alone;
    RunConcat(INIT, steps, [Append(id, session)]);
    RunOne(Run(INIT, steps), Append(id, session));
    hide Run;
    var s' := Run(INIT, steps + [Append(id, session)]);
    OneUndelivered(id, s'.ledger.recorded);
    UndisturbedCall(s', k, session, [id], [true]);
    assert [id][..0] == [] && [true][..0] == [];
    assert DrainAll(s'.ledger, [], []) == s'.ledger;
  }

  lemma OneUndelivered(id: MsgId, recorded: map<MsgId, Outcome>)
    requires id !in recorded
    ensures Undelivered([id], recorded) == [id]
  {
    assert [id][..0] == [] && Undelivered([], recorded) == [];
  }
}
