/**
 Session routing: find or create the session of an agent, messaging group and
 thread. An empty string is falsy in the source's conditions, and several
 results below turn on that.
 */
module SessionManager {
  import opened Wrappers

  datatype Session = Session(id: string, agent: string, group: Option<string>, thread: Option<string>, active: bool,
      createdAt: int)

  datatype Mode = Shared | PerThread | AgentShared

  /** One call of `resolveSession`, with the id and the clock it would use for a new session. */
  datatype Route = Route(agent: string, group: Option<string>, thread: Option<string>, mode: Mode, freshId: string,
      now: int)

  datatype Resolved = Resolved(session: Session, created: bool)

  datatype Error = DuplicateId

  predicate Truthy(s: Option<string>) {
    s.Some? && s.value != ""
  }

  // ----------------------------------------------------------------------- look-ups

  /** The row test of `findSessionForAgent`: a falsy thread asks for `thread_id IS NULL`. */
  predicate Matches(s: Session, agent: string, group: Option<string>, thread: Option<string>) {
    && s.agent == agent && s.group == group && s.active
    && s.thread == if Truthy(thread) then thread else None
  }

  function FindSessionForAgent(table: seq<Session>, agent: string, group: Option<string>,
      thread: Option<string>): (r: Option<Session>)
    ensures r.Some? ==> r.value in table && Matches(r.value, agent, group, thread)
    ensures r.None? ==> forall s | s in table :: !Matches(s, agent, group, thread)
  {
    if table == [] then None
    else if Matches(table[0], agent, group, thread) then Some(table[0])
    else FindSessionForAgent(table[1..], agent, group, thread)
  }

  predicate Serves(s: Session, agent: string) {
    s.agent == agent && s.active
  }

  /** The newest active session of the agent. */
  function FindSessionByAgentGroup(table: seq<Session>, agent: string): (r: Option<Session>)
    ensures r.Some? ==> r.value in table && Serves(r.value, agent)
    ensures r.Some? ==> forall s | s in table && Serves(s, agent) :: s.createdAt <= r.value.createdAt
    ensures r.None? ==> forall s | s in table :: !Serves(s, agent)
  {
    if table == [] then None
    else
      var n := |table| - 1;
      var earlier := FindSessionByAgentGroup(table[..n], agent);
      assert forall s | s in table :: s in table[..n] || s == table[n];
      var newer := earlier.None? || earlier.value.createdAt < table[n].createdAt;
      if Serves(table[n], agent) && newer then Some(table[n]) else earlier
  }

  function LookupThread(r: Route): Option<string> {
    if r.mode == Shared then None else r.thread
  }

  function Lookup(table: seq<Session>, r: Route): Option<Session> {
    if r.mode == AgentShared then FindSessionByAgentGroup(table, r.agent)
    else if Truthy(r.group) then FindSessionForAgent(table, r.agent, r.group, LookupThread(r))
    else None
  }

  function NewSession(r: Route): Session {
    Session(r.freshId, r.agent, r.group, if r.mode == PerThread then r.thread else None, true, r.now)
  }

  predicate HasId(table: seq<Session>, id: string) {
    exists s | s in table :: s.id == id
  }

  /** The table after the call. */
  function After(table: seq<Session>, r: Route): seq<Session> {
    if Lookup(table, r).Some? || HasId(table, r.freshId) then table else table + [NewSession(r)]
  }

  /** What the call returns; a repeated id violates the primary key. */
  function Resolve(table: seq<Session>, r: Route): Result<Resolved, Error> {
    var existing := Lookup(table, r);
    if existing.Some? then Ok(Resolved(existing.value, false))
    else if HasId(table, r.freshId) then Err(DuplicateId)
    else Ok(Resolved(NewSession(r), true))
  }

  /** The session returned is in the table, active, the agent's own, and of the group and thread asked for. */
  lemma ResolvedSessionFits(table: seq<Session>, r: Route)
    requires Resolve(table, r).Ok?
    ensures var s := Resolve(table, r).value.session;
            && s in After(table, r) && s.active && s.agent == r.agent
            && (r.mode == Shared && Truthy(r.group) ==> s.group == r.group && s.thread == None)
            && (r.mode == PerThread && Truthy(r.group) && r.thread != Some("") ==>
                  s.group == r.group && s.thread == r.thread)
            && (Resolve(table, r).value.created <==> After(table, r) != table)
  {
    assert |table + [NewSession(r)]| > |table|;
  }

  // -------------------------------------------------------------------------- class

  function Close(table: seq<Session>, id: string): (t: seq<Session>)
    ensures |t| == |table|
  {
    if table == [] then []
    else
      var n := |table| - 1;
      Close(table[..n], id) + [if table[n].id == id then table[n].(active := false) else table[n]]
  }

  function Delete(table: seq<Session>, id: string): seq<Session> {
    if table == [] then []
    else
      var n := |table| - 1;
      Delete(table[..n], id) + if table[n].id == id then [] else [table[n]]
  }

  class Sessions {
    var table: seq<Session>

    method ResolveSession(r: Route) returns (result: Result<Resolved, Error>)
      modifies this
      ensures result == Resolve(old(table), r) && table == After(old(table), r)
    {
      if r.mode == AgentShared {
        var existing := FindSessionByAgentGroup(table, r.agent);
        if existing.Some? { return Ok(Resolved(existing.value, false)); }
      } else if Truthy(r.group) {
        var lookupThread := if r.mode == Shared then None else r.thread;
        var existing := FindSessionForAgent(table, r.agent, r.group, lookupThread);
        if existing.Some? { return Ok(Resolved(existing.value, false)); }
      }
      var thread := if r.mode == PerThread then r.thread else None;
      var session := Session(r.freshId, r.agent, r.group, thread, true, r.now);
      if HasId(table, r.freshId) { return Err(DuplicateId); }
      table := table + [session];
      return Ok(Resolved(session, true));
    }

    method CloseSession(id: string)
      modifies this
      ensures table == Close(old(table), id)
    {
      ghost var was := table;
      for i := 0 to |table|
        invariant |table| == |was| && table[..i] == Close(was[..i], id) && table[i..] == was[i..]
      {
        assert was[..i + 1][..i] == was[..i] && table[i] == was[i..][0];
        var closed := if table[i].id == id then table[i].(active := false) else table[i];
        ghost var rest := table[i + 1..];
        assert rest == was[i..][1..] == was[i + 1..];
        table := table[i := closed];
        assert table[..i + 1] == Close(was[..i], id) + [closed];
      }
      assert was[..|was|] == was && table[..|was|] == table;
    }
  }

  // ---------------------------------------------------------------------- every run

  datatype Step = RouteStep(route: Route) | CloseStep(id: string) | DeleteStep(id: string)

  function Apply(table: seq<Session>, step: Step): seq<Session> {
    match step
    case RouteStep(r) => After(table, r)
    case CloseStep(id) => Close(table, id)
    case DeleteStep(id) => Delete(table, id)
  }

  function Run(table: seq<Session>, steps: seq<Step>): seq<Session>
    decreases |steps|
  {
    if steps == [] then table else Run(Apply(table, steps[0]), steps[1..])
  }

  predicate Apart(s: Session, t: Session) {
    s.id != t.id && (s.active && t.active ==> s.agent != t.agent || s.group != t.group || s.thread != t.thread)
  }

  /** Ids are unique, and so is the (agent, group, thread) of the active sessions. */
  predicate Unique(table: seq<Session>) {
    forall i, j | 0 <= i < j < |table| :: Apart(table[i], table[j])
  }

  /** The calls that never repeat a key: a real messaging group, and no empty thread id where it counts. */
  predicate Safe(r: Route) {
    r.mode == AgentShared || (Truthy(r.group) && (r.mode == PerThread ==> r.thread != Some("")))
  }

  predicate AllSafe(steps: seq<Step>) {
    forall i | 0 <= i < |steps| :: steps[i].RouteStep? ==> Safe(steps[i].route)
  }

  lemma AppendKeepsUnique(table: seq<Session>, s: Session)
    requires Unique(table) && forall t | t in table :: Apart(t, s)
    ensures Unique(table + [s])
  {
    assert forall i | 0 <= i < |table| :: table[i] in table;
  }

  lemma SafeRouteKeepsUnique(table: seq<Session>, r: Route)
    requires Unique(table) && Safe(r)
    ensures Unique(After(table, r))
  {
    hide Unique;
    if Lookup(table, r).None? && !HasId(table, r.freshId) {
      forall t | t in table
        ensures Apart(t, NewSession(r))
      {
        assert r.mode == AgentShared ==> !Serves(t, r.agent);
        assert r.mode != AgentShared ==> !Matches(t, r.agent, r.group, LookupThread(r));
      }
      AppendKeepsUnique(table, NewSession(r));
    }
  }

  predicate From(t: Session, table: seq<Session>) {
    exists s | s in table :: s.id == t.id && (t.active ==> t == s)
  }

  lemma {:induction false} CloseKeepsUnique(table: seq<Session>, id: string)
    requires Unique(table)
    ensures Unique(Close(table, id)) && forall t | t in Close(table, id) :: From(t, table)
    ensures forall s | s in table && s.id != id :: s in Close(table, id)
  {
    if table != [] {
      var n := |table| - 1;
      CloseKeepsUnique(table[..n], id);
      assert table == table[..n] + [table[n]];
      LastIsApart(table, Close(table[..n], id), if table[n].id == id then table[n].(active := false) else table[n]);
    }
  }

  lemma {:induction false} DeleteKeepsUnique(table: seq<Session>, id: string)
    requires Unique(table)
    ensures Unique(Delete(table, id)) && forall t | t in Delete(table, id) :: From(t, table)
    ensures forall s | s in table && s.id != id :: s in Delete(table, id)
  {
    if table != [] {
      var n := |table| - 1;
      DeleteKeepsUnique(table[..n], id);
      assert table == table[..n] + [table[n]];
      LastIsApart(table, Delete(table[..n], id), table[n]);
    }
  }

  lemma LastIsApart(table: seq<Session>, kept: seq<Session>, last: Session)
    requires table != [] && Unique(table) && Unique(kept)
    requires forall t | t in kept :: From(t, table[..|table| - 1])
    requires last.id == table[|table| - 1].id && (last.active ==> last == table[|table| - 1])
    ensures Unique(kept + [last]) && forall t | t in kept + [last] :: From(t, table)
  {
    var n := |table| - 1;
    forall t | t in kept
      ensures Apart(t, last) && From(t, table)
    {
      assert From(t, table[..n]);
      var s :| s in table[..n] && s.id == t.id && (t.active ==> t == s);
      var i :| 0 <= i < n && table[i] == s;
      assert Apart(table[i], table[n]);
    }
    assert table[n] in table;
    AppendKeepsUnique(kept, last);
  }

  lemma StepKeepsUnique(table: seq<Session>, step: Step)
    requires Unique(table) && (step.RouteStep? ==> Safe(step.route))
    ensures Unique(Apply(table, step))
  {
    hide Unique, Safe;
    match step
    case RouteStep(r) => SafeRouteKeepsUnique(table, r);
    case CloseStep(id) => CloseKeepsUnique(table, id);
    case DeleteStep(id) => DeleteKeepsUnique(table, id);
  }

  lemma {:induction false} UniqueKept(table: seq<Session>, steps: seq<Step>)
    requires Unique(table) && AllSafe(steps)
    ensures Unique(Run(table, steps))
    decreases |steps|
  {
    hide Unique, Apply, Safe;
    if steps != [] {
      StepKeepsUnique(table, steps[0]);
      UniqueKept(Apply(table, steps[0]), steps[1..]);
    }
  }

  /** At most one active session per (agent, messaging group, thread) in every run of safe calls. */
  lemma OneActivePerKey(steps: seq<Step>)
    requires AllSafe(steps)
    ensures Unique(Run([], steps))
  {
    UniqueKept([], steps);
  }

  /**
   And safe calls are exactly those: any other call, made twice from an empty table, opens two
   sessions of one key.
   */
  lemma UniqueExactlyWhenSafe(r: Route, other: string, later: int)
    requires other != r.freshId
    ensures Unique(Run([], [RouteStep(r), RouteStep(r.(freshId := other, now := later))])) <==> Safe(r)
  {
    var again := r.(freshId := other, now := later);
    var once := After([], r);
    assert once == [NewSession(r)];
    assert [RouteStep(r), RouteStep(again)][1..] == [RouteStep(again)] && [RouteStep(again)][1..] == [];
    assert Run([], [RouteStep(r), RouteStep(again)]) == Run(once, [RouteStep(again)]) == After(once, again);
    if Safe(r) {
      SafeRouteKeepsUnique([], r);
      SafeRouteKeepsUnique(once, again);
    } else {
      assert !Matches(NewSession(r), r.agent, r.group, r.thread) || !Truthy(r.group);
      assert Lookup(once, again).None?;
      assert !HasId(once, other);
      var twice := After(once, again);
      assert twice == [NewSession(r), NewSession(again)];
      assert !Apart(twice[0], twice[1]);
    }
  }

  // ----------------------------------------------------------------- sticky routing

  predicate Spares(steps: seq<Step>, id: string) {
    forall i | 0 <= i < |steps| :: steps[i] != CloseStep(id) && steps[i] != DeleteStep(id)
  }

  lemma {:induction false} StaysInTable(table: seq<Session>, steps: seq<Step>, s: Session)
    requires Unique(table) && AllSafe(steps) && Spares(steps, s.id) && s in table
    ensures s in Run(table, steps)
    decreases |steps|
  {
    hide Unique, Safe;
    if steps != [] {
      StepKeepsUnique(table, steps[0]);
      match steps[0] {
        case RouteStep(r) =>
        case CloseStep(id) => CloseKeepsUnique(table, id);
        case DeleteStep(id) => DeleteKeepsUnique(table, id);
      }
      StaysInTable(Apply(table, steps[0]), steps[1..], s);
    }
  }

  lemma OthersAreApart(table: seq<Session>, i: nat, j: nat)
    requires Unique(table) && i < |table| && j < |table|
    ensures i == j || Apart(table[i], table[j])
  {
    assert Apart(table[i], table[j]) <==> Apart(table[j], table[i]);
  }

  lemma OnlyMatchIsFound(table: seq<Session>, r: Route, s: Session)
    requires Unique(table) && s in table && Safe(r) && r.mode != AgentShared
    requires Matches(s, r.agent, r.group, LookupThread(r))
    ensures Lookup(table, r) == Some(s)
  {
    var found := Lookup(table, r).value;
    var i :| 0 <= i < |table| && table[i] == s;
    var j :| 0 <= j < |table| && table[j] == found;
    OthersAreApart(table, i, j);
  }

  /**
   Once a shared or per-thread call has resolved, the same call resolves to the same
   session until that session is closed or deleted.
   */
  lemma RoutingIsSticky(before: seq<Step>, r: Route, after: seq<Step>, freshId: string, now: int)
    requires AllSafe(before) && Safe(r) && AllSafe(after) && r.mode != AgentShared
    requires var first := Resolve(Run([], before), r); first.Ok? && Spares(after, first.value.session.id)
    ensures var table := Run([], before);
            Resolve(Run(After(table, r), after), r.(freshId := freshId, now := now))
              == Ok(Resolved(Resolve(table, r).value.session, false))
  {
    var table := Run([], before);
    var s := Resolve(table, r).value.session;
    var again := r.(freshId := freshId, now := now);
    OneActivePerKey(before);
    SafeRouteKeepsUnique(table, r);
    assert s in After(table, r) && Matches(s, r.agent, r.group, LookupThread(r));
    StaysInTable(After(table, r), after, s);
    UniqueKept(After(table, r), after);
    OnlyMatchIsFound(Run(After(table, r), after), again, s);
  }

  // ------------------------------------------------------- sticky agent-shared calls

  /** The step opens a session. */
  predicate Creates(table: seq<Session>, step: Step) {
    step.RouteStep? && Lookup(table, step.route).None? && !HasId(table, step.route.freshId)
  }

  /**
   Some step, whatever its mode, opens a session of the agent that is newer than
   `since`, and no later step closes or deletes it.
   */
  predicate Overtaken(table: seq<Session>, steps: seq<Step>, agent: string, since: int)
    decreases |steps|
  {
    && steps != []
    && (|| (&& Creates(table, steps[0]) && steps[0].route.agent == agent && steps[0].route.now > since
            && Spares(steps[1..], steps[0].route.freshId))
        || Overtaken(Apply(table, steps[0]), steps[1..], agent, since))
  }

  predicate NewerServes(table: seq<Session>, agent: string, since: int) {
    exists x | x in table :: Serves(x, agent) && x.createdAt > since
  }

  /** Row `k` serves the agent and is newer than every serving row above it. */
  predicate LeadsAt(table: seq<Session>, k: nat, agent: string) {
    && k < |table| && Serves(table[k], agent)
    && forall j | 0 <= j < k :: Serves(table[j], agent) ==> table[j].createdAt < table[k].createdAt
  }

  lemma {:induction false} FoundLeads(table: seq<Session>, agent: string) returns (k: nat)
    requires FindSessionByAgentGroup(table, agent).Some?
    ensures LeadsAt(table, k, agent) && FindSessionByAgentGroup(table, agent) == Some(table[k])
  {
    var n := |table| - 1;
    var earlier := FindSessionByAgentGroup(table[..n], agent);
    assert forall j | 0 <= j < n :: table[j] == table[..n][j] && table[j] in table[..n];
    if Serves(table[n], agent) && (earlier.None? || earlier.value.createdAt < table[n].createdAt) {
      k := n;
    } else {
      k := FoundLeads(table[..n], agent);
    }
  }

  lemma {:induction false} LeaderIsFound(table: seq<Session>, k: nat, agent: string)
    requires LeadsAt(table, k, agent)
    ensures FindSessionByAgentGroup(table, agent) == Some(table[k]) <==> !NewerServes(table, agent, table[k].createdAt)
  {
    var n := |table| - 1;
    var earlier := FindSessionByAgentGroup(table[..n], agent);
    assert table == table[..n] + [table[n]];
    assert forall j | 0 <= j < n :: table[j] == table[..n][j] && table[j] in table[..n];
    if k < n {
      LeaderIsFound(table[..n], k, agent);
      assert NewerServes(table, agent, table[k].createdAt)
        <==> NewerServes(table[..n], agent, table[k].createdAt)
             || (Serves(table[n], agent) && table[n].createdAt > table[k].createdAt);
    }
  }

  lemma {:induction false} CloseAt(table: seq<Session>, id: string, j: nat)
    requires j < |table|
    ensures Close(table, id)[j] == if table[j].id == id then table[j].(active := false) else table[j]
  {
    if j < |table| - 1 {
      CloseAt(table[..|table| - 1], id, j);
    }
  }

  lemma {:induction false} DeleteKeepsLeader(table: seq<Session>, id: string, k: nat, agent: string) returns (k': nat)
    requires LeadsAt(table, k, agent) && table[k].id != id
    ensures LeadsAt(Delete(table, id), k', agent) && Delete(table, id)[k'] == table[k]
  {
    var n := |table| - 1;
    assert forall j | 0 <= j < n :: table[..n][j] == table[j];
    if k < n {
      k' := DeleteKeepsLeader(table[..n], id, k, agent);
      assert forall j | 0 <= j <= k' :: Delete(table, id)[j] == Delete(table[..n], id)[j];
    } else {
      k' := |Delete(table[..n], id)|;
      DeletedRows(table[..n], id);
      assert forall j | 0 <= j < k' :: Delete(table, id)[j] in Delete(table[..n], id);
    }
  }

  lemma {:induction false} DeletedRows(table: seq<Session>, id: string)
    ensures forall x :: x in Delete(table, id) <==> x in table && x.id != id
  {
    if table != [] {
      DeletedRows(table[..|table| - 1], id);
      assert table == table[..|table| - 1] + [table[|table| - 1]];
    }
  }

  lemma StepKeepsLeader(table: seq<Session>, step: Step, k: nat, agent: string) returns (k': nat)
    requires LeadsAt(table, k, agent) && step != CloseStep(table[k].id) && step != DeleteStep(table[k].id)
    ensures LeadsAt(Apply(table, step), k', agent) && Apply(table, step)[k'] == table[k]
  {
    match step
    case RouteStep(r) => k' := k;
    case CloseStep(id) =>
      k' := k;
      forall j | 0 <= j < |table|
        ensures Close(table, id)[j] == if table[j].id == id then table[j].(active := false) else table[j]
      {
        CloseAt(table, id, j);
      }
    case DeleteStep(id) => k' := DeleteKeepsLeader(table, id, k, agent);
  }

  lemma {:induction false} RunKeepsLeader(table: seq<Session>, steps: seq<Step>, k: nat, agent: string)
      returns (k': nat)
    requires LeadsAt(table, k, agent) && Spares(steps, table[k].id)
    ensures LeadsAt(Run(table, steps), k', agent) && Run(table, steps)[k'] == table[k]
    decreases |steps|
  {
    hide LeadsAt, Apply;
    if steps == [] {
      k' := k;
    } else {
      assert k < |table| by { LeaderExists(table, k, agent); }
      var mid := StepKeepsLeader(table, steps[0], k, agent);
      assert Spares(steps[1..], table[k].id);
      k' := RunKeepsLeader(Apply(table, steps[0]), steps[1..], mid, agent);
    }
  }

  lemma LeaderExists(table: seq<Session>, k: nat, agent: string)
    requires LeadsAt(table, k, agent)
    ensures k < |table|
  {
  }

  /** Which sessions serve an agent after one step. */
  lemma StepServes(table: seq<Session>, step: Step, x: Session)
    requires x.active
    ensures x in Apply(table, step) <==>
              || (x in table && step != CloseStep(x.id) && step != DeleteStep(x.id))
              || (Creates(table, step) && x == NewSession(step.route))
  {
    match step
    case RouteStep(r) =>
    case CloseStep(id) => ClosedRows(table, id, x);
    case DeleteStep(id) => DeletedRows(table, id);
  }

  lemma {:induction false} ClosedRows(table: seq<Session>, id: string, x: Session)
    requires x.active
    ensures x in Close(table, id) <==> x in table && x.id != id
  {
    if table != [] {
      ClosedRows(table[..|table| - 1], id, x);
      assert table == table[..|table| - 1] + [table[|table| - 1]];
    }
  }

  predicate Survives(table: seq<Session>, steps: seq<Step>, agent: string, since: int) {
    exists x | x in table :: Serves(x, agent) && x.createdAt > since && Spares(steps, x.id)
  }

  lemma SparesCons(steps: seq<Step>, id: string)
    requires steps != []
    ensures Spares(steps, id) <==> steps[0] != CloseStep(id) && steps[0] != DeleteStep(id) && Spares(steps[1..], id)
  {
    assert forall i | 1 <= i < |steps| :: steps[i] == steps[1..][i - 1];
  }

  lemma SurvivesStep(table: seq<Session>, steps: seq<Step>, agent: string, since: int)
    requires steps != []
    ensures Survives(Apply(table, steps[0]), steps[1..], agent, since) <==>
              || Survives(table, steps, agent, since)
              || (&& Creates(table, steps[0]) && steps[0].route.agent == agent && steps[0].route.now > since
                  && Spares(steps[1..], steps[0].route.freshId))
  {
    hide Apply, Lookup, HasId, Spares;
    var next := Apply(table, steps[0]);
    forall x: Session | x.active
      ensures x in next <==>
                || (x in table && steps[0] != CloseStep(x.id) && steps[0] != DeleteStep(x.id))
                || (Creates(table, steps[0]) && x == NewSession(steps[0].route))
      ensures Spares(steps, x.id) <==>
                steps[0] != CloseStep(x.id) && steps[0] != DeleteStep(x.id) && Spares(steps[1..], x.id)
    {
      StepServes(table, steps[0], x);
      SparesCons(steps, x.id);
    }
    if Creates(table, steps[0]) {
      assert NewSession(steps[0].route) in next;
    }
  }

  lemma {:induction false} NewerAtTheEnd(table: seq<Session>, steps: seq<Step>, agent: string, since: int)
    ensures NewerServes(Run(table, steps), agent, since)
       <==> Survives(table, steps, agent, since) || Overtaken(table, steps, agent, since)
    decreases |steps|
  {
    hide Apply, Creates, Survives, NewerServes;
    if steps == [] {
      NothingToSurvive(table, agent, since);
    } else {
      SurvivesStep(table, steps, agent, since);
      NewerAtTheEnd(Apply(table, steps[0]), steps[1..], agent, since);
    }
  }

  lemma NothingToSurvive(table: seq<Session>, agent: string, since: int)
    ensures Survives(table, [], agent, since) <==> NewerServes(table, agent, since)
  {
    assert forall id :: Spares([], id);
  }

  /** The session an agent-shared call resolves to leads its agent's rows, and no newer one serves. */
  lemma ResolvedLeads(table: seq<Session>, r: Route) returns (k: nat)
    requires r.mode == AgentShared && Resolve(table, r).Ok?
    ensures var s := Resolve(table, r).value.session;
            && LeadsAt(After(table, r), k, r.agent) && After(table, r)[k] == s
            && !NewerServes(After(table, r), r.agent, s.createdAt)
  {
    if Lookup(table, r).Some? {
      k := FoundLeads(table, r.agent);
    } else {
      k := |table|;
      assert forall j | 0 <= j < |table| :: table[j] in table;
    }
  }

  /**
   An agent-shared call keeps resolving to its session exactly until some call, of
   any mode, opens a newer session of that agent and leaves it open.
   */
  lemma AgentSharedSticksExactlyWhen(before: seq<Step>, r: Route, after: seq<Step>, freshId: string, now: int)
    requires r.mode == AgentShared
    requires var first := Resolve(Run([], before), r); first.Ok? && Spares(after, first.value.session.id)
    ensures var table := Run([], before);
            var s := Resolve(table, r).value.session;
            var later := Resolve(Run(After(table, r), after), r.(freshId := freshId, now := now));
            later == Ok(Resolved(s, false)) <==> !Overtaken(After(table, r), after, r.agent, s.createdAt)
  {
    hide Apply, Overtaken, Spares, LeadsAt, NewerServes, Survives;
    var table := Run([], before);
    var s, start := Resolve(table, r).value.session, After(table, r);
    var k := ResolvedLeads(table, r);
    LeaderExists(start, k, r.agent);
    var k' := RunKeepsLeader(start, after, k, r.agent);
    LeaderExists(Run(start, after), k', r.agent);
    LeaderIsFound(Run(start, after), k', r.agent);
    NewerAtTheEnd(start, after, r.agent, s.createdAt);
    NobodySurvives(start, after, r.agent, s.createdAt);
    LeaderServes(Run(start, after), k', r.agent);
  }

  lemma NobodySurvives(table: seq<Session>, steps: seq<Step>, agent: string, since: int)
    requires !NewerServes(table, agent, since)
    ensures !Survives(table, steps, agent, since)
  {
    hide Spares;
  }

  lemma LeaderServes(table: seq<Session>, k: nat, agent: string)
    requires LeadsAt(table, k, agent)
    ensures FindSessionByAgentGroup(table, agent).Some?
  {
    assert table[k] in table;
  }

  /** A run in which it moves: a thread of another wiring takes the agent-shared messages over. */
  lemma AgentSharedMoves()
    ensures var shared := Route("a", None, None, AgentShared, "s0", 0);
            var thread := Route("a", Some("g"), Some("t"), PerThread, "s1", 1);
            var once := Run([], [RouteStep(shared), RouteStep(thread)]);
            && Safe(shared) && Safe(thread)
            && Resolve([], shared) == Ok(Resolved(NewSession(shared), true))
            && Resolve(once, shared) == Ok(Resolved(NewSession(thread), false))
  {
    var shared := Route("a", None, None, AgentShared, "s0", 0);
    var thread := Route("a", Some("g"), Some("t"), PerThread, "s1", 1);
    var first, second := NewSession(shared), NewSession(thread);
    assert [RouteStep(shared), RouteStep(thread)][1..] == [RouteStep(thread)] && [RouteStep(thread)][1..] == [];
    assert After([], shared) == [first];
    assert After([first], thread) == [first, second];
    assert [first, second][..1] == [first] && [first][..0] == [];
    assert Run([], [RouteStep(shared), RouteStep(thread)]) == Run([first], [RouteStep(thread)]) == [first, second];
  }

  // ------------------------------------------------------------------- agent-shared

  predicate OnlyAgentShared(steps: seq<Step>, agent: string) {
    forall i | 0 <= i < |steps| :: steps[i].RouteStep? && steps[i].route.agent == agent
        ==> steps[i].route.mode == AgentShared
  }

  predicate OneServing(table: seq<Session>, agent: string) {
    forall i, j | 0 <= i < j < |table| :: !Serves(table[i], agent) || !Serves(table[j], agent)
  }

  lemma {:induction false} FewerServe(table: seq<Session>, id: string, agent: string)
    requires OneServing(table, agent)
    ensures OneServing(Close(table, id), agent) && OneServing(Delete(table, id), agent)
    ensures forall t | t in Close(table, id) || t in Delete(table, id) :: Serves(t, agent) ==> t in table
  {
    if table != [] {
      var n := |table| - 1;
      FewerServe(table[..n], id, agent);
      assert table == table[..n] + [table[n]];
      var c, d := Close(table[..n], id), Delete(table[..n], id);
      assert forall i | 0 <= i < |c| :: c[i] in c;
      assert forall i | 0 <= i < |d| :: d[i] in d;
      assert forall t | t in table[..n] && Serves(t, agent) :: !Serves(table[n], agent) by {
        forall t | t in table[..n] && Serves(t, agent)
          ensures !Serves(table[n], agent)
        {
          var i :| 0 <= i < n && table[i] == t;
        }
      }
    }
  }

  lemma StepKeepsOneServing(table: seq<Session>, step: Step, agent: string)
    requires OneServing(table, agent)
    requires step.RouteStep? && step.route.agent == agent ==> step.route.mode == AgentShared
    ensures OneServing(Apply(table, step), agent)
  {
    match step
    case RouteStep(r) =>
      assert forall i | 0 <= i < |table| :: table[i] in table;
    case CloseStep(id) => FewerServe(table, id, agent);
    case DeleteStep(id) => FewerServe(table, id, agent);
  }

  lemma {:induction false} OneServingKept(table: seq<Session>, steps: seq<Step>, agent: string)
    requires OneServing(table, agent) && OnlyAgentShared(steps, agent)
    ensures OneServing(Run(table, steps), agent)
    decreases |steps|
  {
    hide OneServing, Apply;
    if steps != [] {
      StepKeepsOneServing(table, steps[0], agent);
      OneServingKept(Apply(table, steps[0]), steps[1..], agent);
    }
  }

  /** An agent wired only in the agent-shared mode never has two active sessions, whatever the other agents do. */
  lemma AgentSharedIsSingle(steps: seq<Step>, agent: string)
    requires OnlyAgentShared(steps, agent)
    ensures OneServing(Run([], steps), agent)
  {
    OneServingKept([], steps, agent);
  }
}
