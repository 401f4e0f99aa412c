/**
 The secret store: named secrets with an optional owning group, assignments,
 group modes, the two listings of what a group is injected with, and the query
 for sessions that still run with an outdated value. Values are plain here;
 encryption is an injective function the store never looks into.
 */
module Secrets {
  import opened Wrappers

  datatype Secret = Secret(
    id: string, name: string, value: string, kind: string, scope: Option<string>, createdAt: int, updatedAt: int)

  datatype Mode = All | Selective

  datatype Container = Stopped | Running(spawnedAt: int)

  datatype Session = Session(id: string, group: string, createdAt: int, container: Container)

  type Assignments = set<(string, string)>

  datatype State = State(
    secrets: seq<Secret>, assignments: Assignments, modes: map<string, Mode>, sessions: seq<Session>, clock: int)

  const INITIAL := State([], {}, map[], [], 0)

  // --------------------------------------------------------------------- operations

  predicate HasSecret(secrets: seq<Secret>, id: string) {
    exists r | r in secrets :: r.id == id
  }

  function Find(secrets: seq<Secret>, name: string, scope: Option<string>): (r: Option<nat>)
    ensures r.Some? ==> r.value < |secrets| && secrets[r.value].name == name && secrets[r.value].scope == scope
    ensures r.None? ==> forall x | x in secrets :: x.name != name || x.scope != scope
  {
    if secrets == [] then None
    else if secrets[0].name == name && secrets[0].scope == scope then Some(0)
    else match Find(secrets[1..], name, scope)
      case None => None
      case Some(k) => Some(k + 1)
  }

  datatype PutRequest = PutRequest(name: string, value: string, kind: string, scope: Option<string>, freshId: string)

  /** The insert fails on a repeated id, and on an owning group that does not exist. */
  predicate Insertable(s: State, p: PutRequest) {
    !HasSecret(s.secrets, p.freshId) && (p.scope.Some? ==> p.scope.value in s.modes)
  }

  function Put(s: State, p: PutRequest): State {
    match Find(s.secrets, p.name, p.scope)
    case Some(i) => s.(secrets := s.secrets[i := s.secrets[i].(value := p.value, kind := p.kind, updatedAt := s.clock)])
    case None =>
      if !Insertable(s, p) then s
      else s.(secrets := s.secrets + [Secret(p.freshId, p.name, p.value, p.kind, p.scope, s.clock, s.clock)],
              assignments := s.assignments + if p.scope.Some? then {(p.freshId, p.scope.value)} else {})
  }

  function WithoutId(secrets: seq<Secret>, id: string): seq<Secret> {
    if secrets == [] then []
    else
      var n := |secrets| - 1;
      WithoutId(secrets[..n], id) + if secrets[n].id == id then [] else [secrets[n]]
  }

  /** Assignments go with the secret (ON DELETE CASCADE). */
  function DeleteSecret(s: State, id: string): State {
    s.(secrets := WithoutId(s.secrets, id), assignments := set x | x in s.assignments && x.0 != id)
  }

  predicate NoRepeats(groups: seq<string>) {
    forall i, j | 0 <= i < j < |groups| :: groups[i] != groups[j]
  }

  /** The transaction rolls back when a group is unknown or listed twice. */
  predicate Replaceable(s: State, id: string, groups: seq<string>) {
    HasSecret(s.secrets, id) && NoRepeats(groups) && forall g | g in groups :: g in s.modes
  }

  function Replace(s: State, id: string, groups: seq<string>): State {
    if Replaceable(s, id, groups)
    then s.(assignments := (set x | x in s.assignments && x.0 != id) + (set g | g in groups :: (id, g)))
    else s
  }

  function Assign(s: State, id: string, group: string): State {
    if HasSecret(s.secrets, id) && group in s.modes then s.(assignments := s.assignments + {(id, group)}) else s
  }

  function Unassign(s: State, id: string, group: string): State {
    s.(assignments := s.assignments - {(id, group)})
  }

  datatype Failure = UnknownSecret | ConstraintFailed

  class SecretStore {
    var secrets: seq<Secret>
    var assignments: Assignments
    var modes: map<string, Mode>
    var sessions: seq<Session>
    var clock: int

    function Contents(): State
      reads this
    {
      State(secrets, assignments, modes, sessions, clock)
    }

    /** Updates the row of this name and scope, or inserts one together with the owner's assignment. */
    method PutSecret(p: PutRequest) returns (r: Result<string, Failure>)
      modifies this
      ensures Contents() == Put(old(Contents()), p)
      ensures r.Ok? ==>
                exists x | x in secrets ::
                  && x.id == r.value && x.name == p.name && x.scope == p.scope
                  && x.value == p.value && x.updatedAt == clock
      ensures r.Err? <==> Find(old(secrets), p.name, p.scope).None? && !Insertable(old(Contents()), p)
    {
      var existing := Find(secrets, p.name, p.scope);
      if existing.Some? {
        var row := secrets[existing.value];
        secrets := secrets[existing.value := row.(value := p.value, kind := p.kind, updatedAt := clock)];
        assert secrets[existing.value] in secrets;
        return Ok(row.id);
      }
      if HasSecret(secrets, p.freshId) || (p.scope.Some? && p.scope.value !in modes) {
        return Err(ConstraintFailed);
      }
      secrets := secrets + [Secret(p.freshId, p.name, p.value, p.kind, p.scope, clock, clock)];
      if p.scope.Some? {
        assignments := assignments + {(p.freshId, p.scope.value)};
      }
      assert secrets[|secrets| - 1] in secrets;
      return Ok(p.freshId);
    }

    /** True when there was such a secret. */
    method RemoveSecret(id: string) returns (found: bool)
      modifies this
      ensures Contents() == DeleteSecret(old(Contents()), id)
      ensures found == HasSecret(old(secrets), id)
    {
      found := HasSecret(secrets, id);
      secrets := WithoutId(secrets, id);
      assignments := set x | x in assignments && x.0 != id;
    }

    /** True when the assignment is new; an unknown secret or group fails. */
    method AddAssignment(id: string, group: string) returns (r: Result<bool, Failure>)
      modifies this
      ensures Contents() == Assign(old(Contents()), id, group)
      ensures r.Err? <==> !HasSecret(secrets, id) || group !in modes
      ensures r.Ok? ==> r.value == ((id, group) !in old(assignments))
    {
      if !HasSecret(secrets, id) || group !in modes {
        return Err(ConstraintFailed);
      }
      var isNew := (id, group) !in assignments;
      assignments := assignments + {(id, group)};
      return Ok(isNew);
    }

    method RemoveAssignment(id: string, group: string) returns (found: bool)
      modifies this
      ensures Contents() == Unassign(old(Contents()), id, group)
      ensures found == ((id, group) in old(assignments))
    {
      found := (id, group) in assignments;
      assignments := assignments - {(id, group)};
    }

    /** All or nothing: on a failed insert the old assignments come back. */
    method ReplaceAssignments(id: string, groups: seq<string>) returns (r: Result<(), Failure>)
      modifies this
      ensures Contents() == Replace(old(Contents()), id, groups)
      ensures r.Ok? <==> Replaceable(old(Contents()), id, groups)
      ensures r == Err(UnknownSecret) <==> !HasSecret(secrets, id)
    {
      if !HasSecret(secrets, id) { return Err(UnknownSecret); }
      var before := assignments;
      var cleared := set x | x in assignments && x.0 != id;
      assignments := cleared;
      for i := 0 to |groups|
        invariant secrets == old(secrets) && modes == old(modes) && sessions == old(sessions) && clock == old(clock)
        invariant assignments == cleared + (set g | g in groups[..i] :: (id, g))
        invariant NoRepeats(groups[..i]) && forall g | g in groups[..i] :: g in modes
      {
        assert groups[..i + 1] == groups[..i] + [groups[i]];
        assert (id, groups[i]) in assignments <==> groups[i] in groups[..i];
        if (id, groups[i]) in assignments || groups[i] !in modes {
          assignments := before;
          assert groups[i] in groups;
          return Err(ConstraintFailed);
        }
        assignments := assignments + {(id, groups[i])};
      }
      assert groups[..|groups|] == groups;
      return Ok(());
    }
  }

  // ------------------------------------------------------------ what a group receives

  predicate InScope(r: Secret, group: string) {
    r.scope == Some(group) || r.scope.None?
  }

  /** An unknown group counts as selective. */
  predicate Gate(s: State, group: string, r: Secret) {
    (group in s.modes && s.modes[group] == All) || (r.id, group) in s.assignments
  }

  predicate Passes(s: State, group: string, r: Secret) {
    InScope(r, group) && Gate(s, group, r)
  }

  /** What the listing queries may return: the passing rows in any order that puts scoped rows first. */
  ghost predicate IsListing(rows: seq<Secret>, s: State, group: string) {
    && (forall r :: r in rows <==> r in s.secrets && Passes(s, group, r))
    && (forall i, j | 0 <= i < j < |rows| :: rows[i] != rows[j] && (rows[i].scope.None? ==> rows[j].scope.None?))
  }

  /** The first row of a name. */
  function First(rows: seq<Secret>, name: string): (r: Option<Secret>)
    ensures r.Some? ==> r.value in rows && r.value.name == name
    ensures r.None? ==> forall x | x in rows :: x.name != name
  {
    if rows == [] then None else if rows[0].name == name then Some(rows[0]) else First(rows[1..], name)
  }

  lemma {:induction false} FirstOfAppend(rows: seq<Secret>, r: Secret, name: string)
    ensures First(rows + [r], name) == if First(rows, name).Some? || r.name != name then First(rows, name) else Some(r)
  {
    if rows == [] {
      assert (rows + [r])[1..] == [];
    } else {
      FirstOfAppend(rows[1..], r, name);
      assert (rows + [r])[1..] == rows[1..] + [r];
    }
  }

  /** The names that `rows` knows, each with the value of its first row. */
  ghost predicate ValuesOf(out: map<string, string>, rows: seq<Secret>) {
    && (forall name :: name in out <==> First(rows, name).Some?)
    && (forall name | name in out :: out[name] == First(rows, name).value.value)
  }

  /** `rows` is what the query returned. */
  method ResolveInjectableSecrets(rows: seq<Secret>) returns (out: map<string, string>)
    ensures ValuesOf(out, rows)
  {
    hide First;
    out := map[];
    for i := 0 to |rows|
      invariant forall name :: name in out <==> First(rows[..i], name).Some?
      invariant forall name | name in out :: out[name] == First(rows[..i], name).value.value
    {
      var row := rows[i];
      FirstGrows(rows, i);
      if row.name !in out {
        out := out[row.name := row.value];
      }
    }
    assert rows[..|rows|] == rows;
  }

  lemma FirstGrows(rows: seq<Secret>, i: nat)
    requires i < |rows|
    ensures forall name :: First(rows[..i + 1], name)
                        == if First(rows[..i], name).Some? || rows[i].name != name then First(rows[..i], name)
                            else Some(rows[i])
  {
    hide First;
    assert rows[..i + 1] == rows[..i] + [rows[i]];
    forall name
      ensures First(rows[..i + 1], name)
           == if First(rows[..i], name).Some? || rows[i].name != name then First(rows[..i], name) else Some(rows[i])
    {
      FirstOfAppend(rows[..i], rows[i], name);
    }
  }

  datatype Inclusion = Scoped | AssignedTo | Global

  datatype View = View(id: string, name: string, inclusion: Inclusion)

  function InclusionOf(r: Secret, group: string, assignments: Assignments): Inclusion {
    if r.scope == Some(group) then Scoped else if (r.id, group) in assignments then AssignedTo else Global
  }

  function ViewOf(r: Secret, group: string, assignments: Assignments): View {
    View(r.id, r.name, InclusionOf(r, group, assignments))
  }

  /** One view per name that `rows` knows, made from the first row of that name. */
  predicate ViewsOf(views: seq<View>, rows: seq<Secret>, group: string, assignments: Assignments) {
    && (forall i, j | 0 <= i < j < |views| :: views[i].name != views[j].name)
    && (forall i | 0 <= i < |views| ::
          First(rows, views[i].name).Some? && views[i] == ViewOf(First(rows, views[i].name).value, group, assignments))
    && (forall r | r in rows :: exists i | 0 <= i < |views| :: views[i].name == r.name)
  }

  lemma ViewsGrow(views: seq<View>, rows: seq<Secret>, i: nat, group: string, assignments: Assignments)
    requires i < |rows| && ViewsOf(views, rows[..i], group, assignments)
    ensures First(rows[..i], rows[i].name).Some? ==> ViewsOf(views, rows[..i + 1], group, assignments)
    ensures First(rows[..i], rows[i].name).None? ==>
              ViewsOf(views + [ViewOf(rows[i], group, assignments)], rows[..i + 1], group, assignments)
  {
    hide First, InclusionOf;
    var grown := views + [ViewOf(rows[i], group, assignments)];
    FirstGrows(rows, i);
    assert rows[..i + 1] == rows[..i] + [rows[i]];
    assert grown[|views|].name == rows[i].name;
    forall r | r in rows[..i + 1]
      ensures exists k | 0 <= k < |grown| :: grown[k].name == r.name
    {
      if r in rows[..i] {
        var k :| 0 <= k < |views| && views[k].name == r.name;
        assert grown[k].name == r.name;
      }
    }
  }

  /** A row of the second query, with its `assignment_present` column. */
  datatype Listed = Listed(secret: Secret, present: bool)

  function SecretsOf(rows: seq<Listed>): (r: seq<Secret>)
    ensures |r| == |rows| && forall i | 0 <= i < |r| :: r[i] == rows[i].secret
  {
    seq(|rows|, i requires 0 <= i < |rows| => rows[i].secret)
  }

  /** The column says whether the group has an assignment of the secret. */
  predicate Flagged(rows: seq<Listed>, group: string, assignments: Assignments) {
    forall l | l in rows :: l.present <==> (l.secret.id, group) in assignments
  }

  /** `rows` is what the query returned. */
  method ListInjectableSecretsForGroup(rows: seq<Listed>, group: string, ghost assignments: Assignments)
      returns (out: seq<View>)
    requires Flagged(rows, group, assignments)
    ensures ViewsOf(out, SecretsOf(rows), group, assignments)
  {
    hide First, ViewsOf;
    out := [];
    var seen: set<string> := {};
    ghost var secrets := SecretsOf(rows);
    assert ViewsOf([], secrets[..0], group, assignments) by { NothingListed(group, assignments); }
    for i := 0 to |rows|
      invariant forall name :: name in seen <==> First(secrets[..i], name).Some?
      invariant ViewsOf(out, secrets[..i], group, assignments)
    {
      var row := rows[i].secret;
      assert rows[i] in rows;
      FirstGrows(secrets, i);
      ViewsGrow(out, secrets, i, group, assignments);
      if row.name !in seen {
        seen := seen + {row.name};
        var scope := if row.scope == Some(group) then Scoped else if rows[i].present then AssignedTo else Global;
        out := out + [View(row.id, row.name, scope)];
      }
    }
    assert secrets[..|rows|] == secrets;
  }

  lemma NothingListed(group: string, assignments: Assignments)
    ensures ViewsOf([], [], group, assignments)
  {
  }

  // ------------------------------------------------------------------ reference answer

  function RowOf(s: State, name: string, scope: Option<string>): Option<Secret> {
    match Find(s.secrets, name, scope)
    case None => None
    case Some(i) => Some(s.secrets[i])
  }

  /** The row a group is given for a name: its own if that one passes, else the global one if that one does. */
  function Winner(s: State, group: string, name: string): Option<Secret> {
    var own, shared := RowOf(s, name, Some(group)), RowOf(s, name, None);
    if own.Some? && Gate(s, group, own.value) then own
    else if shared.Some? && Gate(s, group, shared.value) then shared
    else None
  }

  predicate Apart(x: Secret, y: Secret) {
    x.id != y.id && (x.name != y.name || x.scope != y.scope)
  }

  /** Ids are unique, and there is one row per (name, scope). SQL's UNIQUE does not give this for the global scope. */
  predicate UniqueRows(secrets: seq<Secret>) {
    forall i, j | 0 <= i < j < |secrets| :: Apart(secrets[i], secrets[j])
  }

  lemma {:induction false} FirstIsFirst(rows: seq<Secret>, i: nat)
    requires i < |rows|
    ensures First(rows, rows[i].name).Some?
    ensures exists k | 0 <= k <= i :: First(rows, rows[i].name) == Some(rows[k])
  {
    if i > 0 && rows[0].name != rows[i].name {
      FirstIsFirst(rows[1..], i - 1);
      var k :| 0 <= k <= i - 1 && First(rows[1..], rows[i].name) == Some(rows[1..][k]);
      assert rows[1..][k] == rows[k + 1];
    } else {
      assert First(rows, rows[i].name) == Some(rows[0]);
    }
  }

  /** Any scoped-first listing puts the reference answer first. */
  lemma FirstIsWinner(s: State, group: string, rows: seq<Secret>, name: string)
    requires UniqueRows(s.secrets) && IsListing(rows, s, group)
    ensures First(rows, name) == Winner(s, group, name)
  {
    hide First, Find, Gate;
    var first, winner := First(rows, name), Winner(s, group, name);
    if winner.Some? {
      assert winner.value in rows && winner.value.name == name;
      var i :| 0 <= i < |rows| && rows[i] == winner.value;
      FirstIsFirst(rows, i);
      var k :| 0 <= k <= i && first == Some(rows[k]);
      assert winner.value.scope.Some? ==> rows[k].scope.Some?;
    }
  }

  // ---------------------------------------------------------------------- every run

  datatype Step =
    | Tick(by_: nat)
    | CreateGroup(group: string, mode: Mode)
    | SetMode(group: string, mode: Mode)
    | DeleteGroup(group: string)
    | PutStep(request: PutRequest)
    | DeleteStep(id: string)
    | ReplaceStep(id: string, groups: seq<string>)
    | AssignStep(id: string, group: string)
    | UnassignStep(id: string, group: string)
    | OpenSession(id: string, group: string)
    | Spawn(id: string)
    | Exit(id: string)

  function WithContainer(sessions: seq<Session>, id: string, c: Container): (r: seq<Session>)
    ensures |r| == |sessions|
  {
    if sessions == [] then []
    else
      var n := |sessions| - 1;
      WithContainer(sessions[..n], id, c) + [if sessions[n].id == id then sessions[n].(container := c) else sessions[n]]
  }

  /** A group that a secret or a session refers to cannot be deleted. */
  predicate Referenced(s: State, group: string) {
    (exists r | r in s.secrets :: r.scope == Some(group)) || (exists x | x in s.sessions :: x.group == group)
  }

  function Apply(s: State, step: Step): State {
    match step
    case Tick(d) => s.(clock := s.clock + d)
    case CreateGroup(g, m) => if g in s.modes then s else s.(modes := s.modes[g := m])
    case SetMode(g, m) => if g in s.modes then s.(modes := s.modes[g := m]) else s
    case DeleteGroup(g) =>
      if Referenced(s, g) then s else s.(modes := s.modes - {g}, assignments := set x | x in s.assignments && x.1 != g)
    case PutStep(p) => Put(s, p)
    case DeleteStep(id) => DeleteSecret(s, id)
    case ReplaceStep(id, groups) => Replace(s, id, groups)
    case AssignStep(id, g) => Assign(s, id, g)
    case UnassignStep(id, g) => Unassign(s, id, g)
    case OpenSession(id, g) =>
      if g in s.modes && !(exists x | x in s.sessions :: x.id == id)
      then s.(sessions := s.sessions + [Session(id, g, s.clock, Stopped)]) else s
    case Spawn(id) => s.(sessions := WithContainer(s.sessions, id, Running(s.clock)))
    case Exit(id) => s.(sessions := WithContainer(s.sessions, id, Stopped))
  }

  function Run(s: State, steps: seq<Step>): State
    decreases |steps|
  {
    if steps == [] then s else Run(Apply(s, steps[0]), steps[1..])
  }

  predicate SessionInv(x: Session, modes: map<string, Mode>, clock: int) {
    x.group in modes && x.createdAt <= clock && (x.container.Running? ==> x.createdAt <= x.container.spawnedAt)
  }

  predicate Inv(s: State) {
    && UniqueRows(s.secrets)
    && (forall r | r in s.secrets && r.scope.Some? :: r.scope.value in s.modes)
    && (forall r | r in s.secrets :: r.updatedAt <= s.clock)
    && (forall x | x in s.sessions :: SessionInv(x, s.modes, s.clock))
  }

  lemma {:induction false} WithoutIdKeeps(secrets: seq<Secret>, id: string)
    requires UniqueRows(secrets)
    ensures UniqueRows(WithoutId(secrets, id))
    ensures forall r :: r in WithoutId(secrets, id) <==> r in secrets && r.id != id
  {
    if secrets != [] {
      var n := |secrets| - 1;
      WithoutIdKeeps(secrets[..n], id);
      assert secrets == secrets[..n] + [secrets[n]];
      var kept := WithoutId(secrets[..n], id);
      forall r | r in kept
        ensures Apart(r, secrets[n])
      {
        var i :| 0 <= i < n && secrets[i] == r;
      }
      assert forall i | 0 <= i < |kept| :: kept[i] in kept;
    }
  }

  lemma {:induction false} WithContainerKeeps(
      sessions: seq<Session>, id: string, c: Container, modes: map<string, Mode>, clock: int)
    requires forall x | x in sessions :: SessionInv(x, modes, clock)
    requires c.Running? ==> c.spawnedAt == clock
    ensures forall x | x in WithContainer(sessions, id, c) :: SessionInv(x, modes, clock)
  {
    if sessions != [] {
      var n := |sessions| - 1;
      assert sessions == sessions[..n] + [sessions[n]];
      WithContainerKeeps(sessions[..n], id, c, modes, clock);
      assert SessionInv(sessions[n], modes, clock);
      var last := if sessions[n].id == id then sessions[n].(container := c) else sessions[n];
      assert SessionInv(last, modes, clock);
      assert forall x | x in WithContainer(sessions, id, c) :: x in WithContainer(sessions[..n], id, c) || x == last;
    }
  }

  lemma PutKeepsInv(s: State, p: PutRequest)
    requires Inv(s)
    ensures Inv(Put(s, p))
  {
    hide Find, SessionInv;
    var s' := Put(s, p);
    var i := Find(s.secrets, p.name, p.scope);
    if i.Some? {
      assert s.secrets[i.value] in s.secrets;
      assert forall k | 0 <= k < |s.secrets| && k != i.value :: s'.secrets[k] == s.secrets[k];
      forall r | r in s'.secrets
        ensures exists q | q in s.secrets :: q.scope == r.scope
      {
        var k :| 0 <= k < |s'.secrets| && s'.secrets[k] == r;
        assert s.secrets[k] in s.secrets && s.secrets[k].scope == r.scope;
      }
    } else {
      assert forall k | 0 <= k < |s.secrets| :: s.secrets[k] in s.secrets;
    }
  }

  lemma StepKeepsInv(s: State, step: Step)
    requires Inv(s)
    ensures Inv(Apply(s, step))
  {
    hide UniqueRows, Put;
    match step
    case PutStep(p) => PutKeepsInv(s, p);
    case DeleteStep(id) => WithoutIdKeeps(s.secrets, id);
    case Spawn(id) => WithContainerKeeps(s.sessions, id, Running(s.clock), s.modes, s.clock);
    case Exit(id) => WithContainerKeeps(s.sessions, id, Stopped, s.modes, s.clock);
    case Tick(_) =>
    case CreateGroup(_, _) =>
    case SetMode(_, _) =>
    case DeleteGroup(_) =>
    case ReplaceStep(_, _) =>
    case AssignStep(_, _) =>
    case UnassignStep(_, _) =>
    case OpenSession(_, _) =>
  }

  lemma {:induction false} InvKept(s: State, steps: seq<Step>)
    requires Inv(s)
    ensures Inv(Run(s, steps))
    decreases |steps|
  {
    hide Inv, Apply;
    if steps != [] {
      StepKeepsInv(s, steps[0]);
      InvKept(Apply(s, steps[0]), steps[1..]);
    }
  }

  lemma InvHolds(steps: seq<Step>)
    ensures Inv(Run(INITIAL, steps))
  {
    InvKept(INITIAL, steps);
  }

  // ---------------------------------------------------------- what each operation does

  predicate Known(s: State, p: PutRequest) {
    exists r | r in s.secrets :: r.name == p.name && r.scope == p.scope
  }

  /** Only an insert can fail: on an id in use, or an owning group that does not exist. */
  predicate Refused(s: State, p: PutRequest) {
    && !Known(s, p)
    && ((p.scope.Some? && p.scope.value !in s.modes) || exists r | r in s.secrets :: r.id == p.freshId)
  }

  /** `x` holds what was put; an update keeps the row's id and age. */
  predicate HoldsPut(s: State, p: PutRequest, x: Secret) {
    && x.value == p.value && x.kind == p.kind && x.updatedAt == s.clock
    && (Known(s, p) ==>
          exists r | r in s.secrets :: r == x.(value := r.value, kind := r.kind, updatedAt := r.updatedAt))
    && (!Known(s, p) ==> x.id == p.freshId && x.createdAt == s.clock)
  }

  /** In every run, what is put is what is read under its name and scope, and no other row changes. */
  lemma PutIsRead(steps: seq<Step>, p: PutRequest, x: Secret)
    ensures var s := Run(INITIAL, steps);
            var s' := Apply(s, PutStep(p));
            && (Refused(s, p) ==> s' == s)
            && (!Refused(s, p) ==> exists r | r in s'.secrets :: r.name == p.name && r.scope == p.scope)
            && (!Refused(s, p) && x in s'.secrets && x.name == p.name && x.scope == p.scope ==> HoldsPut(s, p, x))
            && (x.name != p.name || x.scope != p.scope ==> (x in s'.secrets <==> x in s.secrets))
            && s'.modes == s.modes && s'.sessions == s.sessions
  {
    hide Find, Run;
    InvHolds(steps);
    var s := Run(INITIAL, steps);
    var s' := Put(s, p);
    match Find(s.secrets, p.name, p.scope)
    case Some(i) =>
      assert s.secrets[i] in s.secrets && s'.secrets[i] in s'.secrets;
      assert forall k | 0 <= k < |s.secrets| && k != i :: s'.secrets[k] == s.secrets[k];
    case None =>
      assert forall r :: r in s'.secrets <==> r in s.secrets || (s' != s && r == s'.secrets[|s'.secrets| - 1]);
  }

  /** Pair by pair, what deleting, revoking, granting and replacing do to the assignments. */
  lemma AssignmentsChangeExactly(s: State, id: string, group: string, groups: seq<string>, i: string, g: string)
    ensures (i, g) in Apply(s, DeleteStep(id)).assignments <==> (i, g) in s.assignments && i != id
    ensures (i, g) in Apply(s, UnassignStep(id, group)).assignments <==>
              (i, g) in s.assignments && !(i == id && g == group)
    ensures (i, g) in Apply(s, AssignStep(id, group)).assignments <==>
              || (i, g) in s.assignments
              || (i == id && g == group && group in s.modes && exists r | r in s.secrets :: r.id == id)
    ensures var sound := && (exists r | r in s.secrets :: r.id == id) && (forall h | h in groups :: h in s.modes)
                         && forall j, k | 0 <= j < k < |groups| :: groups[j] != groups[k];
            (i, g) in Apply(s, ReplaceStep(id, groups)).assignments <==>
              if sound && i == id then g in groups else (i, g) in s.assignments
  {
  }

  /** Deleting takes that secret in every run; the other operations on assignments take none. */
  lemma DeleteTakesOnlyIt(steps: seq<Step>, id: string, group: string, groups: seq<string>, r: Secret)
    ensures var s := Run(INITIAL, steps);
            && (r in Apply(s, DeleteStep(id)).secrets <==> r in s.secrets && r.id != id)
            && Apply(s, UnassignStep(id, group)).secrets == s.secrets
            && Apply(s, AssignStep(id, group)).secrets == s.secrets
            && Apply(s, ReplaceStep(id, groups)).secrets == s.secrets
  {
    InvHolds(steps);
    WithoutIdKeeps(Run(INITIAL, steps).secrets, id);
  }

  /** Groups: a mode is set only on a known group, and a group that nothing refers to goes with its assignments. */
  lemma GroupsChangeExactly(s: State, g: string, m: Mode, h: string)
    ensures var s' := Apply(s, CreateGroup(g, m));
            && (h in s'.modes <==> h in s.modes || h == g) && (h in s.modes ==> s'.modes[h] == s.modes[h])
            && (g !in s.modes ==> s'.modes[g] == m)
    ensures var s' := Apply(s, SetMode(g, m));
            && (h in s'.modes <==> h in s.modes)
            && (h in s.modes ==> s'.modes[h] == if h == g then m else s.modes[h])
    ensures var s' := Apply(s, DeleteGroup(g));
            var inUse := || (exists r | r in s.secrets :: r.scope == Some(g))
                         || (exists x | x in s.sessions :: x.group == g);
            && (inUse ==> s' == s)
            && (!inUse ==>
                  && (h in s'.modes <==> h in s.modes && h != g) && (h in s'.modes ==> s'.modes[h] == s.modes[h])
                  && forall i :: (i, h) in s'.assignments <==> (i, h) in s.assignments && h != g)
  {
  }

  /** A session opens in a known group under a new id, without a container, and the others stay. */
  lemma SessionOpens(s: State, id: string, g: string)
    ensures var s' := Apply(s, OpenSession(id, g));
            s'.sessions == if g in s.modes && forall x | x in s.sessions :: x.id != id
                           then s.sessions + [Session(id, g, s.clock, Stopped)] else s.sessions
  {
  }

  /** A view says why its secret is injected: its own, assigned, or global. */
  lemma ViewsSayWhy(views: seq<View>, rows: seq<Secret>, group: string, assignments: Assignments, i: nat)
    requires ViewsOf(views, rows, group, assignments) && i < |views|
    ensures exists r | r in rows ::
              && r.id == views[i].id && r.name == views[i].name
              && (views[i].inclusion == Scoped <==> r.scope == Some(group))
              && (views[i].inclusion == AssignedTo <==> r.scope != Some(group) && (r.id, group) in assignments)
  {
    var r := First(rows, views[i].name).value;
    assert r in rows && r.id == views[i].id;
  }

  /** A group's own row that passes the gate is the one it gets, whatever the global row says. */
  lemma ScopedWins(steps: seq<Step>, group: string, rows: seq<Secret>, r: Secret)
    requires var s := Run(INITIAL, steps);
             IsListing(rows, s, group) && r in s.secrets && r.scope == Some(group) && Passes(s, group, r)
    ensures First(rows, r.name) == Some(r)
  {
    InvHolds(steps);
    FirstIsWinner(Run(INITIAL, steps), group, rows, r.name);
  }

  // ---------------------------------------------------------------------- staleness

  /** The query behind the restart banner, for one secret row and one session. */
  predicate IsStale(s: State, r: Secret, x: Session) {
    && x.container.Running? && x.createdAt < r.updatedAt && x.group in s.modes
    && (r.scope == Some(x.group) || (r.scope.None? && Gate(s, x.group, r)))
  }

  predicate Injected(s: State, r: Secret, x: Session) {
    Winner(s, x.group, r.name) == Some(r)
  }

  /** Every session whose container started before the last update of a secret it is given is reported. */
  lemma NobodyIsMissed(steps: seq<Step>, r: Secret, x: Session)
    requires var s := Run(INITIAL, steps); r in s.secrets && x in s.sessions && Injected(s, r, x)
    requires x.container.Running? && x.container.spawnedAt < r.updatedAt
    ensures IsStale(Run(INITIAL, steps), r, x)
  {
    InvHolds(steps);
    assert SessionInv(x, Run(INITIAL, steps).modes, Run(INITIAL, steps).clock);
  }

  predicate Ungated(s: State, r: Secret, group: string) {
    r.scope == Some(group) && !Gate(s, group, r)
  }

  predicate Shadowed(s: State, r: Secret, group: string) {
    && r.scope.None?
    && exists own | own in s.secrets :: own.name == r.name && own.scope == Some(group) && Gate(s, group, own)
  }

  /**
   A reported session is not given the row exactly in two cases: an own row without assignment in a
   selective group, or a global row behind an own one.
   */
  lemma OverReportsExactlyWhen(steps: seq<Step>, r: Secret, x: Session)
    requires var s := Run(INITIAL, steps); r in s.secrets && IsStale(s, r, x)
    ensures var s := Run(INITIAL, steps); !Injected(s, r, x) <==> Ungated(s, r, x.group) || Shadowed(s, r, x.group)
  {
    var s := Run(INITIAL, steps);
    InvHolds(steps);
    if Shadowed(s, r, x.group) {
      var own :| own in s.secrets && own.name == r.name && own.scope == Some(x.group) && Gate(s, x.group, own);
    }
  }

  /**
   Of the sessions that are given the row, one is reported although its container is newer than the
   update exactly when the session itself is older: the query compares the wrong one of the two times.
   */
  lemma CurrentButReportedExactlyWhen(steps: seq<Step>, r: Secret, x: Session)
    requires var s := Run(INITIAL, steps); r in s.secrets && x in s.sessions && Injected(s, r, x)
    ensures IsStale(Run(INITIAL, steps), r, x) && r.updatedAt <= x.container.spawnedAt
       <==> x.container.Running? && x.createdAt < r.updatedAt <= x.container.spawnedAt
  {
    InvHolds(steps);
    assert SessionInv(x, Run(INITIAL, steps).modes, Run(INITIAL, steps).clock);
  }

  lemma {:induction false} WithContainerIs(sessions: seq<Session>, x: Session, c: Container)
    requires x in sessions
    ensures x.(container := c) in WithContainer(sessions, x.id, c)
  {
    var n := |sessions| - 1;
    assert sessions == sessions[..n] + [sessions[n]];
    if x != sessions[n] {
      WithContainerIs(sessions[..n], x, c);
    }
  }

  /**
   So restarting a session never clears its banner: however much later the new container starts, the
   session is reported as before, although the container was given the new value.
   */
  lemma RestartKeepsReport(steps: seq<Step>, r: Secret, x: Session, delay: nat)
    requires var s := Run(INITIAL, steps); r in s.secrets && x in s.sessions && IsStale(s, r, x)
    ensures var s := Run(INITIAL, steps);
            var s' := Run(INITIAL, steps + [Exit(x.id), Tick(delay), Spawn(x.id)]);
            var x' := x.(container := Running(s.clock + delay));
            && r in s'.secrets && x' in s'.sessions && IsStale(s', r, x')
            && (Injected(s', r, x') <==> Injected(s, r, x))
            && r.updatedAt <= x'.container.spawnedAt
  {
    hide Run, WithContainer;
    var s := Run(INITIAL, steps);
    var restart := [Exit(x.id), Tick(delay), Spawn(x.id)];
    InvHolds(steps);
    RunConcat(INITIAL, steps, restart);
    RunThree(s, restart);
    WithContainerIs(s.sessions, x, Stopped);
    WithContainerIs(WithContainer(s.sessions, x.id, Stopped), x.(container := Stopped), Running(s.clock + delay));
  }

  /** Every own row still has the assignment its insert seeded. */
  predicate Seeded(s: State) {
    && (forall r | r in s.secrets && r.scope.Some? :: (r.id, r.scope.value) in s.assignments)
  }

  predicate Unrevoked(steps: seq<Step>) {
    forall i | 0 <= i < |steps| :: !steps[i].UnassignStep? && !steps[i].ReplaceStep?
  }

  lemma StepKeepsSeeded(s: State, step: Step)
    requires Inv(s) && Seeded(s) && !step.UnassignStep? && !step.ReplaceStep?
    ensures Seeded(Apply(s, step))
  {
    hide UniqueRows, SessionInv;
    match step
    case PutStep(p) =>
      var i := Find(s.secrets, p.name, p.scope);
      var s' := Put(s, p);
      forall r | r in s'.secrets && r.scope.Some?
        ensures (r.id, r.scope.value) in s'.assignments
      {
        var k :| 0 <= k < |s'.secrets| && s'.secrets[k] == r;
        if k < |s.secrets| {
          assert s.secrets[k] in s.secrets && s.secrets[k].id == r.id && s.secrets[k].scope == r.scope;
        }
      }
    case DeleteStep(id) => WithoutIdKeeps(s.secrets, id);
    case Tick(_) =>
    case CreateGroup(_, _) =>
    case SetMode(_, _) =>
    case DeleteGroup(_) =>
    case AssignStep(_, _) =>
    case OpenSession(_, _) =>
    case Spawn(_) =>
    case Exit(_) =>
  }

  lemma {:induction false} SeededKept(s: State, steps: seq<Step>)
    requires Inv(s) && Seeded(s) && Unrevoked(steps)
    ensures Seeded(Run(s, steps))
    decreases |steps|
  {
    hide Inv, Apply, Seeded;
    if steps != [] {
      StepKeepsSeeded(s, steps[0]);
      StepKeepsInv(s, steps[0]);
      SeededKept(Apply(s, steps[0]), steps[1..]);
    }
  }

  /** Without a revocation no own row is ever ungated ... */
  lemma UnrevokedIsNeverUngated(steps: seq<Step>, r: Secret, group: string)
    requires Unrevoked(steps) && r in Run(INITIAL, steps).secrets
    ensures !Ungated(Run(INITIAL, steps), r, group)
  {
    SeededKept(INITIAL, steps);
  }

  /**
   ... but revoking the seeded assignment reaches that state, and the banner then names a session
   that does not get the secret.
   */
  lemma RevocationOverReports()
    ensures var s := Run(INITIAL, Setup() + Revocation());
            s.secrets == [RotatedRow()] && s.sessions == [RunningSession()]
            && IsStale(s, RotatedRow(), RunningSession()) && Winner(s, "g", "KEY") == None
  {
    hide Put;
    SetupRun();
    RevocationRun();
    RunConcat(INITIAL, Setup(), Revocation());
    var s := AfterRevocation();
    assert Find(s.secrets[1..], "KEY", None).None?;
  }

  function FirstRow(): Secret { Secret("s1", "KEY", "old", "generic", Some("g"), 0, 0) }

  function RotatedRow(): Secret { FirstRow().(value := "new", updatedAt := 1) }

  function RunningSession(): Session { Session("x", "g", 0, Running(0)) }

  function Setup(): seq<Step> {
    [CreateGroup("g", Selective),
     PutStep(PutRequest("KEY", "old", "generic", Some("g"), "s1")),
     OpenSession("x", "g"),
     Spawn("x")]
  }

  function Revocation(): seq<Step> {
    [UnassignStep("s1", "g"), Tick(1), PutStep(PutRequest("KEY", "new", "generic", Some("g"), "s2"))]
  }

  function AfterSetup(): State {
    State([FirstRow()], {("s1", "g")}, map["g" := Selective], [RunningSession()], 0)
  }

  function AfterRevocation(): State {
    State([RotatedRow()], {}, map["g" := Selective], [RunningSession()], 1)
  }

  lemma SetupRun()
    ensures Run(INITIAL, Setup()) == AfterSetup()
  {
    var steps := Setup();
    var s1 := Apply(INITIAL, steps[0]);
    var s2 := Apply(s1, steps[1]);
    var s3 := Apply(s2, steps[2]);
    assert s2 == AfterSetup().(sessions := []);
    assert s3 == AfterSetup().(sessions := [Session("x", "g", 0, Stopped)]);
    assert s3.sessions[..0] == [];
    assert Apply(s3, steps[3]) == AfterSetup();
  }

  lemma RevocationRun()
    ensures Run(AfterSetup(), Revocation()) == AfterRevocation()
  {
    var steps := Revocation();
    var s1 := Apply(AfterSetup(), steps[0]);
    var s2 := Apply(s1, steps[1]);
    assert s2 == AfterSetup().(assignments := {}, clock := 1);
    assert Apply(s2, steps[2]) == AfterRevocation();
    RunThree(AfterSetup(), steps);
  }

  lemma RunThree(s: State, steps: seq<Step>)
    requires |steps| == 3
    ensures Run(s, steps) == Apply(Apply(Apply(s, steps[0]), steps[1]), steps[2])
  {
    hide Apply;
    var t := Apply(Apply(s, steps[0]), steps[1]);
    assert steps[1..][1..] == [steps[2]] && [steps[2]][1..] == [];
    assert Run(Apply(s, steps[0]), steps[1..]) == Run(t, [steps[2]]) == Apply(t, steps[2]);
  }

  lemma {:induction false} RunConcat(s: State, a: seq<Step>, b: seq<Step>)
    ensures Run(s, a + b) == Run(Run(s, a), b)
    decreases |a|
  {
    hide Apply;
    if a == [] {
      assert a + b == b;
    } else {
      assert (a + b)[0] == a[0] && (a + b)[1..] == a[1..] + b;
      RunConcat(Apply(s, a[0]), a[1..], b);
    }
  }
}
