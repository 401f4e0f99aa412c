/**
 Per-agent destination names: the loop that picks a free name, the wiring call
 that uses it, and the migration that named the wirings made before it existed.
 */
module Destinations {
  import opened Text

  datatype TargetType = Channel | Agent

  datatype Destination = Destination(agent: string, localName: string, targetType: TargetType, targetId: string)

  datatype Wiring = Wiring(group: string, agent: string)

  // -------------------------------------------------------------------- fresh names

  /** The `k`-th name tried: base, base-2, base-3, ... */
  function Candidate(base: string, k: nat): string {
    if k == 0 then base else base + "-" + Numeral(k + 1)
  }

  lemma CandidatesDiffer(base: string, j: nat, k: nat)
    requires j != k
    ensures Candidate(base, j) != Candidate(base, k)
  {
    NumeralRoundTrip(j + 1);
    NumeralRoundTrip(k + 1);
    if j > 0 && k > 0 {
      assert Candidate(base, j)[|base| + 1..] == Numeral(j + 1);
      assert Candidate(base, k)[|base| + 1..] == Numeral(k + 1);
    }
  }

  predicate AllTaken(base: string, taken: set<string>, k: nat) {
    forall j: nat | j < k :: Candidate(base, j) in taken
  }

  /** Distinct candidates that are all taken cannot outnumber the taken names. */
  lemma {:induction false} Pigeonhole(base: string, taken: set<string>, k: nat)
    requires AllTaken(base, taken, k)
    ensures k <= |taken|
  {
    hide Candidate;
    if k > 0 {
      var last := Candidate(base, k - 1);
      forall j: nat | j < k - 1
        ensures Candidate(base, j) in taken - {last}
      {
        CandidatesDiffer(base, j, k - 1);
      }
      Pigeonhole(base, taken - {last}, k - 1);
    }
  }

  /** Index of the first free candidate from `k` on. */
  function FreshIndex(base: string, taken: set<string>, k: nat): (r: nat)
    requires AllTaken(base, taken, k)
    ensures k <= r <= |taken| && AllTaken(base, taken, r) && Candidate(base, r) !in taken
    decreases |taken| - k
  {
    Pigeonhole(base, taken, k);
    if Candidate(base, k) !in taken then k
    else
      Pigeonhole(base, taken, k + 1);
      FreshIndex(base, taken, k + 1)
  }

  function FreshName(base: string, taken: set<string>): string {
    Candidate(base, FreshIndex(base, taken, 0))
  }

  /** The free name with the smallest number is the only one the loop can stop at. */
  lemma FreshNameIsFirstFree(base: string, taken: set<string>, k: nat)
    ensures FreshName(base, taken) == Candidate(base, k) <==> AllTaken(base, taken, k) && Candidate(base, k) !in taken
  {
    var r := FreshIndex(base, taken, 0);
    if k < r {
      CandidatesDiffer(base, k, r);
    } else if r < k {
      CandidatesDiffer(base, r, k);
    }
  }

  // ------------------------------------------------------------------------- tables

  function TakenBy(dests: seq<Destination>, agent: string): set<string> {
    set d | d in dests && d.agent == agent :: d.localName
  }

  predicate HasTarget(dests: seq<Destination>, agent: string, targetType: TargetType, targetId: string) {
    exists d | d in dests :: d.agent == agent && d.targetType == targetType && d.targetId == targetId
  }

  predicate NameTaken(dests: seq<Destination>, agent: string, localName: string) {
    exists d | d in dests :: d.agent == agent && d.localName == localName
  }

  /** `bases` holds the normalised base name of every messaging group. */
  datatype State = State(bases: map<string, string>, wirings: seq<Wiring>, dests: seq<Destination>)

  const INITIAL := State(map[], [], [])

  function ChannelRow(dests: seq<Destination>, w: Wiring, base: string): Destination {
    Destination(w.agent, FreshName(base, TakenBy(dests, w.agent)), Channel, w.group)
  }

  /** The insert throws on a repeated (group, agent) pair and on a group that does not exist. */
  predicate Insertable(s: State, w: Wiring) {
    w !in s.wirings && w.group in s.bases
  }

  function Wire(s: State, w: Wiring): State {
    if !Insertable(s, w) then s
    else
      var wired := s.(wirings := s.wirings + [w]);
      if HasTarget(s.dests, w.agent, Channel, w.group) then wired
      else wired.(dests := s.dests + [ChannelRow(s.dests, w, s.bases[w.group])])
  }

  function Kept(dests: seq<Destination>, p: Destination -> bool): seq<Destination> {
    if dests == [] then []
    else
      var n := |dests| - 1;
      Kept(dests[..n], p) + if p(dests[n]) then [dests[n]] else []
  }

  class CentralTables {
    var bases: map<string, string>
    var wirings: seq<Wiring>
    var dests: seq<Destination>

    function Contents(): State
      reads this
    {
      State(bases, wirings, dests)
    }

    /** Wires a group to an agent; the result says whether the wiring row was inserted. */
    method CreateMessagingGroupAgent(w: Wiring) returns (inserted: bool)
      modifies this
      ensures Contents() == Wire(old(Contents()), w)
      ensures inserted == Insertable(old(Contents()), w)
    {
      if w in wirings || w.group !in bases { return false; }
      inserted := true;
      wirings := wirings + [w];
      if HasTarget(dests, w.agent, Channel, w.group) { return; }
      var base := bases[w.group];
      var localName, suffix := base, 2;
      ghost var taken := TakenBy(dests, w.agent);
      ghost var k: nat := 0;
      while NameTaken(dests, w.agent, localName)
        invariant bases == old(bases) && dests == old(dests) && wirings == old(wirings) + [w]
        invariant localName == Candidate(base, k) && suffix == k + 2
        invariant AllTaken(base, taken, k) && k <= |taken|
        invariant NameTaken(dests, w.agent, localName) <==> localName in taken
        decreases |taken| - k
      {
        localName := base + "-" + Numeral(suffix);
        suffix := suffix + 1;
        k := k + 1;
        Pigeonhole(base, taken, k);
      }
      FreshNameIsFirstFree(base, taken, k);
      dests := dests + [Destination(w.agent, localName, Channel, w.group)];
    }
  }

  // ---------------------------------------------------------------------- every run

  datatype Step =
    | NameGroup(group: string, base: string)
    | DropGroup(group: string)
    | WireStep(wiring: Wiring)
    | Unwire(wiring: Wiring)
    | CreateAgentDestination(agent: string, localName: string, targetAgent: string)
    | DeleteDestination(agent: string, localName: string)
    | DeleteAllTouching(agent: string)

  function Without(wirings: seq<Wiring>, w: Wiring): seq<Wiring> {
    if wirings == [] then []
    else
      var n := |wirings| - 1;
      Without(wirings[..n], w) + if wirings[n] == w then [] else [wirings[n]]
  }

  /** The primary key makes a repeated (agent, name) throw. */
  function CreateRow(dests: seq<Destination>, d: Destination): seq<Destination> {
    if NameTaken(dests, d.agent, d.localName) then dests else dests + [d]
  }

  predicate Touches(d: Destination, agent: string) {
    d.agent == agent || (d.targetType == Agent && d.targetId == agent)
  }

  function Apply(s: State, step: Step): State {
    match step
    case NameGroup(g, base) => s.(bases := s.bases[g := base])
    case DropGroup(g) => if exists w | w in s.wirings :: w.group == g then s else s.(bases := s.bases - {g})
    case WireStep(w) => Wire(s, w)
    case Unwire(w) => s.(wirings := Without(s.wirings, w))
    case CreateAgentDestination(agent, name, target) =>
      s.(dests := CreateRow(s.dests, Destination(agent, name, Agent, target)))
    case DeleteDestination(agent, name) =>
      s.(dests := Kept(s.dests, (d: Destination) => d.agent != agent || d.localName != name))
    case DeleteAllTouching(agent) => s.(dests := Kept(s.dests, (d: Destination) => !Touches(d, agent)))
  }

  function Run(s: State, steps: seq<Step>): State
    decreases |steps|
  {
    if steps == [] then s else Run(Apply(s, steps[0]), steps[1..])
  }

  /** Two rows share neither (agent, local name) nor (agent, channel). */
  predicate Apart(d: Destination, e: Destination) {
    d.agent == e.agent ==>
      && d.localName != e.localName
      && !(d.targetType == Channel && e.targetType == Channel && d.targetId == e.targetId)
  }

  predicate Inv(dests: seq<Destination>) {
    forall i, j | 0 <= i < j < |dests| :: Apart(dests[i], dests[j])
  }

  lemma AppendKeepsInv(dests: seq<Destination>, d: Destination)
    requires Inv(dests) && !NameTaken(dests, d.agent, d.localName)
    requires d.targetType == Channel ==> !HasTarget(dests, d.agent, Channel, d.targetId)
    ensures Inv(dests + [d])
  {
    assert forall i | 0 <= i < |dests| :: dests[i] in dests;
  }

  lemma {:induction false} KeptIsInOrder(dests: seq<Destination>, p: Destination -> bool)
    requires Inv(dests)
    ensures Inv(Kept(dests, p))
    ensures forall d :: d in Kept(dests, p) <==> d in dests && p(d)
  {
    if dests != [] {
      var n := |dests| - 1;
      KeptIsInOrder(dests[..n], p);
      assert dests == dests[..n] + [dests[n]];
      var kept := Kept(dests[..n], p);
      forall d | d in kept
        ensures Apart(d, dests[n])
      {
        var i :| 0 <= i < n && dests[i] == d;
      }
    }
  }

  lemma WireKeepsInv(s: State, w: Wiring)
    requires Inv(s.dests)
    ensures Inv(Wire(s, w).dests)
  {
    hide FreshName;
    if w.group in s.bases {
      var base := s.bases[w.group];
      var row := ChannelRow(s.dests, w, base);
      FreshNameIsFirstFree(base, TakenBy(s.dests, w.agent), FreshIndex(base, TakenBy(s.dests, w.agent), 0));
      NamesAreFresh(s.dests, w, base);
      if !HasTarget(s.dests, w.agent, Channel, w.group) {
        AppendKeepsInv(s.dests, row);
      }
    }
  }

  lemma NamesAreFresh(dests: seq<Destination>, w: Wiring, base: string)
    ensures !NameTaken(dests, w.agent, ChannelRow(dests, w, base).localName)
  {
  }

  lemma StepKeepsInv(s: State, step: Step)
    requires Inv(s.dests)
    ensures Inv(Apply(s, step).dests)
  {
    hide Inv, Wire, NameTaken;
    match step
    case WireStep(w) => WireKeepsInv(s, w);
    case CreateAgentDestination(agent, name, target) =>
      if !NameTaken(s.dests, agent, name) {
        AppendKeepsInv(s.dests, Destination(agent, name, Agent, target));
      }
    case DeleteDestination(agent, name) =>
      KeptIsInOrder(s.dests, (d: Destination) => d.agent != agent || d.localName != name);
    case DeleteAllTouching(agent) => KeptIsInOrder(s.dests, (d: Destination) => !Touches(d, agent));
    case NameGroup(_, _) =>
    case DropGroup(_) =>
    case Unwire(_) =>
  }

  lemma {:induction false} InvKept(s: State, steps: seq<Step>)
    requires Inv(s.dests)
    ensures Inv(Run(s, steps).dests)
    decreases |steps|
  {
    hide Inv, Apply;
    if steps != [] {
      StepKeepsInv(s, steps[0]);
      InvKept(Apply(s, steps[0]), steps[1..]);
    }
  }

  /** Whatever is wired, renamed, created and deleted, (agent, name) and (agent, channel) stay unique. */
  lemma InvHolds(steps: seq<Step>)
    ensures Inv(Run(INITIAL, steps).dests)
  {
    InvKept(INITIAL, steps);
  }

  lemma {:induction false} WithoutIsExact(wirings: seq<Wiring>, w: Wiring)
    ensures forall v :: v in Without(wirings, w) <==> v in wirings && v != w
  {
    if wirings != [] {
      var n := |wirings| - 1;
      WithoutIsExact(wirings[..n], w);
      assert wirings == wirings[..n] + [wirings[n]];
    }
  }

  /** A group can be wired from its naming on, and dropped only when nothing is wired to it. */
  lemma GroupsComeAndGo(s: State, w: Wiring, base: string)
    ensures var named := Apply(s, NameGroup(w.group, base));
            && (Insertable(named, w) <==> w !in s.wirings)
            && named.bases[w.group] == base && named.wirings == s.wirings && named.dests == s.dests
            && forall g | g != w.group :: g in named.bases <==> g in s.bases
    ensures var dropped := Apply(s, DropGroup(w.group));
            && (w in s.wirings ==> dropped == s)
            && (dropped != s ==> w.group !in dropped.bases && !Insertable(dropped, w))
            && ((forall v | v in s.wirings :: v.group != w.group) ==> w.group !in dropped.bases)
            && forall g | g != w.group :: g in dropped.bases <==> g in s.bases
  {
  }

  /** Unwiring takes that wiring and leaves the agent's destination, which a later wiring finds again. */
  lemma UnwireKeepsTheDestination(s: State, w: Wiring)
    ensures var s' := Apply(s, Unwire(w));
            && (forall v :: v in s'.wirings <==> v in s.wirings && v != w)
            && s'.dests == s.dests && s'.bases == s.bases
            && (w.group in s.bases && HasTarget(s.dests, w.agent, Channel, w.group) ==>
                  Wire(s', w).dests == s.dests && w in Wire(s', w).wirings)
  {
    hide FreshName;
    WithoutIsExact(s.wirings, w);
  }

  /** What deletion takes in every run: one named row, or every row of an agent or pointing to it. */
  lemma DeletionsAreExact(steps: seq<Step>, agent: string, name: string, d: Destination)
    ensures var s := Run(INITIAL, steps);
            && (d in Apply(s, DeleteDestination(agent, name)).dests <==>
                  d in s.dests && !(d.agent == agent && d.localName == name))
            && (d in Apply(s, DeleteAllTouching(agent)).dests <==>
                  d in s.dests && d.agent != agent && !(d.targetType == Agent && d.targetId == agent))
  {
    var s := Run(INITIAL, steps);
    InvHolds(steps);
    KeptIsInOrder(s.dests, (d: Destination) => d.agent != agent || d.localName != name);
    KeptIsInOrder(s.dests, (d: Destination) => !Touches(d, agent));
  }

  /** An agent destination is added under its name unless the name is taken, and no other row moves. */
  lemma CreatedDestinationIsThere(s: State, agent: string, name: string, target: string)
    ensures var s' := Apply(s, CreateAgentDestination(agent, name, target));
            var d := Destination(agent, name, Agent, target);
            s'.dests == if exists e | e in s.dests :: e.agent == agent && e.localName == name then s.dests
                        else s.dests + [d]
  {
  }

  /** A new wiring of a known group leaves its agent with exactly one row for it, and every earlier row in place. */
  lemma WireGrants(steps: seq<Step>, w: Wiring)
    ensures var s := Run(INITIAL, steps);
            var s' := Apply(s, WireStep(w));
            && (Insertable(s, w) <==> w !in s.wirings && w.group in s.bases)
            && s'.wirings == (if Insertable(s, w) then s.wirings + [w] else s.wirings) && s'.bases == s.bases
            && s.dests <= s'.dests && |s'.dests| <= |s.dests| + 1
            && (HasTarget(s.dests, w.agent, Channel, w.group) ==> s'.dests == s.dests)
            && (Insertable(s, w) ==>
                  exists i | 0 <= i < |s'.dests| :: IsOnlyRowFor(s'.dests, i, w))
  {
    var s := Run(INITIAL, steps);
    var s' := Wire(s, w);
    InvHolds(steps);
    WireKeepsInv(s, w);
    hide FreshName;
    if Insertable(s, w) {
      assert HasTarget(s'.dests, w.agent, Channel, w.group) by {
        if !HasTarget(s.dests, w.agent, Channel, w.group) {
          assert s'.dests[|s.dests|] in s'.dests;
        }
      }
      var d :| d in s'.dests && d.agent == w.agent && d.targetType == Channel && d.targetId == w.group;
      var i :| 0 <= i < |s'.dests| && s'.dests[i] == d;
      OnlyRow(s'.dests, i, w);
    }
  }

  predicate RowFor(d: Destination, w: Wiring) {
    d.agent == w.agent && d.targetType == Channel && d.targetId == w.group
  }

  predicate IsOnlyRowFor(dests: seq<Destination>, i: nat, w: Wiring)
    requires i < |dests|
  {
    RowFor(dests[i], w) && forall j | 0 <= j < |dests| && j != i :: !RowFor(dests[j], w)
  }

  lemma OnlyRow(dests: seq<Destination>, i: nat, w: Wiring)
    requires Inv(dests) && i < |dests| && RowFor(dests[i], w)
    ensures IsOnlyRowFor(dests, i, w)
  {
    forall j | 0 <= j < |dests| && j != i
      ensures !RowFor(dests[j], w)
    {
      assert Apart(dests[i], dests[j]) || Apart(dests[j], dests[i]);
    }
  }

  // ---------------------------------------------------------------------- migration

  datatype OldWiring = OldWiring(wiring: Wiring, base: string)

  function Migrated(rows: seq<OldWiring>): (dests: seq<Destination>)
    ensures |dests| == |rows|
  {
    if rows == [] then []
    else
      var n := |rows| - 1;
      var dests := Migrated(rows[..n]);
      dests + [ChannelRow(dests, rows[n].wiring, rows[n].base)]
  }

  function TakenIn(takenByAgent: map<string, set<string>>, agent: string): set<string> {
    if agent in takenByAgent then takenByAgent[agent] else {}
  }

  method FreeName(base: string, taken: set<string>) returns (localName: string)
    ensures localName == FreshName(base, taken)
  {
    hide FreshName, FreshIndex;
    localName := base;
    var suffix := 2;
    ghost var k: nat := 0;
    while localName in taken
      invariant localName == Candidate(base, k) && suffix == k + 2
      invariant AllTaken(base, taken, k) && k <= |taken|
      decreases |taken| - k
    {
      localName := base + "-" + Numeral(suffix);
      suffix := suffix + 1;
      k := k + 1;
      Pigeonhole(base, taken, k);
    }
    FreshNameIsFirstFree(base, taken, k);
  }

  /** The migration's own loop, which keeps the taken names per agent in a map instead of asking the table. */
  method Backfill(rows: seq<OldWiring>) returns (dests: seq<Destination>)
    ensures dests == Migrated(rows)
  {
    hide FreshName, TakenBy;
    var takenByAgent: map<string, set<string>> := map[];
    dests := [];
    assert forall agent :: TakenBy([], agent) == {} by { NothingTaken(); }
    for i := 0 to |rows|
      invariant dests == Migrated(rows[..i])
      invariant forall agent :: TakenIn(takenByAgent, agent) == TakenBy(dests, agent)
    {
      var row := rows[i];
      var taken := TakenIn(takenByAgent, row.wiring.agent);
      var localName := FreeName(row.base, taken);
      var d := Destination(row.wiring.agent, localName, Channel, row.wiring.group);
      takenByAgent := takenByAgent[row.wiring.agent := taken + {localName}];
      TakenGrows(dests, d);
      assert rows[..i + 1][..i] == rows[..i];
      assert Migrated(rows[..i + 1]) == dests + [d];
      dests := dests + [d];
    }
    assert rows[..|rows|] == rows;
  }

  lemma NothingTaken()
    ensures forall agent :: TakenBy([], agent) == {}
  {
  }

  lemma TakenGrows(dests: seq<Destination>, d: Destination)
    ensures forall agent :: TakenBy(dests + [d], agent) == TakenBy(dests, agent) + if agent == d.agent
        then {d.localName} else {}
  {
    var grown := dests + [d];
    forall agent
      ensures TakenBy(grown, agent) == TakenBy(dests, agent) + if agent == d.agent then {d.localName} else {}
    {
      var now, expected := TakenBy(grown, agent), TakenBy(dests, agent) + if agent == d.agent then {d.localName}
          else {};
      forall name | name in expected
        ensures name in now
      {
        if name in TakenBy(dests, agent) {
          var e :| e in dests && e.agent == agent && e.localName == name;
          assert e in grown;
        } else {
          assert d in grown;
        }
      }
    }
  }

  predicate NamesEvery(dests: seq<Destination>, rows: seq<OldWiring>)
    requires |dests| == |rows|
  {
    && (forall i | 0 <= i < |rows| :: RowFor(dests[i], rows[i].wiring))
    && (forall i, j | 0 <= i < j < |rows| && dests[i].agent == dests[j].agent ::
          dests[i].localName != dests[j].localName)
  }

  lemma NamesOneMore(dests: seq<Destination>, rows: seq<OldWiring>, d: Destination)
    requires rows != [] && |dests| == |rows| - 1 && NamesEvery(dests, rows[..|rows| - 1])
    requires RowFor(d, rows[|rows| - 1].wiring) && !NameTaken(dests, d.agent, d.localName)
    ensures NamesEvery(dests + [d], rows)
  {
    var n := |rows| - 1;
    assert forall i | 0 <= i < n :: dests[i] in dests && rows[..n][i] == rows[i];
  }

  /** One row per wiring, in order, and no insert of the migration violates the primary key. */
  lemma {:induction false} MigrationNamesEveryWiring(rows: seq<OldWiring>)
    ensures NamesEvery(Migrated(rows), rows)
  {
    hide FreshName, NamesEvery, NameTaken, TakenBy;
    if rows == [] {
      assert NamesEvery([], rows) by { NothingNamed(); }
    } else {
      var n := |rows| - 1;
      MigrationNamesEveryWiring(rows[..n]);
      var dests := Migrated(rows[..n]);
      NamesAreFresh(dests, rows[n].wiring, rows[n].base);
      NamesOneMore(dests, rows, ChannelRow(dests, rows[n].wiring, rows[n].base));
    }
  }

  lemma NothingNamed()
    ensures NamesEvery([], [])
  {
  }

  function WireAll(s: State, rows: seq<OldWiring>): State {
    if rows == [] then s else Wire(WireAll(s, rows[..|rows| - 1]), rows[|rows| - 1].wiring)
  }

  predicate WiredOnce(rows: seq<OldWiring>) {
    forall i, j | 0 <= i < j < |rows| :: rows[i].wiring != rows[j].wiring
  }

  predicate BasesFit(bases: map<string, string>, rows: seq<OldWiring>) {
    forall r | r in rows :: r.wiring.group in bases && bases[r.wiring.group] == r.base
  }

  /**
   The migration and the wiring call build the same rows: replaying the old wirings through the call
   gives the migrated table.
   */
  lemma {:induction false} MigrationMirrorsWiring(bases: map<string, string>, rows: seq<OldWiring>)
    requires WiredOnce(rows) && BasesFit(bases, rows)
    ensures WireAll(State(bases, [], []), rows)
        == State(bases, seq(|rows|, i requires 0 <= i < |rows| => rows[i].wiring), Migrated(rows))
  {
    hide FreshName;
    if rows != [] {
      var n := |rows| - 1;
      MigrationMirrorsWiring(bases, rows[..n]);
      MigrationNamesEveryWiring(rows[..n]);
      var w := rows[n].wiring;
      assert rows[n] in rows;
      var before := WireAll(State(bases, [], []), rows[..n]);
    }
  }
}
