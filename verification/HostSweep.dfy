/**
 The host's periodic sweep of one session: the stuck-container verdict and the
 reset of messages a dead container left claimed.
 */
module HostSweep {
  import opened Wrappers
  import opened SessionDb

  const ABSOLUTE_CEILING: nat := 30 * 60 * 1000
  const CLAIM_STUCK: nat := 60 * 1000
  const MAX_TRIES: nat := 5

  // ------------------------------------------------------------------ the verdict

  /** A claim whose timestamp does not parse has `claimedAt` None. */
  datatype Claim = Claim(id: MsgId, claimedAt: Option<Time>)

  datatype ContainerState = ContainerState(tool: Option<string>, declaredTimeout: Option<int>)

  datatype Decision =
    | Keep
    | KillCeiling(age: int, ceiling: int)
    | KillClaim(id: MsgId, age: int, tolerance: int)

  function BashTimeout(state: Option<ContainerState>): Option<int> {
    if state.None? || state.value.tool != Some("Bash") then None else state.value.declaredTimeout
  }

  function AtLeast(floor: int, declared: Option<int>): int {
    if declared.Some? && declared.value > floor then declared.value else floor
  }

  predicate PastCeiling(now: Time, heartbeat: Time, declared: Option<int>) {
    heartbeat != 0 && now - heartbeat > AtLeast(ABSOLUTE_CEILING, declared)
  }

  predicate Stuck(c: Claim, now: Time, heartbeat: Time, declared: Option<int>) {
    && c.claimedAt.Some?
    && now - c.claimedAt.value > AtLeast(CLAIM_STUCK, declared)
    && heartbeat <= c.claimedAt.value
  }

  function FirstStuck(claims: seq<Claim>, now: Time, heartbeat: Time, declared: Option<int>): Decision {
    if claims == [] then Keep
    else if Stuck(claims[0], now, heartbeat, declared) then
      KillClaim(claims[0].id, now - claims[0].claimedAt.value, AtLeast(CLAIM_STUCK, declared))
    else FirstStuck(claims[1..], now, heartbeat, declared)
  }

  /** `heartbeat` is 0 when the container has not touched its heartbeat file yet. */
  function Decide(now: Time, heartbeat: Time, state: Option<ContainerState>, claims: seq<Claim>): Decision {
    var declared := BashTimeout(state);
    if PastCeiling(now, heartbeat, declared) then KillCeiling(now - heartbeat, AtLeast(ABSOLUTE_CEILING, declared))
    else FirstStuck(claims, now, heartbeat, declared)
  }

  method DecideStuckAction(now: Time, heartbeat: Time, state: Option<ContainerState>, claims: seq<Claim>)
    returns (d: Decision)
    ensures d == Decide(now, heartbeat, state, claims)
  {
    var declared := BashTimeout(state);
    if heartbeat != 0 {
      var age := now - heartbeat;
      var ceiling := AtLeast(ABSOLUTE_CEILING, declared);
      if age > ceiling {
        return KillCeiling(age, ceiling);
      }
    }
    var tolerance := AtLeast(CLAIM_STUCK, declared);
    for i := 0 to |claims|
      invariant FirstStuck(claims, now, heartbeat, declared) == FirstStuck(claims[i..], now, heartbeat, declared)
    {
      var claim := claims[i];
      assert claims[i..][1..] == claims[i + 1..];
      if claim.claimedAt.None? { continue; }
      var age := now - claim.claimedAt.value;
      if age <= tolerance { continue; }
      if heartbeat > claim.claimedAt.value { continue; }
      return KillClaim(claim.id, age, tolerance);
    }
    return Keep;
  }

  /** The verdict names the first stuck claim, with its age and the tolerance it exceeded. */
  predicate BlamesFirst(d: Decision, claims: seq<Claim>, i: nat, now: Time, heartbeat: Time, declared: Option<int>)
    requires i < |claims|
  {
    && Stuck(claims[i], now, heartbeat, declared)
    && (forall j | 0 <= j < i :: !Stuck(claims[j], now, heartbeat, declared))
    && d == KillClaim(claims[i].id, now - claims[i].claimedAt.value, AtLeast(CLAIM_STUCK, declared))
  }

  lemma {:induction false} FirstStuckFindsStuck(claims: seq<Claim>, now: Time, heartbeat: Time, declared: Option<int>)
    ensures var d := FirstStuck(claims, now, heartbeat, declared);
            && (d.Keep? <==> forall c | c in claims :: !Stuck(c, now, heartbeat, declared))
            && (!d.Keep? ==> exists i | 0 <= i < |claims| :: BlamesFirst(d, claims, i, now, heartbeat, declared))
  {
    hide Stuck;
    if claims != [] {
      FirstStuckFindsStuck(claims[1..], now, heartbeat, declared);
      assert claims == [claims[0]] + claims[1..];
      var d := FirstStuck(claims, now, heartbeat, declared);
      if Stuck(claims[0], now, heartbeat, declared) {
        assert BlamesFirst(d, claims, 0, now, heartbeat, declared);
      } else if !d.Keep? {
        var i :| 0 <= i < |claims| - 1 && BlamesFirst(d, claims[1..], i, now, heartbeat, declared);
        assert forall j | 0 <= j < i + 1 :: j > 0 ==> claims[j] == claims[1..][j - 1];
        assert BlamesFirst(d, claims, i + 1, now, heartbeat, declared);
      }
    }
  }

  /**
   A running container is killed exactly when one of the two rules fires, by the rule that fires,
   with the age it reports.
   */
  lemma KillsExactlyWhen(now: Time, heartbeat: Time, state: Option<ContainerState>, claims: seq<Claim>)
    ensures var d, declared := Decide(now, heartbeat, state, claims), BashTimeout(state);
            && (d.KillCeiling? <==> PastCeiling(now, heartbeat, declared))
            && (d.KillCeiling? ==> d.age == now - heartbeat > d.ceiling >= ABSOLUTE_CEILING)
            && (d.Keep? <==> !PastCeiling(now, heartbeat, declared)
                             && forall c | c in claims :: !Stuck(c, now, heartbeat, declared))
            && (d.KillClaim? ==> exists i | 0 <= i < |claims| :: BlamesFirst(d, claims, i, now, heartbeat, declared))
            && (d.KillClaim? ==> exists c :: c in claims && c.id == d.id && Stuck(c, now, heartbeat, declared))
  {
    hide Stuck, FirstStuck;
    var d, declared := Decide(now, heartbeat, state, claims), BashTimeout(state);
    FirstStuckFindsStuck(claims, now, heartbeat, declared);
    if d.KillClaim? {
      var i :| 0 <= i < |claims| && BlamesFirst(d, claims, i, now, heartbeat, declared);
      assert claims[i] in claims;
    }
  }

  /** A Bash call that declares its timeout is given that long, by both rules. */
  lemma DeclaredTimeoutIsHonoured(now: Time, heartbeat: Time, t: int, claims: seq<Claim>)
    ensures var d := Decide(now, heartbeat, Some(ContainerState(Some("Bash"), Some(t))), claims);
            && (d.KillCeiling? <==> heartbeat != 0 && now - heartbeat > 1_800_000 && now - heartbeat > t)
            && (d.KillClaim? <==>
                  && !d.KillCeiling?
                  && exists c :: c in claims && c.claimedAt.Some? && now - c.claimedAt.value > 60_000
                                 && now - c.claimedAt.value > t && heartbeat <= c.claimedAt.value)
  {
    var state := Some(ContainerState(Some("Bash"), Some(t)));
    KillsExactlyWhen(now, heartbeat, state, claims);
    if c :| c in claims && Stuck(c, now, heartbeat, Some(t)) {
      assert now - c.claimedAt.value > t;
    }
    if c :| c in claims && c.claimedAt.Some? && now - c.claimedAt.value > 60_000
            && now - c.claimedAt.value > t && heartbeat <= c.claimedAt.value {
      assert Stuck(c, now, heartbeat, Some(t));
    }
  }

  /** Without a state, in any other tool, or with no number declared, the fixed limits apply, whatever is declared. */
  lemma OtherTimeoutsAreIgnored(now: Time, heartbeat: Time, state: Option<ContainerState>, claims: seq<Claim>)
    requires state.Some? ==> state.value.tool != Some("Bash") || state.value.declaredTimeout.None?
    ensures var d := Decide(now, heartbeat, state, claims);
            && (d.KillCeiling? <==> heartbeat != 0 && now - heartbeat > 1_800_000)
            && (d.KillClaim? <==>
                  && !d.KillCeiling?
                  && exists c :: c in claims && c.claimedAt.Some? && now - c.claimedAt.value > 60_000
                                 && heartbeat <= c.claimedAt.value)
  {
    KillsExactlyWhen(now, heartbeat, state, claims);
    if c :| c in claims && Stuck(c, now, heartbeat, None) {
      assert now - c.claimedAt.value > 60_000;
    }
    if c :| c in claims && c.claimedAt.Some? && now - c.claimedAt.value > 60_000 && heartbeat <= c.claimedAt.value {
      assert Stuck(c, now, heartbeat, None);
    }
  }

  /** Waiting longer, or declaring a shorter Bash timeout, never turns a kill into a reprieve. */
  lemma VerdictIsMonotone(
      now: Time, later: Time, heartbeat: Time,
      state: Option<ContainerState>, shorter: Option<ContainerState>, claims: seq<Claim>)
    requires now <= later
    requires AtLeast(0, BashTimeout(shorter)) <= AtLeast(0, BashTimeout(state))
    requires !Decide(now, heartbeat, state, claims).Keep?
    ensures !Decide(later, heartbeat, shorter, claims).Keep?
  {
    KillsExactlyWhen(now, heartbeat, state, claims);
    KillsExactlyWhen(later, heartbeat, shorter, claims);
    assert forall c | Stuck(c, now, heartbeat, BashTimeout(state)) ::
        Stuck(c, later, heartbeat, BashTimeout(shorter));
  }

  /** Once there is a heartbeat, a newer one never costs a container its life. */
  lemma NewerHeartbeatHelps(
      now: Time, heartbeat: Time, newer: Time, state: Option<ContainerState>, claims: seq<Claim>)
    requires 0 < heartbeat <= newer
    requires Decide(now, heartbeat, state, claims).Keep?
    ensures Decide(now, newer, state, claims).Keep?
  {
    KillsExactlyWhen(now, heartbeat, state, claims);
    KillsExactlyWhen(now, newer, state, claims);
    assert forall c :: Stuck(c, now, newer, BashTimeout(state)) ==> Stuck(c, now, heartbeat, BashTimeout(state));
  }

  /**
   A container checked within 59 s of its spawn, whose heartbeat file is absent
   or its own, is never killed by the ceiling. It is killed exactly when the file
   is absent and some claim is past the tolerance; the claim it is killed for was
   recorded in a second that ended before the spawn.
   */
  lemma FreshContainerVerdict(
      spawnedAt: Time, now: Time, heartbeat: Time, state: Option<ContainerState>, claims: seq<Claim>)
    requires spawnedAt <= now <= spawnedAt + CLAIM_STUCK - 1000
    requires heartbeat == 0 || spawnedAt <= heartbeat
    ensures !Decide(now, heartbeat, state, claims).KillCeiling?
    ensures Decide(now, heartbeat, state, claims).KillClaim? <==>
              && heartbeat == 0
              && exists c :: c in claims && c.claimedAt.Some?
                             && now - c.claimedAt.value > AtLeast(CLAIM_STUCK, BashTimeout(state))
    ensures Decide(now, heartbeat, state, claims).KillClaim? ==>
              exists c :: c in claims && c.id == Decide(now, heartbeat, state, claims).id
                          && c.claimedAt.Some? && c.claimedAt.value + 1000 < spawnedAt
  {
    KillsExactlyWhen(now, heartbeat, state, claims);
    if Decide(now, heartbeat, state, claims).KillClaim? {
      var c :| c in claims && c.id == Decide(now, heartbeat, state, claims).id
               && Stuck(c, now, heartbeat, BashTimeout(state));
      assert c.claimedAt.value + 1000 < spawnedAt;
    }
  }

  // -------------------------------------------------------------------- the reset

  function Pow2(k: nat): nat {
    if k == 0 then 1 else 2 * Pow2(k - 1)
  }

  /** A base of 5000 ms, doubled per try, rounded down to seconds. */
  function BackoffSec(tries: nat): nat {
    5000 * Pow2(tries) / 1000
  }

  lemma BackoffIsWhole(tries: nat)
    ensures BackoffSec(tries) == 5 * Pow2(tries) && BackoffSec(tries) >= 5
  {
    assert Pow2(tries) >= 1;
  }

  /** `now` is the clock read before the loop, `sqlNow` the one the UPDATE reads. */
  function ResetRow(r: Row, now: Time, sqlNow: Time): Row {
    if r.status != Pending then r
    else if r.processAfter.Some? && r.processAfter.value > now then r
    else if r.tries >= MAX_TRIES then Fail(r)
    else Retry(r, BackoffSec(r.tries), sqlNow)
  }

  function ResetOne(rows: seq<Row>, id: MsgId, now: Time, sqlNow: Time): seq<Row> {
    UpdateRow(rows, id, r => ResetRow(r, now, sqlNow))
  }

  /** The i-th claim's UPDATE reads the clock at `ticks[i]`. */
  function ResetAll(rows: seq<Row>, claims: seq<MsgId>, now: Time, ticks: seq<Time>): (r: seq<Row>)
    requires |claims| == |ticks|
    ensures |r| == |rows|
  {
    if claims == [] then rows
    else
      ResetOne(ResetAll(rows, claims[..|claims| - 1], now, ticks[..|ticks| - 1]),
               claims[|claims| - 1], now, ticks[|ticks| - 1])
  }

  /** The loop body: one claimed message. */
  method ResetStuckRow(inDb: InboundDb, id: MsgId, now: Time, sqlNow: Time)
    requires UniqueIds(inDb.rows)
    modifies inDb
    ensures inDb.rows == ResetOne(old(inDb.rows), id, now, sqlNow)
  {
    var found := inDb.GetMessageForRetry(id);
    if found.None? {
      return;
    }
    var msg := found.value;
    assert forall j | 0 <= j < |inDb.rows| && inDb.rows[j].Id() == id :: inDb.rows[j] == msg;
    if msg.processAfter.Some? && msg.processAfter.value > now {
      return;
    }
    if msg.tries >= MAX_TRIES {
      inDb.MarkMessageFailed(msg.Id());
    } else {
      inDb.RetryWithBackoff(msg.Id(), BackoffSec(msg.tries), sqlNow);
    }
  }

  method ResetStuckProcessingRows(inDb: InboundDb, claims: seq<MsgId>, now: Time, ticks: seq<Time>)
    requires |claims| == |ticks|
    requires UniqueIds(inDb.rows)
    modifies inDb
    ensures inDb.rows == ResetAll(old(inDb.rows), claims, now, ticks)
  {
    for i := 0 to |claims|
      invariant UniqueIds(inDb.rows)
      invariant inDb.rows == ResetAll(old(inDb.rows), claims[..i], now, ticks[..i])
    {
      ResetStuckRow(inDb, claims[i], now, ticks[i]);
      assert claims[..i + 1][..i] == claims[..i] && ticks[..i + 1][..i] == ticks[..i];
    }
    assert claims[..|claims|] == claims && ticks[..|ticks|] == ticks;
  }

  predicate Distinct(claims: seq<MsgId>) {
    forall i, j | 0 <= i < j < |claims| :: claims[i] != claims[j]
  }

  /** With each message claimed once, the loop resets exactly the claimed rows, each once. */
  lemma {:induction false} ResetsEachClaimOnce(rows: seq<Row>, claims: seq<MsgId>, now: Time, ticks: seq<Time>, i: nat)
    requires |claims| == |ticks| && Distinct(claims) && i < |rows|
    ensures rows[i].Id() !in claims ==> ResetAll(rows, claims, now, ticks)[i] == rows[i]
    ensures forall k | 0 <= k < |claims| && claims[k] == rows[i].Id() ::
              ResetAll(rows, claims, now, ticks)[i] == ResetRow(rows[i], now, ticks[k])
  {
    if claims != [] {
      var n := |claims| - 1;
      ResetsEachClaimOnce(rows, claims[..n], now, ticks[..n], i);
      assert claims == claims[..n] + [claims[n]];
      assert forall k | 0 <= k < n :: claims[..n][k] == claims[k] && ticks[..n][k] == ticks[k];
    }
  }

  /** A reset row is scheduled in the future or no longer pending, so a second reset at the same instant skips it. */
  lemma ResetRowTwice(r: Row, now: Time, sqlNow: Time, again: Time)
    requires now <= sqlNow
    ensures ResetRow(ResetRow(r, now, sqlNow), now, again) == ResetRow(r, now, sqlNow)
  {
    BackoffIsWhole(r.tries);
  }

  /** A reset acts on due pending rows only, and each act either uses up one of five tries or ends the row. */
  lemma ResetProgresses(r: Row, now: Time, sqlNow: Time)
    requires r.tries <= MAX_TRIES
    ensures var r' := ResetRow(r, now, sqlNow);
            && (r' != r <==> r.status == Pending && (r.processAfter.None? || r.processAfter.value <= now))
            && (r' != r ==>
                  || (r'.status == Pending && 0 <= MAX_TRIES - r'.tries < MAX_TRIES - r.tries)
                  || (r'.status == Failed && r'.tries == r.tries == MAX_TRIES && r'.processAfter == r.processAfter))
  {
    BackoffIsWhole(r.tries);
  }

  /** Repeating the whole reset at the same instant changes nothing more. */
  lemma ResetIsIdempotent(rows: seq<Row>, claims: seq<MsgId>, now: Time, ticks: seq<Time>, ticks': seq<Time>)
    requires |claims| == |ticks| == |ticks'| && Distinct(claims)
    requires forall k | 0 <= k < |ticks| :: now <= ticks[k]
    ensures ResetAll(ResetAll(rows, claims, now, ticks), claims, now, ticks') == ResetAll(rows, claims, now, ticks)
  {
    var once := ResetAll(rows, claims, now, ticks);
    forall i | 0 <= i < |rows|
      ensures ResetAll(once, claims, now, ticks')[i] == once[i]
    {
      ResetsEachClaimOnce(rows, claims, now, ticks, i);
      ResetsEachClaimOnce(once, claims, now, ticks', i);
      if rows[i].Id() in claims {
        var k :| 0 <= k < |claims| && claims[k] == rows[i].Id();
        ResetRowTwice(rows[i], now, ticks[k], ticks'[k]);
      }
    }
  }
}
