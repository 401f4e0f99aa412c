/**
 The start-up backfill of messaging_groups: rows keyed `<channel>:<native>` are
 rewritten to `<channel>:<bot>:<native>` for every channel with an active bot.
 */
module StartupBootstrap {
  import opened Wrappers
  import opened Text
  import opened PlatformId

  datatype GroupRow = GroupRow(id: string, channelType: string, platformId: string)

  datatype Adapter = Adapter(channelType: string, botId: string)

  type Known = map<string, set<string>>

  // --------------------------------------------------------------------- known bots

  const TOKEN_PREFIX := "CHANNEL_BOT_TOKEN:"

  /** The channel and bot of a `CHANNEL_BOT_TOKEN:<channel>:<bot>` secret name. */
  function ParseTokenName(name: string): Option<Adapter> {
    if !(TOKEN_PREFIX <= name) then None
    else
      var rest := name[|TOKEN_PREFIX|..];
      var colon :- IndexOf(rest, ':');
      if colon == 0 || rest[colon + 1..] == "" then None else Some(Adapter(rest[..colon], rest[colon + 1..]))
  }

  /** A token's name is exactly the prefix, a channel without a colon, a colon and a bot, neither empty. */
  lemma TokenNameExactly(name: string, a: Adapter)
    ensures ParseTokenName(name) == Some(a)
       <==> && a.channelType != "" && a.botId != "" && Free(a.channelType, ':')
            && name == "CHANNEL_BOT_TOKEN:" + a.channelType + ":" + a.botId
  {
    hide IndexOf;
    var tail := a.channelType + ":" + a.botId;
    if Free(a.channelType, ':') {
      IndexOfFirst(a.channelType, ':', a.botId);
      assert tail[|a.channelType| + 1..] == a.botId && tail[..|a.channelType|] == a.channelType;
    }
    assert TOKEN_PREFIX + a.channelType + ":" + a.botId == TOKEN_PREFIX + tail;
    assert (TOKEN_PREFIX + tail)[|TOKEN_PREFIX|..] == tail;
    if TOKEN_PREFIX <= name {
      var rest := name[|TOKEN_PREFIX|..];
      assert name == TOKEN_PREFIX + rest;
      if IndexOf(rest, ':').Some? {
        var colon := IndexOf(rest, ':').value;
        assert rest == rest[..colon] + ":" + rest[colon + 1..];
      }
    }
  }

  function KnownOf(known: Known, channel: string): set<string> {
    if channel in known then known[channel] else {}
  }

  function Add(known: Known, a: Adapter): Known {
    known[a.channelType := KnownOf(known, a.channelType) + {a.botId}]
  }

  /** The bots of active adapters and of stored channel tokens, per channel. */
  method KnownBotIdsPerChannel(adapters: seq<Adapter>, tokenNames: seq<string>) returns (known: Known)
    ensures forall c, b :: b in KnownOf(known, c) <==>
              Adapter(c, b) in adapters || exists n | n in tokenNames :: ParseTokenName(n) == Some(Adapter(c, b))
  {
    known := map[];
    for i := 0 to |adapters|
      invariant forall c, b :: b in KnownOf(known, c) <==> Adapter(c, b) in adapters[..i]
    {
      assert adapters[..i + 1] == adapters[..i] + [adapters[i]];
      known := Add(known, adapters[i]);
    }
    assert adapters[..|adapters|] == adapters;
    for i := 0 to |tokenNames|
      invariant forall c, b :: b in KnownOf(known, c) <==>
                  || Adapter(c, b) in adapters
                  || exists n | n in tokenNames[..i] :: ParseTokenName(n) == Some(Adapter(c, b))
    {
      assert tokenNames[..i + 1] == tokenNames[..i] + [tokenNames[i]];
      var parsed := ParseTokenName(tokenNames[i]);
      if parsed.Some? {
        known := Add(known, parsed.value);
      }
    }
    assert tokenNames[..|tokenNames|] == tokenNames;
  }

  // --------------------------------------------------------------------- one row

  function Prefix(channel: string): string { channel + ":" }

  function Slot1(after: string): string {
    match IndexOf(after, ':')
    case None => after
    case Some(colon) => after[..colon]
  }

  predicate IsAlreadyV2(channel: string, platformId: string, bots: set<string>) {
    Prefix(channel) <= platformId && Slot1(platformId[|Prefix(channel)|..]) in bots
  }

  /** An id is taken for rewritten exactly when its channel and a known bot, up to a colon or the end, come first. */
  lemma AlreadyV2Exactly(channel: string, bot: string, native: string, id: string, bots: set<string>)
    requires Free(bot, ':')
    ensures IsAlreadyV2(channel, channel + ":" + bot, bots) <==> bot in bots
    ensures IsAlreadyV2(channel, channel + ":" + bot + ":" + native, bots) <==> bot in bots
    ensures IsAlreadyV2(channel, id, bots) ==> exists rest :: id == channel + ":" + rest
  {
    hide IndexOf;
    var p := Prefix(channel);
    assert channel + ":" + bot == p + bot && (p + bot)[|p|..] == bot;
    var rest := bot + ":" + native;
    assert channel + ":" + bot + ":" + native == p + rest && (p + rest)[|p|..] == rest;
    IndexOfFirst(bot, ':', native);
    assert rest[..|bot|] == bot;
    assert IndexOf(bot, ':').None?;
    if p <= id {
      assert id == channel + ":" + id[|p|..];
    }
  }

  function Native(r: GroupRow): string
    requires Prefix(r.channelType) <= r.platformId
  {
    r.platformId[|Prefix(r.channelType)|..]
  }

  /** The row still has the old form and this adapter's channel. */
  predicate Eligible(r: GroupRow, a: Adapter, known: Known) {
    && r.channelType == a.channelType
    && !IsAlreadyV2(r.channelType, r.platformId, KnownOf(known, r.channelType))
    && Prefix(r.channelType) <= r.platformId
  }

  function Rewritten(r: GroupRow, a: Adapter): GroupRow
    requires Prefix(r.channelType) <= r.platformId
  {
    r.(platformId := EncodePlatformId(r.channelType, a.botId, Native(r)))
  }

  /** UNIQUE(channel_type, platform_id) would be violated by giving row `i` the key of `r`. */
  predicate Conflicts(rows: seq<GroupRow>, i: nat, r: GroupRow) {
    exists j | 0 <= j < |rows| :: j != i && rows[j].channelType == r.channelType && rows[j].platformId == r.platformId
  }

  predicate Upgrades(rows: seq<GroupRow>, i: nat, a: Adapter, known: Known)
    requires i < |rows|
  {
    Eligible(rows[i], a, known) && !Conflicts(rows, i, Rewritten(rows[i], a))
  }

  function BackfillRow(rows: seq<GroupRow>, i: nat, a: Adapter, known: Known): (r: seq<GroupRow>)
    requires i < |rows|
    ensures |r| == |rows|
  {
    if Upgrades(rows, i, a, known) then rows[i := Rewritten(rows[i], a)] else rows
  }

  /** The first `n` rows under one adapter. */
  function BackfillRows(rows: seq<GroupRow>, n: nat, a: Adapter, known: Known): (r: seq<GroupRow>)
    requires n <= |rows|
    ensures |r| == |rows|
  {
    if n == 0 then rows else BackfillRow(BackfillRows(rows, n - 1, a, known), n - 1, a, known)
  }

  function Backfill(rows: seq<GroupRow>, adapters: seq<Adapter>, known: Known): (r: seq<GroupRow>)
    ensures |r| == |rows|
  {
    if adapters == [] then rows
    else
      var n := |adapters| - 1;
      BackfillRows(Backfill(rows, adapters[..n], known), |rows|, adapters[n], known)
  }

  // -------------------------------------------------------------------- assumptions

  predicate UniqueKeys(rows: seq<GroupRow>) {
    forall i, j | 0 <= i < j < |rows| ::
      rows[i].channelType != rows[j].channelType || rows[i].platformId != rows[j].platformId
  }

  /** What stands before the first colon of the adapter's bot id is a known bot of its channel. */
  predicate Recognised(a: Adapter, known: Known) {
    Slot1(a.botId) in KnownOf(known, a.channelType)
  }

  predicate ColonFree(a: Adapter) {
    Free(a.channelType, ':') && Free(a.botId, ':')
  }

  /** Active bots are known, so a bot id without a colon is always recognised. */
  lemma ColonFreeIsRecognised(a: Adapter, known: Known)
    requires ColonFree(a) && a.botId in KnownOf(known, a.channelType)
    ensures Recognised(a, known)
  {
    assert IndexOf(a.botId, ':').None?;
  }

  // ---------------------------------------------------------------------- one step

  lemma SlotOfPrefixed(bot: string, native: string)
    ensures Slot1(bot + ":" + native) == Slot1(bot)
  {
    var colon := IndexOf(bot, ':');
    var head := if colon.Some? then bot[..colon.value] else bot;
    var rest := if colon.Some? then bot[colon.value + 1..] + ":" + native else native;
    assert bot + ":" + native == head + ":" + rest;
    IndexOfFirst(head, ':', rest);
  }

  /** A rewritten row has the new form exactly when its bot is recognised; it is never the row it was. */
  lemma RewrittenIsV2(r: GroupRow, a: Adapter, known: Known)
    requires r.channelType == a.channelType && Prefix(r.channelType) <= r.platformId
    ensures Prefix(r.channelType) <= Rewritten(r, a).platformId
    ensures IsAlreadyV2(a.channelType, Rewritten(r, a).platformId, KnownOf(known, a.channelType))
       <==> Recognised(a, known)
    ensures |Rewritten(r, a).platformId| > |r.platformId|
  {
    hide Slot1;
    var after := a.botId + ":" + Native(r);
    var id := Rewritten(r, a).platformId;
    assert id == Prefix(r.channelType) + after;
    assert id[|Prefix(r.channelType)|..] == after;
    SlotOfPrefixed(a.botId, Native(r));
  }

  lemma RewrittenDecodes(r: GroupRow, a: Adapter)
    requires ColonFree(a) && r.channelType == a.channelType && Prefix(r.channelType) <= r.platformId
    ensures DecodePlatformIdAs(Rewritten(r, a).platformId) == Decoded(a.channelType, Some(a.botId), Native(r))
  {
    DecodeInvertsEncodeExactlyWhen(r.channelType, a.botId, Native(r));
  }

  /** Row `i` now against the row it started as: untouched, or rewritten once by some adapter so far. */
  predicate Fate(start: GroupRow, now: GroupRow, adapters: seq<Adapter>, known: Known) {
    || now == start
    || (&& IsAlreadyV2(now.channelType, now.platformId, KnownOf(known, now.channelType))
        && exists a | a in adapters :: Eligible(start, a, known) && now == Rewritten(start, a))
  }

  predicate Fates(start: seq<GroupRow>, now: seq<GroupRow>, adapters: seq<Adapter>, known: Known) {
    |now| == |start| && forall i | 0 <= i < |start| :: Fate(start[i], now[i], adapters, known)
  }

  /** Adapter `a` will not change row `i` any more. */
  predicate Settled(rows: seq<GroupRow>, i: nat, a: Adapter, known: Known)
    requires i < |rows|
  {
    !Upgrades(rows, i, a, known)
  }

  lemma RowStepKeeps(start: seq<GroupRow>, rows: seq<GroupRow>, i: nat, a: Adapter, adapters: seq<Adapter>,
      known: Known)
    requires i < |rows| && a in adapters && Recognised(a, known)
    requires UniqueKeys(rows) && Fates(start, rows, adapters, known)
    ensures var rows' := BackfillRow(rows, i, a, known);
            && UniqueKeys(rows') && Fates(start, rows', adapters, known)
            && Settled(rows', i, a, known)
  {
    hide IsAlreadyV2;
    var rows' := BackfillRow(rows, i, a, known);
    if Upgrades(rows, i, a, known) {
      RewrittenIsV2(rows[i], a, known);
      assert Fate(start[i], rows[i], adapters, known);
      assert rows[i] == start[i];
      assert Fate(start[i], rows'[i], adapters, known);
      assert forall j | 0 <= j < |rows| && j != i :: Fate(start[j], rows[j], adapters, known) && rows'[j] == rows[j];
    }
  }

  /** A settled row stays settled: whoever holds the key it wants has the new form and keeps it. */
  lemma RowStepKeepsSettled(rows: seq<GroupRow>, i: nat, a: Adapter, known: Known, k: nat, b: Adapter)
    requires i < |rows| && k < |rows| && Recognised(a, known) && Recognised(b, known)
    requires Settled(rows, k, b, known)
    ensures Settled(BackfillRow(rows, i, a, known), k, b, known)
  {
    hide IsAlreadyV2;
    var rows' := BackfillRow(rows, i, a, known);
    if Upgrades(rows, i, a, known) {
      RewrittenIsV2(rows[i], a, known);
      if k != i && Eligible(rows[k], b, known) {
        var wanted := Rewritten(rows[k], b);
        RewrittenIsV2(rows[k], b, known);
        var j :| 0 <= j < |rows| && j != k && rows[j].channelType == wanted.channelType
            && rows[j].platformId == wanted.platformId;
        assert rows'[j] == rows[j];
      }
    }
  }

  // ------------------------------------------------------------------ the whole run

  predicate AllRecognised(adapters: seq<Adapter>, known: Known) {
    forall a | a in adapters :: Recognised(a, known)
  }

  predicate SettledUpTo(rows: seq<GroupRow>, n: nat, a: Adapter, known: Known) {
    n <= |rows| && forall k | 0 <= k < n :: Settled(rows, k, a, known)
  }

  predicate SettledFor(rows: seq<GroupRow>, adapters: seq<Adapter>, known: Known) {
    forall a | a in adapters :: SettledUpTo(rows, |rows|, a, known)
  }

  lemma RowStepKeepsUpTo(rows: seq<GroupRow>, i: nat, a: Adapter, known: Known, n: nat, b: Adapter)
    requires i < |rows| && Recognised(a, known) && Recognised(b, known) && SettledUpTo(rows, n, b, known)
    ensures SettledUpTo(BackfillRow(rows, i, a, known), n, b, known)
  {
    hide Settled, BackfillRow, Recognised;
    forall k | 0 <= k < n
      ensures Settled(BackfillRow(rows, i, a, known), k, b, known)
    {
      RowStepKeepsSettled(rows, i, a, known, k, b);
    }
  }

  lemma {:induction false} RowsKeep(start: seq<GroupRow>, rows: seq<GroupRow>, n: nat, a: Adapter,
      done: seq<Adapter>, all: seq<Adapter>, known: Known)
    requires n <= |rows| && a in all && AllRecognised(all, known) && (forall b | b in done :: b in all)
    requires UniqueKeys(rows) && Fates(start, rows, all, known) && SettledFor(rows, done, known)
    ensures var r := BackfillRows(rows, n, a, known);
            UniqueKeys(r) && Fates(start, r, all, known) && SettledFor(r, done, known) && SettledUpTo(r, n, a, known)
  {
    hide UniqueKeys, Fates, Settled, BackfillRow, Recognised;
    if n > 0 {
      RowsKeep(start, rows, n - 1, a, done, all, known);
      var before := BackfillRows(rows, n - 1, a, known);
      var r := BackfillRow(before, n - 1, a, known);
      RowStepKeeps(start, before, n - 1, a, all, known);
      RowStepKeepsUpTo(before, n - 1, a, known, n - 1, a);
      forall b | b in done
        ensures SettledUpTo(r, |r|, b, known)
      {
        RowStepKeepsUpTo(before, n - 1, a, known, |before|, b);
      }
    }
  }

  lemma {:induction false} AdaptersKeep(rows: seq<GroupRow>, done: seq<Adapter>, all: seq<Adapter>, known: Known)
    requires AllRecognised(all, known) && (forall b | b in done :: b in all) && UniqueKeys(rows)
    ensures var r := Backfill(rows, done, known);
            UniqueKeys(r) && Fates(rows, r, all, known) && SettledFor(r, done, known)
  {
    if done == [] {
    } else {
      hide UniqueKeys, Fates, Settled, BackfillRows, Recognised;
      var n := |done| - 1;
      AdaptersKeep(rows, done[..n], all, known);
      RowsKeep(rows, Backfill(rows, done[..n], known), |rows|, done[n], done[..n], all, known);
      assert done == done[..n] + [done[n]];
    }
  }

  /** No row vanishes or is rewritten twice, keys stay unique, and the run leaves nothing to upgrade. */
  lemma BackfillKeepsIdentity(rows: seq<GroupRow>, adapters: seq<Adapter>, known: Known)
    requires AllRecognised(adapters, known) && UniqueKeys(rows)
    ensures var r := Backfill(rows, adapters, known);
            UniqueKeys(r) && Fates(rows, r, adapters, known) && SettledFor(r, adapters, known)
  {
    AdaptersKeep(rows, adapters, adapters, known);
  }

  /** A rewritten row decodes to its channel, the adapter's bot and the native part it had before. */
  lemma RewrittenRowDecodes(rows: seq<GroupRow>, adapters: seq<Adapter>, known: Known, i: nat)
    requires AllRecognised(adapters, known) && UniqueKeys(rows) && i < |rows|
    requires forall a | a in adapters :: ColonFree(a)
    requires Backfill(rows, adapters, known)[i] != rows[i]
    ensures Prefix(rows[i].channelType) <= rows[i].platformId
    ensures exists a | a in adapters ::
              && a.channelType == rows[i].channelType
              && DecodePlatformIdAs(Backfill(rows, adapters, known)[i].platformId)
                  == Decoded(a.channelType, Some(a.botId), Native(rows[i]))
  {
    hide Backfill, IsAlreadyV2, DecodePlatformIdAs, UniqueKeys, SettledFor, Recognised;
    BackfillKeepsIdentity(rows, adapters, known);
    var now := Backfill(rows, adapters, known)[i];
    assert Fate(rows[i], now, adapters, known);
    var a :| a in adapters && Eligible(rows[i], a, known) && now == Rewritten(rows[i], a);
    RewrittenDecodes(rows[i], a);
  }

  lemma {:induction false} SettledRowsAreFixed(rows: seq<GroupRow>, n: nat, a: Adapter, known: Known)
    requires SettledUpTo(rows, |rows|, a, known) && n <= |rows|
    ensures BackfillRows(rows, n, a, known) == rows
  {
    if n > 0 {
      SettledRowsAreFixed(rows, n - 1, a, known);
      assert Settled(rows, n - 1, a, known);
    }
  }

  lemma {:induction false} SettledIsFixed(rows: seq<GroupRow>, adapters: seq<Adapter>, known: Known)
    requires SettledFor(rows, adapters, known)
    ensures Backfill(rows, adapters, known) == rows
  {
    if adapters != [] {
      var n := |adapters| - 1;
      SettledIsFixed(rows, adapters[..n], known);
      SettledRowsAreFixed(rows, |rows|, adapters[n], known);
    }
  }

  predicate SecondRunIsIdle(rows: seq<GroupRow>, adapters: seq<Adapter>, known: Known) {
    var once := Backfill(rows, adapters, known);
    Backfill(once, adapters, known) == once
  }

  /** A second run changes nothing, whatever conflicts the first one met. */
  lemma BackfillIsIdempotent(rows: seq<GroupRow>, adapters: seq<Adapter>, known: Known)
    requires AllRecognised(adapters, known) && UniqueKeys(rows)
    ensures SecondRunIsIdle(rows, adapters, known)
  {
    BackfillKeepsIdentity(rows, adapters, known);
    SettledIsFixed(Backfill(rows, adapters, known), adapters, known);
  }

  lemma {:induction false} RowsKeepUnique(rows: seq<GroupRow>, n: nat, a: Adapter, known: Known)
    requires n <= |rows| && UniqueKeys(rows)
    ensures UniqueKeys(BackfillRows(rows, n, a, known))
  {
    hide Eligible, Rewritten;
    if n > 0 {
      RowsKeepUnique(rows, n - 1, a, known);
    }
  }

  /** Keys stay unique whatever the bots are called. */
  lemma {:induction false} BackfillKeepsUnique(rows: seq<GroupRow>, adapters: seq<Adapter>, known: Known)
    requires UniqueKeys(rows)
    ensures UniqueKeys(Backfill(rows, adapters, known))
  {
    hide UniqueKeys, BackfillRows;
    if adapters != [] {
      var n := |adapters| - 1;
      BackfillKeepsUnique(rows, adapters[..n], known);
      RowsKeepUnique(Backfill(rows, adapters[..n], known), |rows|, adapters[n], known);
    }
  }

  // ------------------------------------------------ an unrecognised bot is never done

  /** Row by row the same, or longer. */
  predicate Grows(rows: seq<GroupRow>, rows': seq<GroupRow>) {
    && |rows'| == |rows|
    && forall i | 0 <= i < |rows| :: rows'[i] == rows[i] || |rows'[i].platformId| > |rows[i].platformId|
  }

  lemma RowStepGrows(rows: seq<GroupRow>, i: nat, a: Adapter, known: Known)
    requires i < |rows|
    ensures Grows(rows, BackfillRow(rows, i, a, known))
  {
    hide IsAlreadyV2, Conflicts;
    if Upgrades(rows, i, a, known) {
      RewrittenIsV2(rows[i], a, known);
    }
  }

  lemma {:induction false} RowsGrow(rows: seq<GroupRow>, n: nat, a: Adapter, known: Known)
    requires n <= |rows|
    ensures Grows(rows, BackfillRows(rows, n, a, known))
  {
    hide BackfillRow;
    if n > 0 {
      RowsGrow(rows, n - 1, a, known);
      RowStepGrows(BackfillRows(rows, n - 1, a, known), n - 1, a, known);
    }
  }

  lemma {:induction false} BackfillGrows(rows: seq<GroupRow>, adapters: seq<Adapter>, known: Known)
    ensures Grows(rows, Backfill(rows, adapters, known))
  {
    hide BackfillRows;
    if adapters != [] {
      var n := |adapters| - 1;
      BackfillGrows(rows, adapters[..n], known);
      RowsGrow(Backfill(rows, adapters[..n], known), |rows|, adapters[n], known);
    }
  }

  lemma NothingBetween(a: seq<GroupRow>, b: seq<GroupRow>)
    requires Grows(a, b) && Grows(b, a)
    ensures a == b
  {
    forall i | 0 <= i < |a|
      ensures a[i] == b[i]
    {
      assert b[i] == a[i] || |b[i].platformId| > |a[i].platformId|;
    }
  }

  lemma {:induction false} FixedRowsAreSettled(rows: seq<GroupRow>, n: nat, a: Adapter, known: Known)
    requires n <= |rows| && BackfillRows(rows, n, a, known) == rows
    ensures SettledUpTo(rows, n, a, known)
  {
    hide Settled, BackfillRow, Grows;
    if n > 0 {
      var before := BackfillRows(rows, n - 1, a, known);
      RowsGrow(rows, n - 1, a, known);
      RowStepGrows(before, n - 1, a, known);
      NothingBetween(rows, before);
      FixedRowsAreSettled(rows, n - 1, a, known);
      UpgradeChanges(rows, n - 1, a, known);
    }
  }

  lemma UpgradeChanges(rows: seq<GroupRow>, i: nat, a: Adapter, known: Known)
    requires i < |rows|
    ensures Settled(rows, i, a, known) <==> BackfillRow(rows, i, a, known) == rows
  {
    hide IsAlreadyV2, Conflicts;
    if Upgrades(rows, i, a, known) {
      RewrittenIsV2(rows[i], a, known);
      assert Rewritten(rows[i], a) != rows[i];
      assert BackfillRow(rows, i, a, known)[i] == Rewritten(rows[i], a);
    }
  }

  /** The converse of SettledIsFixed: as rows only get longer, a run that changes nothing had nothing to upgrade. */
  lemma {:induction false} FixedIsSettled(rows: seq<GroupRow>, adapters: seq<Adapter>, known: Known)
    requires Backfill(rows, adapters, known) == rows
    ensures SettledFor(rows, adapters, known)
  {
    hide SettledUpTo, BackfillRows, Grows;
    if adapters != [] {
      var n := |adapters| - 1;
      var before := Backfill(rows, adapters[..n], known);
      BackfillGrows(rows, adapters[..n], known);
      RowsGrow(before, |rows|, adapters[n], known);
      NothingBetween(rows, before);
      FixedIsSettled(rows, adapters[..n], known);
      FixedRowsAreSettled(rows, |rows|, adapters[n], known);
      assert adapters == adapters[..n] + [adapters[n]];
    }
  }

  /** The old form: it carries the channel and no known bot. */
  predicate OldForm(channel: string, id: string, known: Known) {
    Prefix(channel) <= id && !IsAlreadyV2(channel, id, KnownOf(known, channel))
  }

  function Prefixed(channel: string, a: Adapter, id: string): string
    requires Prefix(channel) <= id
  {
    EncodePlatformId(channel, a.botId, id[|Prefix(channel)|..])
  }

  lemma PrefixedForm(channel: string, a: Adapter, id: string, known: Known)
    requires a.channelType == channel && Prefix(channel) <= id
    ensures Prefix(channel) <= Prefixed(channel, a, id)
    ensures OldForm(channel, Prefixed(channel, a, id), known) <==> !Recognised(a, known)
  {
    RewrittenIsV2(GroupRow("", channel, id), a, known);
  }

  /**
   Where an id of the old form ends up if the keys that recognised bots want for it
   are all taken, and those keys.
   */
  function Walk(channel: string, id: string, adapters: seq<Adapter>, known: Known): (w: (string, seq<string>))
    requires OldForm(channel, id, known)
    ensures OldForm(channel, w.0, known)
  {
    if adapters == [] then (id, [])
    else
      var n := |adapters| - 1;
      var (now, taken) := Walk(channel, id, adapters[..n], known);
      var a := adapters[n];
      if a.channelType != channel then (now, taken)
      else
        PrefixedForm(channel, a, now, known);
        if Recognised(a, known) then (now, taken + [Prefixed(channel, a, now)])
        else (Prefixed(channel, a, now), taken)
  }

  /** One old row, and below it rows of the new form only, which hold every key in `taken`. */
  predicate Blocked(rows: seq<GroupRow>, channel: string, id: string, taken: seq<string>, known: Known) {
    && |rows| >= 1 && rows[0].channelType == channel && rows[0].platformId == id && OldForm(channel, id, known)
    && (forall i | 1 <= i < |rows| ::
          rows[i].channelType == channel && IsAlreadyV2(channel, rows[i].platformId, KnownOf(known, channel)))
    && (forall t | t in taken :: exists i | 1 <= i < |rows| :: rows[i].platformId == t)
  }

  function Head(rows: seq<GroupRow>, id: string): seq<GroupRow>
    requires rows != []
  {
    rows[0 := rows[0].(platformId := id)]
  }

  lemma BlockedFirstRow(rows: seq<GroupRow>, channel: string, id: string, taken: seq<string>, a: Adapter, known: Known)
    requires Blocked(rows, channel, id, taken, known)
    ensures a.channelType != channel ==> BackfillRow(rows, 0, a, known) == rows
    ensures a.channelType == channel && Recognised(a, known) && Prefixed(channel, a, id) in taken ==>
              BackfillRow(rows, 0, a, known) == rows
    ensures a.channelType == channel && !Recognised(a, known) ==>
              BackfillRow(rows, 0, a, known) == Head(rows, Prefixed(channel, a, id))
  {
    hide IsAlreadyV2, Recognised;
    if a.channelType == channel {
      PrefixedForm(channel, a, id, known);
      assert Rewritten(rows[0], a) == rows[0].(platformId := Prefixed(channel, a, id));
      if Recognised(a, known) && Prefixed(channel, a, id) in taken {
        var i :| 1 <= i < |rows| && rows[i].platformId == Prefixed(channel, a, id);
        assert Conflicts(rows, 0, Rewritten(rows[0], a));
      }
    }
  }

  lemma {:induction false} BlockedRows(
      rows: seq<GroupRow>, channel: string, id: string, taken: seq<string>, n: nat, a: Adapter, known: Known)
    requires Blocked(rows, channel, id, taken, known) && 1 <= n <= |rows|
    ensures BackfillRows(rows, n, a, known) == BackfillRow(rows, 0, a, known)
  {
    hide IsAlreadyV2, Conflicts;
    if n == 1 {
      assert BackfillRows(rows, 0, a, known) == rows;
    } else {
      BlockedRows(rows, channel, id, taken, n - 1, a, known);
      assert BackfillRow(rows, 0, a, known)[n - 1] == rows[n - 1];
    }
  }

  lemma {:induction false} WalkIsBackfill(
      rows: seq<GroupRow>, channel: string, id: string, adapters: seq<Adapter>, known: Known)
    requires OldForm(channel, id, known) && Blocked(rows, channel, id, Walk(channel, id, adapters, known).1, known)
    ensures Backfill(rows, adapters, known) == Head(rows, Walk(channel, id, adapters, known).0)
  {
    hide IsAlreadyV2, Recognised, BackfillRow, BackfillRows, OldForm;
    if adapters != [] {
      var n := |adapters| - 1;
      var (now, taken) := Walk(channel, id, adapters[..n], known);
      var all := Walk(channel, id, adapters, known).1;
      assert forall t | t in taken :: t in all;
      WalkIsBackfill(rows, channel, id, adapters[..n], known);
      var mid := Head(rows, now);
      assert Blocked(mid, channel, now, all, known) by { HeadIsBlocked(rows, channel, id, all, now, known); }
      BlockedRows(mid, channel, now, all, |mid|, adapters[n], known);
      BlockedFirstRow(mid, channel, now, all, adapters[n], known);
    }
  }

  lemma HeadIsBlocked(rows: seq<GroupRow>, channel: string, id: string, taken: seq<string>, now: string, known: Known)
    requires Blocked(rows, channel, id, taken, known) && OldForm(channel, now, known)
    ensures Blocked(Head(rows, now), channel, now, taken, known)
  {
    hide IsAlreadyV2, OldForm;
    forall t | t in taken
      ensures exists i | 1 <= i < |rows| :: Head(rows, now)[i].platformId == t
    {
      var i :| 1 <= i < |rows| && rows[i].platformId == t;
      assert Head(rows, now)[i].platformId == t;
    }
  }

  /** A row for each id, repeated ids once. */
  function RowsOf(channel: string, ids: seq<string>): seq<GroupRow> {
    if ids == [] then []
    else
      var n := |ids| - 1;
      RowsOf(channel, ids[..n]) + if ids[n] in ids[..n] then [] else [GroupRow(ids[n], channel, ids[n])]
  }

  lemma {:induction false} RowsOfHold(channel: string, ids: seq<string>)
    ensures UniqueKeys(RowsOf(channel, ids))
    ensures forall r | r in RowsOf(channel, ids) :: r.channelType == channel && r.platformId in ids
    ensures forall t | t in ids :: exists i | 0 <= i < |RowsOf(channel, ids)| :: RowsOf(channel, ids)[i].platformId == t
  {
    if ids != [] {
      var n := |ids| - 1;
      RowsOfHold(channel, ids[..n]);
      assert ids == ids[..n] + [ids[n]];
      var rest, all := RowsOf(channel, ids[..n]), RowsOf(channel, ids);
      assert forall i | 0 <= i < |rest| :: rest[i] in rest && all[i] == rest[i];
      forall t | t in ids
        ensures exists i | 0 <= i < |all| :: all[i].platformId == t
      {
        if t in ids[..n] {
          var i :| 0 <= i < |rest| && rest[i].platformId == t;
          assert all[i].platformId == t;
        } else {
          assert all[|rest|].platformId == t;
        }
      }
    }
  }

  lemma {:induction false} TakenAreNew(channel: string, id: string, adapters: seq<Adapter>, known: Known)
    requires OldForm(channel, id, known)
    ensures forall t | t in Walk(channel, id, adapters, known).1 :: IsAlreadyV2(channel, t, KnownOf(known, channel))
  {
    hide IsAlreadyV2, Recognised;
    if adapters != [] {
      var n := |adapters| - 1;
      TakenAreNew(channel, id, adapters[..n], known);
      var (now, taken) := Walk(channel, id, adapters[..n], known);
      if adapters[n].channelType == channel {
        PrefixedForm(channel, adapters[n], now, known);
      }
    }
  }

  /** The table on which an unrecognised bot is caught: an old row named after it, and the keys that would save it. */
  function CatchingTable(d: Adapter, adapters: seq<Adapter>, known: Known): seq<GroupRow>
    requires !Recognised(d, known)
  {
    var id := Prefix(d.channelType) + d.botId;
    NamedAfterBot(d, known);
    [GroupRow(id, d.channelType, id)] + RowsOf(d.channelType, Walk(d.channelType, id, adapters, known).1)
  }

  lemma NamedAfterBot(d: Adapter, known: Known)
    requires !Recognised(d, known)
    ensures OldForm(d.channelType, Prefix(d.channelType) + d.botId, known)
  {
    assert (Prefix(d.channelType) + d.botId)[|Prefix(d.channelType)|..] == d.botId;
  }

  lemma CatchingTableIsBlocked(d: Adapter, adapters: seq<Adapter>, known: Known)
    requires !Recognised(d, known)
    ensures var channel, rows := d.channelType, CatchingTable(d, adapters, known);
            var id := Prefix(channel) + d.botId;
            && OldForm(channel, id, known) && UniqueKeys(rows)
            && Blocked(rows, channel, id, Walk(channel, id, adapters, known).1, known)
  {
    hide IsAlreadyV2, Recognised, Walk, RowsOf;
    NamedAfterBot(d, known);
    var id := Prefix(d.channelType) + d.botId;
    var taken := Walk(d.channelType, id, adapters, known).1;
    var rest, rows := RowsOf(d.channelType, taken), CatchingTable(d, adapters, known);
    TakenAreNew(d.channelType, id, adapters, known);
    RowsOfHold(d.channelType, taken);
    assert forall i | 1 <= i < |rows| :: rows[i] == rest[i - 1] && rest[i - 1] in rest;
    forall t | t in taken
      ensures exists i | 1 <= i < |rows| :: rows[i].platformId == t
    {
      var i :| 0 <= i < |rest| && rest[i].platformId == t;
      assert rows[i + 1].platformId == t;
    }
  }

  lemma UnrecognisedIsCaught(d: Adapter, adapters: seq<Adapter>, known: Known)
    requires d in adapters && !Recognised(d, known)
    ensures UniqueKeys(CatchingTable(d, adapters, known))
    ensures !SecondRunIsIdle(CatchingTable(d, adapters, known), adapters, known)
  {
    hide IsAlreadyV2, Recognised, CatchingTable, Walk, Backfill;
    var channel := d.channelType;
    var id := Prefix(channel) + d.botId;
    var rows := CatchingTable(d, adapters, known);
    CatchingTableIsBlocked(d, adapters, known);
    WalkIsBackfill(rows, channel, id, adapters, known);
    var (now, taken) := Walk(channel, id, adapters, known);
    var once := Head(rows, now);
    HeadIsBlocked(rows, channel, id, taken, now, known);
    BlockedFirstRow(once, channel, now, taken, d, known);
    if Backfill(once, adapters, known) == once {
      FixedIsSettled(once, adapters, known);
      StillUpgrades(once, channel, now, taken, d, known);
    }
  }

  lemma StillUpgrades(rows: seq<GroupRow>, channel: string, id: string, taken: seq<string>, d: Adapter, known: Known)
    requires Blocked(rows, channel, id, taken, known) && d.channelType == channel && !Recognised(d, known)
    ensures !SettledUpTo(rows, |rows|, d, known)
  {
    hide IsAlreadyV2, Recognised;
    PrefixedForm(channel, d, id, known);
    assert Rewritten(rows[0], d) == rows[0].(platformId := Prefixed(channel, d, id));
    assert !Settled(rows, 0, d, known);
  }

  /** A second run is idle on every table exactly when every adapter's bot is recognised. */
  lemma IdempotentExactlyWhenRecognised(adapters: seq<Adapter>, known: Known)
    ensures (forall rows | UniqueKeys(rows) :: SecondRunIsIdle(rows, adapters, known))
       <==> AllRecognised(adapters, known)
  {
    hide UniqueKeys, SecondRunIsIdle, Recognised;
    if AllRecognised(adapters, known) {
      forall rows | UniqueKeys(rows)
        ensures SecondRunIsIdle(rows, adapters, known)
      {
        BackfillIsIdempotent(rows, adapters, known);
      }
    } else {
      var d :| d in adapters && !Recognised(d, known);
      UnrecognisedIsCaught(d, adapters, known);
    }
  }

  /** An unrecognised bot at work: every start prefixes the row once more. */
  lemma ColonBotIsRewrittenAgain()
    ensures var known: Known := map["t" := {"a:b"}];
            var adapters := [Adapter("t", "a:b")];
            var once := Backfill([GroupRow("1", "t", "t:5")], adapters, known);
            && once == [GroupRow("1", "t", "t:a:b:5")]
            && Backfill(once, adapters, known) == [GroupRow("1", "t", "t:a:b:a:b:5")]
  {
    var known: Known := map["t" := {"a:b"}];
    hide Slot1, Backfill, EncodePlatformId;
    var a := Adapter("t", "a:b");
    ExampleSlots();
    ExampleIds();
    PrefixAgain("5", a, known);
    PrefixAgain("a:b:5", a, known);
  }

  lemma ExampleSlots()
    ensures Slot1("5") == "5" && Slot1("a:b:5") == "a"
  {
    assert IndexOf("5", ':') == None && IndexOf("a", ':') == None;
    SlotOfPrefixed("a", "b:5");
    assert "a" + ":" + "b:5" == "a:b:5";
  }

  lemma ExampleIds()
    ensures "t" + ":" + "5" == "t:5" && "t" + ":" + "a:b:5" == "t:a:b:5"
    ensures EncodePlatformId("t", "a:b", "5") == "t:a:b:5" && EncodePlatformId("t", "a:b", "a:b:5") == "t:a:b:a:b:5"
  {
  }

  lemma PrefixAgain(native: string, a: Adapter, known: Known)
    requires Slot1(native) !in KnownOf(known, a.channelType)
    ensures Backfill([GroupRow("1", a.channelType, a.channelType + ":" + native)], [a], known)
         == [GroupRow("1", a.channelType, EncodePlatformId(a.channelType, a.botId, native))]
  {
    hide Slot1;
    var r := GroupRow("1", a.channelType, a.channelType + ":" + native);
    assert r.platformId[|Prefix(a.channelType)|..] == native;
    OneRowOneAdapter(r, a, known);
  }

  lemma OneRowOneAdapter(r: GroupRow, a: Adapter, known: Known)
    requires Eligible(r, a, known)
    ensures Backfill([r], [a], known) == [Rewritten(r, a)]
  {
    assert [a][..0] == [];
    assert Backfill([r], [a][..0], known) == [r];
    assert BackfillRows([r], 0, a, known) == [r];
    assert Upgrades([r], 0, a, known);
  }

  // ------------------------------------------------------------ how many were upgraded

  function Differences(a: seq<GroupRow>, b: seq<GroupRow>): nat
    requires |a| == |b|
  {
    if a == [] then 0
    else
      var n := |a| - 1;
      Differences(a[..n], b[..n]) + if a[n] == b[n] then 0 else 1
  }

  lemma {:induction false} NoDifferences(a: seq<GroupRow>)
    ensures Differences(a, a) == 0
  {
    if a != [] { NoDifferences(a[..|a| - 1]); }
  }

  lemma {:induction false} OneMoreDifference(a: seq<GroupRow>, b: seq<GroupRow>, i: nat, x: GroupRow)
    requires |a| == |b| && i < |a| && b[i] == a[i] && x != a[i]
    ensures Differences(a, b[i := x]) == Differences(a, b) + 1
  {
    var n := |a| - 1;
    if i < n {
      OneMoreDifference(a[..n], b[..n], i, x);
      assert b[i := x][..n] == b[..n][i := x];
    } else {
      assert b[i := x][..n] == b[..n];
    }
  }

  lemma RowStepCounts(start: seq<GroupRow>, rows: seq<GroupRow>, i: nat, a: Adapter, all: seq<Adapter>, known: Known)
    requires i < |rows| && a in all && AllRecognised(all, known) && Fates(start, rows, all, known)
    ensures Differences(start, BackfillRow(rows, i, a, known)) ==
            Differences(start, rows) + if Upgrades(rows, i, a, known) then 1 else 0
  {
    hide IsAlreadyV2, Differences;
    if Upgrades(rows, i, a, known) {
      RewrittenIsV2(rows[i], a, known);
      assert Fate(start[i], rows[i], all, known);
      OneMoreDifference(start, rows, i, Rewritten(rows[i], a));
    }
  }

  /** How many updates succeed under one adapter, and under all. */
  function UpgradesUnder(rows: seq<GroupRow>, n: nat, a: Adapter, known: Known): nat
    requires n <= |rows|
  {
    if n == 0 then 0
    else
      UpgradesUnder(rows, n - 1, a, known)
      + if Upgrades(BackfillRows(rows, n - 1, a, known), n - 1, a, known) then 1 else 0
  }

  function TotalUpgrades(rows: seq<GroupRow>, adapters: seq<Adapter>, known: Known): nat {
    if adapters == [] then 0
    else
      var n := |adapters| - 1;
      TotalUpgrades(rows, adapters[..n], known)
      + UpgradesUnder(Backfill(rows, adapters[..n], known), |rows|, adapters[n], known)
  }

  lemma {:induction false} UpgradesUnderCount(
      start: seq<GroupRow>, rows: seq<GroupRow>, n: nat, a: Adapter,
      done: seq<Adapter>, all: seq<Adapter>, known: Known)
    requires n <= |rows| == |start| && a in all && AllRecognised(all, known) && (forall b | b in done :: b in all)
    requires UniqueKeys(rows) && Fates(start, rows, all, known) && SettledFor(rows, done, known)
    ensures Differences(start, BackfillRows(rows, n, a, known))
         == Differences(start, rows) + UpgradesUnder(rows, n, a, known)
  {
    hide UniqueKeys, Fates, Settled, SettledFor, Recognised, AllRecognised, Differences, BackfillRow, Upgrades;
    if n > 0 {
      UpgradesUnderCount(start, rows, n - 1, a, done, all, known);
      RowsKeep(start, rows, n - 1, a, done, all, known);
      var before := BackfillRows(rows, n - 1, a, known);
      RowStepCounts(start, before, n - 1, a, all, known);
    }
  }

  lemma {:induction false} TotalUpgradesCount(rows: seq<GroupRow>, done: seq<Adapter>, all: seq<Adapter>, known: Known)
    requires UniqueKeys(rows) && AllRecognised(all, known) && (forall b | b in done :: b in all)
    ensures Differences(rows, Backfill(rows, done, known)) == TotalUpgrades(rows, done, known)
  {
    hide UniqueKeys, Fates, Settled, SettledFor, Recognised, Differences, BackfillRows, UpgradesUnder;
    if done == [] {
      NoDifferences(rows);
    } else {
      var n := |done| - 1;
      TotalUpgradesCount(rows, done[..n], all, known);
      AdaptersKeep(rows, done[..n], all, known);
      UpgradesUnderCount(rows, Backfill(rows, done[..n], known), |rows|, done[n], done[..n], all, known);
    }
  }

  class MessagingGroups {
    var rows: seq<GroupRow>

    /** Rewrites every row it can. The count is that of its updates; with recognised bots, that of the rows changed. */
    method BackfillMessagingGroupsToV2(adapters: seq<Adapter>, known: Known) returns (totalUpgraded: nat)
      modifies this
      ensures rows == Backfill(old(rows), adapters, known)
      ensures totalUpgraded == TotalUpgrades(old(rows), adapters, known)
      ensures UniqueKeys(old(rows)) && AllRecognised(adapters, known) ==> totalUpgraded == Differences(old(rows), rows)
    {
      hide UniqueKeys, Recognised, Differences, BackfillRows, UpgradesUnder;
      totalUpgraded := 0;
      ghost var start := rows;
      for k := 0 to |adapters|
        invariant rows == Backfill(start, adapters[..k], known)
        invariant totalUpgraded == TotalUpgrades(start, adapters[..k], known)
      {
        var upgraded := UpgradeUnder(adapters[k], known);
        totalUpgraded := totalUpgraded + upgraded;
        assert adapters[..k + 1][..k] == adapters[..k];
      }
      assert adapters[..|adapters|] == adapters;
      if UniqueKeys(start) && AllRecognised(adapters, known) {
        TotalUpgradesCount(start, adapters, adapters, known);
      }
    }

    method UpgradeUnder(a: Adapter, known: Known) returns (upgraded: nat)
      modifies this
      ensures rows == BackfillRows(old(rows), |old(rows)|, a, known)
      ensures upgraded == UpgradesUnder(old(rows), |old(rows)|, a, known)
    {
      hide IsAlreadyV2, Conflicts;
      ghost var was := rows;
      upgraded := 0;
      for i := 0 to |rows|
        invariant |rows| == |was| && rows == BackfillRows(was, i, a, known)
        invariant upgraded == UpgradesUnder(was, i, a, known)
      {
        var row := rows[i];
        if row.channelType == a.channelType {
          var isV2 := IsAlreadyV2(row.channelType, row.platformId, KnownOf(known, row.channelType));
          if !isV2 && Prefix(row.channelType) <= row.platformId {
            var v2 := row.(platformId := EncodePlatformId(row.channelType, a.botId, Native(row)));
            if !Conflicts(rows, i, v2) {
              rows := rows[i := v2];
              upgraded := upgraded + 1;
            }
          }
        }
      }
    }
  }
}
