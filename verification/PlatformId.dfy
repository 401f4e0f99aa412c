/**
 Platform ids `<channel>:<bot>:<native>`, the bridge's translation to and from
 the ids its SDK knows.
 */
module PlatformId {
  import opened Wrappers
  import opened Text

  datatype Decoded = Decoded(channel: string, botId: Option<string>, native: string)

  function EncodePlatformId(channel: string, botId: string, native: string): string {
    channel + ":" + botId + ":" + native
  }

  function DecodePlatformIdAs(id: string): Decoded {
    match IndexOf(id, ':')
    case None => Decoded(id, None, "")
    case Some(first) =>
      var after := id[first + 1..];
      match IndexOf(after, ':')
      case None => Decoded(id[..first], None, after)
      case Some(second) => Decoded(id[..first], Some(after[..second]), after[second + 1..])
  }

  lemma SplitAtColon(a: string, b: string)
    ensures Free(a, ':') ==> IndexOf(a + ":" + b, ':') == Some(|a|)
    ensures (a + ":" + b)[..|a|] == a && (a + ":" + b)[|a| + 1..] == b
  {
    if Free(a, ':') {
      IndexOfFirst(a, ':', b);
    }
  }

  /** Decoding undoes encoding exactly when neither the channel nor the bot id contains a colon. */
  lemma DecodeInvertsEncodeExactlyWhen(channel: string, botId: string, native: string)
    ensures DecodePlatformIdAs(EncodePlatformId(channel, botId, native)) == Decoded(channel, Some(botId), native)
       <==> Free(channel, ':') && Free(botId, ':')
  {
    var id := EncodePlatformId(channel, botId, native);
    var rest := botId + ":" + native;
    assert id == channel + ":" + rest;
    SplitAtColon(channel, rest);
    SplitAtColon(botId, native);
  }

  // ----------------------------------------------------------------- the SDK bridge

  function WithBot(botId: string, sdkId: string): string {
    match IndexOf(sdkId, ':')
    case None => sdkId
    case Some(colon) => EncodePlatformId(sdkId[..colon], botId, sdkId[colon + 1..])
  }

  function WithoutBot(botId: string, id: string): string {
    match IndexOf(id, ':')
    case None => id
    case Some(colon) =>
      var rest := id[colon + 1..];
      if botId + ":" <= rest then id[..colon + 1] + rest[|botId| + 1..] else id
  }

  /** Stripping the bot undoes inserting it, for every string and every bot id. */
  lemma WithoutBotUndoesWithBot(botId: string, sdkId: string)
    ensures WithoutBot(botId, WithBot(botId, sdkId)) == sdkId
  {
    match IndexOf(sdkId, ':')
    case None =>
    case Some(colon) =>
      var channel, native := sdkId[..colon], sdkId[colon + 1..];
      var rest := botId + ":" + native;
      assert WithBot(botId, sdkId) == channel + ":" + rest;
      SplitAtColon(channel, rest);
      assert (channel + ":" + rest)[..colon + 1] == channel + ":";
      assert rest[|botId| + 1..] == native;
      assert sdkId == channel + ":" + native;
  }

  lemma OwnBotRoundTrip(botId: string, channel: string, native: string)
    requires Free(channel, ':')
    ensures WithBot(botId, channel + ":" + native) == channel + ":" + (botId + ":" + native)
  {
    SplitAtColon(channel, native);
    assert EncodePlatformId(channel, botId, native) == channel + ":" + (botId + ":" + native);
  }

  /** The other way round it is the identity exactly on the ids of this bot and on ids without a colon. */
  lemma WithBotUndoesWithoutBotExactlyWhen(botId: string, id: string)
    ensures WithBot(botId, WithoutBot(botId, id)) == id
       <==> IndexOf(id, ':').None? || botId + ":" <= id[IndexOf(id, ':').value + 1..]
  {
    if IndexOf(id, ':').Some? {
      hide WithBot, WithoutBot;
      var colon := IndexOf(id, ':').value;
      var channel, rest := id[..colon], id[colon + 1..];
      assert id == channel + ":" + rest;
      if botId + ":" <= rest {
        var native := rest[|botId| + 1..];
        assert rest == botId + ":" + native;
        OwnBotRoundTrip(botId, channel, native);
      } else {
        OwnBotRoundTrip(botId, channel, rest);
        assert |WithBot(botId, channel + ":" + rest)| == |id| + |botId| + 1;
      }
    }
  }
}
