/**
 The XML transcript printer for chat messages, and a parser that undoes it.
 Rendered times are opaque strings; messages carry no attachments.
 */
module Formatter {
  import opened Wrappers
  import opened Text

  // --------------------------------------------------------------------- escaping

  /** `s.replace(/c/g, by)` for a single character. */
  function ReplaceChar(s: string, c: char, sub: string): string {
    if s == "" then "" else (if s[0] == c then sub else [s[0]]) + ReplaceChar(s[1..], c, sub)
  }

  /** The four chained replacements, ampersand first. */
  function EscapeXml(s: string): string {
    ReplaceChar(ReplaceChar(ReplaceChar(ReplaceChar(s, '&', "&amp;"), '<', "&lt;"), '>', "&gt;"), '"', "&quot;")
  }

  function EscapeChar(c: char): string {
    match c
    case '&' => "&amp;"
    case '<' => "&lt;"
    case '>' => "&gt;"
    case '"' => "&quot;"
    case _ => [c]
  }

  /** One map per character. */
  function Escape(s: string): string {
    if s == "" then "" else EscapeChar(s[0]) + Escape(s[1..])
  }

  lemma {:induction false} ReplaceConcat(a: string, b: string, c: char, sub: string)
    ensures ReplaceChar(a + b, c, sub) == ReplaceChar(a, c, sub) + ReplaceChar(b, c, sub)
  {
    assert ReplaceChar("", c, sub) == "";
    hide *;
    if a == "" {
      assert a + b == b && "" + ReplaceChar(b, c, sub) == ReplaceChar(b, c, sub);
    } else {
      var d, t := a[0], a[1..];
      ReplaceConcat(t, b, c, sub);
      assert a == [d] + t && a + b == [d] + (t + b);
      Assoc(if d == c then sub else [d], ReplaceChar(t, c, sub), ReplaceChar(b, c, sub));
    }
  }

  lemma {:induction false} ReplaceAbsent(s: string, c: char, sub: string)
    requires Free(s, c)
    ensures ReplaceChar(s, c, sub) == s
  {
    if s != "" {
      ReplaceAbsent(s[1..], c, sub);
    }
  }

  lemma ReplaceOne(c: char, d: char, sub: string)
    ensures ReplaceChar([c], d, sub) == if c == d then sub else [c]
  {
    assert [c][1..] == "" && ReplaceChar("", d, sub) == "";
    assert sub + "" == sub;
  }

  /** Later replacements leave the entities written by earlier ones alone. */
  lemma EscapeOneChar(c: char)
    ensures EscapeXml([c]) == EscapeChar(c)
  {
    ReplaceOne(c, '&', "&amp;");
    ReplaceOne(c, '<', "&lt;");
    ReplaceOne(c, '>', "&gt;");
    ReplaceOne(c, '"', "&quot;");
    if c == '&' {
      ReplaceAbsent("&amp;", '<', "&lt;");
      ReplaceAbsent("&amp;", '>', "&gt;");
      ReplaceAbsent("&amp;", '"', "&quot;");
    }
    if c == '<' {
      ReplaceAbsent("&lt;", '>', "&gt;");
      ReplaceAbsent("&lt;", '"', "&quot;");
    }
    if c == '>' {
      ReplaceAbsent("&gt;", '"', "&quot;");
    }
  }

  lemma {:induction false} EscapeXmlIsPerCharacter(s: string)
    ensures EscapeXml(s) == Escape(s)
  {
    if s != "" {
      var h, t := [s[0]], s[1..];
      assert s == h + t;
      ReplaceConcat(h, t, '&', "&amp;");
      var h1, t1 := ReplaceChar(h, '&', "&amp;"), ReplaceChar(t, '&', "&amp;");
      ReplaceConcat(h1, t1, '<', "&lt;");
      var h2, t2 := ReplaceChar(h1, '<', "&lt;"), ReplaceChar(t1, '<', "&lt;");
      ReplaceConcat(h2, t2, '>', "&gt;");
      ReplaceConcat(ReplaceChar(h2, '>', "&gt;"), ReplaceChar(t2, '>', "&gt;"), '"', "&quot;");
      EscapeOneChar(s[0]);
      EscapeXmlIsPerCharacter(t);
    }
  }

  /** Reads the predefined entities of section 4.6 of XML 1.0; any other use of '&' is an error. */
  function Unescape(s: string): Option<string> {
    if s == "" then Some("")
    else if "&amp;" <= s then Prepend('&', Unescape(s[5..]))
    else if "&lt;" <= s then Prepend('<', Unescape(s[4..]))
    else if "&gt;" <= s then Prepend('>', Unescape(s[4..]))
    else if "&quot;" <= s then Prepend('"', Unescape(s[6..]))
    else if s[0] == '&' then None
    else Prepend(s[0], Unescape(s[1..]))
  }

  function Prepend(c: char, s: Option<string>): Option<string> {
    if s.None? then None else Some([c] + s.value)
  }

  lemma UnescapeOneChar(c: char, rest: string)
    ensures Unescape(EscapeChar(c) + rest) == Prepend(c, Unescape(rest))
  {
    var e := EscapeChar(c);
    var s := e + rest;
    assert s[0] == e[0] && s[|e|..] == rest;
    if |e| > 1 {
      assert e <= s && s[1] == e[1];
    }
    assert s[0] != '&' ==> !("&amp;" <= s) && !("&lt;" <= s) && !("&gt;" <= s) && !("&quot;" <= s);
    assert "&amp;" <= s ==> s[1] == "&amp;"[1];
    assert "&lt;" <= s ==> s[1] == "&lt;"[1];
    assert "&gt;" <= s ==> s[1] == "&gt;"[1];
  }

  lemma {:induction false} UnescapeEscape(s: string)
    ensures Unescape(Escape(s)) == Some(s)
  {
    if s != "" {
      UnescapeEscape(s[1..]);
      UnescapeOneChar(s[0], Escape(s[1..]));
      assert [s[0]] + s[1..] == s;
    }
  }

  lemma {:induction false} EscapeHasNoMarkup(s: string)
    ensures Free(Escape(s), '"') && Free(Escape(s), '<') && Free(Escape(s), '>')
  {
    if s != "" {
      EscapeHasNoMarkup(s[1..]);
    }
  }

  lemma EscapeCons(c: char, t: string)
    ensures Escape([c] + t) == EscapeChar(c) + Escape(t)
  {
    assert ([c] + t)[1..] == t;
  }

  lemma EscapeNil(b: string)
    ensures Escape("" + b) == Escape("") + Escape(b)
  {
    assert "" + b == b;
  }

  lemma EscapeConcatStep(c: char, t: string, b: string)
    requires Escape(t + b) == Escape(t) + Escape(b)
    ensures Escape([c] + t + b) == Escape([c] + t) + Escape(b)
  {
    hide *;
    EscapeCons(c, t);
    EscapeCons(c, t + b);
    Assoc([c], t, b);
    Assoc(EscapeChar(c), Escape(t), Escape(b));
  }

  lemma {:induction false} EscapeConcat(a: string, b: string)
    ensures Escape(a + b) == Escape(a) + Escape(b)
  {
    hide *;
    if a == "" {
      EscapeNil(b);
    } else {
      EscapeConcat(a[1..], b);
      EscapeConcatStep(a[0], a[1..], b);
      assert [a[0]] + a[1..] == a;
    }
  }

  lemma {:induction false} EscapeOfDigits(s: string)
    requires AllDigits(s)
    ensures Escape(s) == s
  {
    if s != "" {
      EscapeOfDigits(s[1..]);
    }
  }

  // --------------------------------------------------------------------- messages

  /** The parsed content of a chat row; "" stands for a missing field. */
  datatype ReplyTo = ReplyTo(id: string, sender: string, text: string)

  datatype Chat = Chat(
    seqNo: Option<nat>, channelType: string, platformId: string,
    sender: string, fullName: string, userName: string,
    time: string, text: string, replyTo: Option<ReplyTo>)

  /** The session's destination map: (channel type, platform id) to local name. */
  type Destinations = map<(string, string), string>

  /** What the transcript shows of a message. */
  datatype View = View(
    id: Option<nat>, from: Option<string>, sender: string, time: string,
    replyTo: Option<string>, quote: Option<(string, string)>, text: string)

  function SenderOf(m: Chat): string {
    if m.sender != "" then m.sender
    else if m.fullName != "" then m.fullName
    else if m.userName != "" then m.userName
    else "Unknown"
  }

  function FindByRouting(dests: Destinations, channelType: string, platformId: string): Option<string> {
    if channelType == "" || platformId == "" then None
    else if (channelType, platformId) in dests then Some(dests[(channelType, platformId)])
    else None
  }

  function ViewOf(m: Chat, dests: Destinations): View {
    var found := FindByRouting(dests, m.channelType, m.platformId);
    View(
      m.seqNo,
      if found.Some? then found
      else if m.channelType != "" || m.platformId != "" then Some("unknown:" + m.channelType + ":" + m.platformId)
      else None,
      SenderOf(m), m.time,
      if m.replyTo.Some? && m.replyTo.value.id != "" then Some(m.replyTo.value.id) else None,
      if m.replyTo.Some? && m.replyTo.value.sender != "" && m.replyTo.value.text != ""
      then Some((m.replyTo.value.sender, m.replyTo.value.text)) else None,
      m.text)
  }

  // ------------------------------------------------------------------ the printer

  function FormatReplyContext(replyTo: Option<ReplyTo>): string {
    if replyTo.None? || replyTo.value.sender == "" || replyTo.value.text == "" then ""
    else
      "\n  <quoted_message from=\"" + EscapeXml(replyTo.value.sender) + "\">"
      + EscapeXml(replyTo.value.text) + "</quoted_message>\n"
  }

  function IdAttr(m: Chat): string {
    if m.seqNo.Some? then " id=\"" + Numeral(m.seqNo.value) + "\"" else ""
  }

  function ReplyAttr(m: Chat): string {
    if m.replyTo.Some? && m.replyTo.value.id != "" then " reply_to=\"" + EscapeXml(m.replyTo.value.id) + "\"" else ""
  }

  /** The destination's name, or a raw marker when there is none. */
  function FromAttr(m: Chat, dests: Destinations): string {
    var found := FindByRouting(dests, m.channelType, m.platformId);
    if found.Some? then " from=\"" + EscapeXml(found.value) + "\""
    else if m.channelType != "" || m.platformId != "" then
      " from=\"unknown:" + EscapeXml(m.channelType) + ":" + EscapeXml(m.platformId) + "\""
    else ""
  }

  function FormatSingleChat(m: Chat, dests: Destinations): string {
    "<message" + IdAttr(m) + FromAttr(m, dests)
    + " sender=\"" + EscapeXml(SenderOf(m)) + "\" time=\"" + EscapeXml(m.time) + "\"" + ReplyAttr(m)
    + ">" + FormatReplyContext(m.replyTo) + EscapeXml(m.text) + "</message>"
  }

  function Join(lines: seq<string>, sep: string): string {
    if lines == [] then ""
    else if |lines| == 1 then lines[0]
    else lines[0] + sep + Join(lines[1..], sep)
  }

  function FormatEach(ms: seq<Chat>, dests: Destinations): (r: seq<string>)
    ensures |r| == |ms|
  {
    seq(|ms|, i requires 0 <= i < |ms| => FormatSingleChat(ms[i], dests))
  }

  function FormatChatMessages(ms: seq<Chat>, dests: Destinations): string {
    if |ms| == 1 then FormatSingleChat(ms[0], dests)
    else Join(["<messages>"] + FormatEach(ms, dests) + ["</messages>"], "\n")
  }

  // ------------------------------------------------------------------- the parser

  /** After `lit`, an escaped value up to `stop`; the rest starts behind `stop`. */
  function ParseField(lit: string, stop: char, s: string): (r: Option<(string, string)>)
    ensures r.Some? ==> |r.value.1| + |lit| < |s|
  {
    if !(lit <= s) then None
    else
      var body := s[|lit|..];
      var k :- IndexOf(body, stop);
      var v :- Unescape(body[..k]);
      Some((v, body[k + 1..]))
  }

  /** An attribute that may be missing. */
  function ParseOptional(lit: string, s: string): (r: Option<(Option<string>, string)>)
    ensures r.Some? ==> |r.value.1| <= |s|
  {
    if !(lit <= s) then Some((None, s))
    else
      var (v, rest) :- ParseField(lit, '"', s);
      Some((Some(v), rest))
  }

  function ParseQuote(s: string): (r: Option<(Option<(string, string)>, string)>)
    ensures r.Some? ==> |r.value.1| <= |s|
  {
    if !("\n  <quoted_message from=\"" <= s) then Some((None, s))
    else
      var (sender, s1) :- ParseField("\n  <quoted_message from=\"", '"', s);
      var (text, s2) :- ParseField(">", '<', s1);
      if "/quoted_message>\n" <= s2 then Some((Some((sender, text)), s2[17..])) else None
  }

  function ParseId(o: Option<string>): Option<Option<nat>> {
    if o.None? then Some(None)
    else if o.value != "" && AllDigits(o.value) then Some(Some(NumeralValue(o.value)))
    else None
  }

  /** The attributes, up to and including the closing '>'. */
  function ParseHead(s: string): (r: Option<(View, string)>)
    ensures r.Some? ==> |r.value.1| <= |s|
  {
    var (idText, s1) :- ParseOptional(" id=\"", s);
    var id :- ParseId(idText);
    var (from, s2) :- ParseOptional(" from=\"", s1);
    var (sender, s3) :- ParseField(" sender=\"", '"', s2);
    var (time, s4) :- ParseField(" time=\"", '"', s3);
    var (replyTo, s5) :- ParseOptional(" reply_to=\"", s4);
    if ">" <= s5 then Some((View(id, from, sender, time, replyTo, None, ""), s5[1..])) else None
  }

  function ParseBody(s: string): (r: Option<((Option<(string, string)>, string), string)>)
    ensures r.Some? ==> |r.value.1| <= |s|
  {
    var (quote, s1) :- ParseQuote(s);
    var (text, s2) :- ParseField("", '<', s1);
    if "/message>" <= s2 then Some(((quote, text), s2[9..])) else None
  }

  function ParseMessage(s: string): (r: Option<(View, string)>)
    ensures r.Some? ==> |r.value.1| < |s|
  {
    if !("<message" <= s) then None
    else
      var (head, s1) :- ParseHead(s[8..]);
      var ((quote, text), s2) :- ParseBody(s1);
      Some((head.(quote := quote, text := text), s2))
  }

  /** Lines of messages up to the closing tag. */
  function ParseLines(s: string): Option<seq<View>>
    decreases |s|
  {
    if s == "\n</messages>" then Some([])
    else if !("\n" <= s) then None
    else
      var (v, rest) :- ParseMessage(s[1..]);
      var vs :- ParseLines(rest);
      Some([v] + vs)
  }

  function ParseBatch(s: string): Option<seq<View>> {
    if "<messages>" <= s then ParseLines(s[10..])
    else
      var (v, rest) :- ParseMessage(s);
      if rest == "" then Some([v]) else None
  }

  // ---------------------------------------------------------------- the round trip

  function Field(lit: string, v: string): string {
    lit + Escape(v) + "\""
  }

  function OptionalField(lit: string, o: Option<string>): string {
    if o.None? then "" else Field(lit, o.value)
  }

  function QuoteText(q: Option<(string, string)>): string {
    if q.None? then ""
    else Field("\n  <quoted_message from=\"", q.value.0) + (">" + Escape(q.value.1) + "<" + "/quoted_message>\n")
  }

  function IdText(id: Option<nat>): Option<string> {
    if id.None? then None else Some(Numeral(id.value))
  }

  /** The printer as a function of the view alone. */
  function Render(v: View): string {
    "<message" + OptionalField(" id=\"", IdText(v.id)) + OptionalField(" from=\"", v.from)
    + Field(" sender=\"", v.sender) + Field(" time=\"", v.time)
    + OptionalField(" reply_to=\"", v.replyTo) + ">" + QuoteText(v.quote) + Escape(v.text) + "</message>"
  }

  lemma FieldParts(lit: string, v: string, stop: char, rest: string)
    ensures var s := lit + v + [stop] + rest;
            lit <= s && s[|lit|..] == v + [stop] + rest && s[|lit|..][..|v|] == v && s[|lit|..][|v| + 1..] == rest
  {
  }

  lemma ParseFieldInverts(lit: string, stop: char, v: string, rest: string)
    requires stop == '"' || stop == '<'
    ensures ParseField(lit, stop, lit + Escape(v) + [stop] + rest) == Some((v, rest))
  {
    hide Escape, Unescape, IndexOf;
    EscapeHasNoMarkup(v);
    IndexOfFirst(Escape(v), stop, rest);
    UnescapeEscape(v);
    FieldParts(lit, Escape(v), stop, rest);
  }

  lemma ParseOptionalInverts(lit: string, o: Option<string>, rest: string)
    requires |lit| > 1 && (o.None? ==> |rest| < |lit| || rest[..|lit|] != lit)
    ensures ParseOptional(lit, OptionalField(lit, o) + rest) == Some((o, rest))
  {
    var s := OptionalField(lit, o) + rest;
    if o.Some? {
      ParseFieldInverts(lit, '"', o.value, rest);
      assert s == lit + Escape(o.value) + ['"'] + rest;
      assert lit <= s;
    } else {
      assert s == rest;
    }
  }

  lemma QuoteSplits(sender: string, text: string, tail: string)
    ensures QuoteText(Some((sender, text))) + tail
         == "\n  <quoted_message from=\"" + Escape(sender) + ['"']
            + (">" + Escape(text) + ['<'] + ("/quoted_message>\n" + tail))
  {
    var a, b, c := Field("\n  <quoted_message from=\"", sender), ">" + Escape(text) + "<", "/quoted_message>\n";
    assert a + (b + c) + tail == a + (b + (c + tail));
  }

  lemma QuoteParses(sender: string, text: string, tail: string)
    ensures ParseQuote(QuoteText(Some((sender, text))) + tail) == Some((Some((sender, text)), tail))
  {
    QuoteSplits(sender, text, tail);
    var end := "/quoted_message>\n" + tail;
    ParseFieldInverts(">", '<', text, end);
    ParseFieldInverts("\n  <quoted_message from=\"", '"', sender, ">" + Escape(text) + ['<'] + end);
    assert end[17..] == tail;
  }

  lemma ParseQuoteInverts(q: Option<(string, string)>, text: string, rest: string)
    requires "/" <= rest
    ensures ParseQuote(QuoteText(q) + (Escape(text) + "<" + rest)) == Some((q, Escape(text) + "<" + rest))
  {
    var tail := Escape(text) + "<" + rest;
    if q.Some? {
      QuoteParses(q.value.0, q.value.1, tail);
    } else {
      assert QuoteText(q) + tail == tail;
      EscapeHasNoMarkup(text);
      TextIsNoQuote(Escape(text), rest);
    }
  }

  lemma TextIsNoQuote(text: string, rest: string)
    requires Free(text, '<') && "/" <= rest
    ensures !("\n  <quoted_message from=\"" <= text + "<" + rest)
  {
    var s := text + "<" + rest;
    assert s[|text|] == '<' && s[|text| + 1] == '/';
    if |text| > 3 {
      assert s[3] == text[3];
    }
  }

  function Body(v: View): string {
    QuoteText(v.quote) + Escape(v.text) + "</message>"
  }

  lemma BodySplits(q: string, x: string, rest: string)
    ensures q + x + "</message>" + rest == q + (x + "<" + ("/message>" + rest))
    ensures "" + x + ['<'] + ("/message>" + rest) == x + "<" + ("/message>" + rest)
  {
    assert "</message>" == "<" + "/message>";
    assert x + ("<" + "/message>") + rest == x + "<" + ("/message>" + rest);
    assert q + x + "</message>" + rest == q + (x + "</message>" + rest);
  }

  lemma ParseBodyInverts(v: View, rest: string)
    ensures ParseBody(Body(v) + rest) == Some(((v.quote, v.text), rest))
  {
    var end := "/message>" + rest;
    BodySplits(QuoteText(v.quote), Escape(v.text), rest);
    ParseQuoteInverts(v.quote, v.text, end);
    ParseFieldInverts("", '<', v.text, end);
    assert end[9..] == rest;
  }

  /** The head from the time attribute on, from the sender on, and so forth, each with what follows it. */
  function FromReply(v: View, rest: string): string { OptionalField(" reply_to=\"", v.replyTo) + (">" + rest) }

  function FromTime(v: View, rest: string): string { Field(" time=\"", v.time) + FromReply(v, rest) }

  function FromSender(v: View, rest: string): string { Field(" sender=\"", v.sender) + FromTime(v, rest) }

  function FromFrom(v: View, rest: string): string { OptionalField(" from=\"", v.from) + FromSender(v, rest) }

  function FromId(v: View, rest: string): string { OptionalField(" id=\"", IdText(v.id)) + FromFrom(v, rest) }

  lemma ParseIdInverts(id: Option<nat>)
    ensures ParseId(IdText(id)) == Some(id)
  {
    if id.Some? {
      NumeralRoundTrip(id.value);
    }
  }

  lemma ParseReplyInverts(v: View, rest: string)
    ensures ParseOptional(" reply_to=\"", FromReply(v, rest)) == Some((v.replyTo, ">" + rest))
  {
    assert (">" + rest)[0] == '>';
    ParseOptionalInverts(" reply_to=\"", v.replyTo, ">" + rest);
  }

  lemma ParseTimeInverts(v: View, rest: string)
    ensures ParseField(" time=\"", '"', FromTime(v, rest)) == Some((v.time, FromReply(v, rest)))
  {
    ParseFieldInverts(" time=\"", '"', v.time, FromReply(v, rest));
  }

  lemma ParseSenderInverts(v: View, rest: string)
    ensures ParseField(" sender=\"", '"', FromSender(v, rest)) == Some((v.sender, FromTime(v, rest)))
  {
    ParseFieldInverts(" sender=\"", '"', v.sender, FromTime(v, rest));
  }

  lemma ParseFromInverts(v: View, rest: string)
    ensures ParseOptional(" from=\"", FromFrom(v, rest)) == Some((v.from, FromSender(v, rest)))
  {
    assert FromSender(v, rest)[1] == 's';
    ParseOptionalInverts(" from=\"", v.from, FromSender(v, rest));
  }

  lemma ParseIdTextInverts(v: View, rest: string)
    ensures ParseOptional(" id=\"", FromId(v, rest)) == Some((IdText(v.id), FromFrom(v, rest)))
  {
    var tail := FromFrom(v, rest);
    if v.from.Some? {
      assert tail[1] == 'f';
    } else {
      assert tail == FromSender(v, rest);
      assert tail[1] == 's';
    }
    ParseOptionalInverts(" id=\"", IdText(v.id), tail);
  }

  lemma ParseHeadInverts(v: View, rest: string)
    ensures ParseHead(FromId(v, rest)) == Some((v.(quote := None, text := ""), rest))
  {
    ParseIdTextInverts(v, rest);
    ParseIdInverts(v.id);
    ParseFromInverts(v, rest);
    ParseSenderInverts(v, rest);
    ParseTimeInverts(v, rest);
    ParseReplyInverts(v, rest);
    assert (">" + rest)[1..] == rest;
  }

  lemma Reassociate(
      h: string, i: string, f: string, s: string, m: string, r: string, g: string,
      q: string, x: string, e: string, rest: string)
    ensures h + i + f + s + m + r + g + q + x + e + rest == h + (i + (f + (s + (m + (r + (g + (q + x + e + rest)))))))
  {
    var body := q + x + e + rest;
    assert h + i + f + s + m + r + g + q + x + e + rest == h + i + f + s + m + r + g + body;
    assert h + i + f + s + m + r + g + body == h + i + f + s + (m + (r + (g + body)));
    assert h + i + f + s + (m + (r + (g + body))) == h + (i + (f + (s + (m + (r + (g + body))))));
  }

  lemma RenderSplits(v: View, rest: string)
    ensures Render(v) + rest == "<message" + FromId(v, Body(v) + rest)
  {
    Reassociate(
      "<message", OptionalField(" id=\"", IdText(v.id)), OptionalField(" from=\"", v.from),
      Field(" sender=\"", v.sender), Field(" time=\"", v.time), OptionalField(" reply_to=\"", v.replyTo), ">",
      QuoteText(v.quote), Escape(v.text), "</message>", rest);
  }

  lemma ParseMessageInverts(v: View, rest: string)
    ensures ParseMessage(Render(v) + rest) == Some((v, rest))
  {
    RenderSplits(v, rest);
    var tail := FromId(v, Body(v) + rest);
    assert ("<message" + tail)[8..] == tail;
    ParseHeadInverts(v, Body(v) + rest);
    ParseBodyInverts(v, rest);
  }

  // ------------------------------------------------------------- the printer prints it

  lemma FormatReplyContextIsQuote(m: Chat, dests: Destinations)
    ensures FormatReplyContext(m.replyTo) == QuoteText(ViewOf(m, dests).quote)
  {
    if m.replyTo.Some? && m.replyTo.value.sender != "" && m.replyTo.value.text != "" {
      var r := m.replyTo.value;
      EscapeXmlIsPerCharacter(r.sender);
      EscapeXmlIsPerCharacter(r.text);
      QuoteTagsSplit("\n  <quoted_message from=\"" + Escape(r.sender), Escape(r.text));
    }
  }

  lemma QuoteTagsSplit(a: string, b: string)
    ensures a + "\">" + b + "</quoted_message>\n" == a + "\"" + (">" + b + "<" + "/quoted_message>\n")
  {
    assert "\">" == "\"" + ">";
    assert "</quoted_message>\n" == "<" + "/quoted_message>\n";
  }

  lemma FromAttrIsField(m: Chat, dests: Destinations)
    ensures FromAttr(m, dests) == OptionalField(" from=\"", ViewOf(m, dests).from)
  {
    var c, p := m.channelType, m.platformId;
    var found := FindByRouting(dests, c, p);
    if found.Some? {
      EscapeXmlIsPerCharacter(found.value);
    } else if c != "" || p != "" {
      EscapeXmlIsPerCharacter(c);
      EscapeXmlIsPerCharacter(p);
      EscapeUnknown(c, p);
      UnknownSplits(Escape(c), Escape(p));
    }
  }

  lemma EscapeUnknown(c: string, p: string)
    ensures Escape("unknown:" + c + ":" + p) == "unknown:" + Escape(c) + ":" + Escape(p)
  {
    EscapeConcat("unknown:" + c + ":", p);
    EscapeConcat("unknown:" + c, ":");
    EscapeConcat("unknown:", c);
    PlainEscapes();
  }

  lemma UnknownSplits(c: string, p: string)
    ensures " from=\"unknown:" + c + ":" + p + "\"" == " from=\"" + ("unknown:" + c + ":" + p) + "\""
  {
    assert " from=\"unknown:" == " from=\"" + "unknown:";
  }

  lemma IdAndReplyAttrsAreFields(m: Chat, dests: Destinations)
    ensures IdAttr(m) == OptionalField(" id=\"", IdText(ViewOf(m, dests).id))
    ensures ReplyAttr(m) == OptionalField(" reply_to=\"", ViewOf(m, dests).replyTo)
  {
    if m.seqNo.Some? {
      NumeralRoundTrip(m.seqNo.value);
      EscapeOfDigits(Numeral(m.seqNo.value));
    }
    if m.replyTo.Some? {
      EscapeXmlIsPerCharacter(m.replyTo.value.id);
    }
  }

  lemma PlainEscapes()
    ensures Escape("unknown:") == "unknown:" && Escape(":") == ":"
  {
    EscapeOfPlain("unknown:");
    EscapeOfPlain(":");
  }

  lemma {:induction false} EscapeOfPlain(s: string)
    requires Free(s, '&') && Free(s, '<') && Free(s, '>') && Free(s, '"')
    ensures Escape(s) == s
  {
    if s != "" {
      EscapeOfPlain(s[1..]);
    }
  }

  /** What the source prints for a message depends on its view only. */
  lemma FormatIsRender(m: Chat, dests: Destinations)
    ensures FormatSingleChat(m, dests) == Render(ViewOf(m, dests))
  {
    hide EscapeXml, Escape, FindByRouting, IdAttr, FromAttr, ReplyAttr, OptionalField, QuoteText, FormatReplyContext,
        Numeral;
    var v := ViewOf(m, dests);
    EscapeXmlIsPerCharacter(v.sender);
    EscapeXmlIsPerCharacter(v.time);
    EscapeXmlIsPerCharacter(v.text);
    FormatReplyContextIsQuote(m, dests);
    FromAttrIsField(m, dests);
    IdAndReplyAttrsAreFields(m, dests);
  }

  // ---------------------------------------------------------------------- batches

  function Views(ms: seq<Chat>, dests: Destinations): (r: seq<View>)
    ensures |r| == |ms| && forall i | 0 <= i < |ms| :: r[i] == ViewOf(ms[i], dests)
  {
    seq(|ms|, i requires 0 <= i < |ms| => ViewOf(ms[i], dests))
  }

  function Lines(vs: seq<View>): string {
    if vs == [] then "\n</messages>" else "\n" + Render(vs[0]) + Lines(vs[1..])
  }

  lemma FormatEachCons(ms: seq<Chat>, dests: Destinations)
    requires ms != []
    ensures FormatEach(ms, dests) == [FormatSingleChat(ms[0], dests)] + FormatEach(ms[1..], dests)
    ensures Lines(Views(ms, dests)) == "\n" + Render(ViewOf(ms[0], dests)) + Lines(Views(ms[1..], dests))
  {
    hide FormatSingleChat, Render, ViewOf;
    assert Views(ms, dests)[1..] == Views(ms[1..], dests);
  }

  lemma {:induction false} JoinIsLines(ms: seq<Chat>, dests: Destinations, head: string)
    ensures Join([head] + FormatEach(ms, dests) + ["</messages>"], "\n") == head + Lines(Views(ms, dests))
  {
    hide FormatSingleChat, Render, ViewOf;
    if ms == [] {
      assert [head] + FormatEach(ms, dests) + ["</messages>"] == [head] + ["</messages>"];
      assert "\n</messages>" == "\n" + "</messages>";
    } else {
      hide Join, FormatEach, Lines, Views;
      var next, each := FormatSingleChat(ms[0], dests), FormatEach(ms[1..], dests);
      JoinIsLines(ms[1..], dests, next);
      FormatIsRender(ms[0], dests);
      FormatEachCons(ms, dests);
      var tail := [next] + each + ["</messages>"];
      assert [head] + FormatEach(ms, dests) + ["</messages>"] == [head] + tail;
      Assoc(head, "\n" + next, Lines(Views(ms[1..], dests)));
      Assoc(head, "\n", Join(tail, "\n"));
      Assoc("\n", next, Lines(Views(ms[1..], dests)));
    }
  }

  lemma RenderStarts(v: View, rest: string)
    ensures "<message " <= Render(v) + rest
  {
    RenderSplits(v, rest);
    assert "<message " == "<message" + " ";
  }

  lemma {:induction false} ParseLinesInverts(vs: seq<View>)
    ensures ParseLines(Lines(vs)) == Some(vs)
  {
    hide ParseMessage, Render;
    if vs != [] {
      var rest := Lines(vs[1..]);
      var tail := Render(vs[0]) + rest;
      assert Lines(vs) == "\n" + tail && ("\n" + tail)[1..] == tail;
      RenderStarts(vs[0], rest);
      assert Lines(vs)[2] == tail[1] == "<message "[1];
      ParseMessageInverts(vs[0], rest);
      ParseLinesInverts(vs[1..]);
      assert vs == [vs[0]] + vs[1..];
    }
  }

  /** The transcript of a chat batch parses back to exactly what each message shows, in order. */
  lemma TranscriptRoundTrip(ms: seq<Chat>, dests: Destinations)
    ensures ParseBatch(FormatChatMessages(ms, dests)) == Some(Views(ms, dests))
  {
    hide ParseMessage, Render, FormatSingleChat, ViewOf;
    var vs := Views(ms, dests);
    var s := FormatChatMessages(ms, dests);
    if |ms| == 1 {
      FormatIsRender(ms[0], dests);
      assert s == Render(vs[0]) + "";
      RenderStarts(vs[0], "");
      assert s[8] == "<message "[8];
      assert "<messages>"[8] == 's';
      ParseMessageInverts(vs[0], "");
      assert vs == [vs[0]];
    } else {
      JoinIsLines(ms, dests, "<messages>");
      assert s[10..] == Lines(vs);
      ParseLinesInverts(vs);
    }
  }

  /** Hence two batches with the same transcript show the same messages. */
  lemma TranscriptIsInjective(a: seq<Chat>, b: seq<Chat>, dests: Destinations)
    requires FormatChatMessages(a, dests) == FormatChatMessages(b, dests)
    ensures Views(a, dests) == Views(b, dests)
  {
    TranscriptRoundTrip(a, dests);
    TranscriptRoundTrip(b, dests);
  }

  /**
   Read back from the transcript, each message shows the first of its three names that is not empty, the
   local name of the destination it came from if there is one, and its own text and time.
   */
  lemma TranscriptShows(ms: seq<Chat>, dests: Destinations, i: nat, n: nat)
    requires i < |ms| && n < 3
    ensures ParseBatch(FormatChatMessages(ms, dests)).Some? && |ParseBatch(FormatChatMessages(ms, dests)).value| == |ms|
    ensures var shown, m := ParseBatch(FormatChatMessages(ms, dests)).value[i], ms[i];
            var names := [m.sender, m.fullName, m.userName];
            var here := (m.channelType, m.platformId);
            && (names[n] != "" && (forall k | 0 <= k < n :: names[k] == "") ==> shown.sender == names[n])
            && ((forall name | name in names :: name == "") ==> shown.sender == "Unknown")
            && (m.channelType != "" && m.platformId != "" && here in dests ==> shown.from == Some(dests[here]))
            && (m.channelType == "" && m.platformId == "" ==> shown.from == None)
            && (m.channelType + m.platformId != "" && (m.channelType == "" || m.platformId == "" || here !in dests) ==>
                  shown.from == Some("unknown:" + m.channelType + ":" + m.platformId))
            && shown.text == m.text && shown.time == m.time && shown.id == m.seqNo
            && (shown.replyTo.Some? <==> m.replyTo.Some? && m.replyTo.value.id != "")
            && (shown.replyTo.Some? ==> shown.replyTo.value == m.replyTo.value.id)
            && (shown.quote.Some? <==> m.replyTo.Some? && m.replyTo.value.sender != "" && m.replyTo.value.text != "")
            && (shown.quote.Some? ==> shown.quote.value == (m.replyTo.value.sender, m.replyTo.value.text))
  {
    hide FormatChatMessages, ParseBatch;
    TranscriptRoundTrip(ms, dests);
    var names := [ms[i].sender, ms[i].fullName, ms[i].userName];
    assert names[0] in names && names[1] in names && names[2] in names;
    assert names[0] == ms[i].sender && names[1] == ms[i].fullName && names[2] == ms[i].userName;
  }
}
