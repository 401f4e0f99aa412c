/**
 The repair of outbound text for Telegram's legacy Markdown: code spans are cut
 out behind NUL-delimited placeholders, the rest is rewritten pass by pass, and
 the spans are put back.
 */
module TelegramMarkdown {
  import opened Wrappers
  import opened Text

  const NUL := '\0'

  // ------------------------------------------------------------------- code spans

  /** Start of the first "```" in `s`. */
  function FindFence(s: string): (r: Option<nat>)
    ensures r.Some? ==> r.value + 3 <= |s|
  {
    if |s| < 3 then None
    else if "```" <= s then Some(0)
    else
      var k :- FindFence(s[1..]);
      Some(k + 1)
  }

  predicate InlineCode(c: char) { c != '`' && c != '\n' }

  /** Length of the code span at the start of `s`, fenced before inline. */
  function CodeLength(s: string): (r: Option<nat>)
    ensures r.Some? ==> 2 <= r.value <= |s|
  {
    if "```" <= s && FindFence(s[3..]).Some? then Some(FindFence(s[3..]).value + 6)
    else if s != "" && s[0] == '`' then
      var n := Span(s[1..], InlineCode);
      if n + 1 < |s| && s[n + 1] == '`' then Some(n + 2) else None
    else None
  }

  predicate FenceIsAt(s: string, k: nat) {
    k + 3 <= |s| && s[k] == s[k + 1] == s[k + 2] == '`'
  }

  /** The first `n` characters of `s` are a fenced block, ended by the first fence that can end it. */
  predicate FencedAt(s: string, n: nat) {
    && 6 <= n <= |s| && FenceIsAt(s, 0) && FenceIsAt(s, n - 3)
    && forall k | 3 <= k < n - 3 :: !FenceIsAt(s, k)
  }

  /** The first `n` characters of `s` are inline code. */
  predicate InlineAt(s: string, n: nat) {
    && 2 <= n <= |s| && s[0] == '`' && s[n - 1] == '`'
    && forall k | 1 <= k < n - 1 :: s[k] != '`' && s[k] != '\n'
  }

  /** What the pattern matches at the start of `s`; a fenced block comes before inline code. */
  ghost predicate CodeAt(s: string, n: nat) {
    FencedAt(s, n) || (InlineAt(s, n) && forall m: nat :: !FencedAt(s, m))
  }

  lemma FenceIsPrefix(s: string)
    ensures "```" <= s <==> FenceIsAt(s, 0)
  {
    if FenceIsAt(s, 0) {
      assert s[..3] == "```";
    }
    if "```" <= s {
      assert s[0] == "```"[0] && s[1] == "```"[1] && s[2] == "```"[2];
    }
  }

  lemma {:induction false} FindFenceIsFirst(s: string)
    ensures var r := FindFence(s);
            && (r.Some? ==> FenceIsAt(s, r.value))
            && forall k | 0 <= k && (r.Some? ==> k < r.value) :: !FenceIsAt(s, k)
  {
    FenceIsPrefix(s);
    if |s| >= 3 && !FenceIsAt(s, 0) {
      FindFenceIsFirst(s[1..]);
      assert forall k | 1 <= k :: FenceIsAt(s, k) <==> FenceIsAt(s[1..], k - 1);
    }
  }

  lemma FencedExactly(s: string, n: nat)
    requires FenceIsAt(s, 0)
    ensures FencedAt(s, n) <==> FindFence(s[3..]).Some? && n == FindFence(s[3..]).value + 6
  {
    hide FindFence;
    var t, r := s[3..], FindFence(s[3..]);
    FindFenceIsFirst(t);
    assert forall k: nat :: FenceIsAt(t, k) <==> FenceIsAt(s, k + 3);
    hide FenceIsAt;
    if FencedAt(s, n) {
      assert FenceIsAt(t, n - 6);
    }
    if r.Some? && n == r.value + 6 {
      assert FenceIsAt(s, n - 3);
      forall k | 3 <= k < n - 3
        ensures !FenceIsAt(s, k)
      {
        assert !FenceIsAt(t, k - 3);
      }
    }
  }

  lemma InlineExactly(s: string, n: nat)
    requires s != "" && s[0] == '`'
    ensures var m := Span(s[1..], InlineCode);
            InlineAt(s, n) <==> m + 1 < |s| && s[m + 1] == '`' && n == m + 2
  {
    var m := Span(s[1..], InlineCode);
    assert forall k | 0 <= k < |s| - 1 :: s[1..][k] == s[k + 1];
    assert forall k | 1 <= k < m + 1 :: InlineCode(s[k]);
    assert m + 1 < |s| ==> !InlineCode(s[m + 1]);
  }

  /** The function finds exactly what the pattern matches. */
  lemma CodeLengthExactly(s: string, n: nat)
    ensures CodeLength(s) == Some(n) <==> CodeAt(s, n)
  {
    hide FindFence, Span;
    FenceIsPrefix(s);
    forall m: nat
      ensures FencedAt(s, m) <==> FenceIsAt(s, 0) && FindFence(s[3..]).Some? && m == FindFence(s[3..]).value + 6
    {
      if FenceIsAt(s, 0) {
        FencedExactly(s, m);
      }
    }
    hide FencedAt;
    if s != "" && s[0] == '`' {
      InlineExactly(s, n);
    }
    var fenced := FenceIsAt(s, 0) && FindFence(s[3..]).Some?;
    if fenced {
      assert FencedAt(s, FindFence(s[3..]).value + 6);
    }
  }

  /** A character of the text, or a reference to a code span. */
  datatype Token = Ch(c: char) | Ref(k: nat)

  /** The text's tokens and its code spans, which are numbered from `n`. */
  function Protect(s: string, n: nat): (seq<Token>, seq<string>) {
    if s == "" then ([], [])
    else
      match CodeLength(s)
      case Some(len) =>
        var (tokens, spans) := Protect(s[len..], n + 1);
        ([Ref(n)] + tokens, [s[..len]] + spans)
      case None =>
        var (tokens, spans) := Protect(s[1..], n);
        ([Ch(s[0])] + tokens, spans)
  }

  function Placeholder(k: nat): string {
    "\0CODE" + Numeral(k) + "\0"
  }

  function TokenText(t: Token): string {
    match t
    case Ch(c) => [c]
    case Ref(k) => Placeholder(k)
  }

  function Glue(tokens: seq<Token>): string {
    if tokens == [] then "" else TokenText(tokens[0]) + Glue(tokens[1..])
  }

  /** The text with every reference replaced by its span. */
  function Expand(tokens: seq<Token>, spans: seq<string>): string {
    if tokens == [] then ""
    else (match tokens[0]
          case Ch(c) => [c]
          case Ref(k) => if k < |spans| then spans[k] else "undefined")
         + Expand(tokens[1..], spans)
  }

  function Refs(tokens: seq<Token>): seq<nat> {
    if tokens == [] then []
    else (if tokens[0].Ref? then [tokens[0].k] else []) + Refs(tokens[1..])
  }

  /** The text outside the code spans. */
  function Plain(tokens: seq<Token>): string {
    if tokens == [] then ""
    else (if tokens[0].Ch? then [tokens[0].c] else "") + Plain(tokens[1..])
  }

  // ----------------------------------------------------------------------- passes

  predicate IsLineEnd(c: char) { c in "\n\r\U{2028}\U{2029}" }

  predicate IsBlank(c: char) { c == ' ' || c == '\t' }

  predicate IsRuleChar(c: char) { c == '-' || c == '_' || c == '*' }

  /** A regular expression's match at the start of `s`: its length and what replaces it. */
  datatype Hit = Hit(len: nat, out: string)

  /** The matcher of a pattern; its second argument says that `s` starts a line. */
  type Matcher = (string, bool) -> Option<Hit>

  /** s.replace(pattern, …) with the g and m flags, for patterns that match no empty text. */
  function ReplaceAll(s: string, bol: bool, m: Matcher): string
    decreases |s|
  {
    if s == "" then ""
    else
      var hit := m(s, bol);
      if hit.Some? && 0 < hit.value.len <= |s| then
        hit.value.out + ReplaceAll(s[hit.value.len..], IsLineEnd(s[hit.value.len - 1]), m)
      else [s[0]] + ReplaceAll(s[1..], IsLineEnd(s[0]), m)
  }

  /** A '-' or '+' bullet at a line start: its indentation stays, the mark becomes a plain one. */
  function BulletAt(s: string, bol: bool): Option<Hit> {
    var w := Span(s, IsSpace);
    if bol && w < |s| && (s[w] == '-' || s[w] == '+') && Span(s[w + 1..], IsSpace) > 0 then
      Some(Hit(w + 1 + Span(s[w + 1..], IsSpace), s[..w] + "\U{2022} "))
    else None
  }

  /** A line of three or more rule characters becomes a plain divider. */
  function RuleAt(s: string, bol: bool): Option<Hit> {
    var a := Span(s, IsBlank);
    var b := Span(s[a..], IsRuleChar);
    var e := a + b + Span(s[a + b..], IsBlank);
    if bol && b >= 3 && (e == |s| || IsLineEnd(s[e])) then Some(Hit(e, "\U{23AF}\U{23AF}\U{23AF}")) else None
  }

  /** A doubled delimiter around one or more characters that are neither it nor a newline becomes single. */
  function DoubleAt(s: string, d: char): Option<Hit> {
    if !([d, d] <= s) then None
    else
      var n := Span(s[2..], c => c != d && c != '\n');
      if n >= 1 && [d, d] <= s[n + 2..] then Some(Hit(n + 4, [d] + s[2..n + 2] + [d])) else None
  }

  function StarsAt(s: string, bol: bool): Option<Hit> { DoubleAt(s, '*') }

  function ScoresAt(s: string, bol: bool): Option<Hit> { DoubleAt(s, '_') }

  predicate IsDelimiter(c: char) { c == '*' || c == '_' }

  predicate IsBracket(c: char) { c == '[' || c == ']' }

  function Strip(s: string, p: char -> bool): string {
    if s == "" then "" else (if p(s[0]) then "" else [s[0]]) + Strip(s[1..], p)
  }

  function Count(s: string, c: char): nat {
    if s == "" then 0 else (if s[0] == c then 1 else 0) + Count(s[1..], c)
  }

  function StripOddDelimiters(s: string): string {
    if Count(s, '*') % 2 != 0 || Count(s, '_') % 2 != 0 then Strip(s, IsDelimiter) else s
  }

  function StripUnevenBrackets(s: string): string {
    if Count(s, '[') != Count(s, ']') then Strip(s, IsBracket) else s
  }

  /** `s` starts with a NUL, CODE, one or more digits, and a NUL. */
  predicate PlaceholderAt(s: string) {
    && "\0CODE" <= s
    && var d := Span(s[5..], IsDigit);
    d >= 1 && d + 5 < |s| && s[d + 5] == NUL
  }

  /** Every placeholder becomes the span of its number. */
  function Restore(s: string, spans: seq<string>): string
    decreases |s|
  {
    if s == "" then ""
    else if PlaceholderAt(s) then
      var d := Span(s[5..], IsDigit);
      var k := NumeralValue(s[5..][..d]);
      (if k < |spans| then spans[k] else "undefined") + Restore(s[d + 6..], spans)
    else [s[0]] + Restore(s[1..], spans)
  }

  function Rewrite(text: string): string {
    var bulleted := ReplaceAll(text, true, BulletAt);
    var ruled := ReplaceAll(bulleted, true, RuleAt);
    var starred := ReplaceAll(ruled, true, StarsAt);
    var scored := ReplaceAll(starred, true, ScoresAt);
    StripUnevenBrackets(StripOddDelimiters(scored))
  }

  function Sanitize(input: string): string {
    var (tokens, spans) := Protect(input, 0);
    Restore(Rewrite(Glue(tokens)), spans)
  }

  lemma GlueCons(t: Token, tokens: seq<Token>)
    ensures Glue([t] + tokens) == TokenText(t) + Glue(tokens)
    ensures Refs([t] + tokens) == (if t.Ref? then [t.k] else []) + Refs(tokens)
    ensures Plain([t] + tokens) == (if t.Ch? then [t.c] else "") + Plain(tokens)
  {
    assert ([t] + tokens)[1..] == tokens;
  }

  /** `text` and `codeSegments` so far, with `rest` still to come, stand for the whole first pass over `input`. */
  ghost predicate Protecting(input: string, text: string, codeSegments: seq<string>, rest: string) {
    var (tokens, spans) := Protect(rest, |codeSegments|);
    text + Glue(tokens) == Glue(Protect(input, 0).0) && codeSegments + spans == Protect(input, 0).1
  }

  lemma ProtectingSpan(input: string, text: string, codeSegments: seq<string>, rest: string, len: nat)
    requires Protecting(input, text, codeSegments, rest) && rest != "" && CodeLength(rest) == Some(len)
    ensures Protecting(input, text + Placeholder(|codeSegments|), codeSegments + [rest[..len]], rest[len..])
  {
    hide CodeLength, Glue, Placeholder;
    var n := |codeSegments|;
    var (tokens, spans) := Protect(rest[len..], n + 1);
    GlueCons(Ref(n), tokens);
    Assoc(text, Placeholder(n), Glue(tokens));
    Assoc(codeSegments, [rest[..len]], spans);
  }

  /** The first pass, cutting out the code spans left to right. */
  method ProtectCode(input: string) returns (text: string, codeSegments: seq<string>)
    ensures (text, codeSegments) == (Glue(Protect(input, 0).0), Protect(input, 0).1)
  {
    text, codeSegments := "", [];
    var rest := input;
    assert Protecting(input, text, codeSegments, rest) by {
      hide CodeLength, Glue;
      assert "" + Glue(Protect(input, 0).0) == Glue(Protect(input, 0).0);
      assert [] + Protect(input, 0).1 == Protect(input, 0).1;
    }
    while rest != ""
      invariant Protecting(input, text, codeSegments, rest)
      decreases |rest|
    {
      hide *;
      var found := CodeLength(rest);
      if found.Some? {
        ProtectingSpan(input, text, codeSegments, rest, found.value);
        text := text + Placeholder(|codeSegments|);
        codeSegments := codeSegments + [rest[..found.value]];
        rest := rest[found.value..];
      } else {
        text := text + [rest[0]];
        rest := rest[1..];
      }
    }
    assert text + Glue([]) == text && codeSegments + [] == codeSegments;
  }

  method SanitizeTelegramLegacyMarkdown(input: string) returns (out: string)
    ensures out == Sanitize(input)
  {
    if input == "" {
      return input;
    }
    var text, codeSegments := ProtectCode(input);
    text := ReplaceAll(text, true, BulletAt);
    text := ReplaceAll(text, true, RuleAt);
    text := ReplaceAll(text, true, StarsAt);
    text := ReplaceAll(text, true, ScoresAt);
    var starCount, underCount := Count(text, '*'), Count(text, '_');
    if starCount % 2 != 0 || underCount % 2 != 0 {
      text := Strip(text, IsDelimiter);
    }
    var openBrackets, closeBrackets := Count(text, '['), Count(text, ']');
    if openBrackets != closeBrackets {
      text := Strip(text, IsBracket);
    }
    return Restore(text, codeSegments);
  }

  // ------------------------------------------------------------------------ edits

  /** The characters the passes may touch. */
  predicate Editable(c: char) {
    IsSpace(c) || c in "-+*_[]"
  }

  function Flatten(parts: seq<string>): string {
    if parts == [] then "" else parts[0] + Flatten(parts[1..])
  }

  /** Character by character, `script` rewrites `s`: only editable characters, and never to a NUL. */
  predicate Script(s: string, script: seq<string>) {
    && |script| == |s|
    && forall i | 0 <= i < |s| :: script[i] == [s[i]] || (Editable(s[i]) && Free(script[i], NUL))
  }

  ghost predicate Edited(s: string, t: string) {
    exists script :: Script(s, script) && Flatten(script) == t
  }

  lemma {:induction false} FlattenConcat(a: seq<string>, b: seq<string>)
    ensures Flatten(a + b) == Flatten(a) + Flatten(b)
  {
    assert Flatten([]) == "";
    hide *;
    if a == [] {
      assert a + b == b && "" + Flatten(b) == Flatten(b);
    } else {
      var x, t := a[0], a[1..];
      FlattenConcat(t, b);
      assert a == [x] + t && a + b == [x] + (t + b);
      Assoc(x, Flatten(t), Flatten(b));
    }
  }

  lemma EditedConcat(s: string, t: string, s': string, t': string)
    requires Edited(s, t) && Edited(s', t')
    ensures Edited(s + s', t + t')
  {
    var a :| Script(s, a) && Flatten(a) == t;
    var b :| Script(s', b) && Flatten(b) == t';
    FlattenConcat(a, b);
    assert Script(s + s', a + b);
  }

  lemma {:induction false} EditedSame(s: string)
    ensures Edited(s, s)
  {
    if s == "" {
      assert Script("", []) && Flatten([]) == "";
    } else {
      EditedSame(s[1..]);
      assert Script([s[0]], [[s[0]]]) && Flatten([[s[0]]]) == [s[0]];
      EditedConcat([s[0]], [s[0]], s[1..], s[1..]);
      assert s == [s[0]] + s[1..];
    }
  }

  lemma {:induction false} EditedAway(s: string)
    requires forall i | 0 <= i < |s| :: Editable(s[i])
    ensures Edited(s, "")
  {
    if s == "" {
      assert Script("", []) && Flatten([]) == "";
    } else {
      EditedAway(s[1..]);
      assert Script([s[0]], [""]) && Flatten([""]) == "";
      EditedConcat([s[0]], "", s[1..], "");
      assert s == [s[0]] + s[1..];
    }
  }

  /** A non-empty run of editable characters may become any NUL-free text. */
  lemma EditedTo(s: string, t: string)
    requires s != "" && Free(t, NUL)
    requires forall i | 0 <= i < |s| :: Editable(s[i])
    ensures Edited(s, t)
  {
    hide Editable;
    OneCharEdited(s[0], t);
    EditedAway(s[1..]);
    hide Edited;
    EditedConcat([s[0]], t, s[1..], "");
    assert s == [s[0]] + s[1..] && t + "" == t;
  }

  lemma OneCharEdited(c: char, t: string)
    requires Editable(c) && Free(t, NUL)
    ensures Edited([c], t)
  {
    hide Editable;
    assert [t] + [] == [t] && t + "" == t;
    assert Script([c], [t]) && Flatten([t]) == t;
  }

  lemma EditedHead(s: string, t: string)
    requires s != "" && Edited(s[1..], t)
    ensures Edited(s, [s[0]] + t)
  {
    EditedSame([s[0]]);
    EditedConcat([s[0]], [s[0]], s[1..], t);
    assert s == [s[0]] + s[1..];
  }

  /** A match that only edits. */
  ghost predicate EditingHit(s: string, hit: Option<Hit>) {
    hit.Some? && 0 < hit.value.len <= |s| ==> Edited(s[..hit.value.len], hit.value.out)
  }

  lemma {:induction false} ReplaceAllEdits(s: string, bol: bool, m: Matcher)
    requires forall s, bol :: EditingHit(s, m(s, bol))
    ensures Edited(s, ReplaceAll(s, bol, m))
    decreases |s|
  {
    hide IsLineEnd, Edited;
    if s == "" {
      EditedSame("");
    } else {
      var hit := m(s, bol);
      assert EditingHit(s, m(s, bol));
      if hit.Some? && 0 < hit.value.len <= |s| {
        var n := hit.value.len;
        ReplaceAllEdits(s[n..], IsLineEnd(s[n - 1]), m);
        EditedConcat(s[..n], hit.value.out, s[n..], ReplaceAll(s[n..], IsLineEnd(s[n - 1]), m));
        assert s == s[..n] + s[n..];
      } else {
        ReplaceAllEdits(s[1..], IsLineEnd(s[0]), m);
        EditedHead(s, ReplaceAll(s[1..], IsLineEnd(s[0]), m));
      }
    }
  }

  lemma BulletEdits(s: string, bol: bool)
    ensures EditingHit(s, BulletAt(s, bol))
  {
    hide IsSpace, Edited;
    var w := Span(s, IsSpace);
    if BulletAt(s, bol).Some? {
      var n := Span(s[w + 1..], IsSpace);
      var mark := s[w..w + 1 + n];
      assert forall i | 1 <= i < |mark| :: mark[i] == s[w + 1..][i - 1];
      EditedSame(s[..w]);
      EditedTo(mark, "\U{2022} ");
      EditedConcat(s[..w], s[..w], mark, "\U{2022} ");
      assert s[..w + 1 + n] == s[..w] + mark;
    }
  }

  lemma RuleRunIsEditable(x: string, y: string, z: string)
    requires forall i | 0 <= i < |x| :: IsBlank(x[i])
    requires forall i | 0 <= i < |y| :: IsRuleChar(y[i])
    requires forall i | 0 <= i < |z| :: IsBlank(z[i])
    ensures forall i | 0 <= i < |x + y + z| :: Editable((x + y + z)[i])
  {
  }

  lemma RuleEdits(s: string, bol: bool)
    ensures EditingHit(s, RuleAt(s, bol))
  {
    hide Edited, Editable, IsBlank, IsRuleChar, IsLineEnd, Span;
    var a := Span(s, IsBlank);
    var b := Span(s[a..], IsRuleChar);
    var c := Span(s[a + b..], IsBlank);
    if RuleAt(s, bol).Some? {
      var x, y, z := s[..a], s[a..][..b], s[a + b..][..c];
      assert s[..a] + s[a..a + b] + s[a + b..a + b + c] == s[..a + b + c];
      assert y == s[a..a + b] && z == s[a + b..a + b + c];
      RuleRunIsEditable(x, y, z);
      EditedTo(s[..a + b + c], "\U{23AF}\U{23AF}\U{23AF}");
    }
  }

  lemma DoubleEdits(s: string, d: char)
    requires d == '*' || d == '_'
    ensures EditingHit(s, DoubleAt(s, d))
  {
    hide Edited, IsSpace;
    if DoubleAt(s, d).Some? {
      var n := Span(s[2..], c => c != d && c != '\n');
      var inner := s[2..n + 2];
      EditedTo([d, d], [d]);
      EditedSame(inner);
      EditedConcat([d, d], [d], inner, inner);
      EditedConcat([d, d] + inner, [d] + inner, [d, d], [d]);
      assert s[n + 2..][..2] == [d, d];
      assert s[..n + 4] == [d, d] + inner + [d, d];
    }
  }

  lemma {:induction false} StripEdit(s: string, p: char -> bool)
    requires forall c :: p(c) ==> Editable(c)
    ensures Edited(s, Strip(s, p))
  {
    if s == "" {
      EditedSame("");
    } else {
      StripEdit(s[1..], p);
      if p(s[0]) {
        EditedAway([s[0]]);
        EditedConcat([s[0]], "", s[1..], Strip(s[1..], p));
        assert s == [s[0]] + s[1..];
      } else {
        EditedHead(s, Strip(s[1..], p));
      }
    }
  }

  // ------------------------------------------------------- edits spare placeholders

  predicate NulFree(tokens: seq<Token>) {
    forall t | t in tokens :: t.Ch? ==> t.c != NUL
  }

  function Chars(s: string): seq<Token> {
    if s == "" then [] else [Ch(s[0])] + Chars(s[1..])
  }

  lemma {:induction false} GlueChars(s: string, tokens: seq<Token>)
    ensures Glue(Chars(s) + tokens) == s + Glue(tokens)
    ensures Refs(Chars(s) + tokens) == Refs(tokens)
  {
    assert Chars("") == [];
    hide *;
    if s == "" {
      assert Chars(s) + tokens == tokens && "" + Glue(tokens) == Glue(tokens);
    } else {
      var c, t := s[0], s[1..];
      GlueChars(t, tokens);
      assert s == [c] + t;
      Assoc([Ch(c)], Chars(t), tokens);
      GlueCons(Ch(c), Chars(t) + tokens);
      Assoc([c], t, Glue(tokens));
      assert [] + Refs(tokens) == Refs(tokens);
    }
  }

  lemma {:induction false} CharsAreNulFree(s: string)
    requires Free(s, NUL)
    ensures NulFree(Chars(s))
  {
    if s != "" {
      CharsAreNulFree(s[1..]);
    }
  }

  lemma {:induction false} UneditableCopies(s: string, script: seq<string>)
    requires Script(s, script) && forall i | 0 <= i < |s| :: !Editable(s[i])
    ensures Flatten(script) == s
  {
    if s != "" {
      UneditableCopies(s[1..], script[1..]);
    }
  }

  lemma DigitIsUneditable(c: char)
    ensures IsDigit(c) ==> !Editable(c)
  {
  }

  lemma FrameIsUneditable()
    ensures forall c | c in "\0CODE" :: !Editable(c)
  {
  }

  lemma PlaceholderIsUneditable(k: nat)
    ensures forall i | 0 <= i < |Placeholder(k)| :: !Editable(Placeholder(k)[i])
  {
    hide Editable, Numeral, NumeralValue, IsDigit;
    NumeralRoundTrip(k);
    FrameIsUneditable();
    var n, p := Numeral(k), Placeholder(k);
    forall i | 0 <= i < |p|
      ensures !Editable(p[i])
    {
      if 5 <= i < 5 + |n| {
        assert p[i] == n[i - 5];
        DigitIsUneditable(n[i - 5]);
      } else {
        assert p[i] in "\0CODE";
      }
    }
  }

  lemma SplitScript(head: string, tail: string, script: seq<string>)
    requires Script(head + tail, script)
    ensures |head| <= |script|
    ensures Script(head, script[..|head|]) && Script(tail, script[|head|..])
    ensures Flatten(script) == Flatten(script[..|head|]) + Flatten(script[|head|..])
  {
    hide Flatten, Editable, Free;
    var n, s := |head|, head + tail;
    assert s[0..n] == head && s[n..|s|] == tail;
    assert script[0..n] == script[..n] && script[n..|s|] == script[n..];
    hide Script;
    FlattenConcat(script[..n], script[n..]);
    assert script == script[..n] + script[n..];
  }

  /** Whatever an edit does to the glued text, the references stay, in order. */
  lemma {:induction false} EditKeepsRefs(tokens: seq<Token>, script: seq<string>) returns (tokens': seq<Token>)
    requires Script(Glue(tokens), script)
    ensures Glue(tokens') == Flatten(script) && Refs(tokens') == Refs(tokens)
    ensures NulFree(tokens) ==> NulFree(tokens')
  {
    hide Editable, Placeholder;
    if tokens == [] {
      return [];
    }
    var head := TokenText(tokens[0]);
    SplitScript(head, Glue(tokens[1..]), script);
    var mine, theirs := script[..|head|], script[|head|..];
    var rest := EditKeepsRefs(tokens[1..], theirs);
    match tokens[0]
    case Ch(c) =>
      assert mine[1..] == [] && Flatten(mine) == mine[0] + "" == mine[0];
      GlueChars(mine[0], rest);
      if NulFree(tokens) {
        CharsAreNulFree(mine[0]);
      }
      tokens' := Chars(mine[0]) + rest;
    case Ref(k) =>
      PlaceholderIsUneditable(k);
      UneditableCopies(head, mine);
      tokens' := [Ref(k)] + rest;
      assert tokens'[0] == Ref(k) && tokens'[1..] == rest;
  }

  /** One pass over glued text yields glued text with the same references. */
  lemma PassKeepsRefs(tokens: seq<Token>, t: string) returns (tokens': seq<Token>)
    requires Edited(Glue(tokens), t)
    ensures Glue(tokens') == t && Refs(tokens') == Refs(tokens)
    ensures NulFree(tokens) ==> NulFree(tokens')
  {
    var script :| Script(Glue(tokens), script) && Flatten(script) == t;
    tokens' := EditKeepsRefs(tokens, script);
  }

  // ---------------------------------------------------------------- balance and order

  lemma {:induction false} CountConcat(a: string, b: string, c: char)
    ensures Count(a + b, c) == Count(a, c) + Count(b, c)
  {
    if a == "" {
      assert a + b == b;
    } else {
      CountConcat(a[1..], b, c);
      assert (a + b)[1..] == a[1..] + b;
    }
  }

  lemma {:induction false} CountAbsent(s: string, c: char)
    requires Free(s, c)
    ensures Count(s, c) == 0
  {
    if s != "" {
      CountAbsent(s[1..], c);
    }
  }

  lemma {:induction false} CountStrip(s: string, p: char -> bool, c: char)
    ensures Count(Strip(s, p), c) == if p(c) then 0 else Count(s, c)
  {
    if s != "" {
      CountStrip(s[1..], p, c);
      if p(s[0]) {
        assert "" + Strip(s[1..], p) == Strip(s[1..], p);
      } else {
        assert ([s[0]] + Strip(s[1..], p))[1..] == Strip(s[1..], p);
      }
    }
  }

  /** The placeholders add no delimiter and no bracket. */
  lemma {:induction false} CountGlue(tokens: seq<Token>, c: char)
    requires IsDelimiter(c) || IsBracket(c)
    ensures Count(Glue(tokens), c) == Count(Plain(tokens), c)
  {
    if tokens != [] {
      CountGlue(tokens[1..], c);
      CountConcat(TokenText(tokens[0]), Glue(tokens[1..]), c);
      match tokens[0]
      case Ch(x) => CountConcat([x], Plain(tokens[1..]), c);
      case Ref(k) =>
        PlaceholderIsUneditable(k);
        CountAbsent(Placeholder(k), c);
        assert "" + Plain(tokens[1..]) == Plain(tokens[1..]);
    }
  }

  predicate Balanced(s: string) {
    Count(s, '*') % 2 == 0 && Count(s, '_') % 2 == 0 && Count(s, '[') == Count(s, ']')
  }

  lemma RewriteBalances(text: string)
    ensures Balanced(Rewrite(text))
  {
    hide ReplaceAll;
    var ruled := ReplaceAll(ReplaceAll(text, true, BulletAt), true, RuleAt);
    var scored := ReplaceAll(ReplaceAll(ruled, true, StarsAt), true, ScoresAt);
    var even := StripOddDelimiters(scored);
    CountStrip(scored, IsDelimiter, '*');
    CountStrip(scored, IsDelimiter, '_');
    CountStrip(even, IsBracket, '*');
    CountStrip(even, IsBracket, '_');
    CountStrip(even, IsBracket, '[');
    CountStrip(even, IsBracket, ']');
  }

  lemma RewriteKeepsRefs(tokens: seq<Token>) returns (tokens': seq<Token>)
    ensures Glue(tokens') == Rewrite(Glue(tokens)) && Refs(tokens') == Refs(tokens)
    ensures NulFree(tokens) ==> NulFree(tokens')
  {
    hide Edited, EditingHit, NulFree;
    forall s, bol
      ensures EditingHit(s, BulletAt(s, bol)) && EditingHit(s, RuleAt(s, bol))
      ensures EditingHit(s, StarsAt(s, bol)) && EditingHit(s, ScoresAt(s, bol))
    {
      BulletEdits(s, bol);
      RuleEdits(s, bol);
      DoubleEdits(s, '*');
      DoubleEdits(s, '_');
    }
    var t := Glue(tokens);
    ReplaceAllEdits(t, true, BulletAt);
    tokens' := PassKeepsRefs(tokens, ReplaceAll(t, true, BulletAt));
    t := Glue(tokens');
    ReplaceAllEdits(t, true, RuleAt);
    tokens' := PassKeepsRefs(tokens', ReplaceAll(t, true, RuleAt));
    t := Glue(tokens');
    ReplaceAllEdits(t, true, StarsAt);
    tokens' := PassKeepsRefs(tokens', ReplaceAll(t, true, StarsAt));
    t := Glue(tokens');
    ReplaceAllEdits(t, true, ScoresAt);
    tokens' := PassKeepsRefs(tokens', ReplaceAll(t, true, ScoresAt));
    t := Glue(tokens');
    StripEdit(t, IsDelimiter);
    EditedSame(t);
    tokens' := PassKeepsRefs(tokens', StripOddDelimiters(t));
    t := Glue(tokens');
    StripEdit(t, IsBracket);
    EditedSame(t);
    tokens' := PassKeepsRefs(tokens', StripUnevenBrackets(t));
  }

  lemma {:induction false} SpanOf(a: string, p: char -> bool, b: string)
    requires forall i | 0 <= i < |a| :: p(a[i])
    requires b != "" && !p(b[0])
    ensures Span(a + b, p) == |a|
  {
    if a == "" {
      assert a + b == b;
    } else {
      SpanOf(a[1..], p, b);
      assert (a + b)[1..] == a[1..] + b;
    }
  }

  /** A placeholder's digits, followed by anything, as the pattern sees them. */
  lemma PlaceholderParts(k: nat, rest: string)
    ensures var s := Placeholder(k) + rest;
            && "\0CODE" <= s && Span(s[5..], IsDigit) == |Numeral(k)| >= 1
            && |Numeral(k)| + 5 < |s| && s[|Numeral(k)| + 5] == NUL
            && s[5..][..|Numeral(k)|] == Numeral(k) && s[|Numeral(k)| + 6..] == rest
  {
    hide Numeral, NumeralValue, Span;
    NumeralRoundTrip(k);
    var n, tail := Numeral(k), "\0" + rest;
    var s := Placeholder(k) + rest;
    assert s == "\0CODE" + (n + tail);
    assert s[5..] == n + tail;
    SpanOf(n, IsDigit, tail);
  }

  lemma RestorePlaceholder(k: nat, rest: string, spans: seq<string>)
    ensures Restore(Placeholder(k) + rest, spans)
         == (if k < |spans| then spans[k] else "undefined") + Restore(rest, spans)
  {
    hide Numeral, NumeralValue, Span, Placeholder;
    PlaceholderParts(k, rest);
    NumeralRoundTrip(k);
  }

  /** No character of the text starts something that reads like a placeholder. */
  predicate NoFakes(tokens: seq<Token>) {
    tokens == [] || ((tokens[0].Ch? ==> !PlaceholderAt(Glue(tokens))) && NoFakes(tokens[1..]))
  }

  predicate Ticked(spans: seq<string>) {
    forall i | 0 <= i < |spans| :: spans[i] != "" && spans[i][0] == '`'
  }

  lemma Cancel(x: string, a: string, b: string)
    ensures x + a == x + b <==> a == b
  {
    assert (x + a)[|x|..] == a && (x + b)[|x|..] == b;
  }

  lemma FakeIsLost(s: string, spans: seq<string>, t: string)
    requires Ticked(spans) && PlaceholderAt(s) && t != "" && t[0] == NUL
    ensures Restore(s, spans) != t
  {
    hide NumeralValue, Span;
  }

  /** Putting the spans back undoes the gluing exactly when the text fakes no placeholder. */
  lemma {:induction false} RestoreGlue(tokens: seq<Token>, spans: seq<string>)
    requires Ticked(spans)
    ensures Restore(Glue(tokens), spans) == Expand(tokens, spans) <==> NoFakes(tokens)
  {
    hide Placeholder, PlaceholderAt, Ticked;
    if tokens != [] {
      var s, rest, tail := Glue(tokens), Glue(tokens[1..]), Expand(tokens[1..], spans);
      RestoreGlue(tokens[1..], spans);
      match tokens[0]
      case Ch(c) =>
        assert s[0] == c && s[1..] == rest;
        Cancel([c], Restore(rest, spans), tail);
        if PlaceholderAt(s) {
          FakeStartsWithNul(s);
          FakeIsLost(s, spans, [c] + tail);
        }
      case Ref(k) =>
        RestorePlaceholder(k, rest, spans);
        Cancel(if k < |spans| then spans[k] else "undefined", Restore(rest, spans), tail);
    }
  }

  lemma FakeStartsWithNul(s: string)
    requires PlaceholderAt(s)
    ensures s[0] == NUL
  {
    assert "\0CODE"[0] == NUL;
  }

  lemma {:induction false} NulFreeHasNoFakes(tokens: seq<Token>)
    requires NulFree(tokens)
    ensures NoFakes(tokens)
  {
    hide PlaceholderAt;
    if tokens != [] {
      NulFreeHasNoFakes(tokens[1..]);
      if tokens[0].Ch? && PlaceholderAt(Glue(tokens)) {
        FakeStartsWithNul(Glue(tokens));
      }
    }
  }

  lemma ExpandCons(t: Token, tokens: seq<Token>, spans: seq<string>)
    ensures Expand([t] + tokens, spans) == Expand([t], spans) + Expand(tokens, spans)
  {
    assert ([t] + tokens)[1..] == tokens && [t][1..] == [];
  }

  lemma ExpandOne(t: Token, spans: seq<string>)
    requires t.Ref? ==> t.k < |spans|
    ensures Expand([t], spans) == if t.Ch? then [t.c] else spans[t.k]
  {
    assert [t][1..] == [];
  }

  /** Cutting out the spans loses nothing: they stand in the input where their references stand. */
  lemma {:induction false} ProtectExpands(s: string, before: seq<string>)
    ensures var (tokens, spans) := Protect(s, |before|); Expand(tokens, before + spans) == s
    decreases |s|
  {
    hide CodeLength, Expand;
    if s == "" {
      ExpandNil(before + []);
    } else {
      match CodeLength(s)
      case Some(len) =>
        var (tokens', spans') := Protect(s[len..], |before| + 1);
        ProtectExpands(s[len..], before + [s[..len]]);
        Assoc(before, [s[..len]], spans');
        ExpandCons(Ref(|before|), tokens', before + ([s[..len]] + spans'));
        ExpandOne(Ref(|before|), before + ([s[..len]] + spans'));
        assert s == s[..len] + s[len..];
      case None =>
        var (tokens', spans') := Protect(s[1..], |before|);
        ProtectExpands(s[1..], before);
        ExpandCons(Ch(s[0]), tokens', before + spans');
        ExpandOne(Ch(s[0]), before + spans');
        assert s == [s[0]] + s[1..];
    }
  }

  lemma ExpandNil(spans: seq<string>)
    ensures Expand([], spans) == ""
  {
  }

  /** References are numbered in order, and text without NUL has none in its plain part. */
  lemma {:induction false} ProtectNumbers(s: string, n: nat)
    ensures var (tokens, spans) := Protect(s, n);
            && Refs(tokens) == Numbers(n, |spans|)
            && (Free(s, NUL) ==> NulFree(tokens))
    decreases |s|
  {
    hide CodeLength;
    if s != "" {
      match CodeLength(s)
      case Some(len) =>
        ProtectNumbers(s[len..], n + 1);
        GlueCons(Ref(n), Protect(s[len..], n + 1).0);
      case None =>
        ProtectNumbers(s[1..], n);
        GlueCons(Ch(s[0]), Protect(s[1..], n).0);
    }
  }

  /** Token `i` of the cut text is what the input has at its place: a span, or a character that starts none. */
  ghost predicate CutRight(s: string, tokens: seq<Token>, spans: seq<string>, i: nat)
    requires i < |tokens|
  {
    var p := |Expand(tokens[..i], spans)|;
    && p < |s|
    && match tokens[i]
       case Ch(c) => c == s[p] && forall n: nat :: !CodeAt(s[p..], n)
       case Ref(k) =>
         && k < |spans| && |spans[k]| <= |s| - p
         && CodeAt(s[p..], |spans[k]|) && spans[k] == s[p..p + |spans[k]|]
  }

  /** Code is cut out from left to right, all of it, and nothing else. */
  lemma {:induction false} ProtectCutsRight(s: string, before: seq<string>, i: nat)
    requires i < |Protect(s, |before|).0|
    ensures CutRight(s, Protect(s, |before|).0, before + Protect(s, |before|).1, i)
    decreases |s|
  {
    hide CodeLength, CodeAt;
    var (tokens, spans) := Protect(s, |before|);
    var len := if CodeLength(s).Some? then CodeLength(s).value else 1;
    var head, rest := s[..len], s[len..];
    forall n: nat
      ensures CodeLength(s) == Some(n) <==> CodeAt(s, n)
    {
      CodeLengthExactly(s, n);
    }
    assert s[0..] == s;
    if i == 0 {
      ExpandNil(before + spans);
      assert tokens[..0] == [];
    } else {
      var before' := if CodeLength(s).Some? then before + [head] else before;
      var (tokens', spans') := Protect(rest, |before'|);
      assert tokens == [tokens[0]] + tokens';
      assert before + spans == before' + spans';
      ProtectCutsRight(rest, before', i - 1);
      assert tokens[..i] == [tokens[0]] + tokens'[..i - 1];
      ExpandCons(tokens[0], tokens'[..i - 1], before + spans);
      ExpandOne(tokens[0], before + spans);
      var p := |Expand(tokens'[..i - 1], before + spans)|;
      assert rest[p..] == s[len + p..];
      CutShifts(s, len, tokens, tokens', before + spans, i);
    }
  }

  lemma CutShifts(s: string, len: nat, tokens: seq<Token>, tokens': seq<Token>, spans: seq<string>, i: nat)
    requires 0 < i < |tokens| && |tokens'| == |tokens| - 1 && tokens[i] == tokens'[i - 1] && len <= |s|
    requires |Expand(tokens[..i], spans)| == len + |Expand(tokens'[..i - 1], spans)|
    requires CutRight(s[len..], tokens', spans, i - 1)
    ensures CutRight(s, tokens, spans, i)
  {
    hide CodeAt, Expand;
    var p := |Expand(tokens'[..i - 1], spans)|;
    assert s[len..][p..] == s[len + p..];
    if tokens[i].Ref? && tokens[i].k < |spans| {
      var n := |spans[tokens[i].k]|;
      assert p + n <= |s| - len ==> s[len..][p..p + n] == s[len + p..len + p + n];
    }
  }

  function Numbers(from: nat, n: nat): (r: seq<nat>)
    ensures |r| == n && forall i | 0 <= i < n :: r[i] == from + i
    decreases n
  {
    if n == 0 then [] else [from] + Numbers(from + 1, n - 1)
  }

  lemma {:induction false} SpansAreTicked(s: string, n: nat)
    ensures Ticked(Protect(s, n).1)
    decreases |s|
  {
    if s != "" {
      match CodeLength(s)
      case Some(len) => SpansAreTicked(s[len..], n + 1);
      case None => SpansAreTicked(s[1..], n);
    }
  }

  /** The input is text with code spans in it, numbered in order. */
  lemma CodeStandsInText(input: string)
    ensures Expand(Protect(input, 0).0, Protect(input, 0).1) == input
    ensures Refs(Protect(input, 0).0) == Numbers(0, |Protect(input, 0).1|)
  {
    hide Protect, Expand;
    ProtectExpands(input, []);
    ProtectNumbers(input, 0);
    assert [] + Protect(input, 0).1 == Protect(input, 0).1;
  }

  /**
   The passes make `after` of `before`: the references keep their order, and the text
   has an even number of '*', an even number of '_' and as many '[' as ']'.
   */
  predicate Repaired(before: seq<Token>, after: seq<Token>) {
    Glue(after) == Rewrite(Glue(before)) && Refs(after) == Refs(before) && Balanced(Plain(after))
  }

  lemma TextIsRepaired(before: seq<Token>) returns (after: seq<Token>)
    ensures Repaired(before, after) && (NulFree(before) ==> NulFree(after))
  {
    hide Rewrite, NulFree, Balanced;
    after := RewriteKeepsRefs(before);
    RewriteBalances(Glue(before));
    GlueBalances(after);
  }

  lemma GlueBalances(tokens: seq<Token>)
    ensures Balanced(Glue(tokens)) <==> Balanced(Plain(tokens))
  {
    CountGlue(tokens, '*');
    CountGlue(tokens, '_');
    CountGlue(tokens, '[');
    CountGlue(tokens, ']');
  }

  /**
   For every input the output is the repaired text with the same spans in it exactly when that text
   fakes no placeholder.
   */
  lemma SanitizeExactly(input: string) returns (after: seq<Token>)
    ensures Repaired(Protect(input, 0).0, after)
    ensures Sanitize(input) == Expand(after, Protect(input, 0).1) <==> NoFakes(after)
  {
    hide Repaired, Protect, NoFakes, Ticked, NulFree, Rewrite;
    after := TextIsRepaired(Protect(input, 0).0);
    GluedIsRewritten(Protect(input, 0).0, after);
    SpansAreTicked(input, 0);
    RestoreGlue(after, Protect(input, 0).1);
  }

  lemma GluedIsRewritten(before: seq<Token>, after: seq<Token>)
    requires Repaired(before, after)
    ensures Glue(after) == Rewrite(Glue(before))
  {
  }

  /**
   With no NUL outside the code spans, every span comes through unchanged and in
   order, and the text around them is balanced.
   */
  lemma SanitizeKeepsCodeAndBalances(input: string) returns (after: seq<Token>)
    requires NulFree(Protect(input, 0).0)
    ensures Repaired(Protect(input, 0).0, after)
    ensures Sanitize(input) == Expand(after, Protect(input, 0).1)
  {
    hide Repaired, Protect, NoFakes, Ticked, NulFree, Rewrite;
    after := TextIsRepaired(Protect(input, 0).0);
    GluedIsRewritten(Protect(input, 0).0, after);
    SpansAreTicked(input, 0);
    NulFreeHasNoFakes(after);
    RestoreGlue(after, Protect(input, 0).1);
  }

  lemma CodeStartsWithTick(s: string)
    requires s != "" && s[0] != '`'
    ensures CodeLength(s) == None
  {
    FenceIsPrefix(s);
  }

  lemma {:induction false} ProtectSkipsText(a: string, rest: string, n: nat)
    requires Free(a, '`')
    ensures var (tokens, spans) := Protect(rest, n); Protect(a + rest, n) == (Chars(a) + tokens, spans)
  {
    if a == "" {
      assert a + rest == rest && Chars(a) + Protect(rest, n).0 == Protect(rest, n).0;
    } else {
      assert (a + rest)[1..] == a[1..] + rest && (a + rest)[0] == a[0] != '`';
      assert CodeLength(a + rest) == None by { CodeStartsWithTick(a + rest); }
      ProtectSkipsText(a[1..], rest, n);
      Assoc([Ch(a[0])], Chars(a[1..]), Protect(rest, n).0);
    }
  }

  /** The first code span after text without a backtick is the one that the pattern matches there. */
  lemma FirstSpan(a: string, code: string, b: string)
    requires Free(a, '`') && code != "" && CodeAt(code + b, |code|)
    ensures var (tokens, spans) := Protect(b, 1);
            Protect(a + (code + b), 0) == (Chars(a) + ([Ref(0)] + tokens), [code] + spans)
  {
    CodeLengthExactly(code + b, |code|);
    assert (code + b)[..|code|] == code && (code + b)[|code|..] == b;
    hide CodeLength;
    ProtectSkipsText(a, code + b, 0);
  }

  /** `x` between backticks, not empty and on one line, is inline code whatever follows. */
  lemma InlineIsCode(x: string, b: string)
    requires x != "" && Free(x, '`') && Free(x, '\n')
    ensures CodeAt(("`" + x + "`") + b, |x| + 2)
  {
    var s := ("`" + x + "`") + b;
    assert s[1] == x[0];
    assert forall k | 1 <= k < |x| + 1 :: s[k] == x[k - 1];
    assert s[|x| + 1] == '`';
  }

  /** `x` between fences is a fenced block if no fence ends it sooner, whatever follows. */
  lemma FenceIsCode(x: string, b: string)
    requires forall k | 0 <= k < |x| :: !FenceIsAt(x + "```", k)
    ensures CodeAt(("```" + x + "```") + b, |x| + 6)
  {
    var s := ("```" + x + "```") + b;
    assert FenceIsAt(s, 0) && FenceIsAt(s, |x| + 3);
    assert forall k | 0 <= k < |x| + 3 :: s[k + 3] == (x + "```")[k];
    forall k | 3 <= k < |x| + 3
      ensures !FenceIsAt(s, k)
    {
      assert !FenceIsAt(x + "```", k - 3);
    }
  }

  lemma {:induction false} ExpandAroundFirst(tokens: seq<Token>, spans: seq<string>) returns (u: string, v: string)
    requires spans != [] && Refs(tokens) != [] && Refs(tokens)[0] == 0
    ensures Expand(tokens, spans) == u + spans[0] + v
  {
    var tail := Expand(tokens[1..], spans);
    if tokens[0].Ref? {
      u, v := "", tail;
      assert "" + spans[0] == spans[0];
    } else {
      var c := tokens[0].c;
      assert Expand(tokens, spans) == [c] + tail && Refs(tokens) == Refs(tokens[1..]);
      hide Expand, Refs;
      u, v := ExpandAroundFirst(tokens[1..], spans);
      assert [c] + (u + spans[0] + v) == ([c] + u) + spans[0] + v;
      u := [c] + u;
    }
  }

  /** In terms of the input alone: code after any text without a backtick goes out as it came in. */
  lemma CodeGoesThrough(a: string, code: string, b: string) returns (u: string, v: string)
    requires Free(a, '`') && code != "" && CodeAt(code + b, |code|) && Free(a, NUL) && Free(b, NUL)
    ensures Sanitize(a + (code + b)) == u + code + v
  {
    hide Sanitize, Protect, Expand, CodeAt, Repaired;
    var input := a + (code + b);
    FirstSpan(a, code, b);
    ProtectNumbers(b, 1);
    CharsAreNulFree(a);
    GlueChars(a, [Ref(0)] + Protect(b, 1).0);
    GlueCons(Ref(0), Protect(b, 1).0);
    var after := SanitizeKeepsCodeAndBalances(input);
    RepairedRefs(Protect(input, 0).0, after);
    u, v := ExpandAroundFirst(after, Protect(input, 0).1);
  }

  lemma RepairedRefs(before: seq<Token>, after: seq<Token>)
    requires Repaired(before, after)
    ensures Refs(after) == Refs(before)
  {
  }

  /** So `x` between backticks comes through unchanged. */
  lemma InlineCodeGoesThrough(a: string, x: string, b: string) returns (u: string, v: string)
    requires x != "" && Free(a, '`') && Free(x, '`') && Free(x, '\n') && Free(a, NUL) && Free(b, NUL)
    ensures Sanitize(a + ("`" + x + "`" + b)) == u + ("`" + x + "`") + v
  {
    InlineIsCode(x, b);
    u, v := CodeGoesThrough(a, "`" + x + "`", b);
  }

  /** And so does a fenced block. */
  lemma FencedCodeGoesThrough(a: string, x: string, b: string) returns (u: string, v: string)
    requires Free(a, '`') && (forall k | 0 <= k < |x| :: !FenceIsAt(x + "```", k)) && Free(a, NUL) && Free(b, NUL)
    ensures Sanitize(a + ("```" + x + "```" + b)) == u + ("```" + x + "```") + v
  {
    FenceIsCode(x, b);
    u, v := CodeGoesThrough(a, "```" + x + "```", b);
  }

  lemma {:induction false} NoCodeToProtect(s: string, n: nat)
    requires Free(s, '`')
    ensures Protect(s, n) == (Chars(s), [])
  {
    if s != "" {
      NoCodeToProtect(s[1..], n);
    }
  }

  lemma {:induction false} MissingSpan(tokens: seq<Token>, k: nat) returns (a: string, b: string)
    requires Refs(tokens) == [k]
    ensures Expand(tokens, []) == a + "undefined" + b
  {
    if tokens[0].Ref? {
      a, b := "", Expand(tokens[1..], []);
    } else {
      assert Refs(tokens) == [] + Refs(tokens[1..]);
      a, b := MissingSpan(tokens[1..], k);
      a := [tokens[0].c] + a;
      assert Expand(tokens, []) == a + "undefined" + b;
    }
  }

  /** Text with a NUL in it can pass for a placeholder, whatever its number, and is then lost to "undefined". */
  lemma NulTextIsLost(k: nat) returns (a: string, b: string)
    ensures Sanitize(Placeholder(k)) == a + "undefined" + b
  {
    hide Rewrite, Protect, Restore, Placeholder;
    var input := Placeholder(k);
    assert Free(input, '`') by { PlaceholderHasNoTick(k); }
    NoCodeToProtect(input, 0);
    GlueChars(input, []);
    assert Chars(input) + [] == Chars(input) && input + Glue([]) == input;
    assert Glue([Ref(k)]) == input by { assert input + "" == input; }
    assert NulFree([Ref(k)]) && Refs([Ref(k)]) == [k];
    var tokens' := RewriteKeepsRefs([Ref(k)]);
    NulFreeHasNoFakes(tokens');
    RestoreGlue(tokens', []);
    a, b := MissingSpan(tokens', k);
  }

  lemma PlaceholderHasNoTick(k: nat)
    ensures Free(Placeholder(k), '`')
  {
    NumeralRoundTrip(k);
    var n := Numeral(k);
    assert forall i | 0 <= i < |n| :: IsDigit(n[i]);
  }

  // --------------------------------------------------------------------- plain text

  /** No character that a rewriting pass looks for. */
  predicate FormatFree(s: string) {
    forall i | 0 <= i < |s| :: s[i] !in "-+*_[]"
  }

  lemma {:induction false} NothingToReplace(s: string, bol: bool, m: Matcher)
    requires forall k, b | 0 <= k < |s| :: m(s[k..], b) == None
    ensures ReplaceAll(s, bol, m) == s
    decreases |s|
  {
    if s != "" {
      assert s[0..] == s;
      assert forall k | 0 <= k < |s| - 1 :: s[1..][k..] == s[k + 1..];
      NothingToReplace(s[1..], IsLineEnd(s[0]), m);
    }
  }

  lemma PlainHasNoHit(s: string, bol: bool)
    requires s != "" && FormatFree(s)
    ensures BulletAt(s, bol) == None && RuleAt(s, bol) == None && StarsAt(s, bol) == None && ScoresAt(s, bol) == None
  {
    var a := Span(s, IsBlank);
    assert s[a..] == "" || !IsRuleChar(s[a..][0]);
  }

  lemma NothingToRewrite(s: string)
    requires FormatFree(s)
    ensures Rewrite(s) == s
  {
    hide ReplaceAll, Count, BulletAt, RuleAt, StarsAt, ScoresAt, FormatFree;
    FormatFreeIsFree(s);
    forall k, b | 0 <= k < |s|
      ensures BulletAt(s[k..], b) == None && RuleAt(s[k..], b) == None
      ensures StarsAt(s[k..], b) == None && ScoresAt(s[k..], b) == None
    {
      FormatFreeSuffix(s, k);
      PlainHasNoHit(s[k..], b);
    }
    NothingToReplace(s, true, BulletAt);
    NothingToReplace(s, true, RuleAt);
    NothingToReplace(s, true, StarsAt);
    NothingToReplace(s, true, ScoresAt);
    CountAbsent(s, '*');
    CountAbsent(s, '_');
    CountAbsent(s, '[');
    CountAbsent(s, ']');
  }

  lemma FormatFreeIsFree(s: string)
    requires FormatFree(s)
    ensures Free(s, '*') && Free(s, '_') && Free(s, '[') && Free(s, ']')
  {
  }

  lemma FormatFreeSuffix(s: string, k: nat)
    requires FormatFree(s) && k <= |s|
    ensures FormatFree(s[k..])
  {
  }

  lemma FormatFreeConcat(a: string, b: string)
    ensures FormatFree(a + b) <==> FormatFree(a) && FormatFree(b)
  {
    assert forall i | 0 <= i < |a| :: (a + b)[i] == a[i];
    assert forall i | 0 <= i < |b| :: (a + b)[|a| + i] == b[i];
  }

  lemma PlaceholderIsFormatFree(k: nat)
    ensures FormatFree(Placeholder(k))
  {
    PlaceholderIsUneditable(k);
    var p := Placeholder(k);
    forall i | 0 <= i < |p|
      ensures p[i] !in "-+*_[]"
    {
      assert !Editable(p[i]);
    }
  }

  lemma {:induction false} GlueIsFormatFree(tokens: seq<Token>)
    requires FormatFree(Plain(tokens))
    ensures FormatFree(Glue(tokens))
  {
    hide FormatFree, Placeholder;
    if tokens == [] {
      assert FormatFree("") by { NoCharacters(); }
    } else {
      var first := if tokens[0].Ch? then [tokens[0].c] else "";
      FormatFreeConcat(first, Plain(tokens[1..]));
      GlueIsFormatFree(tokens[1..]);
      if tokens[0].Ref? {
        PlaceholderIsFormatFree(tokens[0].k);
      }
      FormatFreeConcat(TokenText(tokens[0]), Glue(tokens[1..]));
    }
  }

  lemma NoCharacters()
    ensures FormatFree("")
  {
  }

  /**
   An input whose text outside the code spans has nothing to format goes out as it
   came in exactly when that text fakes no placeholder.
   */
  lemma UntouchedExactlyWhen(input: string)
    requires FormatFree(Plain(Protect(input, 0).0))
    ensures Sanitize(input) == input <==> NoFakes(Protect(input, 0).0)
  {
    hide Rewrite, Protect, NoFakes, Ticked, FormatFree, Restore, Expand, Glue;
    var (tokens, spans) := Protect(input, 0);
    ProtectExpands(input, []);
    assert [] + spans == spans;
    SpansAreTicked(input, 0);
    GlueIsFormatFree(tokens);
    NothingToRewrite(Glue(tokens));
    RestoreGlue(tokens, spans);
  }

  /** For text without code and formatting: exactly when nowhere in it a placeholder could start. */
  lemma PlainTextUntouchedExactlyWhen(s: string)
    requires FormatFree(s) && Free(s, '`')
    ensures Sanitize(s) == s <==> forall k | 0 <= k < |s| :: !PlaceholderAt(s[k..])
  {
    hide Rewrite, FormatFree, PlaceholderAt, Sanitize;
    NoCodeToProtect(s, 0);
    PlainOfChars(s);
    UntouchedExactlyWhen(s);
    FakesInChars(s);
  }

  lemma {:induction false} PlainOfChars(s: string)
    ensures Plain(Chars(s)) == s && Glue(Chars(s)) == s
  {
    GlueChars(s, []);
    assert Chars(s) + [] == Chars(s) && s + Glue([]) == s;
    if s != "" {
      PlainOfChars(s[1..]);
      GlueCons(Ch(s[0]), Chars(s[1..]));
    }
  }

  lemma {:induction false} FakesInChars(s: string)
    ensures NoFakes(Chars(s)) <==> forall k | 0 <= k < |s| :: !PlaceholderAt(s[k..])
  {
    hide PlaceholderAt;
    PlainOfChars(s);
    if s != "" {
      FakesInChars(s[1..]);
      assert Chars(s)[1..] == Chars(s[1..]) && Chars(s)[0] == Ch(s[0]);
      assert s[0..] == s;
      assert forall k | 0 <= k < |s| - 1 :: s[1..][k..] == s[k + 1..];
      assert forall k | 1 <= k < |s| :: s[k..] == s[1..][k - 1..];
    }
  }
}
