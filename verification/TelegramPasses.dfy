/**
 What each pass of the Markdown repair looks for, said without the matchers, and what the whole
 repair makes of the simplest texts that contain it.
 */
module TelegramPasses {
  import opened Wrappers
  import opened Text
  import opened TelegramMarkdown

  // ------------------------------------------------------------------ the four patterns

  predicate All(s: string, p: char -> bool) {
    forall i | 0 <= i < |s| :: p(s[i])
  }

  lemma SpanIs(s: string, n: nat, p: char -> bool)
    requires n <= |s| && All(s[..n], p) && (n < |s| ==> !p(s[n]))
    ensures Span(s, p) == n
  {
    assert forall i | 0 <= i < n :: s[..n][i] == s[i];
  }

  lemma SpanIsAll(s: string, p: char -> bool)
    ensures All(s[..Span(s, p)], p)
  {
  }

  /** `w` characters of white space, a '-' or '+', and white space up to `n`, as much as there is. */
  predicate Bulleted(s: string, w: nat, n: nat) {
    && w + 1 < n <= |s| && All(s[..w], IsSpace) && (s[w] == '-' || s[w] == '+')
    && All(s[w + 1..n], IsSpace) && (n < |s| ==> !IsSpace(s[n]))
  }

  lemma BulletExactly(s: string, bol: bool, n: nat, out: string)
    ensures BulletAt(s, bol) == Some(Hit(n, out))
       <==> bol && exists w: nat :: Bulleted(s, w, n) && out == s[..w] + "\U{2022} "
  {
    hide All, Span, IsSpace;
    GreedyIsBulleted(s);
    forall w: nat | Bulleted(s, w, n)
      ensures w == Span(s, IsSpace) && n == w + 1 + Span(s[w + 1..], IsSpace)
    {
      BulletedIsGreedy(s, w, n);
    }
  }

  lemma GreedyIsBulleted(s: string)
    ensures var w := Span(s, IsSpace);
            w < |s| && (s[w] == '-' || s[w] == '+') && Span(s[w + 1..], IsSpace) > 0 ==>
              Bulleted(s, w, w + 1 + Span(s[w + 1..], IsSpace))
  {
    hide Span, IsSpace;
    var w := Span(s, IsSpace);
    SpanIsAll(s, IsSpace);
    if w < |s| {
      SpanIsAll(s[w + 1..], IsSpace);
      var n := Span(s[w + 1..], IsSpace);
      assert s[w + 1..][..n] == s[w + 1..w + 1 + n];
      hide All;
    }
  }

  lemma MarkIsNoSpace(c: char)
    requires c == '-' || c == '+'
    ensures !IsSpace(c)
  {
  }

  lemma BulletedIsGreedy(s: string, w: nat, n: nat)
    requires Bulleted(s, w, n)
    ensures Span(s, IsSpace) == w
    ensures Span(s[w + 1..], IsSpace) == n - w - 1
  {
    hide Span, IsSpace, All;
    MarkIsNoSpace(s[w]);
    SpanIs(s, w, IsSpace);
    var t := s[w + 1..];
    assert t[..n - w - 1] == s[w + 1..n];
    assert n < |s| ==> t[n - w - 1] == s[n];
    SpanIs(t, n - w - 1, IsSpace);
  }

  /** Blanks, at least three rule characters, blanks, and then the end of the line. */
  predicate Ruled(s: string, a: nat, b: nat, n: nat) {
    && a + 3 <= b <= n <= |s| && All(s[..a], IsBlank) && All(s[a..b], IsRuleChar) && All(s[b..n], IsBlank)
    && (n == |s| || IsLineEnd(s[n]))
  }

  lemma RuleExactly(s: string, bol: bool, n: nat, out: string)
    ensures RuleAt(s, bol) == Some(Hit(n, out))
       <==> bol && out == "\U{23AF}\U{23AF}\U{23AF}" && exists a: nat, b: nat :: Ruled(s, a, b, n)
  {
    hide Span, All, Ruled;
    var (a, b, e) := RuleParts(s);
    RulePartsAreRuled(s);
    if c: nat, d: nat :| Ruled(s, c, d, n) {
      RuledIsParts(s, c, d, n);
    }
  }

  /** Where the greedy pattern's three parts end. */
  function RuleParts(s: string): (r: (nat, nat, nat))
    ensures r.0 <= r.1 <= r.2 <= |s|
  {
    var a := Span(s, IsBlank);
    var b := a + Span(s[a..], IsRuleChar);
    (a, b, b + Span(s[b..], IsBlank))
  }

  lemma RulePartsAreRuled(s: string)
    ensures var (a, b, e) := RuleParts(s); b >= a + 3 && (e == |s| || IsLineEnd(s[e])) ==> Ruled(s, a, b, e)
  {
    hide Span;
    var (a, b, e) := RuleParts(s);
    SpanIsAll(s, IsBlank);
    SpanIsAll(s[a..], IsRuleChar);
    SpanIsAll(s[b..], IsBlank);
    assert s[a..][..b - a] == s[a..b] && s[b..][..e - b] == s[b..e];
  }

  lemma RuledIsParts(s: string, a: nat, b: nat, n: nat)
    requires Ruled(s, a, b, n)
    ensures RuleParts(s) == (a, b, n) && a + 3 <= b && n <= |s| && (n == |s| || IsLineEnd(s[n]))
  {
    hide Span;
    assert IsRuleChar(s[a]) by { assert s[a] == s[a..b][0]; }
    SpanIs(s, a, IsBlank);
    assert s[a..][..b - a] == s[a..b];
    assert b < n ==> IsBlank(s[b]) by { assert b < n ==> s[b] == s[b..n][0]; }
    SpanIs(s[a..], b - a, IsRuleChar);
    assert s[b..][..n - b] == s[b..n];
    SpanIs(s[b..], n - b, IsBlank);
  }

  /** Two delimiters, one or more characters that are neither it nor a newline, and two delimiters. */
  lemma DoubleExactly(s: string, d: char, x: string)
    requires d != '\n'
    ensures DoubleAt(s, d) == Some(Hit(|x| + 4, [d] + x + [d]))
       <==> x != "" && Free(x, d) && Free(x, '\n') && [d, d] + x + [d, d] <= s
  {
    hide DoubleAt;
    if DoubleAt(s, d) == Some(Hit(|x| + 4, [d] + x + [d])) {
      DoubleMatched(s, d, x);
    }
    if x != "" && Free(x, d) && Free(x, '\n') && [d, d] + x + [d, d] <= s {
      DoubleMatches(s, d, x);
    }
  }

  lemma DoubleMatched(s: string, d: char, x: string)
    requires DoubleAt(s, d) == Some(Hit(|x| + 4, [d] + x + [d]))
    ensures x != "" && Free(x, d) && Free(x, '\n') && [d, d] + x + [d, d] <= s
  {
    hide Span;
    var inside := c => c != d && c != '\n';
    var n := Span(s[2..], inside);
    SpanIsAll(s[2..], inside);
    assert s[2..][..n] == s[2..n + 2];
    assert ([d] + x + [d])[1..|x| + 1] == x && ([d] + s[2..n + 2] + [d])[1..n + 1] == s[2..n + 2];
    assert s[n + 2..][..2] == [d, d];
    assert s == s[..2] + s[2..n + 2] + s[n + 2..];
  }

  lemma DoubleMatches(s: string, d: char, x: string)
    requires d != '\n' && x != "" && Free(x, d) && Free(x, '\n') && [d, d] + x + [d, d] <= s
    ensures DoubleAt(s, d) == Some(Hit(|x| + 4, [d] + x + [d]))
  {
    hide Span;
    var inside := c => c != d && c != '\n';
    var whole := [d, d] + x + [d, d];
    assert s[..|x| + 4] == whole;
    assert s[2..|x| + 2] == whole[2..|x| + 2] == x;
    assert s[|x| + 2] == whole[|x| + 2] == d && s[|x| + 3] == whole[|x| + 3] == d;
    assert s[2..][..|x|] == x && s[2..][|x|] == d;
    SpanIs(s[2..], |x|, inside);
    assert s[|x| + 2..][..2] == [d, d];
  }

  /** Every match of the pattern for doubled delimiters is of that form. */
  lemma DoubleHasForm(s: string, d: char)
    ensures DoubleAt(s, d).Some? ==> exists x: string :: DoubleAt(s, d) == Some(Hit(|x| + 4, [d] + x + [d]))
  {
    if DoubleAt(s, d).Some? {
      var n := Span(s[2..], c => c != d && c != '\n');
      assert |s[2..n + 2]| == n;
    }
  }

  // -------------------------------------------------------------- leftmost, then onwards

  predicate StartsLine(s: string, k: nat, bol: bool)
    requires k <= |s|
  {
    if k == 0 then bol else IsLineEnd(s[k - 1])
  }

  /** The pattern matches nowhere in the first `n` characters. */
  predicate NoneBefore(s: string, n: nat, bol: bool, m: Matcher)
    requires n <= |s|
  {
    forall k | 0 <= k < n :: m(s[k..], StartsLine(s, k, bol)) == None
  }

  lemma NoneBeforeTail(s: string, n: nat, bol: bool, m: Matcher)
    requires 0 < n <= |s| && NoneBefore(s, n, bol, m)
    ensures m(s, bol) == None && NoneBefore(s[1..], n - 1, IsLineEnd(s[0]), m)
    ensures StartsLine(s[1..], n - 1, IsLineEnd(s[0])) == StartsLine(s, n, bol)
  {
    var t := s[1..];
    assert s[0..] == s && m(s[0..], StartsLine(s, 0, bol)) == None;
    forall k | 0 <= k < n - 1
      ensures m(t[k..], StartsLine(t, k, IsLineEnd(s[0]))) == None
    {
      assert t[k..] == s[k + 1..];
      assert m(s[k + 1..], StartsLine(s, k + 1, bol)) == None;
    }
  }

  lemma SplitHead(s: string, n: nat, tail: string)
    requires 0 < n <= |s|
    ensures [s[0]] + (s[1..][..n - 1] + tail) == s[..n] + tail && s[1..][n - 1..] == s[n..]
  {
    assert [s[0]] + s[1..][..n - 1] == s[..n];
  }

  lemma {:induction false} ReplaceSkips(s: string, n: nat, bol: bool, m: Matcher)
    requires n <= |s| && NoneBefore(s, n, bol, m)
    ensures ReplaceAll(s, bol, m) == s[..n] + ReplaceAll(s[n..], StartsLine(s, n, bol), m)
    decreases n
  {
    if n == 0 {
      assert s[0..] == s && s[..0] + ReplaceAll(s, bol, m) == ReplaceAll(s, bol, m);
    } else {
      NoneBeforeTail(s, n, bol, m);
      MissedHead(s, bol, m);
      hide *;
      ReplaceSkips(s[1..], n - 1, IsLineEnd(s[0]), m);
      SplitHead(s, n, ReplaceAll(s[n..], StartsLine(s, n, bol), m));
    }
  }

  lemma MissedHead(s: string, bol: bool, m: Matcher)
    requires s != "" && m(s, bol) == None
    ensures ReplaceAll(s, bol, m) == [s[0]] + ReplaceAll(s[1..], IsLineEnd(s[0]), m)
  {
  }

  /** A global replace leaves what stands before the first match, replaces the match, and goes on behind it. */
  lemma ReplaceFirst(s: string, n: nat, bol: bool, m: Matcher, hit: Hit)
    requires n < |s| && NoneBefore(s, n, bol, m)
    requires m(s[n..], StartsLine(s, n, bol)) == Some(hit) && 0 < hit.len <= |s| - n
    ensures var end := n + hit.len;
            ReplaceAll(s, bol, m) == s[..n] + (hit.out + ReplaceAll(s[end..], StartsLine(s, end, bol), m))
  {
    ReplaceSkips(s, n, bol, m);
    assert s[n..][hit.len..] == s[n + hit.len..];
  }

  lemma ReplaceNothing(s: string, bol: bool, m: Matcher)
    requires NoneBefore(s, |s|, bol, m)
    ensures ReplaceAll(s, bol, m) == s
  {
    ReplaceSkips(s, |s|, bol, m);
    assert s[..|s|] + ReplaceAll(s[|s|..], StartsLine(s, |s|, bol), m) == s;
  }

  // --------------------------------------------------------------- the whole, on simple texts

  /** Text that no pass and no placeholder has anything to do with. */
  predicate Words(s: string) {
    forall i | 0 <= i < |s| :: s[i] !in "-+*_[]`" && s[i] != NUL
  }

  lemma {:induction false} NoRefsExpand(tokens: seq<Token>)
    requires Refs(tokens) == []
    ensures Expand(tokens, []) == Glue(tokens)
  {
    if tokens != [] {
      assert tokens[0].Ch?;
      assert Refs(tokens) == Refs(tokens[1..]);
      NoRefsExpand(tokens[1..]);
    }
  }

  /** Without code and without a NUL the repair is the passes alone. */
  lemma SanitizeIsRewrite(s: string)
    requires Free(s, '`') && Free(s, NUL)
    ensures Sanitize(s) == Rewrite(s)
  {
    hide Rewrite, Restore, Expand, Glue, Refs;
    NoCodeToProtect(s, 0);
    PlainOfChars(s);
    CharsAreNulFree(s);
    GlueChars(s, []);
    assert Chars(s) + [] == Chars(s);
    assert Refs([]) == [] by { NoRefsInNothing(); }
    var after := RewriteKeepsRefs(Chars(s));
    NulFreeHasNoFakes(after);
    RestoreGlue(after, []);
    NoRefsExpand(after);
  }

  lemma NoRefsInNothing()
    ensures Refs([]) == []
  {
  }

  /** A pass with a pattern that looks for `look` at a match's start finds nothing in text without it. */
  lemma NoBullet(s: string)
    requires Free(s, '-') && Free(s, '+')
    ensures ReplaceAll(s, true, BulletAt) == s
  {
    hide ReplaceAll;
    forall k | 0 <= k < |s|
      ensures BulletAt(s[k..], StartsLine(s, k, true)) == None
    {
      var w := Span(s[k..], IsSpace);
      assert w < |s[k..]| ==> s[k..][w] == s[k + w];
    }
    ReplaceNothing(s, true, BulletAt);
  }

  predicate ThreeRuleChars(s: string, k: nat) {
    k + 2 < |s| && IsRuleChar(s[k]) && IsRuleChar(s[k + 1]) && IsRuleChar(s[k + 2])
  }

  lemma RuleHasThree(s: string, bol: bool)
    ensures RuleAt(s, bol).Some? ==> exists k :: ThreeRuleChars(s, k)
  {
    hide RuleAt, Ruled;
    if RuleAt(s, bol).Some? {
      var hit := RuleAt(s, bol).value;
      RuleExactly(s, bol, hit.len, hit.out);
      var a: nat, b: nat :| Ruled(s, a, b, hit.len);
      RuledStartsWithThree(s, a, b, hit.len);
    }
  }

  lemma RuledStartsWithThree(s: string, a: nat, b: nat, n: nat)
    requires Ruled(s, a, b, n)
    ensures ThreeRuleChars(s, a)
  {
    var t := s[a..b];
    assert t[0] == s[a] && t[1] == s[a + 1] && t[2] == s[a + 2];
  }

  lemma NoRule(s: string)
    requires forall k :: !ThreeRuleChars(s, k)
    ensures ReplaceAll(s, true, RuleAt) == s
  {
    hide ReplaceAll, RuleAt;
    forall k | 0 <= k < |s|
      ensures RuleAt(s[k..], StartsLine(s, k, true)) == None
    {
      RuleHasThree(s[k..], StartsLine(s, k, true));
      assert forall i: nat :: ThreeRuleChars(s[k..], i) ==> ThreeRuleChars(s, k + i);
    }
    ReplaceNothing(s, true, RuleAt);
  }

  lemma NoDouble(s: string, d: char, m: Matcher)
    requires forall k, b | 0 <= k < |s| :: m(s[k..], b) == DoubleAt(s[k..], d)
    requires forall k | 0 <= k < |s| - 1 :: !(s[k] == s[k + 1] == d)
    ensures ReplaceAll(s, true, m) == s
  {
    hide ReplaceAll, Span;
    forall k | 0 <= k < |s|
      ensures m(s[k..], StartsLine(s, k, true)) == None
    {
      assert |s| - k >= 2 ==> s[k..][0] == s[k] && s[k..][1] == s[k + 1];
    }
    ReplaceNothing(s, true, m);
  }

  lemma NoStars(s: string)
    requires forall k | 0 <= k < |s| - 1 :: !(s[k] == s[k + 1] == '*')
    ensures ReplaceAll(s, true, StarsAt) == s
  {
    NoDouble(s, '*', StarsAt);
  }

  lemma NoScores(s: string)
    requires forall k | 0 <= k < |s| - 1 :: !(s[k] == s[k + 1] == '_')
    ensures ReplaceAll(s, true, ScoresAt) == s
  {
    NoDouble(s, '_', ScoresAt);
  }

  lemma RewriteBy(s: string, starred: string, t: string)
    requires Free(s, '-') && Free(s, '+')
    requires forall k :: !ThreeRuleChars(s, k)
    requires ReplaceAll(s, true, StarsAt) == starred && ReplaceAll(starred, true, ScoresAt) == t
    ensures Rewrite(s) == StripUnevenBrackets(StripOddDelimiters(t))
  {
    hide ReplaceAll;
    NoBullet(s);
    NoRule(s);
  }

  lemma CountWords(s: string)
    requires Words(s)
    ensures Count(s, '*') == Count(s, '_') == Count(s, '[') == Count(s, ']') == 0
  {
    CountAbsent(s, '*');
    CountAbsent(s, '_');
    CountAbsent(s, '[');
    CountAbsent(s, ']');
  }

  lemma CountOne(d: char, c: char)
    ensures Count([d], c) == if c == d then 1 else 0
  {
    assert [d][1..] == "" && Count("", c) == 0;
  }

  lemma CountMarked(a: string, d: char, x: string, e: char, b: string, c: char)
    requires Words(a) && Words(x) && Words(b) && c in "*_[]"
    ensures Count(a + [d] + x + [e] + b, c) == (if c == d then 1 else 0) + if c == e then 1 else 0
  {
    hide Count;
    CountWords(a);
    CountWords(x);
    CountWords(b);
    CountConcat(a + [d] + x + [e], b, c);
    CountConcat(a + [d] + x, [e], c);
    CountConcat(a + [d], x, c);
    CountConcat(a, [d], c);
    CountOne(d, c);
    CountOne(e, c);
  }

  /** Character by character, a text with one marked stretch. */
  lemma MarkedChars(a: string, d: string, x: string, e: string, b: string, k: nat)
    ensures var s := a + d + x + e + b;
            k < |s| ==>
              s[k] == if k < |a| then a[k]
                      else if k < |a| + |d| then d[k - |a|]
                      else if k < |a| + |d| + |x| then x[k - |a| - |d|]
                      else if k < |a| + |d| + |x| + |e| then e[k - |a| - |d| - |x|]
                      else b[k - |a| - |d| - |x| - |e|]
  {
  }

  /** Neither a bullet nor a rule: the marks are one or two delimiters or brackets on either side of words. */
  lemma MarkedIsNoLine(a: string, d: string, x: string, e: string, b: string)
    requires Words(a) && Words(x) && x != "" && Words(b) && |d| <= 2 && |e| <= 2
    requires (forall i | 0 <= i < |d| :: d[i] in "*_[]") && forall i | 0 <= i < |e| :: e[i] in "*_[]"
    ensures var s := a + d + x + e + b;
            && Free(s, '-') && Free(s, '+') && Free(s, '`') && Free(s, NUL)
            && forall k :: !ThreeRuleChars(s, k)
  {
    var s := a + d + x + e + b;
    forall k: nat
      ensures k < |s| ==>
        s[k] == if k < |a| then a[k]
                else if k < |a| + |d| then d[k - |a|]
                else if k < |a| + |d| + |x| then x[k - |a| - |d|]
                else if k < |a| + |d| + |x| + |e| then e[k - |a| - |d| - |x|]
                else b[k - |a| - |d| - |x| - |e|]
    {
      MarkedChars(a, d, x, e, b, k);
    }
  }

  /** The delimiters of the marks, one by one, in pairs only where the marks are doubled. */
  lemma PairsOf(a: string, d: string, x: string, e: string, b: string, c: char)
    requires Words(a) && Words(x) && x != "" && Words(b) && c in "*_"
    requires |d| == 1 && |e| == 1
    ensures var s := a + d + x + e + b; forall k | 0 <= k < |s| - 1 :: !(s[k] == s[k + 1] == c)
  {
    var s := a + d + x + e + b;
    forall k: nat
      ensures k < |s| ==>
        s[k] == if k < |a| then a[k]
                else if k < |a| + 1 then d[0]
                else if k < |a| + 1 + |x| then x[k - |a| - 1]
                else if k < |a| + 2 + |x| then e[0]
                else b[k - |a| - 2 - |x|]
    {
      MarkedChars(a, d, x, e, b, k);
    }
  }

  /** A single pair of marks around words stays if the marks balance, and goes if they do not. */
  lemma SingleMarks(a: string, d: char, x: string, e: char, b: string)
    requires Words(a) && Words(x) && x != "" && Words(b) && d in "*_[]" && e in "*_[]"
    ensures Rewrite(a + [d] + x + [e] + b) == StripUnevenBrackets(StripOddDelimiters(a + [d] + x + [e] + b))
  {
    hide ReplaceAll, Rewrite;
    var s := a + [d] + x + [e] + b;
    MarkedIsNoLine(a, [d], x, [e], b);
    PairsOf(a, [d], x, [e], b, '*');
    PairsOf(a, [d], x, [e], b, '_');
    NoStars(s);
    NoScores(s);
    RewriteBy(s, s, s);
  }

  /** `*x*`, `_x_` and `[x]` in the middle of words go out as they came in. */
  lemma BalancedMarksStay(a: string, d: char, x: string, e: char, b: string)
    requires Words(a) && Words(x) && x != "" && Words(b)
    requires (d == e && d in "*_") || (d == '[' && e == ']')
    ensures Sanitize(a + [d] + x + [e] + b) == a + [d] + x + [e] + b
  {
    hide Rewrite, Count;
    MarkedIsNoLine(a, [d], x, [e], b);
    SanitizeIsRewrite(a + [d] + x + [e] + b);
    SingleMarks(a, d, x, e, b);
    CountMarked(a, d, x, e, b, '*');
    CountMarked(a, d, x, e, b, '_');
    CountMarked(a, d, x, e, b, '[');
    CountMarked(a, d, x, e, b, ']');
  }

  lemma {:induction false} StripConcat(a: string, b: string, p: char -> bool)
    ensures Strip(a + b, p) == Strip(a, p) + Strip(b, p)
  {
    if a == "" {
      assert a + b == b && Strip("", p) + Strip(b, p) == Strip(b, p);
    } else {
      StripConcat(a[1..], b, p);
      assert (a + b)[1..] == a[1..] + b;
      Assoc(if p(a[0]) then "" else [a[0]], Strip(a[1..], p), Strip(b, p));
    }
  }

  lemma {:induction false} StripWords(s: string, p: char -> bool)
    requires forall i | 0 <= i < |s| :: !p(s[i])
    ensures Strip(s, p) == s
  {
    if s != "" {
      StripWords(s[1..], p);
    }
  }

  function Left(d: char, p: char -> bool): string { if p(d) then "" else [d] }

  lemma StripOne(d: char, p: char -> bool)
    ensures Strip([d], p) == Left(d, p)
  {
    assert [d][1..] == "" && Strip("", p) == "";
    assert "" + "" == "" && [d] + "" == [d];
  }

  lemma StripMarked(a: string, d: char, x: string, e: char, b: string, p: char -> bool)
    requires p == IsDelimiter || p == IsBracket
    requires Words(a) && Words(x) && Words(b)
    ensures Strip(a + [d] + x + [e] + b, p) == a + Left(d, p) + x + Left(e, p) + b
  {
    hide Strip, Left;
    StripConcat(a + [d] + x + [e], b, p);
    StripConcat(a + [d] + x, [e], p);
    StripConcat(a + [d], x, p);
    StripConcat(a, [d], p);
    StripOne(d, p);
    StripOne(e, p);
    StripWords(a, p);
    StripWords(x, p);
    StripWords(b, p);
  }

  /** Any other two marks around words go, and the words stay. */
  lemma UnbalancedMarksGo(a: string, d: char, x: string, e: char, b: string)
    requires Words(a) && Words(x) && x != "" && Words(b) && d in "*_[]" && e in "*_[]"
    requires !(d == e && d in "*_") && !(d != e && d in "[]" && e in "[]")
    ensures Sanitize(a + [d] + x + [e] + b) == a + x + b
  {
    hide Rewrite, StripOddDelimiters, StripUnevenBrackets, Left;
    var s := a + [d] + x + [e] + b;
    MarkedIsNoLine(a, [d], x, [e], b);
    SanitizeIsRewrite(s);
    SingleMarks(a, d, x, e, b);
    if IsDelimiter(d) || IsDelimiter(e) {
      OddMarksAreStripped(a, d, x, e, b);
      OneBracketGoes(a, d, x, e, b);
    } else {
      TwoBracketsGo(a, d, x, e, b);
    }
  }

  lemma OddMarksAreStripped(a: string, d: char, x: string, e: char, b: string)
    requires Words(a) && Words(x) && Words(b) && d in "*_[]" && e in "*_[]"
    requires d != e && (IsDelimiter(d) || IsDelimiter(e))
    ensures StripOddDelimiters(a + [d] + x + [e] + b) == a + Left(d, IsDelimiter) + x + Left(e, IsDelimiter) + b
  {
    hide Count, Strip, Left;
    CountMarked(a, d, x, e, b, '*');
    CountMarked(a, d, x, e, b, '_');
    StripMarked(a, d, x, e, b, IsDelimiter);
  }

  lemma TwoBracketsGo(a: string, d: char, x: string, e: char, b: string)
    requires Words(a) && Words(x) && Words(b) && d == e && IsBracket(d)
    ensures StripUnevenBrackets(StripOddDelimiters(a + [d] + x + [e] + b)) == a + x + b
  {
    hide Count, Strip;
    CountMarked(a, d, x, e, b, '*');
    CountMarked(a, d, x, e, b, '_');
    CountMarked(a, d, x, e, b, '[');
    CountMarked(a, d, x, e, b, ']');
    StripMarked(a, d, x, e, b, IsBracket);
    assert a + "" + x + "" + b == a + x + b;
  }

  lemma OneBracketGoes(a: string, d: char, x: string, e: char, b: string)
    requires Words(a) && Words(x) && Words(b) && d in "*_[]" && e in "*_[]"
    requires IsDelimiter(d) || IsDelimiter(e)
    ensures StripUnevenBrackets(a + Left(d, IsDelimiter) + x + Left(e, IsDelimiter) + b) == a + x + b
  {
    hide Count, Strip;
    var before, after := Left(d, IsDelimiter), Left(e, IsDelimiter);
    var s := a + before + x + after + b;
    forall c | c in "[]"
      ensures Count(s, c) == Count(before, c) + Count(after, c)
    {
      CountWords(a);
      CountWords(x);
      CountWords(b);
      CountConcat(a + before + x + after, b, c);
      CountConcat(a + before + x, after, c);
      CountConcat(a + before, x, c);
      CountConcat(a, before, c);
    }
    StripConcat(a + before + x + after, b, IsBracket);
    StripConcat(a + before + x, after, IsBracket);
    StripConcat(a + before, x, IsBracket);
    StripConcat(a, before, IsBracket);
    StripWords(a, IsBracket);
    StripWords(x, IsBracket);
    StripWords(b, IsBracket);
    StripEmptyOrOne(d);
    StripEmptyOrOne(e);
    assert a + "" + x + "" + b == a + x + b;
  }

  lemma StripEmptyOrOne(d: char)
    requires d in "*_[]"
    ensures Strip(Left(d, IsDelimiter), IsBracket) == ""
    ensures forall c | c in "[]" :: Count(Left(d, IsDelimiter), c) == if c == d then 1 else 0
  {
    StripOne(d, IsBracket);
    assert Strip("", IsBracket) == "" && Count("", '[') == 0 && Count("", ']') == 0;
    CountOne(d, '[');
    CountOne(d, ']');
  }

  /** The pass for `d` makes the doubled marks single, and the pass for the other delimiter finds nothing. */
  lemma DoublePass(a: string, d: char, x: string, b: string, m: Matcher)
    requires Words(a) && Words(x) && x != "" && Free(x, '\n') && Words(b) && d in "*_"
    requires forall s, bol :: m(s, bol) == DoubleAt(s, d)
    ensures ReplaceAll(a + [d, d] + x + [d, d] + b, true, m) == a + [d] + x + [d] + b
  {
    hide ReplaceAll, DoubleAt;
    var s := a + [d, d] + x + [d, d] + b;
    var whole := [d, d] + x + [d, d];
    assert s == a + (whole + b);
    assert s[|a|..] == whole + b && s[..|a|] == a;
    var hit := Hit(|x| + 4, [d] + x + [d]);
    DoubleExactly(s[|a|..], d, x);
    assert Free(a, d) && Free(b, d);
    NoDoubleIn(a, whole + b, d, m);
    NoDoubleIn(b, "", d, m);
    hide Words;
    assert NoneBefore(s, |a|, true, m);
    ReplaceFirst(s, |a|, true, m, hit);
    assert s[|a| + hit.len..] == b && b + "" == b;
    ReplaceNothingFrom(b, StartsLine(s, |a| + hit.len, true), m);
    assert a + (([d] + x + [d]) + b) == a + [d] + x + [d] + b;
  }

  lemma NoDoubleIn(a: string, rest: string, d: char, m: Matcher)
    requires Free(a, d) && forall s, bol :: m(s, bol) == DoubleAt(s, d)
    ensures forall k, bol | 0 <= k < |a| :: m((a + rest)[k..], bol) == None
  {
    hide DoubleAt;
    forall k, bol | 0 <= k < |a|
      ensures m((a + rest)[k..], bol) == None
    {
      NoDoubleAt((a + rest)[k..], d);
      assert (a + rest)[k..][0] == a[k];
    }
  }

  lemma NoDoubleAt(s: string, d: char)
    ensures s == "" || s[0] != d ==> DoubleAt(s, d) == None
  {
  }

  lemma ReplaceNothingFrom(s: string, bol: bool, m: Matcher)
    requires forall k, b | 0 <= k < |s| :: m(s[k..], b) == None
    ensures ReplaceAll(s, bol, m) == s
  {
    ReplaceNothing(s, bol, m);
  }

  lemma DoubledHasNo(a: string, d: char, x: string, b: string, c: char)
    requires Words(a) && Words(x) && Words(b) && d in "*_" && c in "*_" && c != d
    ensures var s := a + [d, d] + x + [d, d] + b; forall k | 0 <= k < |s| - 1 :: !(s[k] == s[k + 1] == c)
  {
    var s := a + [d, d] + x + [d, d] + b;
    forall k: nat
      ensures k < |s| ==>
        s[k] == if k < |a| then a[k]
                else if k < |a| + 2 then [d, d][k - |a|]
                else if k < |a| + 2 + |x| then x[k - |a| - 2]
                else if k < |a| + 4 + |x| then [d, d][k - |a| - 2 - |x|]
                else b[k - |a| - 4 - |x|]
    {
      MarkedChars(a, [d, d], x, [d, d], b, k);
    }
  }

  /** `**x**` and `__x__` on one line, in the middle of words, become `*x*` and `_x_`. */
  lemma DoubleMarksBecomeSingle(a: string, d: char, x: string, b: string)
    requires Words(a) && Words(x) && x != "" && Free(x, '\n') && Words(b) && d in "*_"
    ensures Sanitize(a + [d, d] + x + [d, d] + b) == a + [d] + x + [d] + b
  {
    hide Rewrite, Count, ReplaceAll;
    var s, t := a + [d, d] + x + [d, d] + b, a + [d] + x + [d] + b;
    MarkedIsNoLine(a, [d, d], x, [d, d], b);
    SanitizeIsRewrite(s);
    if d == '*' {
      DoublePass(a, d, x, b, StarsAt);
      PairsOf(a, [d], x, [d], b, '_');
      NoScores(t);
      RewriteBy(s, t, t);
    } else {
      DoubledHasNo(a, d, x, b, '*');
      NoStars(s);
      DoublePass(a, d, x, b, ScoresAt);
      RewriteBy(s, s, t);
    }
    CountMarked(a, d, x, d, b, '*');
    CountMarked(a, d, x, d, b, '_');
    CountMarked(a, d, x, d, b, '[');
    CountMarked(a, d, x, d, b, ']');
  }

  // --------------------------------------------------------------------- bullets and rules

  lemma WordsHaveNoMatch(s: string, bol: bool)
    requires Words(s)
    ensures forall k, b | 0 <= k < |s| :: BulletAt(s[k..], b) == None && RuleAt(s[k..], b) == None
    ensures Free(s, '`') && Free(s, NUL) && FormatFree(s)
  {
    hide BulletAt, RuleAt;
    forall k, b | 0 <= k < |s|
      ensures BulletAt(s[k..], b) == None && RuleAt(s[k..], b) == None
    {
      PlainHasNoHit(s[k..], b);
    }
  }

  lemma BulletMatches(mark: char, x: string)
    requires mark in "-+" && Words(x) && x != "" && !IsSpace(x[0])
    ensures BulletAt([mark, ' '] + x, true) == Some(Hit(2, "\U{2022} "))
  {
    hide BulletAt;
    var s := [mark, ' '] + x;
    assert s[1..2] == " " && IsSpace(' ') && s[2] == x[0];
    assert Bulleted(s, 0, 2);
    assert s[..0] + "\U{2022} " == "\U{2022} ";
    BulletExactly(s, true, 2, "\U{2022} ");
  }

  lemma BulletPass(mark: char, x: string)
    requires mark in "-+" && Words(x) && x != "" && !IsSpace(x[0])
    ensures ReplaceAll([mark, ' '] + x, true, BulletAt) == "\U{2022} " + x
  {
    hide ReplaceAll, BulletAt, RuleAt, Words;
    var s := [mark, ' '] + x;
    BulletMatches(mark, x);
    assert s[0..] == s && s[2..] == x;
    ReplaceFirst(s, 0, true, BulletAt, Hit(2, "\U{2022} "));
    WordsHaveNoMatch(x, true);
    ReplaceNothingFrom(x, StartsLine(s, 2, true), BulletAt);
    assert s[..0] + ("\U{2022} " + x) == "\U{2022} " + x;
  }

  /** A line with a '-' or '+' bullet gets a plain one. */
  lemma BulletBecomesPlain(mark: char, x: string)
    requires mark in "-+" && Words(x) && x != "" && !IsSpace(x[0])
    ensures Sanitize([mark, ' '] + x) == "\U{2022} " + x
  {
    hide Rewrite, ReplaceAll, Sanitize;
    var s, t := [mark, ' '] + x, "\U{2022} " + x;
    BulletPass(mark, x);
    assert Free(s, '`') && Free(s, NUL) && Words(t);
    SanitizeIsRewrite(s);
    PlainStays(s, t);
  }

  lemma PlainStays(s: string, t: string)
    requires ReplaceAll(s, true, BulletAt) == t && Words(t)
    ensures Rewrite(s) == t
  {
    hide ReplaceAll, Count, Words;
    assert Words(t) && FormatFree(t) by { WordsHaveNoMatch(t, true); }
    WordsHaveNoMatch(t, true);
    ReplaceNothingFrom(t, true, RuleAt);
    assert forall k | 0 <= k < |t| - 1 :: t[k] !in "*_";
    NoStars(t);
    NoScores(t);
    CountWords(t);
  }

  /** A line of three or more rule characters becomes a divider. */
  lemma RuleBecomesDivider(s: string)
    requires |s| >= 3 && forall i | 0 <= i < |s| :: s[i] in "-_*"
    ensures Sanitize(s) == "\U{23AF}\U{23AF}\U{23AF}"
  {
    hide Rewrite, ReplaceAll, BulletAt, RuleAt, Count;
    var divider := "\U{23AF}\U{23AF}\U{23AF}";
    assert Free(s, '`') && Free(s, NUL);
    SanitizeIsRewrite(s);
    forall k | 0 <= k < |s|
      ensures BulletAt(s[k..], StartsLine(s, k, true)) == None
    {
      NoBulletInRule(s[k..], StartsLine(s, k, true));
    }
    ReplaceNothing(s, true, BulletAt);
    assert s[..0] == "" && s[0..|s|] == s && s[|s|..|s|] == "";
    assert Ruled(s, 0, |s|, |s|);
    RuleExactly(s, true, |s|, divider);
    assert s[0..] == s;
    ReplaceFirst(s, 0, true, RuleAt, Hit(|s|, divider));
    ReplaceNothing("", StartsLine(s, |s|, true), RuleAt);
    assert s[..0] + (divider + "") == divider;
    DividerStays(s);
  }

  lemma NoBulletInRule(s: string, bol: bool)
    requires forall i | 0 <= i < |s| :: s[i] in "-_*"
    ensures BulletAt(s, bol) == None
  {
  }

  lemma DividerStays(s: string)
    requires ReplaceAll(s, true, BulletAt) == s && ReplaceAll(s, true, RuleAt) == "\U{23AF}\U{23AF}\U{23AF}"
    ensures Rewrite(s) == "\U{23AF}\U{23AF}\U{23AF}"
  {
    hide ReplaceAll, Count;
    var t := "\U{23AF}\U{23AF}\U{23AF}";
    NoStars(t);
    NoScores(t);
    CountWords(t);
  }
}
