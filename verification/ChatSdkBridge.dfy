/** Splitting an outbound text into chunks under a channel's length limit. */
module ChatSdkBridge {
  import opened Wrappers
  import opened Text

  predicate OccursAt(s: string, x: string, k: nat) {
    k + |x| <= |s| && s[k..k + |x|] == x
  }

  /** `s.lastIndexOf(x, from)`: the greatest start of `x` in `s` that is at most `from`. */
  function LastIndexOf(s: string, x: string, from: nat): (r: Option<nat>)
    ensures r.Some? ==> r.value <= from && OccursAt(s, x, r.value)
    ensures forall k: nat | k <= from && (r.Some? ==> r.value < k) :: !OccursAt(s, x, k)
    decreases from
  {
    if OccursAt(s, x, from) then Some(from)
    else if from == 0 then None
    else LastIndexOf(s, x, from - 1)
  }

  /** A found position counts only when it is positive. */
  function PositiveLast(s: string, x: string, limit: nat): (r: Option<nat>) {
    var p := LastIndexOf(s, x, limit);
    if p.Some? && p.value > 0 then p else None
  }

  /** Where the next chunk ends: a paragraph, else a line, else a word, else the limit itself. */
  function CutPoint(s: string, limit: nat): (cut: nat)
    requires 1 <= limit < |s|
    ensures 1 <= cut <= limit
  {
    var paragraph := PositiveLast(s, "\n\n", limit);
    var line := PositiveLast(s, "\n", limit);
    var word := PositiveLast(s, " ", limit);
    if paragraph.Some? then paragraph.value
    else if line.Some? then line.value
    else if word.Some? then word.value
    else limit
  }

  function Chunks(remaining: string, limit: nat): seq<string>
    requires limit >= 1
    decreases |remaining|
  {
    if |remaining| > limit then
      var cut := CutPoint(remaining, limit);
      [TrimEnd(remaining[..cut])] + Chunks(TrimStart(remaining[cut..]), limit)
    else if remaining != "" then [remaining]
    else []
  }

  function Split(text: string, limit: nat): seq<string>
    requires limit >= 1
  {
    if |text| <= limit then [text] else Chunks(text, limit)
  }

  method SplitForLimit(text: string, limit: nat) returns (chunks: seq<string>)
    requires limit >= 1
    ensures chunks == Split(text, limit)
  {
    if |text| <= limit {
      return [text];
    }
    chunks := [];
    var remaining := text;
    while |remaining| > limit
      invariant chunks + Chunks(remaining, limit) == Chunks(text, limit)
      decreases |remaining|
    {
      hide CutPoint, TrimEnd, TrimStart;
      var cut := CutPoint(remaining, limit);
      var chunk, rest := TrimEnd(remaining[..cut]), TrimStart(remaining[cut..]);
      TrimStartSplits(remaining[cut..]);
      Assoc(chunks, [chunk], Chunks(rest, limit));
      chunks := chunks + [chunk];
      remaining := rest;
    }
    if |remaining| > 0 {
      chunks := chunks + [remaining];
    }
  }

  predicate IsBreak(c: char) { c == ' ' || c == '\n' }

  /** The cut falls before a space or newline, or at the limit when no position in 1..limit holds either. */
  lemma CutIsAtBreakOrForced(s: string, limit: nat)
    requires 1 <= limit < |s|
    ensures var cut := CutPoint(s, limit);
            || IsBreak(s[cut])
            || (cut == limit && forall k | 1 <= k <= limit :: !IsBreak(s[k]))
  {
    if PositiveLast(s, "\n\n", limit).Some? {
    } else if PositiveLast(s, "\n", limit).Some? {
    } else if PositiveLast(s, " ", limit).Some? {
    } else {
      forall k | 1 <= k <= limit
        ensures !IsBreak(s[k])
      {
        assert !OccursAt(s, "\n", k) && !OccursAt(s, " ", k);
        assert s[k..k + 1] == [s[k]];
      }
    }
  }

  /** `cut` is the last place in 1..limit where `x` stands. */
  predicate LastIn(s: string, x: string, limit: nat, cut: nat) {
    1 <= cut <= limit && OccursAt(s, x, cut) && forall k | cut < k <= limit :: !OccursAt(s, x, k)
  }

  predicate NowhereIn(s: string, x: string, limit: nat) {
    forall k | 1 <= k <= limit :: !OccursAt(s, x, k)
  }

  /** The cut is the last paragraph break in 1..limit, failing that the last newline, failing that the last space. */
  lemma CutPrefersParagraphs(s: string, limit: nat, cut: nat)
    requires 1 <= limit < |s|
    ensures CutPoint(s, limit) == cut <==>
              || LastIn(s, "\n\n", limit, cut)
              || (NowhereIn(s, "\n\n", limit) && LastIn(s, "\n", limit, cut))
              || (NowhereIn(s, "\n\n", limit) && NowhereIn(s, "\n", limit) && LastIn(s, " ", limit, cut))
              || (NowhereIn(s, "\n\n", limit) && NowhereIn(s, "\n", limit) && NowhereIn(s, " ", limit) && cut == limit)
  {
    hide OccursAt;
    PositiveLastIs(s, "\n\n", limit, cut);
    PositiveLastIs(s, "\n", limit, cut);
    PositiveLastIs(s, " ", limit, cut);
    hide PositiveLast, LastIn, NowhereIn;
  }

  lemma PositiveLastIs(s: string, x: string, limit: nat, cut: nat)
    ensures PositiveLast(s, x, limit) == Some(cut) <==> LastIn(s, x, limit, cut)
    ensures PositiveLast(s, x, limit) == None <==> NowhereIn(s, x, limit)
  {
    hide OccursAt, LastIndexOf;
  }

  /** chunk, gap, chunk, gap, … */
  function Weave(chunks: seq<string>, gaps: seq<string>): string
    requires |chunks| == |gaps|
  {
    if chunks == [] then "" else chunks[0] + gaps[0] + Weave(chunks[1..], gaps[1..])
  }

  /** The first chunk ends mid-word only if it has full length and offers no earlier break. */
  predicate ForcedCut(chunk: string, limit: nat) {
    |chunk| == limit && forall k | 1 <= k < limit :: !IsBreak(chunk[k])
  }

  predicate NoLeadingSpace(s: string) {
    s == "" || !IsSpace(s[0])
  }

  lemma TrimStartSplits(s: string)
    ensures var gap := s[..|s| - |TrimStart(s)|]; s == gap + TrimStart(s) && AllSpace(gap)
    ensures NoLeadingSpace(TrimStart(s))
    ensures NoLeadingSpace(s) ==> TrimStart(s) == s
    ensures s != "" && IsSpace(s[0]) ==> |TrimStart(s)| < |s|
  {
  }

  lemma BreakIsSpace(c: char)
    requires IsBreak(c)
    ensures IsSpace(c)
  {
  }

  /** One chunk off the front: what is cut away is white space. */
  lemma OneCut(s: string, limit: nat) returns (gap: string)
    requires 1 <= limit < |s|
    ensures var cut := CutPoint(s, limit);
            var chunk, rest := TrimEnd(s[..cut]), TrimStart(s[cut..]);
            && s == chunk + gap + rest
            && AllSpace(gap) && NoLeadingSpace(rest) && |chunk| <= limit
            && (gap == "" ==> chunk == s[..cut] && rest == s[cut..])
  {
    hide CutPoint, IsSpace, TrimEnd, TrimStart, NoLeadingSpace;
    var cut := CutPoint(s, limit);
    var head, tail := s[..cut], s[cut..];
    var chunk, rest := TrimEnd(head), TrimStart(tail);
    TrimStartSplits(tail);
    var gap0, gap1 := head[|chunk|..], tail[..|tail| - |rest|];
    gap := gap0 + gap1;
    assert head == chunk + gap0 && s == head + tail;
    FourParts(chunk, gap0, gap1, rest);
  }

  lemma FourParts(a: string, b: string, c: string, d: string)
    ensures (a + b) + (c + d) == a + (b + c) + d
    ensures b + c == "" ==> a == a + b && d == c + d
  {
  }

  lemma BreakIsTrimmed(s: string, cut: nat)
    requires cut < |s| && IsBreak(s[cut])
    ensures TrimStart(s[cut..]) != s[cut..]
  {
    hide TrimStart, IsSpace;
    TrimStartSplits(s[cut..]);
    BreakIsSpace(s[cut]);
  }

  /** Nothing is cut away only when the cut is forced. */
  lemma EmptyGapIsForced(s: string, limit: nat)
    requires 1 <= limit < |s|
    ensures var cut := CutPoint(s, limit); TrimStart(s[cut..]) == s[cut..] ==> ForcedCut(s[..cut], limit)
  {
    hide CutPoint, IsSpace, IsBreak, TrimStart;
    CutIsAtBreakOrForced(s, limit);
    if IsBreak(s[CutPoint(s, limit)]) {
      BreakIsTrimmed(s, CutPoint(s, limit));
    }
  }

  /** What `gaps` says of `chunks` as a reading of some text; `clean` says that the text starts with no space. */
  predicate Separates(chunks: seq<string>, gaps: seq<string>, limit: nat, clean: bool)
    requires |chunks| == |gaps|
  {
    && (forall i | 0 <= i < |chunks| :: AllSpace(gaps[i]) && |chunks[i]| <= limit)
    && (forall i | 0 <= i < |chunks| && (i > 0 || clean) :: chunks[i] != "" && !IsSpace(chunks[i][0]))
    && (forall i | 0 <= i < |chunks| - 1 && gaps[i] == "" :: ForcedCut(chunks[i], limit))
  }

  lemma SeparatesCons(chunk: string, gap: string, chunks: seq<string>, gaps: seq<string>, limit: nat, clean: bool)
    requires |chunks| == |gaps| && Separates(chunks, gaps, limit, true)
    requires AllSpace(gap) && |chunk| <= limit
    requires clean ==> chunk != "" && !IsSpace(chunk[0])
    requires gap == "" ==> ForcedCut(chunk, limit)
    ensures Separates([chunk] + chunks, [gap] + gaps, limit, clean)
    ensures Weave([chunk] + chunks, [gap] + gaps) == chunk + gap + Weave(chunks, gaps)
  {
    hide IsSpace, ForcedCut, AllSpace;
    assert ([chunk] + chunks)[1..] == chunks && ([gap] + gaps)[1..] == gaps;
  }

  /**
   The chunks are the text, in order, with only white space taken out between
   them and at the end; no chunk is over the limit; only the first can be empty;
   and where nothing was taken out between two chunks, the cut was forced: the
   chunk has `limit` characters, no space or newline at 1..limit−1, and the text
   goes on with a non-space.
   */
  lemma {:induction false} ChunksReassemble(remaining: string, limit: nat) returns (gaps: seq<string>)
    requires limit >= 1
    ensures |gaps| == |Chunks(remaining, limit)|
    ensures Weave(Chunks(remaining, limit), gaps) == remaining
    ensures Separates(Chunks(remaining, limit), gaps, limit, NoLeadingSpace(remaining))
    decreases |remaining|
  {
    hide CutPoint, IsSpace, ForcedCut, Separates, Weave, TrimStart, TrimEnd;
    if |remaining| > limit {
      var cut := CutPoint(remaining, limit);
      var chunk, rest := TrimEnd(remaining[..cut]), TrimStart(remaining[cut..]);
      var gap := OneCut(remaining, limit);
      var tail := ChunksReassemble(rest, limit);
      gaps := [gap] + tail;
      if gap == "" {
        EmptyGapIsForced(remaining, limit);
      }
      SeparatesCons(chunk, gap, Chunks(rest, limit), tail, limit, NoLeadingSpace(remaining));
    } else {
      gaps := if remaining == "" then [] else [""];
      LastChunk(remaining, limit);
    }
  }

  lemma LastChunk(s: string, limit: nat)
    requires |s| <= limit
    ensures Weave([], []) == "" && Weave([s], [""]) == s
    ensures Separates([], [], limit, true)
    ensures s != "" ==> Separates([s], [""], limit, NoLeadingSpace(s))
  {
    assert [s][1..] == [] && [""][1..] == [];
  }

  /** The same for the whole split, whose only chunk is the text itself when it fits. */
  lemma SplitReassembles(text: string, limit: nat) returns (gaps: seq<string>)
    requires limit >= 1
    ensures var chunks := Split(text, limit);
            && |gaps| == |chunks| && Weave(chunks, gaps) == text
            && (forall i | 0 <= i < |chunks| :: AllSpace(gaps[i]) && |chunks[i]| <= limit)
            && (forall i | 0 < i < |chunks| :: chunks[i] != "" && !IsSpace(chunks[i][0]))
            && (forall i | 0 <= i < |chunks| - 1 && gaps[i] == "" :: ForcedCut(chunks[i], limit))
  {
    hide IsSpace, ForcedCut, Chunks;
    if |text| <= limit {
      gaps := [""];
      LastChunk(text, limit);
    } else {
      gaps := ChunksReassemble(text, limit);
    }
  }
}
