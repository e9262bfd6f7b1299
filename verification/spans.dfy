/** The three regular expressions the program applies to model output, as span searches:
    the lazy `open(.*?)close` (first opening delimiter, first closing one after it),
    the greedy `\{.*\}` (first `{`, last `}`), and `re.sub` of every lazy span.
    All are compiled with `re.DOTALL`, so `.` also crosses newlines. */
module Spans {
  import opened Wrappers
  import opened Text

  /** A delimited stretch of a text: the opening delimiter begins at `start`,
      the closing one at `close`. */
  datatype Span = Span(start: nat, close: nat)

  /** `open` at `i` and `close` at `j`, not overlapping: one way `open(.*?)close` can match. */
  predicate IsLazyMatch(s: string, open: string, close: string, i: nat, j: nat) {
    OccursAt(s, open, i) && i + |open| <= j && OccursAt(s, close, j)
  }

  /** What `re.search(open + "(.*?)" + close, s, re.DOTALL)` finds: the leftmost start,
      and for it the shortest match. */
  function LazySpan(s: string, open: string, close: string): (r: Option<Span>)
    ensures r.Some? ==> IsLazyMatch(s, open, close, r.value.start, r.value.close)
    ensures r.Some? ==> forall i: nat, j: nat :: IsLazyMatch(s, open, close, i, j) ==>
                          r.value.start < i || (r.value.start == i && r.value.close <= j)
    ensures r.None? <==> forall i: nat, j: nat :: !IsLazyMatch(s, open, close, i, j)
  {
    match FindFrom(s, open, 0)
    case None => None
    case Some(i) =>
      match FindFrom(s, close, i + |open|)
      case None => None
      case Some(j) =>
        assert IsLazyMatch(s, open, close, i, j);
        Some(Span(i, j))
  }

  /** The text between the delimiters of a span (the regex's group 1). */
  function Inner(s: string, open: string, sp: Span): string
    requires sp.start + |open| <= sp.close <= |s|
  {
    s[sp.start + |open|..sp.close]
  }

  /** `{` at `i` and `}` at `j` after it: one way `\{.*\}` can match. */
  predicate IsBraceMatch(s: string, i: nat, j: nat) {
    i < j < |s| && s[i] == '{' && s[j] == '}'
  }

  /** Index of the last occurrence of `c` in `s`. */
  function LastIndexOf(s: string, c: char): (r: Option<nat>)
    ensures r.Some? ==> r.value < |s| && s[r.value] == c
                        && forall k :: r.value < k < |s| ==> s[k] != c
    ensures r.None? ==> c !in s
  {
    if |s| == 0 then None
    else if s[|s| - 1] == c then Some(|s| - 1)
    else LastIndexOf(s[..|s| - 1], c)
  }

  /** What `re.search(r"\{.*\}", s, re.DOTALL)` finds: the leftmost `{` and, greedily,
      the last `}` after it; no match when no `}` follows any `{`. */
  function GreedyBraces(s: string): (r: Option<Span>)
    ensures r.Some? ==> IsBraceMatch(s, r.value.start, r.value.close)
    ensures r.Some? ==> forall i: nat, j: nat :: IsBraceMatch(s, i, j) ==>
                          r.value.start <= i && j <= r.value.close
    ensures r.None? <==> forall i: nat, j: nat :: !IsBraceMatch(s, i, j)
  {
    match FindFrom(s, "{", 0)
    case None =>
      assert forall i, j :: IsBraceMatch(s, i, j) ==> OccursAt(s, "{", i) by {
        forall i: nat, j: nat | IsBraceMatch(s, i, j) ensures OccursAt(s, "{", i) {
          assert s[i..i + 1] == "{";
        }
      }
      None
    case Some(i) =>
      OccursAtChars(s, "{", i, 0);
      assert forall i', j :: IsBraceMatch(s, i', j) ==> i <= i' by {
        forall i': nat, j: nat | IsBraceMatch(s, i', j) ensures i <= i' {
          assert s[i'..i' + 1] == "{";
          assert OccursAt(s, "{", i');
        }
      }
      match LastIndexOf(s, '}')
      case None => None
      case Some(j) =>
        if i < j then
          assert IsBraceMatch(s, i, j);
          Some(Span(i, j))
        else None
  }

  /** The text `\{.*\}` matched, both braces included. */
  function BraceText(s: string, sp: Span): string
    requires sp.start <= sp.close < |s|
  {
    s[sp.start..sp.close + 1]
  }

  /** What `re.sub(open + ".*?" + close, "", s, flags=re.DOTALL)` returns: every lazy span,
      scanning left to right without overlap, removed; the text around them kept. */
  function RemoveSpans(s: string, open: string, close: string): (r: string)
    requires |open| > 0
    decreases |s|
    ensures |r| <= |s|
    ensures r != s ==> |r| + |open| + |close| <= |s|
  {
    match LazySpan(s, open, close)
    case None => s
    case Some(sp) =>
      s[..sp.start] + RemoveSpans(s[sp.close + |close|..], open, close)
  }

  /** With no complete span in it, a text passes through `RemoveSpans` unchanged. */
  lemma RemoveSpansNoMatch(s: string, open: string, close: string)
    requires |open| > 0
    requires forall i: nat, j: nat :: !IsLazyMatch(s, open, close, i, j)
    ensures RemoveSpans(s, open, close) == s
  {
  }

  /** The five pieces of `a + open + b + close + c`, as slices of it. */
  lemma FivePieces(a: string, open: string, b: string, close: string, c: string)
    ensures var s := a + open + b + close + c;
            var i := |a| + |open|;
            var j := i + |b|;
            && s[0..|a|] == a && s[|a|..i] == open && s[i..j] == b
            && s[j..j + |close|] == close && s[j + |close|..] == c
  {
  }

  lemma LazySpanOfFinds(s: string, open: string, close: string, i: nat, j: nat)
    requires FindFrom(s, open, 0) == Some(i)
    requires FindFrom(s, close, i + |open|) == Some(j)
    ensures LazySpan(s, open, close) == Some(Span(i, j))
  {
  }

  /** The first span is the one at `i` and `j` when the stretch before `i` holds no
      opening delimiter, the stretch between the two delimiters holds no closing one, and
      neither delimiter's first character reappears later in it. */
  lemma SpanAt(s: string, open: string, close: string, i: nat, j: nat)
    requires |open| > 0 && |close| > 0
    requires open[0] !in open[1..] && close[0] !in close[1..]
    requires i + |open| <= j && OccursAt(s, open, i) && OccursAt(s, close, j)
    requires !Contains(s[0..i], open) && !Contains(s[i + |open|..j], close)
    ensures LazySpan(s, open, close) == Some(Span(i, j))
  {
    FindAfterPlainGap(s, open, 0, i);
    FindAfterPlainGap(s, close, i + |open|, j);
    LazySpanOfFinds(s, open, close, i, j);
  }

  /** In a text made of a span-free gap, one span and a rest, that span is the first. */
  lemma FirstSpanAfterGap(a: string, b: string, c: string, open: string, close: string)
    requires |open| > 0 && |close| > 0
    requires open[0] !in open[1..] && close[0] !in close[1..]
    requires !Contains(a, open) && !Contains(b, close)
    ensures LazySpan(a + open + b + close + c, open, close)
              == Some(Span(|a|, |a| + |open| + |b|))
  {
    FivePieces(a, open, b, close, c);
    SpanAt(a + open + b + close + c, open, close, |a|, |a| + |open| + |b|);
  }

  /** `RemoveSpans` of a text made of a span-free gap, one span and a rest is the gap
      followed by `RemoveSpans` of the rest, provided neither delimiter's first character
      reappears later in that delimiter (true of `<think>` and `</think>`). */
  lemma RemoveSpansCons(a: string, b: string, c: string, open: string, close: string)
    requires |open| > 0 && |close| > 0
    requires open[0] !in open[1..] && close[0] !in close[1..]
    requires !Contains(a, open) && !Contains(b, close)
    ensures RemoveSpans(a + open + b + close + c, open, close) == a + RemoveSpans(c, open, close)
  {
    var s := a + open + b + close + c;
    FirstSpanAfterGap(a, b, c, open, close);
    FivePieces(a, open, b, close, c);
    assert s[..|a|] == s[0..|a|];
  }

  /** `RemoveSpans` of a text that opens with a span is `RemoveSpans` of what follows it. */
  lemma RemoveSpansHead(b: string, c: string, open: string, close: string)
    requires |open| > 0 && |close| > 0
    requires open[0] !in open[1..] && close[0] !in close[1..]
    requires !Contains(b, close)
    ensures RemoveSpans(open + b + close + c, open, close) == RemoveSpans(c, open, close)
  {
    LeadingSpan(b, c, open, close);
    FivePieces([], open, b, close, c);
    assert [] + open + b + close + c == open + b + close + c;
  }

  /** The inside of a leading span, as a slice of the text. */
  lemma LeadingInside(open: string, b: string, close: string, c: string)
    ensures (open + b + close + c)[|open|..|open| + |b|] == b
  {
    var s := open + b + close + c;
    assert s == open + (b + close + c);
  }

  /** In a text that opens with a span, that span is the first. */
  lemma LeadingSpan(b: string, c: string, open: string, close: string)
    requires |open| > 0 && |close| > 0
    requires open[0] !in open[1..] && close[0] !in close[1..]
    requires !Contains(b, close)
    ensures LazySpan(open + b + close + c, open, close) == Some(Span(0, |open| + |b|))
  {
    var e: string := [];
    assert e + open + b + close + c == open + b + close + c;
    FirstSpanAfterGap(e, b, c, open, close);
  }

  /** The delimiters of the reasoning text the model emits before its answer. */
  const ThinkOpen := "<think>"
  const ThinkClose := "</think>"

  /** `re.sub(r"<think>.*?</think>", "", s, flags=re.DOTALL)`. */
  function RemoveThinks(s: string): (r: string)
    ensures |r| <= |s|
  {
    RemoveSpans(s, ThinkOpen, ThinkClose)
  }

  /** A text without `<think>` passes through unchanged. */
  lemma NoOpenKeepsText(s: string)
    requires !Contains(s, ThinkOpen)
    ensures RemoveThinks(s) == s
  {
    forall i: nat, j: nat ensures !IsLazyMatch(s, ThinkOpen, ThinkClose, i, j) {
      NotContainsNoOccurrence(s, ThinkOpen, i);
    }
    RemoveSpansNoMatch(s, ThinkOpen, ThinkClose);
  }

  /** A reply that opens with a think span and has none after it keeps only what follows. */
  lemma ThinkThenPlain(b: string, c: string)
    requires !Contains(b, ThinkClose) && !Contains(c, ThinkOpen)
    ensures RemoveThinks(ThinkOpen + b + ThinkClose + c) == c
  {
    assert ThinkOpen[1..] == "think>";
    assert ThinkClose[1..] == "/think>";
    RemoveSpansHead(b, c, ThinkOpen, ThinkClose);
    NoOpenKeepsText(c);
  }

  /** `re.sub(r"<think>.*?</think>", "", s, flags=re.DOTALL).strip()`: the model's reply
      with its reasoning removed and the surrounding whitespace stripped. */
  function StripThinks(s: string): (r: string)
    ensures |r| <= |s|
  {
    Strip(RemoveThinks(s))
  }

  /** A think span followed by a think-free rest comes down to the stripped rest. */
  lemma StripThinksAfterThink(b: string, c: string)
    requires !Contains(b, ThinkClose) && !Contains(c, ThinkOpen)
    ensures StripThinks(ThinkOpen + b + ThinkClose + c) == Strip(c)
  {
    ThinkThenPlain(b, c);
  }

  /** A trimmed, think-free text comes through unchanged. */
  lemma StripThinksKeepsPlain(t: string)
    requires !Contains(t, ThinkOpen)
    requires |t| > 0 ==> !IsSpace(t[0]) && !IsSpace(t[|t| - 1])
    ensures StripThinks(t) == t
  {
    NoOpenKeepsText(t);
    StripTrimmed(t);
  }
}
