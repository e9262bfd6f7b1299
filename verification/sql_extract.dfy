/** `clean_sql_response`: splitting a model reply into the SQL of its first
    ```` ```sql … ``` ```` fence and the text of its first `<think>…</think>` span. */
module SqlExtract {
  import opened Wrappers
  import opened Text
  import opened Spans

  const FenceOpen := "```sql"
  const FenceClose := "```"
  const ExtractFailure := "Failed to extract SQL query from AI response."

  /** The triple `(sql_query, think_text, error)` the Python function returns. */
  datatype Cleaned = Cleaned(sql: Option<string>, think: Option<string>, error: Option<string>)

  /** `m.group(1).strip() if m else None` for `m` the first lazy match of `open(.*?)close`. */
  function StrippedGroup(s: string, open: string, close: string): (r: Option<string>)
    ensures r.Some? <==> exists i: nat, j: nat :: IsLazyMatch(s, open, close, i, j)
    ensures r.Some? ==> LazySpan(s, open, close).Some?
                        && var sp := LazySpan(s, open, close).value;
                           r.value == Strip(s[sp.start + |open|..sp.close])
    ensures r.Some? && |r.value| > 0 ==> !IsSpace(r.value[0]) && !IsSpace(r.value[|r.value| - 1])
  {
    match LazySpan(s, open, close)
    case None => None
    case Some(sp) => Some(Strip(Inner(s, open, sp)))
  }

  /** The stripped text of the first think span, or `None`. */
  function FirstThink(s: string): Option<string> {
    StrippedGroup(s, ThinkOpen, ThinkClose)
  }

  /** The stripped text of the first SQL fence, searched in the whole reply
      (think span included), or `None`. */
  function FirstFence(s: string): Option<string> {
    StrippedGroup(s, FenceOpen, FenceClose)
  }

  /** `clean_sql_response`: on success the SQL is non-empty and free of surrounding
      whitespace and the think text is passed along; when the fence is missing or holds
      only whitespace the result is the fixed error and any think text is dropped. */
  function CleanSqlResponse(response: string): (r: Cleaned)
    ensures r.error.Some? <==> r.sql.None?
    ensures r.error.Some? <==> FirstFence(response) in {None, Some("")}
    ensures r.error.Some? ==> r == Cleaned(None, None, Some(ExtractFailure))
    ensures r.sql.Some? ==> r.sql == FirstFence(response) && r.think == FirstThink(response)
    ensures r.sql.Some? ==> |r.sql.value| > 0 && !IsSpace(r.sql.value[0])
                            && !IsSpace(r.sql.value[|r.sql.value| - 1])
  {
    var sql := FirstFence(response);
    var think := FirstThink(response);
    if sql.None? || sql.value == "" then Cleaned(None, None, Some(ExtractFailure))
    else Cleaned(sql, think, None)
  }

  /** The think text found in a reply that opens with `<think>t</think>`. */
  lemma ThinkOfLeadingSpan(t: string, rest: string)
    requires !Contains(t, ThinkClose)
    ensures FirstThink(ThinkOpen + t + ThinkClose + rest) == Some(Strip(t))
  {
    assert ThinkOpen[1..] == "think>";
    assert ThinkClose[1..] == "/think>";
    LeadingSpan(t, rest, ThinkOpen, ThinkClose);
    LeadingInside(ThinkOpen, t, ThinkClose, rest);
  }

  /** In `<think>t</think>` + rest, the first SQL fence is the first one in `rest`,
      provided `t` holds no fence opener. */
  lemma NoFenceInLeadingSpan(t: string, rest: string)
    requires !Contains(t, FenceOpen)
    ensures forall k :: 0 <= k < |ThinkOpen| + |t| + |ThinkClose| ==>
              !OccursAt(ThinkOpen + t + ThinkClose + rest, FenceOpen, k)
  {
    var s := ThinkOpen + t + ThinkClose + rest;
    var m, n := |ThinkOpen|, |ThinkOpen| + |t|;
    assert forall k :: 0 <= k < m ==> s[k] == ThinkOpen[k];
    NoOccurrenceWithoutFirstChar(s, FenceOpen, 0, m);
    assert s == ThinkOpen + t + (ThinkClose + rest);
    NoOccurrenceInGap(ThinkOpen, t, ThinkClose + rest, FenceOpen);
    assert forall k :: n <= k < n + |ThinkClose| ==> s[k] == ThinkClose[k - n];
    NoOccurrenceWithoutFirstChar(s, FenceOpen, n, n + |ThinkClose|);
  }

  /** The closing fence after `q` is the first one, as long as `q` holds none and does
      not end in a backtick. */
  lemma FenceCloseAfter(w: string, q: string, rest: string)
    requires !Contains(q, FenceClose) && |q| > 0 && q[|q| - 1] != '`'
    ensures FindFrom(w + q + FenceClose + rest, FenceClose, |w|) == Some(|w| + |q|)
  {
    var s := w + q + FenceClose + rest;
    assert s == w + q + (FenceClose + rest);
    NoOccurrenceInGapByLast(w, q, FenceClose + rest, FenceClose);
    assert s[|w| + |q|..|w| + |q| + |FenceClose|] == FenceClose;
    FindAt(s, FenceClose, |w|, |w| + |q|);
  }

  /** The SQL found in a reply whose first fence, at `|pre|`, holds `q`. */
  lemma FenceAfter(pre: string, q: string, rest: string)
    requires forall k :: 0 <= k < |pre| ==> !OccursAt(pre + FenceOpen + q + FenceClose + rest, FenceOpen, k)
    requires !Contains(q, FenceClose) && |q| > 0 && q[|q| - 1] != '`'
    ensures FirstFence(pre + FenceOpen + q + FenceClose + rest) == Some(Strip(q))
  {
    var s := pre + FenceOpen + q + FenceClose + rest;
    FivePieces(pre, FenceOpen, q, FenceClose, rest);
    FenceCloseAfter(pre + FenceOpen, q, rest);
    FenceAt(s, |pre|, q);
  }

  /** The SQL found in a text whose first fence opener is at `i`, with `q` between it
      and the first closer after it. */
  lemma FenceAt(s: string, i: nat, q: string)
    requires i + |FenceOpen| + |q| <= |s| && s[i..i + |FenceOpen|] == FenceOpen
    requires s[i + |FenceOpen|..i + |FenceOpen| + |q|] == q
    requires forall k :: 0 <= k < i ==> !OccursAt(s, FenceOpen, k)
    requires FindFrom(s, FenceClose, i + |FenceOpen|) == Some(i + |FenceOpen| + |q|)
    ensures FirstFence(s) == Some(Strip(q))
  {
    var e := i + |FenceOpen| + |q|;
    FindAt(s, FenceOpen, 0, i);
    LazySpanOfFinds(s, FenceOpen, FenceClose, i, e);
    assert Inner(s, FenceOpen, Span(i, e)) == q;
  }

  lemma Regroup(a: string, b: string, c: string, d: string, e: string)
    ensures a + (b + c + d + e) == a + b + c + d + e
  {
  }

  lemma RegroupTail(a: string, b: string, c: string)
    ensures a + (b + c) == a + b + c
  {
  }

  /** Extraction round trip: a reply made of a think span followed by a SQL fence yields
      exactly the trimmed SQL and the trimmed think text, with no error. */
  lemma CleanRoundTrip(t: string, q: string, rest: string)
    requires !Contains(t, ThinkClose) && !Contains(t, FenceOpen)
    requires !Contains(q, FenceClose) && |q| > 0 && q[|q| - 1] != '`'
    requires Strip(q) != ""
    ensures CleanSqlResponse(ThinkOpen + t + ThinkClose + FenceOpen + q + FenceClose + rest)
            == Cleaned(Some(Strip(q)), Some(Strip(t)), None)
  {
    var pre := ThinkOpen + t + ThinkClose;
    var tail := FenceOpen + q + FenceClose + rest;
    var s := pre + FenceOpen + q + FenceClose + rest;
    Regroup(pre, FenceOpen, q, FenceClose, rest);
    ThinkOfLeadingSpan(t, tail);
    NoFenceInLeadingSpan(t, tail);
    assert forall k :: 0 <= k < |pre| ==> !OccursAt(s, FenceOpen, k);
    FenceAfter(pre, q, rest);
  }

  lemma NoFenceInThinkOpen(q: string, rest: string)
    ensures forall k :: 0 <= k < |ThinkOpen| ==> !OccursAt(ThinkOpen + FenceOpen + q + FenceClose + rest, FenceOpen, k)
  {
    var s := ThinkOpen + FenceOpen + q + FenceClose + rest;
    assert forall k :: 0 <= k < |ThinkOpen| ==> s[k] == ThinkOpen[k];
    NoOccurrenceWithoutFirstChar(s, FenceOpen, 0, |ThinkOpen|);
  }

  /** The fence is searched in the whole reply, think span included: a fence written
      inside the think span is the one whose SQL is returned. */
  lemma FenceInsideThinkIsTaken(q: string, rest: string)
    requires !Contains(q, FenceClose) && |q| > 0 && q[|q| - 1] != '`'
    requires Strip(q) != ""
    ensures CleanSqlResponse(ThinkOpen + FenceOpen + q + FenceClose + ThinkClose + rest).sql
            == Some(Strip(q))
  {
    RegroupTail(ThinkOpen + FenceOpen + q + FenceClose, ThinkClose, rest);
    NoFenceInThinkOpen(q, ThinkClose + rest);
    FenceAfter(ThinkOpen, q, ThinkClose + rest);
  }
}
