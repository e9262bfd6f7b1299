/** The part of `batch_categorize_transactions` that finds the JSON text in a model
    reply: think spans removed, whitespace stripped, then the greedy brace search. */
module JsonText {
  import opened Wrappers
  import opened Text
  import opened Spans

  /** What `re.search(r"\{.*\}", s, re.DOTALL).group(0)` returns: from the first `{`
      to the last `}`, when a `}` follows a `{`. */
  function JsonObjectText(s: string): (r: Option<string>)
    ensures r.Some? <==> exists i: nat, j: nat :: IsBraceMatch(s, i, j)
    ensures r.Some? ==> exists i: nat, j: nat :: IsBraceMatch(s, i, j) && r.value == s[i..j + 1]
                          && forall i': nat, j': nat :: IsBraceMatch(s, i', j') ==> i <= i' && j' <= j
    ensures r.Some? ==> |r.value| >= 2 && r.value[0] == '{' && r.value[|r.value| - 1] == '}'
  {
    match GreedyBraces(s)
    case None => None
    case Some(sp) =>
      assert IsBraceMatch(s, sp.start, sp.close);
      Some(BraceText(s, sp))
  }

  /** A text with no `{` holds no brace span. */
  lemma NoBraceNoObject(s: string)
    requires '{' !in s
    ensures JsonObjectText(s) == None
  {
    assert forall i: nat, j: nat :: !IsBraceMatch(s, i, j);
  }

  /** A text that is one brace span from end to end is matched whole. */
  lemma WholeObjectMatched(t: string)
    requires |t| >= 2 && t[0] == '{' && t[|t| - 1] == '}'
    ensures JsonObjectText(t) == Some(t)
  {
    assert t[0..1] == "{";
    FindAt(t, "{", 0, 0);
    assert LastIndexOf(t, '}') == Some(|t| - 1);
    assert GreedyBraces(t) == Some(Span(0, |t| - 1));
    assert t[0..|t|] == t;
  }

  /** The text handed to `json.loads`, if the function gets that far: the reply must be
      present and non-empty and, after think removal and stripping, hold a brace span. */
  function ExtractJson(response: Option<string>): (r: Option<string>)
    ensures r.Some? ==> response.Some? && response.value != ""
  {
    match response
    case None => None
    case Some(reply) => if reply == "" then None else JsonObjectText(StripThinks(reply))
  }

  /** A reply that is one JSON object, with no think span, is parsed whole. */
  lemma WholeObjectParsed(t: string)
    requires |t| >= 2 && t[0] == '{' && t[|t| - 1] == '}'
    requires !Contains(t, ThinkOpen)
    ensures ExtractJson(Some(t)) == Some(t)
  {
    StripThinksKeepsPlain(t);
    WholeObjectMatched(t);
  }

  /** Braces that occur only inside a think span are removed with it: such a reply hands
      nothing to `json.loads`. */
  lemma JsonOnlyInThink(b: string, c: string)
    requires !Contains(b, ThinkClose)
    requires !Contains(c, ThinkOpen) && '{' !in c
    ensures ExtractJson(Some(ThinkOpen + b + ThinkClose + c)) == None
  {
    StripThinksAfterThink(b, c);
    StripKeepsAbsent(c, '{');
    NoBraceNoObject(Strip(c));
  }
}
