/** `batch_categorize_transactions`: one model reply is expected to hold a JSON object
    mapping each transaction description to a category; every description is looked up
    in it, and anything that goes wrong gives every transaction the category "Other".
    The model reply is an oracle (`None` when the endpoint failed), and so is `json.loads`,
    as `parse`. */
module Categorize {
  import opened Wrappers
  import opened Text
  import opened Spans
  import opened JsonText

  const Other := "Other"
  const MaxParseAttempts: nat := 3

  /** `json.loads` on the extracted text: the object as a dictionary, or `None` for a
      `JSONDecodeError`. The text always starts with `{`, so a successful parse is an
      object. */
  type JsonParser = string -> Option<map<string, string>>

  /** The `while retry_count < max_retries` loop: it parses the same text each time, so
      it either succeeds at once, with no failure counted, or fails `MaxParseAttempts`
      times. */
  method ParseWithRetries(text: string, parse: JsonParser) returns (m: Option<map<string, string>>, failures: nat)
    ensures m == parse(text)
    ensures failures == if m.Some? then 0 else MaxParseAttempts
  {
    failures := 0;
    m := None;
    while failures < MaxParseAttempts
      invariant failures <= MaxParseAttempts
      invariant m.None?
      invariant failures > 0 ==> parse(text).None?
    {
      var parsed := parse(text);
      if parsed.Some? {
        m := parsed;
        break;
      }
      failures := failures + 1;
    }
  }

  /** A `description` cell: `None` for the NaN that `clean_and_process_csv` leaves in a
      missing description. */
  type Description = Option<string>

  /** `ai_category_map.get(desc, "Other")`. The keys of a parsed JSON object are strings,
      so a NaN description is never a key. */
  function Lookup(m: map<string, string>, desc: Description): (r: string)
    ensures desc.Some? && desc.value in m ==> r == m[desc.value]
    ensures desc.None? || desc.value !in m ==> r == Other
  {
    if desc.Some? && desc.value in m then m[desc.value] else Other
  }

  /** The dictionary the function ends up with: the parse of the extracted text, if
      there is one and it parses. */
  function CategoryMap(response: Option<string>, parse: JsonParser): (r: Option<map<string, string>>)
    ensures r.Some? ==> ExtractJson(response).Some? && r == parse(ExtractJson(response).value)
    ensures ExtractJson(response).Some? ==> r == parse(ExtractJson(response).value)
  {
    match ExtractJson(response)
    case None => None
    case Some(json) => parse(json)
  }

  /** The `Category` column, one entry per description: each looked up in the
      dictionary when there is one, every entry "Other" when there is none. */
  function Column(descs: seq<Description>, found: Option<map<string, string>>): (r: seq<string>)
    ensures |r| == |descs|
    ensures found.None? ==> forall i :: 0 <= i < |r| ==> r[i] == Other
    ensures found.Some? ==> forall i :: 0 <= i < |r| ==>
              && (descs[i].Some? && descs[i].value in found.value ==> r[i] == found.value[descs[i].value])
              && (descs[i].None? || descs[i].value !in found.value ==> r[i] == Other)
  {
    match found
    case None => seq(|descs|, i => Other)
    case Some(m) => seq(|descs|, i requires 0 <= i < |descs| => Lookup(m, descs[i]))
  }

  /** What `batch_categorize_transactions` assigns to the `Category` column. */
  function Categories(descs: seq<Description>, response: Option<string>, parse: JsonParser): (r: seq<string>)
    ensures |r| == |descs|
    ensures ExtractJson(response).None? ==> forall i :: 0 <= i < |r| ==> r[i] == Other
    ensures forall i :: 0 <= i < |r| ==>
              || r[i] == Other
              || (CategoryMap(response, parse).Some? && r[i] in CategoryMap(response, parse).value.Values)
    ensures CategoryMap(response, parse).Some? ==>
              forall i :: 0 <= i < |r| ==> r[i] == Lookup(CategoryMap(response, parse).value, descs[i])
  {
    Column(descs, CategoryMap(response, parse))
  }

  /** The column assignment a row at a time, as `df["description"].map(...)` or the
      broadcast of "Other" does it. */
  method AssignColumn(descs: seq<Description>, found: Option<map<string, string>>) returns (categories: seq<string>)
    ensures categories == Column(descs, found)
  {
    categories := [];
    for i := 0 to |descs|
      invariant categories == Column(descs, found)[..i]
    {
      var category := if found.Some? then Lookup(found.value, descs[i]) else Other;
      categories := categories + [category];
    }
  }

  /** The function as the source writes it: the reply checks, the retry loop, then the
      column assignment. */
  method BatchCategorize(descs: seq<Description>, response: Option<string>, parse: JsonParser)
    returns (categories: seq<string>)
    ensures categories == Categories(descs, response, parse)
  {
    var found: Option<map<string, string>> := None;
    var json := ExtractJson(response);
    if json.Some? {
      var m, failures := ParseWithRetries(json.value, parse);
      found := m;
    }
    categories := AssignColumn(descs, found);
  }

  /** Duplicate descriptions get the same category: the lookup is by description only. */
  lemma SameDescriptionSameCategory(descs: seq<Description>, response: Option<string>, parse: JsonParser,
                                    i: nat, j: nat)
    requires i < |descs| && j < |descs| && descs[i] == descs[j]
    ensures Categories(descs, response, parse)[i] == Categories(descs, response, parse)[j]
  {
  }

  /** A row whose description is missing is "Other" whatever the reply: no JSON key
      equals NaN. */
  lemma MissingDescriptionOther(descs: seq<Description>, response: Option<string>, parse: JsonParser, i: nat)
    requires i < |descs| && descs[i].None?
    ensures Categories(descs, response, parse)[i] == Other
  {
  }

  /** A reply that is exactly one JSON object, with no think span, is looked up as parsed. */
  lemma WholeObjectCategorized(descs: seq<Description>, t: string, parse: JsonParser, m: map<string, string>)
    requires |t| >= 2 && t[0] == '{' && t[|t| - 1] == '}'
    requires !Contains(t, ThinkOpen)
    requires parse(t) == Some(m)
    ensures forall i :: 0 <= i < |descs| ==> Categories(descs, Some(t), parse)[i] == Lookup(m, descs[i])
  {
    WholeObjectParsed(t);
  }

  /** A reply whose JSON sits only in its reasoning leaves every transaction "Other". */
  lemma JsonInsideThinkIgnored(b: string, c: string, descs: seq<Description>, parse: JsonParser)
    requires !Contains(b, ThinkClose)
    requires !Contains(c, ThinkOpen) && '{' !in c
    ensures forall i :: 0 <= i < |descs| ==> Categories(descs, Some(ThinkOpen + b + ThinkClose + c), parse)[i] == Other
  {
    JsonOnlyInThink(b, c);
  }
}
