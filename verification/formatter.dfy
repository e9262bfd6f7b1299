/** `format_human_response`: a result set rendered as one sentence or a Markdown table,
    followed by the model's insights with their think spans removed. The insights
    request itself is the `insights` parameter: the reply text, or `None` when the
    endpoint failed. */
module Formatter {
  import opened Wrappers
  import opened Text
  import opened Spans
  import opened Results

  const NoResults := "No relevant expense transactions found."
  const InsightsHeading := "\n\n### AI Insights:\n"

  /** "The {column with '_' -> ' '} is {value}." */
  function ScalarSentence(column: string, value: Cell): string {
    "The " + ReplaceChar(column, '_', ' ') + " is " + value.text + "."
  }

  function TitleLine(question: string): string {
    "### Results for: *" + question + "*"
  }

  function HeaderRow(columns: seq<string>): string {
    "| " + Join(columns, " | ") + " |"
  }

  /** `['-' * len(col) for col in columns]`. */
  function Dashes(columns: seq<string>): (r: seq<string>)
    ensures |r| == |columns|
    ensures forall i :: 0 <= i < |columns| ==> r[i] == Repeat('-', |columns[i]|)
  {
    seq(|columns|, i requires 0 <= i < |columns| => Repeat('-', |columns[i]|))
  }

  function SeparatorRow(columns: seq<string>): string {
    "| " + Join(Dashes(columns), " | ") + " |"
  }

  function RenderRow(row: seq<Cell>): string {
    "| " + Join(Texts(row), " | ") + " |"
  }

  /** Each line followed by a newline, as the f-strings that build the table do. */
  function Unlines(lines: seq<string>): string {
    if |lines| == 0 then "" else lines[0] + "\n" + Unlines(lines[1..])
  }

  function RenderRows(rows: seq<seq<Cell>>): (r: seq<string>)
    ensures |r| == |rows|
    ensures forall i :: 0 <= i < |rows| ==> r[i] == RenderRow(rows[i])
  {
    seq(|rows|, i requires 0 <= i < |rows| => RenderRow(rows[i]))
  }

  /** The Markdown form: title, blank line, header, separator, one line per row. */
  function TableText(question: string, columns: seq<string>, rows: seq<seq<Cell>>): string {
    Unlines([TitleLine(question), "", HeaderRow(columns), SeparatorRow(columns)] + RenderRows(rows))
  }

  /** The guard of the sentence form: one column, one row, and an int or float in it. */
  predicate IsScalar(columns: seq<string>, rows: seq<seq<Cell>>) {
    |columns| == 1 && |rows| == 1 && |rows[0]| > 0 && IsIntOrFloat(rows[0][0])
  }

  /** `rows[0][0]` on a one-column, one-row result whose row is empty raises `IndexError`. */
  predicate IndexFails(columns: seq<string>, rows: seq<seq<Cell>>) {
    |columns| == 1 && |rows| == 1 && |rows[0]| == 0
  }

  /** `format_human_response`; `None` stands for the exception Python raises, either
      indexing an empty row or running `re.sub` on a `None` insights reply. */
  function FormatHumanResponse(question: string, columns: seq<string>, rows: seq<seq<Cell>>,
                               insights: Option<string>): (r: Option<string>)
    ensures |rows| == 0 ==> r == Some(NoResults)
    ensures |rows| > 0 ==> (r.Some? <==> insights.Some? && !IndexFails(columns, rows))
    // The answer is the sentence or the table, the insights heading, then the insights
    // reply with its think spans removed and stripped.
    ensures r.Some? && insights.Some? && IsScalar(columns, rows) ==>
              r.value == ScalarSentence(columns[0], rows[0][0]) + InsightsHeading + StripThinks(insights.value)
    ensures r.Some? && insights.Some? && |rows| > 0 && !IsScalar(columns, rows) ==>
              r.value == TableText(question, columns, rows) + InsightsHeading + StripThinks(insights.value)
  {
    if |rows| == 0 then Some(NoResults)
    else if IndexFails(columns, rows) then None
    else
      var text := if IsScalar(columns, rows) then ScalarSentence(columns[0], rows[0][0])
                  else TableText(question, columns, rows);
      match insights
      case None => None
      case Some(ins) =>
        Some(text + InsightsHeading + StripThinks(ins))
  }

  /** A non-empty result ends with the insights heading and the insights reply with
      its think spans removed and stripped. */
  lemma InsightsAtEnd(question: string, columns: seq<string>, rows: seq<seq<Cell>>, insights: Option<string>)
    requires |rows| > 0 && FormatHumanResponse(question, columns, rows, insights).Some?
    ensures EndsWith(FormatHumanResponse(question, columns, rows, insights).value,
                     InsightsHeading + StripThinks(insights.value))
  {
    var text := if IsScalar(columns, rows) then ScalarSentence(columns[0], rows[0][0])
                else TableText(question, columns, rows);
    EndsWithTail(text, InsightsHeading, StripThinks(insights.value));
  }

  /** The separator row is exactly as long as the header row, so the Markdown columns line up. */
  lemma SeparatorMatchesHeader(columns: seq<string>)
    ensures |SeparatorRow(columns)| == |HeaderRow(columns)|
    ensures forall i :: 0 <= i < |columns| ==>
              |Dashes(columns)[i]| == |columns[i]| && forall c :: c in Dashes(columns)[i] ==> c == '-'
  {
    JoinSameLength(Dashes(columns), columns, " | ");
  }

  predicate NoNewlines(xs: seq<string>) {
    forall i :: 0 <= i < |xs| ==> '\n' !in xs[i]
  }

  /** Splitting newline-free lines, each followed by a newline, at the newlines gives
      the lines back, and the empty text after the last newline. */
  lemma {:induction false} UnlinesSplit(lines: seq<string>)
    requires NoNewlines(lines)
    ensures SplitLines(Unlines(lines)) == lines + [""]
  {
    if |lines| == 0 {
      assert FindFrom("", "\n", 0).None?;
    } else {
      SplitLinesCons(lines[0], Unlines(lines[1..]));
      UnlinesSplit(lines[1..]);
    }
  }

  lemma NoNewlineRows(question: string, columns: seq<string>, rows: seq<seq<Cell>>)
    requires '\n' !in question && NoNewlines(columns)
    requires forall i :: 0 <= i < |rows| ==> NoNewlines(Texts(rows[i]))
    ensures NoNewlines([TitleLine(question), "", HeaderRow(columns), SeparatorRow(columns)] + RenderRows(rows))
  {
    JoinNoNewline(columns, " | ");
    forall i | 0 <= i < |columns| ensures '\n' !in Dashes(columns)[i] {
    }
    JoinNoNewline(Dashes(columns), " | ");
    forall i | 0 <= i < |rows| ensures '\n' !in RenderRow(rows[i]) {
      JoinNoNewline(Texts(rows[i]), " | ");
    }
  }

  /** The table form reads, line by line: the title, a blank line, the header, the
      separator, then one line per result row in the original order. */
  lemma TableLines(question: string, columns: seq<string>, rows: seq<seq<Cell>>)
    requires '\n' !in question && NoNewlines(columns)
    requires forall i :: 0 <= i < |rows| ==> NoNewlines(Texts(rows[i]))
    ensures var lines := SplitLines(TableText(question, columns, rows));
            && |lines| == |rows| + 5
            && lines[..4] == [TitleLine(question), "", HeaderRow(columns), SeparatorRow(columns)]
            && (forall i :: 0 <= i < |rows| ==> lines[4 + i] == RenderRow(rows[i]))
            && lines[|rows| + 4] == ""
  {
    var head := [TitleLine(question), "", HeaderRow(columns), SeparatorRow(columns)];
    NoNewlineRows(question, columns, rows);
    UnlinesSplit(head + RenderRows(rows));
    LinesShape(SplitLines(TableText(question, columns, rows)), head, RenderRows(rows));
  }

  /** Where the parts of four heading lines, a body and a trailing empty line sit. */
  lemma LinesShape(lines: seq<string>, head: seq<string>, body: seq<string>)
    requires |head| == 4 && lines == head + body + [""]
    ensures |lines| == |body| + 5 && lines[..4] == head && lines[|body| + 4] == ""
    ensures forall i :: 0 <= i < |body| ==> lines[4 + i] == body[i]
  {
    assert lines[..4] == head;
  }

  /** The sentence form carries the value's text and no table bar when neither the
      column name nor the value contains one. */
  lemma ScalarHasNoTable(column: string, value: Cell)
    requires '|' !in column && '|' !in value.text
    ensures '|' !in ScalarSentence(column, value)
    ensures Contains(ScalarSentence(column, value), value.text)
  {
    var s := ScalarSentence(column, value);
    var at := 4 + |column| + 4;
    assert s[at..at + |value.text|] == value.text;
    assert OccursAt(s, value.text, at);
    ContainsIff(s, value.text);
  }
}
