# Financial AI assistant: the reply-handling and data-cleaning core in Dafny

The application answers questions about a person's bank transactions. It does three
things with text, and this project models all three as pure functions:

- **The question loop** (`app/deepseek_ai.py`). A local language model is asked for one
  MySQL query.
  - `clean_sql_response` pulls out two things from the reply: the SQL of its first
    ```` ```sql … ``` ```` fence, and the text of its first `<think>…</think>` span.
  - The query is executed. On a database error, the SQL and the error go back to the
    model for a corrected query. At most `MAX_RETRIES` = 3 executions happen.
  - `format_human_response` turns a result set into a sentence or a Markdown table.
    It then appends the model's insights with the think spans removed.
- **Batch categorisation** (`app/csv_ai.py`, `batch_categorize_transactions`). The model
  replies once with a JSON object that maps each description to a category.
  - Think spans are removed and whitespace is stripped.
  - The greedy `\{.*\}` search picks out the object.
  - Each description is looked up, defaulting to "Other".
  - Every failure gives every row "Other".
- **CSV cleaning** (`app/processing.py`, `clean_and_process_csv`). Each row goes through
  these steps:
  - the columns are selected;
  - `YYYYMMDD` dates are rewritten as `YYYY-MM-DD`;
  - the row is tagged Income or Expense by the sign of its amount;
  - the amount is made non-negative;
  - income rows that are card payments are dropped;
  - `month_year` is added.

The model, the database, `json.loads` and `pd.to_numeric` are oracles. Each is passed
in as a parameter, so every property holds whatever they return.

Modules, in dependency order:

- `Wrappers`: `Option`.
- `Text`: Python `str` operations.
  - `find` is `FindFrom`; `in` is `Contains`.
  - `strip` uses the 29 characters of `str.isspace`.
  - Also `lower` on ASCII, `join` and `split("\n")`.
- `Selection`: boolean-mask filtering.
- `Digits`: zero-padded decimal digits.
- `Spans`: the three regular expressions, as span searches.
  - The lazy `open(.*?)close` is the first opener, then the first closer after it.
  - The greedy `\{.*\}` is the first `{`, then the last `}`.
  - `re.sub` of think spans.
- `SqlExtract`: `clean_sql_response`.
- `Results`: result sets.
- `Formatter`: `format_human_response`.
- `Refinement`: the retry loop, with the reply parser as a parameter.
- `Assistant`: `ask_financial_question`.
- `JsonText` and `Categorize`: `batch_categorize_transactions`.
- `Processing`: `clean_and_process_csv`.

Three behaviours of the source that are easy to misread:

- **A failed first model call.** `query_ollama` returns `None`, and
  `clean_sql_response(None)` then raises inside `re.search`
  (`app/deepseek_ai.py:44`, reached from lines 176-180). No failure message is returned.
  The model gives no reply (`Crashed`).
- **The JSON object.** The greedy `\{.*\}` search (`app/csv_ai.py:82`) runs from the
  first `{` to the last `}`, whether or not the braces between them balance.
- **Database errors.** A refused connection and a rejected statement both come back from
  `execute_sql` as an error string (`app/deepseek_ai.py:60-61` and 70-71). They drive the
  same refinement step and share one retry budget, so the model keeps them as one kind of
  failure.

## Model

| member | source | states |
|---|---|---|
| Spans.LazySpan | app/deepseek_ai.py:44 | The span found is a match; it starts leftmost and, for that start, ends at the nearest closer; no span exactly when no opener is followed by a closer |
| Spans.GreedyBraces | app/csv_ai.py:82 | The span found is a `{`…`}` pair that encloses every other such pair (leftmost `{`, rightmost `}`); no span exactly when no `}` follows a `{` |
| Spans.FirstSpanAfterGap | app/deepseek_ai.py:44 | In gap + open + body + close + rest, with no opener in the gap and no closer in the body, the span found is exactly that one |
| Spans.RemoveSpansCons | app/csv_ai.py:76 | Removing spans keeps a span-free prefix, drops the first span whatever it contains, and carries on with the rest |
| Spans.NoOpenKeepsText | app/csv_ai.py:76 | A reply without `<think>` passes through think removal unchanged |
| Spans.ThinkThenPlain | app/csv_ai.py:76 | A reply that opens with one think span and has no other keeps exactly what follows the span |
| Spans.StripThinksAfterThink | app/deepseek_ai.py:136 | Removing think spans and then stripping a leading span followed by plain text gives the stripped text |
| Text.StripSlice | app/deepseek_ai.py:45 | `strip()` keeps a contiguous slice of its argument, and everything it cuts off on either side is whitespace |
| Text.StripEmptyIff | app/deepseek_ai.py:49-51 | A stripped group is empty exactly when the group was all whitespace, which is when `if not sql_query` fails |
| Text.StripIdempotent | app/deepseek_ai.py:45 | Stripping twice is stripping once |
| Text.StripKeepsAbsent | app/csv_ai.py:76 | Stripping introduces no character, so a text without `{` has none after stripping |
| SqlExtract.StrippedGroup | app/deepseek_ai.py:44-49 | A group is reported exactly when the pattern matches somewhere; it is the stripped text between the delimiters of the leftmost, shortest match, so it has no surrounding whitespace |
| SqlExtract.CleanSqlResponse | app/deepseek_ai.py:40-54 | The error is reported exactly when the SQL is missing, which is when the fence is missing or holds only whitespace; the error triple carries nothing else; on success the SQL is the first fence's stripped text, non-empty, and the think text is the first think span's |
| SqlExtract.CleanRoundTrip | app/deepseek_ai.py:40-54 | A reply built as think span + SQL fence + anything comes apart into exactly the stripped SQL and the stripped think text, with no error |
| SqlExtract.FenceInsideThinkIsTaken | app/deepseek_ai.py:48 | The fence search also covers the think span: a fence written inside the reasoning is the SQL that is returned |
| Formatter.FormatHumanResponse | app/deepseek_ai.py:94-138 | No rows give the fixed "no transactions" text. Otherwise there is an answer exactly when the insights reply exists and the one-column, one-row case does not index an empty row. The answer is exactly the sentence (for a single int or float) or the Markdown table, then the "AI Insights" heading, then the insights with think spans removed and stripped |
| Formatter.InsightsAtEnd | app/deepseek_ai.py:133-138 | A non-empty result ends with the "AI Insights" heading followed by the insights with their think spans removed and stripped |
| Formatter.SeparatorMatchesHeader | app/deepseek_ai.py:105-106 | The separator row is as long as the header row, with one run of dashes as long as each column name |
| Formatter.TableLines | app/deepseek_ai.py:103-109 | Read back line by line, the table is: title, blank, header, separator, then one line per result row in order, then the empty text after the last newline |
| Formatter.ScalarHasNoTable | app/deepseek_ai.py:100-101 | The sentence form contains the value's text, and contains no table bar when neither the column name nor the value does |
| Refinement.NewThinks | app/deepseek_ai.py:186 | A reply adds at most one think text, and adds one exactly when its think text is present and non-empty |
| Refinement.ThinksOfAppend | app/deepseek_ai.py:212-213 | The think list of a longer conversation is the old list followed by the new replies' think texts |
| Refinement.ThinksFromReplies | app/deepseek_ai.py:186-213 | Every collected think text is the think text the parser found in one of the replies |
| Refinement.Attempts | app/deepseek_ai.py:190-219 | From any loop iteration, the run ends in a way the replies justify: an answer whose SQL is the last reply's and whose rows the database returned for it; an exhausted loop after exactly `MAX_RETRIES` replies, the last of which failed; a refinement parse failure; or a crash before the last iteration |
| Refinement.Converse | app/deepseek_ai.py:176-219 | The whole loop finishes in a justified way; there are no replies exactly when the first model call failed; the first reply is the initial one; "no query" happens exactly when the first reply fails to parse |
| Refinement.RunLoop | app/deepseek_ai.py:190-219 | The counted loop with `break` and early `return`s computes exactly `Converse` |
| Refinement.FirstSuccessAnswers | app/deepseek_ai.py:194-198 | When the first query runs, the conversation ends at once with that query, its rows and the first reply's think text |
| Refinement.AllFailuresExhaust | app/deepseek_ai.py:217-219 | When every execution fails and every refinement parses, the loop gives up after exactly `MAX_RETRIES` replies |
| Assistant.Formatted | app/deepseek_ai.py:221-222 | A run with rows gets `format_human_response` of its own columns and rows (the "no transactions" text when they are empty); any other run gets no answer text |
| Assistant.Assemble | app/deepseek_ai.py:182-227 | Each way of ending gives its own tuple. A failed first parse gives `(None, "AI failed…", None, None)`. A failed refinement gives `(None, "SQL refinement failed.", None, thinks)`. An exhausted loop gives the last reply's SQL, "Failed after multiple retries.", no result and the thinks. An answered run gives the four-tuple with its SQL, answer, table and thinks when both flags are set, and the pair otherwise. There is no reply (Python raises) exactly on a crash or a formatting failure. The think list is the one the replies produced |
| Assistant.NoQueryReply | app/deepseek_ai.py:182-184 | The "failed to generate" four-tuple comes back if and only if the only reply received failed to parse |
| Assistant.AnsweredReply | app/deepseek_ai.py:221-227 | A returned result set is what the database returned for the returned SQL, which is the last reply's SQL |
| Assistant.ExhaustedReply | app/deepseek_ai.py:217-219 | The "failed after multiple retries" answer comes back if and only if `MAX_RETRIES` replies were received and each of their queries failed; it carries the last reply's SQL |
| Assistant.Ask | app/deepseek_ai.py:143-227 | A failed first model call raises. The "failed to generate" tuple comes back if and only if the first reply has no usable fence. A returned result is what the database returned for the SQL of the last reply's first fence. At most `MAX_RETRIES` think texts come back |
| Assistant.NoQueryRun | app/deepseek_ai.py:176-184 | The conversation stops after the first reply exactly when that reply has no ```` ```sql ```` fence or the fence holds only whitespace |
| Assistant.AskThinks | app/deepseek_ai.py:186-213 | Every think text returned is non-empty and is the stripped first think span of one of the model's replies |
| Assistant.FirstReplyAnswered | app/deepseek_ai.py:143-227 | End to end: a first reply with a think span and a fenced query that returns no rows yields that query, the "no transactions" text, the empty table and the think text |
| JsonText.JsonObjectText | app/csv_ai.py:82 | Text is found exactly when some `}` follows some `{`; it is the slice from a `{` to a `}` that encloses every other such pair, i.e. from the first `{` to the last `}`, so it starts with `{` and ends with `}` |
| JsonText.ExtractJson | app/csv_ai.py:74-84 | A missing or empty reply yields nothing to parse |
| JsonText.WholeObjectParsed | app/csv_ai.py:74-91 | A reply that is exactly one brace-delimited object, with no think span, is handed to the parser whole |
| JsonText.JsonOnlyInThink | app/csv_ai.py:76-82 | Braces that appear only inside the think span are removed with it, so nothing is handed to the parser |
| Categorize.ParseWithRetries | app/csv_ai.py:85-102 | The retry loop parses the same text each time, so its result is the single parse and it counts either no failure or `max_retries` failures |
| Categorize.Column | app/csv_ai.py:95-111 | One category per description: with a dictionary, the mapped category when the description is present and a key, and "Other" when it is missing (NaN) or not a key; with none, "Other" everywhere |
| Categorize.Categories | app/csv_ai.py:72-115 | One category per row: each description's entry in the parsed dictionary, or "Other" when it has none or the description is missing; all "Other" when the reply yields no JSON text or it does not parse |
| Categorize.AssignColumn | app/csv_ai.py:95 | The row-by-row assignment computes the column `Column` describes |
| Categorize.BatchCategorize | app/csv_ai.py:31-117 | The function as written (reply checks, retry loop, column assignment) computes `Categories` |
| Categorize.SameDescriptionSameCategory | app/csv_ai.py:95 | Rows with equal descriptions get equal categories |
| Categorize.MissingDescriptionOther | app/csv_ai.py:95 | A row whose description is missing (NaN) gets "Other" whatever the reply, since no JSON key equals NaN |
| Categorize.WholeObjectCategorized | app/csv_ai.py:82-97 | For a reply that is one parsable object, each row gets its description's entry in the parsed dictionary, or "Other" |
| Categorize.JsonInsideThinkIgnored | app/csv_ai.py:74-111 | A reply whose JSON is only inside the think span leaves every row "Other" |
| Digits.ValueOfPad | app/processing.py:13 | Reading back a zero-padded number gives the number |
| Digits.PadOfValue | app/processing.py:13 | Zero-padding the value of a run of digits to its length gives the run back |
| Processing.ParseCompact | app/processing.py:13 | An accepted date is a real calendar day within the `Timestamp` range, and writing it as `%Y%m%d` gives the input back |
| Processing.ParseCompactOfCompact | app/processing.py:13 | Every convertible day is read back from its `%Y%m%d` text |
| Processing.IsoInsertsDashes | app/processing.py:13-14 | Rewriting a date only inserts two dashes: `YYYYMMDD` becomes `YYYY-MM-DD` |
| Processing.MonthYearIsPrefix | app/processing.py:30 | `month_year` is the first seven characters of the rewritten date |
| Processing.ConvertDate | app/processing.py:13-14 | Conversion raises exactly for a present text that is not a convertible `%Y%m%d` day, naming that text; a missing cell stays missing; a converted day writes back to the cell's text |
| Processing.FirstBadDate | app/processing.py:13-14 | No bad date is reported exactly when every cell of the column converts; a reported text is that of a cell in the column that does not |
| Processing.ToNumeric | app/processing.py:17 | A number comes out exactly when the cell is present and parses, and it is the parsed number; everything else is NaN |
| Processing.AbsAmount | app/processing.py:23 | `abs()` keeps NaN as NaN and turns a number into a non-negative one of the same magnitude |
| Processing.SignKeptInKind | app/processing.py:20-23 | The original amount is recoverable: it is the stored amount, negated exactly for rows tagged Income |
| Processing.Normalize | app/processing.py:9-30 | The description is column 5. Both dates are present exactly when their cells are, and are the cell text with dashes inserted. The row is Income exactly when its amount parses to a negative number. The stored amount is present exactly when the amount parses, and is its absolute value. `month_year` is present exactly with the date and is its first seven characters |
| Processing.FilterMembers | app/processing.py:26-27 | A row survives the filter exactly when it is not income whose description contains the card-payment text, ignoring case |
| Processing.ExpensesSurvive | app/processing.py:26-27 | Expense rows are never removed, whatever their description |
| Processing.FilterRows | app/processing.py:26-27 | The row-by-row filter computes `Filter` |
| Selection.SelectAppend | app/processing.py:26-27 | Filtering distributes over concatenation, so kept rows keep their relative order |
| Selection.KeptPositions | app/processing.py:26-27 | The positions a boolean mask keeps: every one holds a kept element, they increase strictly, and no kept position is missing |
| Selection.SelectAtPositions | app/processing.py:26-27 | Masking returns exactly the elements at the kept positions, in order and once each, so it neither reorders nor merges equal rows |
| Processing.CleanAndProcess | app/processing.py:4-32 | The call returns exactly when the frame has six columns and every date converts. Any other width raises the column-count error for the remaining count. A returned frame has no more rows than the input, and is the filter applied to the normalised rows in input order |
| Processing.ProcessedRows | app/processing.py:4-32 | A transaction is in a returned frame exactly when some input row normalises to it and it passes the filter |
| Processing.ProcessedInOrder | app/processing.py:21-27 | Row `k` of a returned frame is the normalised input row at the `k`-th position the filter keeps: input order, and duplicate rows stay duplicated |
| Processing.BadDateRaises | app/processing.py:13-14 | A date that does not convert makes the call raise, naming the first unconvertible cell of the `date` column, or else of the `posting_date` column; that text is one of the frame's date cells |

## Left out

- HTTP calls, database connections and `time.sleep` are left out. The model's replies
  and the database's answers are parameters. The prompts' wording does not matter to the
  control flow, so prompts are not modelled.
- A database connection failure in `execute_sql` returns a message like any rejected
  statement. It is one more failed execution, with that message as the feedback.
- Logging and `print` calls are left out.
- The Streamlit pages and the remaining modules of the repository are not part of this
  model.
- `json.loads` is an oracle. JSON values that are not strings, and dictionaries with
  non-string keys, are not modelled: the dictionary is `map<string, string>`.
- `pd.read_csv` is not modelled. Cells are text or missing, so type inference is out:
  a date column read as integers, or as floats because a value is missing, is not
  modelled. `pd.to_numeric` is an oracle.
- `pd.to_datetime` is modelled for its exact `%Y%m%d` form only: eight digits naming a
  calendar day in the `Timestamp` range. Any other leniency pandas may show is not
  modelled.
- Processing.ParseCompact: accepts only eight-digit texts, which is narrower than what
  some pandas versions accept for `format="%Y%m%d"`.
- Case-insensitive matching lower-cases ASCII letters only. Python's `IGNORECASE` also
  equates a few non-ASCII letters with ASCII ones, such as the Kelvin sign and `k`.
- The `str()` rendering of result values is taken as given, as the text of each cell.
  Float formatting is not modelled.
- A `None` reply from the model makes Python raise `TypeError` inside `re.search` or
  `re.sub`. The model represents this as a missing result (`Crashed`, or `None` from
  `Ask` and `FormatHumanResponse`) rather than as an exception value.
- JsonText.ExtractJson: its contract states only the reply checks. The brace shape of
  the extracted text (first `{` to last `}`) is stated on `JsonText.JsonObjectText`, and its provenance by
  `JsonText.WholeObjectParsed` and `JsonText.JsonOnlyInThink`.
