/** What `ask_financial_question` hands back to its caller, assembled from the outcome of
    the refinement loop and, on success, the formatted answer. */
module Assistant {
  import opened Wrappers
  import opened Text
  import opened Spans
  import opened SqlExtract
  import opened Results
  import opened Formatter
  import opened Refinement

  /** The two tuple shapes the function returns: the four-tuple
      `(sql, answer, {"columns", "rows"}, think_texts)`, which every failure path returns
      whatever the flags say, and the pair `(answer, think_texts)`. */
  datatype Reply =
    | Full(sql: Option<string>, answer: string, result: Option<Table>, thinks: Option<seq<string>>)
    | Brief(answer: string, thoughts: seq<string>)
  {
    /** The think texts the reply carries, none when it carries no list. */
    function ThinkTexts(): seq<string> {
      if Full? then thinks.GetOr([]) else thoughts
    }
  }

  /** The environment the loop runs in: the real reply parser and the two oracles. */
  function EnvOf(refine: Refiner, execute: Executor): (env: Env)
    ensures WellFormed(env)
  {
    Env(CleanSqlResponse, refine, execute)
  }

  /** The answer text of a run that found rows: `format_human_response` of the question
      and the result set; `None` when it raises or when the run found no rows. */
  function Formatted(question: string, run: Run, insights: Option<string>): (r: Option<string>)
    ensures r.Some? ==> run.outcome.Answered?
    ensures run.outcome.Answered? && |run.outcome.table.rows| == 0 ==> r == Some(NoResults)
    ensures run.outcome.Answered? ==>
              r == FormatHumanResponse(question, run.outcome.table.columns, run.outcome.table.rows, insights)
  {
    match run.outcome
    case Answered(_, table, _) => FormatHumanResponse(question, table.columns, table.rows, insights)
    case _ => None
  }

  /** The return statements of `ask_financial_question`, given how the loop ended and,
      when it found rows, the formatted answer. `None` stands for the exception Python
      raises: a `None` model reply reaching `re.search`, or `format_human_response`
      failing. */
  function Assemble(returnSql: bool, returnResult: bool, run: Run, env: Env,
                    formatted: Option<string>): (r: Option<Reply>)
    requires Finished(run, env)
    ensures r.None? <==> run.outcome.Crashed? || (run.outcome.Answered? && formatted.None?)
    ensures r.Some? && !r.value.Full? ==> Some(r.value.answer) == formatted
    ensures r.Some? && r.value.Full? && r.value.result.Some? ==> Some(r.value.answer) == formatted
    // Failure paths return the four-tuple with no result; only a failed first parse
    // leaves out the think list, and only an exhausted loop keeps its SQL.
    ensures r.Some? && r.value.Full? && r.value.result.None? ==>
              && r.value.answer in {NoQueryMessage, RefinementFailedMessage, ExhaustedMessage}
              && (r.value.thinks.None? <==> r.value.answer == NoQueryMessage)
              && (r.value.sql.Some? <==> r.value.answer == ExhaustedMessage)
    // The answer form follows the flags only when a query succeeded.
    ensures r.Some? && r.value.Brief? ==> !(returnSql && returnResult)
    ensures r.Some? && returnSql && returnResult ==> r.value.Full?
    ensures r.Some? ==> r.value.ThinkTexts() == if run.outcome.HasThinks() then ThinksOf(env.parse, run.replies) else []
    // The tuple each way of ending returns.
    ensures run.outcome.NoQuery? ==> r == Some(Full(None, NoQueryMessage, None, None))
    ensures run.outcome.RefinementFailed? ==>
              r == Some(Full(None, RefinementFailedMessage, None, Some(ThinksOf(env.parse, run.replies))))
    ensures run.outcome.Exhausted? ==>
              r == Some(Full(env.parse(run.replies[MaxRetries - 1]).sql, ExhaustedMessage, None,
                             Some(ThinksOf(env.parse, run.replies))))
    ensures run.outcome.Answered? && formatted.Some? ==>
              var last := env.parse(run.replies[|run.replies| - 1]);
              var thinks := ThinksOf(env.parse, run.replies);
              r == Some(if returnSql && returnResult
                        then Full(last.sql, formatted.value, Some(run.outcome.table), Some(thinks))
                        else Brief(formatted.value, thinks))
  {
    match run.outcome
    case Crashed => None
    case NoQuery => Some(Full(None, NoQueryMessage, None, None))
    case RefinementFailed(thinks) => Some(Full(None, RefinementFailedMessage, None, Some(thinks)))
    case Exhausted(sql, thinks) => Some(Full(Some(sql), ExhaustedMessage, None, Some(thinks)))
    case Answered(sql, table, thinks) =>
      match formatted
      case None => None
      case Some(answer) =>
        if returnSql && returnResult then Some(Full(Some(sql), answer, Some(table), Some(thinks)))
        else Some(Brief(answer, thinks))
  }

  /** The "failed to generate" four-tuple comes back exactly when the only reply received
      failed to parse. */
  lemma NoQueryReply(returnSql: bool, returnResult: bool, run: Run, env: Env, formatted: Option<string>)
    requires WellFormed(env) && Finished(run, env)
    ensures Assemble(returnSql, returnResult, run, env, formatted) == Some(Full(None, NoQueryMessage, None, None))
            <==> |run.replies| == 1 && env.parse(run.replies[0]).error.Some?
  {
  }

  /** The result handed back is what the database returned for the SQL handed back,
      which is the SQL of the last model reply. */
  lemma AnsweredReply(returnSql: bool, returnResult: bool, run: Run, env: Env, formatted: Option<string>)
    requires Finished(run, env)
    ensures var r := Assemble(returnSql, returnResult, run, env, formatted);
            r.Some? && r.value.Full? && r.value.result.Some? ==>
              && run.outcome.Answered? && |run.replies| > 0 && r.value.sql.Some?
              && env.execute(|run.replies| - 1, r.value.sql.value) == Rows(r.value.result.value)
              && env.parse(run.replies[|run.replies| - 1]).sql == r.value.sql
  {
  }

  /** The "failed after multiple retries" answer comes back exactly when `MaxRetries`
      statements were executed and every one of them failed, and it carries the SQL of
      the last reply. */
  lemma ExhaustedReply(returnSql: bool, returnResult: bool, run: Run, env: Env, formatted: Option<string>)
    requires WellFormed(env) && Finished(run, env)
    ensures var r := Assemble(returnSql, returnResult, run, env, formatted);
            r.Some? && r.value.Full? && r.value.result.None? && r.value.answer == ExhaustedMessage
            <==> |run.replies| == MaxRetries && forall k :: 0 <= k < MaxRetries ==> FailedAt(env, k, run.replies[k])
    ensures var r := Assemble(returnSql, returnResult, run, env, formatted);
            r.Some? && r.value.Full? && r.value.result.None? && r.value.answer == ExhaustedMessage ==>
              r.value.sql == env.parse(run.replies[MaxRetries - 1]).sql
  {
    if run.outcome.Exhausted? {
      forall k | 0 <= k < MaxRetries ensures FailedAt(env, k, run.replies[k]) {
        if k < MaxRetries - 1 {
          assert FailedAt(env, k, run.replies[k]);
        }
      }
    }
  }

  /** `ask_financial_question(question, return_sql, return_result)`: the loop run with the
      real reply parser, then the return statements. */
  function Ask(question: string, returnSql: bool, returnResult: bool, initial: Option<string>,
               refine: Refiner, execute: Executor, insights: Option<string>): (r: Option<Reply>)
    ensures initial.None? ==> r.None?
    ensures r.Some? && r.value.Full? && r.value.result.None? && r.value.answer == NoQueryMessage ==>
              initial.Some? && FirstFence(initial.value) in {None, Some("")}
    ensures var run := Converse(initial, EnvOf(refine, execute));
            r.Some? && r.value.Full? && r.value.result.Some? ==>
              && r.value.sql.Some? && |run.replies| > 0
              && FirstFence(run.replies[|run.replies| - 1]) == r.value.sql
              && execute(|run.replies| - 1, r.value.sql.value) == Rows(r.value.result.value)
    ensures r.Some? ==> |r.value.ThinkTexts()| <= MaxRetries
    ensures initial.Some? && FirstFence(initial.value) in {None, Some("")} ==>
              r == Some(Full(None, NoQueryMessage, None, None))
  {
    var env := EnvOf(refine, execute);
    var run := Converse(initial, env);
    var formatted := Formatted(question, run, insights);
    NoQueryRun(initial, refine, execute);
    NoQueryReply(returnSql, returnResult, run, env, formatted);
    AnsweredReply(returnSql, returnResult, run, env, formatted);
    Assemble(returnSql, returnResult, run, env, formatted)
  }

  /** A first reply without a usable fence ends the conversation at once. */
  lemma NoQueryRun(initial: Option<string>, refine: Refiner, execute: Executor)
    ensures initial.Some? ==>
              (Converse(initial, EnvOf(refine, execute)).outcome.NoQuery? <==> FirstFence(initial.value) in {None, Some("")})
  {
  }

  /** Every think text the answer carries is the stripped, non-empty first think span of
      one of the model replies. */
  lemma AskThinks(question: string, returnSql: bool, returnResult: bool, initial: Option<string>,
                  refine: Refiner, execute: Executor, insights: Option<string>)
    ensures var r := Ask(question, returnSql, returnResult, initial, refine, execute, insights);
            var run := Converse(initial, EnvOf(refine, execute));
            r.Some? ==> forall t :: t in r.value.ThinkTexts() ==>
              t != "" && exists k :: 0 <= k < |run.replies| && FirstThink(run.replies[k]) == Some(t)
  {
    ThinksAreFirstThinks(Converse(initial, EnvOf(refine, execute)).replies);
  }

  /** Every think text collected from a list of replies is the stripped first think span
      of one of them. */
  lemma ThinksAreFirstThinks(replies: seq<string>)
    ensures forall t :: t in ThinksOf(CleanSqlResponse, replies) ==>
              exists k :: 0 <= k < |replies| && FirstThink(replies[k]) == Some(t)
  {
    ThinksFromReplies(CleanSqlResponse, replies);
    forall t | t in ThinksOf(CleanSqlResponse, replies)
      ensures exists k :: 0 <= k < |replies| && FirstThink(replies[k]) == Some(t)
    {
      var k :| 0 <= k < |replies| && CleanSqlResponse(replies[k]).think == Some(t);
      ThinkIsFirstThink(replies[k]);
    }
  }

  /** The think text `clean_sql_response` passes along is the reply's first think span. */
  lemma ThinkIsFirstThink(reply: string)
    ensures CleanSqlResponse(reply).think.Some? ==> CleanSqlResponse(reply).think == FirstThink(reply)
  {
  }

  /** A first reply that parses to SQL the database answers ends the loop at once with
      that SQL, its table and the reply's think text. */
  lemma AnsweredAtOnce(reply: string, sql: string, think: string, refine: Refiner, execute: Executor,
                       table: Table)
    requires CleanSqlResponse(reply) == Cleaned(Some(sql), Some(think), None)
    requires execute(0, sql) == Rows(table)
    ensures Converse(Some(reply), EnvOf(refine, execute))
            == Run(Answered(sql, table, if think == "" then [] else [think]), [reply])
  {
    FirstSuccessAnswers(reply, EnvOf(refine, execute), sql, table);
  }

  /** End to end: a first reply that thinks, then fences a query the database answers
      with no rows, yields that query, the "no transactions" answer, the rows and the
      think text. */
  lemma FirstReplyAnswered(question: string, t: string, q: string, rest: string,
                           refine: Refiner, execute: Executor, insights: Option<string>,
                           columns: seq<string>)
    requires !Contains(t, ThinkClose) && !Contains(t, FenceOpen)
    requires !Contains(q, FenceClose) && |q| > 0 && q[|q| - 1] != '`' && Strip(q) != ""
    requires execute(0, Strip(q)) == Rows(Table(columns, []))
    ensures var reply := ThinkOpen + t + ThinkClose + FenceOpen + q + FenceClose + rest;
            Ask(question, true, true, Some(reply), refine, execute, insights)
            == Some(Full(Some(Strip(q)), NoResults, Some(Table(columns, [])),
                         Some(if Strip(t) == "" then [] else [Strip(t)])))
  {
    var reply := ThinkOpen + t + ThinkClose + FenceOpen + q + FenceClose + rest;
    CleanRoundTrip(t, q, rest);
    AnsweredAtOnce(reply, Strip(q), Strip(t), refine, execute, Table(columns, []));
    assert FormatHumanResponse(question, columns, [], insights) == Some(NoResults);
  }
}
