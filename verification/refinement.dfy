/** `ask_financial_question`: generate SQL from the question, execute it, and on failure
    feed the error back to the model for a corrected query, up to `MaxRetries` executions.
    The model and the database are oracles:
      - `initial`, the reply to the SQL-generation prompt (`None` when the endpoint failed);
      - `refine(k, fb)`, the reply to the refinement prompt sent after execution `k` failed;
      - `execute(k, sql)`, what execution number `k` (counting from 0) reports.
    The reply parser is a parameter too, so that the loop's proofs do not depend on how
    replies are parsed; module Assistant passes `CleanSqlResponse`. */
module Refinement {
  import opened Wrappers
  import opened SqlExtract
  import opened Results

  const MaxRetries: nat := 3
  const NoQueryMessage := "AI failed to generate a valid query."
  const RefinementFailedMessage := "SQL refinement failed."
  const ExhaustedMessage := "Failed after multiple retries."

  /** What one `execute_sql` call reports: a result set, or an error message (a refused
      connection and a rejected statement alike). */
  datatype Execution = Rows(table: Table) | DbError(message: string)

  /** The arguments of one `refine_sql_with_feedback` call. */
  datatype Feedback = Feedback(sql: string, error: string)

  type Refiner = (nat, Feedback) -> Option<string>
  type Executor = (nat, string) -> Execution

  /** The parser applied to every model reply, and the two oracles. */
  datatype Env = Env(parse: string -> Cleaned, refine: Refiner, execute: Executor)

  /** The parser reports an error exactly when it finds no SQL, and then has no think
      text either, as `clean_sql_response` does. */
  ghost predicate WellFormed(env: Env) {
    forall reply ::
      && (env.parse(reply).error.None? <==> env.parse(reply).sql.Some?)
      && (env.parse(reply).error.Some? ==> env.parse(reply).think.None?)
  }

  /** How a question ends. `Crashed` is the `TypeError` Python raises when a model reply
      is `None` and reaches `re.search`. */
  datatype Outcome =
    | Answered(sql: string, table: Table, thinks: seq<string>)
    | NoQuery
    | RefinementFailed(thinks: seq<string>)
    | Exhausted(sql: string, thinks: seq<string>)
    | Crashed
  {
    predicate HasThinks() {
      Answered? || RefinementFailed? || Exhausted?
    }
  }

  /** An outcome together with the model replies received on the way, in order. Every
      other call is determined by the replies: reply `k` yields the SQL of execution `k`,
      and a failed execution `k` yields the feedback that reply `k + 1` answers. */
  datatype Run = Run(outcome: Outcome, replies: seq<string>)

  /** Execution `k` of the SQL parsed from `reply` failed. */
  predicate FailedAt(env: Env, k: nat, reply: string) {
    env.parse(reply).sql.Some? && env.execute(k, env.parse(reply).sql.value).DbError?
  }

  /** The feedback sent after execution `k` of the SQL of `reply` failed. */
  function FeedbackAt(env: Env, k: nat, reply: string): (fb: Feedback)
    requires FailedAt(env, k, reply)
    ensures Some(fb.sql) == env.parse(reply).sql
    ensures env.execute(k, fb.sql) == DbError(fb.error)
  {
    var sql := env.parse(reply).sql.value;
    Feedback(sql, env.execute(k, sql).message)
  }

  /** Every reply but the last led to a failed execution, and the next reply is the
      model's answer to that failure's feedback. */
  predicate Chained(replies: seq<string>, env: Env) {
    forall k :: 0 <= k < |replies| - 1 ==>
      FailedAt(env, k, replies[k]) && env.refine(k, FeedbackAt(env, k, replies[k])) == Some(replies[k + 1])
  }

  /** What a reply adds to the accumulated think list (`if think_text: append`): its think
      text when there is one and it is not empty. */
  function NewThinks(c: Cleaned): (r: seq<string>)
    ensures |r| <= 1
    ensures |r| == 1 <==> c.think.Some? && c.think != Some("")
    ensures |r| == 1 ==> Some(r[0]) == c.think
  {
    match c.think
    case Some(t) => if t != "" then [t] else []
    case None => []
  }

  /** The non-empty think texts of a sequence of replies, in order. */
  function ThinksOf(parse: string -> Cleaned, replies: seq<string>): (r: seq<string>)
    ensures |r| <= |replies|
    ensures forall t :: t in r ==> t != ""
  {
    if |replies| == 0 then [] else NewThinks(parse(replies[0])) + ThinksOf(parse, replies[1..])
  }

  lemma {:induction false} ThinksOfAppend(parse: string -> Cleaned, a: seq<string>, b: seq<string>)
    ensures ThinksOf(parse, a + b) == ThinksOf(parse, a) + ThinksOf(parse, b)
  {
    if |a| == 0 {
      assert a + b == b;
    } else {
      assert (a + b)[0] == a[0];
      assert (a + b)[1..] == a[1..] + b;
      ThinksOfAppend(parse, a[1..], b);
    }
  }

  /** Every think text collected from a list of replies is the think text the parser
      found in one of them. */
  lemma {:induction false} ThinksFromReplies(parse: string -> Cleaned, replies: seq<string>)
    ensures forall t :: t in ThinksOf(parse, replies) ==>
              exists k :: 0 <= k < |replies| && parse(replies[k]).think == Some(t)
  {
    if |replies| > 0 {
      ThinksFromReplies(parse, replies[1..]);
      forall t | t in ThinksOf(parse, replies)
        ensures exists k :: 0 <= k < |replies| && parse(replies[k]).think == Some(t)
      {
        if t in NewThinks(parse(replies[0])) {
          assert parse(replies[0]).think == Some(t);
        } else {
          var k :| 0 <= k < |replies[1..]| && parse(replies[1..][k]).think == Some(t);
          assert parse(replies[k + 1]).think == Some(t);
        }
      }
    }
  }

  /** What a finished run promises about how it ended, in terms of its replies. */
  predicate Finished(r: Run, env: Env) {
    var n := |r.replies|;
    && Chained(r.replies, env) && n <= MaxRetries
    && (r.outcome.HasThinks() ==> r.outcome.thinks == ThinksOf(env.parse, r.replies))
    && (r.outcome.Answered? ==>
          && n > 0 && env.parse(r.replies[n - 1]).sql == Some(r.outcome.sql)
          && env.execute(n - 1, r.outcome.sql) == Rows(r.outcome.table))
    && (r.outcome.Exhausted? ==>
          && n == MaxRetries && env.parse(r.replies[n - 1]).sql == Some(r.outcome.sql)
          && FailedAt(env, n - 1, r.replies[n - 1]))
    && (r.outcome.RefinementFailed? ==> n >= 2 && env.parse(r.replies[n - 1]).error.Some?)
    && (r.outcome.NoQuery? ==> n == 1 && env.parse(r.replies[0]).error.Some?)
    && (r.outcome.Crashed? && n > 0 ==>
          && n < MaxRetries && FailedAt(env, n - 1, r.replies[n - 1])
          && env.refine(n - 1, FeedbackAt(env, n - 1, r.replies[n - 1])).None?)
  }

  /** The state at the head of loop iteration `attempt`: one reply per iteration so far,
      chained, the last of which parsed to SQL, and the think list so far. */
  predicate AtAttempt(attempt: nat, thinks: seq<string>, replies: seq<string>, env: Env) {
    && |replies| == attempt + 1 && Chained(replies, env)
    && env.parse(replies[attempt]).sql.Some?
    && thinks == ThinksOf(env.parse, replies)
  }

  /** Appending the answer to the last reply's feedback keeps the replies chained. */
  lemma ChainedAppend(replies: seq<string>, reply: string, env: Env)
    requires Chained(replies, env) && |replies| > 0
    requires FailedAt(env, |replies| - 1, replies[|replies| - 1])
    requires env.refine(|replies| - 1, FeedbackAt(env, |replies| - 1, replies[|replies| - 1])) == Some(reply)
    ensures Chained(replies + [reply], env)
  {
  }

  /** After a failed execution, the model's answer to its feedback either ends the run
      with a parse failure or sets up the next iteration. */
  lemma RefinedStep(attempt: nat, thinks: seq<string>, replies: seq<string>, env: Env, reply: string)
    requires WellFormed(env)
    requires attempt < MaxRetries - 1 && AtAttempt(attempt, thinks, replies, env)
    requires FailedAt(env, attempt, replies[attempt])
    requires env.refine(attempt, FeedbackAt(env, attempt, replies[attempt])) == Some(reply)
    ensures env.parse(reply).error.Some? ==> Finished(Run(RefinementFailed(thinks), replies + [reply]), env)
    ensures env.parse(reply).error.None? ==>
              AtAttempt(attempt + 1, thinks + NewThinks(env.parse(reply)), replies + [reply], env)
  {
    ChainedAppend(replies, reply, env);
    ThinksOfAppend(env.parse, replies, [reply]);
  }

  /** The loop `for attempt in range(MAX_RETRIES)` from iteration `attempt` on: execute
      the current SQL; stop on success; otherwise, before the last iteration, send the
      SQL and its error back to the model and parse the reply, stopping on a parse error
      and carrying on with the new SQL otherwise; after the last iteration, give up. */
  function Attempts(attempt: nat, thinks: seq<string>, replies: seq<string>, env: Env): (r: Run)
    requires WellFormed(env)
    requires attempt < MaxRetries && AtAttempt(attempt, thinks, replies, env)
    decreases MaxRetries - attempt
    ensures Finished(r, env) && replies <= r.replies && !r.outcome.NoQuery?
    ensures r.outcome.Crashed? ==> attempt < |r.replies| < MaxRetries
  {
    var sql := env.parse(replies[attempt]).sql.value;
    match env.execute(attempt, sql)
    case Rows(t) => Run(Answered(sql, t, thinks), replies)
    case DbError(msg) =>
      if attempt < MaxRetries - 1 then
        match env.refine(attempt, Feedback(sql, msg))
        case None => Run(Crashed, replies)
        case Some(reply) =>
          RefinedStep(attempt, thinks, replies, env, reply);
          var c := env.parse(reply);
          if c.error.Some? then Run(RefinementFailed(thinks), replies + [reply])
          else Attempts(attempt + 1, thinks + NewThinks(c), replies + [reply], env)
      else Run(Exhausted(sql, thinks), replies)
  }

  /** The whole question, from the first model reply to the end of the loop. */
  function Converse(initial: Option<string>, env: Env): (r: Run)
    requires WellFormed(env)
    ensures Finished(r, env)
    ensures initial.None? <==> r.replies == []
    ensures initial.Some? ==> r.replies[0] == initial.value
    ensures r.outcome.NoQuery? <==> initial.Some? && env.parse(initial.value).error.Some?
  {
    match initial
    case None => Run(Crashed, [])
    case Some(reply) =>
      var c := env.parse(reply);
      if c.error.Some? then Run(NoQuery, [reply])
      else
        assert ThinksOf(env.parse, [reply]) == NewThinks(c);
        Attempts(0, NewThinks(c), [reply], env)
  }

  /** The loop as the source writes it: a counted loop over the attempts, leaving by
      `return` (a result or a failure) or by `break` (success); it computes `Converse`. */
  method RunLoop(initial: Option<string>, env: Env) returns (r: Run)
    requires WellFormed(env)
    ensures r == Converse(initial, env)
  {
    if initial.None? {
      return Run(Crashed, []);
    }
    var replies := [initial.value];
    var c := env.parse(initial.value);
    if c.error.Some? {
      return Run(NoQuery, replies);
    }
    var sql := c.sql.value;
    var thinks := NewThinks(c);
    assert ThinksOf(env.parse, replies) == thinks;
    for attempt := 0 to MaxRetries
      invariant attempt < MaxRetries && AtAttempt(attempt, thinks, replies, env)
      invariant sql == env.parse(replies[attempt]).sql.value
      invariant Attempts(attempt, thinks, replies, env) == Converse(initial, env)
    {
      var result := env.execute(attempt, sql);
      if result.Rows? {
        return Run(Answered(sql, result.table, thinks), replies);
      }
      if attempt < MaxRetries - 1 {
        var reply := env.refine(attempt, Feedback(sql, result.message));
        if reply.None? {
          return Run(Crashed, replies);
        }
        RefinedStep(attempt, thinks, replies, env, reply.value);
        replies := replies + [reply.value];
        c := env.parse(reply.value);
        if c.error.Some? {
          return Run(RefinementFailed(thinks), replies);
        }
        sql := c.sql.value;
        thinks := thinks + NewThinks(c);
      } else {
        return Run(Exhausted(sql, thinks), replies);
      }
    }
    assert false;
  }

  /** A first query that runs ends the conversation at once, with its rows. */
  lemma FirstSuccessAnswers(initial: string, env: Env, sql: string, table: Table)
    requires WellFormed(env)
    requires env.parse(initial).sql == Some(sql) && env.execute(0, sql) == Rows(table)
    ensures Converse(Some(initial), env) == Run(Answered(sql, table, NewThinks(env.parse(initial))), [initial])
  {
    assert ThinksOf(env.parse, [initial]) == NewThinks(env.parse(initial));
  }

  /** When every execution fails and every refinement parses, the loop gives up after
      exactly `MaxRetries` executions, having received one reply per execution. */
  lemma AllFailuresExhaust(initial: string, env: Env)
    requires WellFormed(env) && env.parse(initial).sql.Some?
    requires forall k, sql :: env.execute(k, sql).DbError?
    requires forall k, fb :: env.refine(k, fb).Some? && env.parse(env.refine(k, fb).value).sql.Some?
    ensures Converse(Some(initial), env).outcome.Exhausted?
    ensures |Converse(Some(initial), env).replies| == MaxRetries
  {
  }
}
