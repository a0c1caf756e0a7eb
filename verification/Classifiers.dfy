/**
  Reading upstream answers: the Retry-After value (section 10.2.3 of RFC 9110), the
  token usage in a body, and the three places that turn a status into a report about
  the key: chat requests, model-list requests and probes.
 */
module Classifiers {
  import opened KeyRows

  // -------------------------------------------------------------- Retry-After

  /** The header's text as a float: dates and other prose do not parse. */
  datatype RetryAfter = Absent | Unparsable | NotANumber | Infinite | Finite(seconds: real)

  const DEFAULT_RETRY := 60

  function Truncate(x: real): int {
    if x >= 0.0 then x.Floor else -((-x).Floor)
  }

  /** A number is cut towards zero: to the nearest whole number no further from zero. */
  lemma TruncateMeaning(x: real)
    ensures x >= 0.0 ==> 0 <= Truncate(x) && Truncate(x) as real <= x < Truncate(x) as real + 1.0
    ensures x <= 0.0 ==> Truncate(x) <= 0 && Truncate(x) as real - 1.0 < x <= Truncate(x) as real
  {
  }

  /** The cooldown asked for; an infinite value raises an error nobody catches. */
  function RetrySeconds(header: RetryAfter): Option<int> {
    match header
    case Finite(x) => Some(Max(1, Truncate(x)))
    case Infinite => None
    case _ => Some(DEFAULT_RETRY)
  }

  /**
    A cooldown is at least a second, and less than a second off any longer time asked for;
    without a number in the header it is a minute.
   */
  lemma RetrySecondsMeaning(header: RetryAfter)
    ensures header == Infinite <==> RetrySeconds(header) == None
    ensures header.Absent? || header.Unparsable? || header.NotANumber? ==> RetrySeconds(header) == Some(60)
    ensures RetrySeconds(header).Some? ==> RetrySeconds(header).value >= 1
    ensures header.Finite? && header.seconds >= 1.0
      ==> RetrySeconds(header).value as real <= header.seconds < RetrySeconds(header).value as real + 1.0
  {
    if header.Finite? && header.seconds >= 1.0 {
      assert header.seconds.Floor as real <= header.seconds < header.seconds.Floor as real + 1.0;
      assert header.seconds.Floor >= 1;
    }
  }

  // ------------------------------------------------------------------- bodies

  /**
    A reply's body.  Of a decoded one: the integer fields of its `usage` object and its
    own, and whether a model list can be read from it, which fails on a `data` field that
    cannot be walked.
   */
  datatype Body =
    | Undecodable
    | Payload(usage: Option<(Option<int>, Option<int>)>, native: (Option<int>, Option<int>), walkable: bool)

  predicate ReadsAsList(body: Body) { body.Payload? && body.walkable }

  function ParseUsage(body: Body): (Option<int>, Option<int>) {
    match body
    case Undecodable => (None, None)
    case Payload(Some(found), native, _) => if found != (None, None) then found else native
    case Payload(None, native, _) => native
  }

  // ------------------------------------------------------------------ answers

  datatype Answer =
    | Undecryptable                     // the stored key cannot be decrypted
    | NetworkFailure                    // timeout, TLS or transport error
    | Reply(code: int, retryAfter: RetryAfter, body: Body)
    | Crash                             // any other exception out of the call

  /** What the rotation does next. */
  datatype Outcome = Rotates(missing: bool) | Delivers(code: int) | Raises

  /** The report to record about the key, and what follows if recording succeeds. */
  datatype Plan = Plan(report: Option<Report>, outcome: Outcome)

  predicate Ok(code: int) { 200 <= code < 300 }

  function RateLimitPlan(code: int, header: RetryAfter, outcome: Outcome): Plan {
    match RetrySeconds(header)
    case Some(seconds) => Plan(Some(RateLimited(code, seconds)), outcome)
    case None => Plan(None, Raises)
  }

  function ChatSuccess(code: int, body: Body, stream: bool): Report {
    var (prompt, completion) := if stream then (None, None) else ParseUsage(body);
    if prompt != None || completion != None then SuccessWithUsage(code, prompt, completion)
    else Success(code)
  }

  /**
    The counts come from the `usage` object if it gives any, else from the body's own fields,
    and there are none in a body that does not decode.
   */
  lemma ParseUsageReads(body: Body)
    ensures body.Undecodable? ==> ParseUsage(body) == (None, None)
    ensures body.Payload? && body.usage.Some? && (body.usage.value.0.Some? || body.usage.value.1.Some?)
      ==> Some(ParseUsage(body)) == body.usage
    ensures body.Payload? && (body.usage.None? || (body.usage.value.0.None? && body.usage.value.1.None?))
      ==> ParseUsage(body) == body.native
  {
  }

  /** The chat dispatcher. */
  function ChatPlan(answer: Answer, stream: bool): Plan {
    match answer
    case Undecryptable => Plan(None, Rotates(false))
    case NetworkFailure => Plan(Some(ServerError(0)), Rotates(false))
    case Crash => Plan(None, Raises)
    case Reply(code, retryAfter, body) =>
      if Ok(code) then Plan(Some(ChatSuccess(code, body, stream)), Delivers(code))
      else if code == 401 || code == 403 then Plan(Some(Unauthorized(code)), Rotates(false))
      else if code == 404 then Plan(None, Rotates(true))
      else if code == 429 then RateLimitPlan(code, retryAfter, Rotates(false))
      else if code >= 500 then Plan(Some(ServerError(code)), Rotates(false))
      else Plan(None, Delivers(code))
  }

  /**
    The model-list request: it never rotates; `Delivers` is its one good exit.  The list
    is read from the body before anything is recorded, outside every handler.
   */
  function ModelsPlan(answer: Answer): Plan {
    match answer
    case Undecryptable => Plan(None, Rotates(false))
    case NetworkFailure => Plan(Some(ServerError(0)), Rotates(false))
    case Crash => Plan(None, Raises)
    case Reply(code, retryAfter, body) =>
      if Ok(code) && !ReadsAsList(body) then Plan(None, Raises)
      else if Ok(code) then Plan(Some(Success(200)), Delivers(code))
      else if code == 401 || code == 403 then Plan(Some(Unauthorized(code)), Rotates(false))
      else if code == 429 then RateLimitPlan(code, retryAfter, Rotates(false))
      else if code >= 500 then Plan(Some(ServerError(code)), Rotates(false))
      else Plan(None, Rotates(false))
  }

  /** The probe classifier: no status means the probe never got an answer. */
  function ProbePlan(status: Option<int>, retryAfter: RetryAfter): Plan {
    match status
    case None => Plan(None, Rotates(false))
    case Some(code) =>
      if Ok(code) then Plan(Some(Success(code)), Rotates(false))
      else if code == 401 || code == 403 || code == 404 then Plan(Some(Unauthorized(code)), Rotates(false))
      else if code == 429 then RateLimitPlan(code, retryAfter, Rotates(false))
      else if code >= 500 then Plan(Some(ServerError(code)), Rotates(false))
      else Plan(None, Rotates(false))
  }

  // ------------------------------------------------------- answers and endings

  predicate IsReply(answer: Answer, code: int) { answer.Reply? && answer.code == code }

  /** An answer that is passed through to the client: a 2xx, or one that says nothing of the key. */
  predicate PassesThrough(answer: Answer, code: int) {
    && IsReply(answer, code) && code < 500
    && code != 401 && code != 403 && code != 404 && code != 429
  }

  /** An answer after which the next key is tried: this one cannot be used now. */
  predicate TurnsAway(answer: Answer) {
    || answer.Undecryptable? || answer.NetworkFailure?
    || (answer.Reply? && (answer.code == 401 || answer.code == 403 || answer.code == 429 || answer.code >= 500))
  }

  /** The ending of an attempt fits its answer, unless it raises. */
  predicate Fits(o: Outcome, answer: Answer) {
    match o
    case Delivers(code) => PassesThrough(answer, code)
    case Rotates(missing) => if missing then IsReply(answer, 404) else TurnsAway(answer)
    case Raises => true
  }

  lemma ChatPlanFits(answer: Answer, stream: bool)
    ensures Fits(ChatPlan(answer, stream).outcome, answer)
  {
  }

  /** The list is taken from a 2xx it can be read from, and from no other answer. */
  lemma ModelsPlanDelivers(answer: Answer)
    ensures ModelsPlan(answer).outcome.Delivers? <==>
      answer.Reply? && 200 <= answer.code < 300 && answer.body.Payload? && answer.body.walkable
    ensures ModelsPlan(answer).outcome.Delivers? ==> ModelsPlan(answer).report == Some(Success(200))
    ensures ModelsPlan(answer).outcome == Raises <==>
      || answer.Crash?
      || (answer.Reply? && 200 <= answer.code < 300 && !(answer.body.Payload? && answer.body.walkable))
      || (IsReply(answer, 429) && answer.retryAfter == Infinite)
  {
  }

  // ---------------------------------------------------------------- agreement

  /** The plan raises, or recording its report does. */
  predicate Raising(row: Row, plan: Plan, now: int) {
    plan.outcome == Raises || (plan.report.Some? && !Storable(row, plan.report.value, now))
  }

  function Affected(row: Row, plan: Plan, now: int): Row {
    if plan.report.Some? && !Raising(row, plan, now) then Recorded(row, plan.report.value, now) else row
  }

  /** Equal in everything the scheduler looks at, and in both counters. */
  predicate SameStanding(a: Row, b: Row) {
    && a.status == b.status && a.cooldownUntil == b.cooldownUntil
    && a.totalRequests == b.totalRequests && a.totalFailures == b.totalFailures
  }

  predicate Agree(p: Plan, q: Plan, row: Row, now: int) {
    && (Raising(row, p, now) <==> Raising(row, q, now))
    && SameStanding(Affected(row, p, now), Affected(row, q, now))
  }

  /** A success whose body is no model list: only the model-list request looks. */
  predicate UnreadableList(code: int, body: Body) { Ok(code) && !ReadsAsList(body) }

  /** A success whose token counts no longer fit the row: only the chat request counts them. */
  predicate CountsTooMuch(row: Row, code: int, body: Body, stream: bool, now: int) {
    Ok(code) && !Storable(row, ChatSuccess(code, body, stream), now)
  }

  /**
    For every row: a chat request and a probe treat a reply alike exactly if it is neither a
    404 nor a success that counts too much, a model-list request and a probe exactly if it
    is neither a 404 nor a success without a readable list, and chat and model-list
    requests exactly if both or neither of these successes are the case.
   */
  lemma ClassifiersAgreeIff(row: Row, code: int, retryAfter: RetryAfter, body: Body, stream: bool, now: int)
    ensures var reply, probe := Reply(code, retryAfter, body), ProbePlan(Some(code), retryAfter);
      var tooMuch, unreadable := CountsTooMuch(row, code, body, stream, now), UnreadableList(code, body);
      && (Agree(ChatPlan(reply, stream), ModelsPlan(reply), row, now) <==> (tooMuch <==> unreadable))
      && (Agree(ChatPlan(reply, stream), probe, row, now) <==> code != 404 && !tooMuch)
      && (Agree(ModelsPlan(reply), probe, row, now) <==> code != 404 && !unreadable)
  {
  }

  /**
    Where there is no reply, chat and model-list requests treat the key alike: only a
    network failure counts against it; and a probe that got no status leaves it alone.
   */
  lemma NoReplyAgrees(answer: Answer, stream: bool, row: Row, now: int)
    requires !answer.Reply?
    ensures ChatPlan(answer, stream) == ModelsPlan(answer)
    ensures var after := Affected(row, ModelsPlan(answer), now);
      if answer.NetworkFailure?
      then after == row.(lastStatusCode := Some(0), totalFailures := row.totalFailures + 1) else after == row
    ensures forall header :: Affected(row, ProbePlan(None, header), now) == row
  {
  }

  /** Whoever records a reply notes its status on the row, but the model-list request notes every 2xx as 200. */
  lemma NotedStatus(row: Row, code: int, retryAfter: RetryAfter, body: Body, stream: bool, now: int)
    ensures var reply := Reply(code, retryAfter, body);
      var chat, models, probe := ChatPlan(reply, stream), ModelsPlan(reply), ProbePlan(Some(code), retryAfter);
      && (Affected(row, chat, now) == row || Affected(row, chat, now).lastStatusCode == Some(code))
      && (Affected(row, probe, now) == row || Affected(row, probe, now).lastStatusCode == Some(code))
      && (Affected(row, models, now) == row
          || Affected(row, models, now).lastStatusCode == Some(if 200 <= code < 300 then 200 else code))
  {
  }

  /**
    A 200 with a page that is no JSON: the chat request and the probe count a success, the
    model-list request raises and records nothing.
   */
  lemma UnreadableListDisagrees(stream: bool, row: Row, now: int)
    ensures var page := Reply(200, Absent, Undecodable);
      && ModelsPlan(page).outcome == Raises && Affected(row, ModelsPlan(page), now) == row
      && ChatPlan(page, stream).outcome == Delivers(200)
      && Affected(row, ChatPlan(page, stream), now).totalRequests == row.totalRequests + 1
      && Affected(row, ProbePlan(Some(200), Absent), now).totalRequests == row.totalRequests + 1
  {
  }

  /** A 200 that reports ten quintillion tokens: the chat request raises, the probe counts a success. */
  lemma HugeCountDisagrees(now: int)
    ensures var usage := (Some(10_000_000_000_000_000_000), None);
      var reply := Reply(200, Absent, Payload(Some(usage), (None, None), true));
      && Raising(FRESH_ROW, ChatPlan(reply, false), now)
      && Affected(FRESH_ROW, ChatPlan(reply, false), now) == FRESH_ROW
      && Affected(FRESH_ROW, ProbePlan(Some(200), Absent), now).totalRequests == 1
  {
  }
}
