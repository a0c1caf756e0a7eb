/**
  The committed rows of the `api_keys` table and every write the service makes to
  them.  Instants are whole microseconds since the Unix epoch, the resolution of the
  datetimes the service stores.
 */
module KeyRows {

  datatype Option<+T> = None | Some(value: T)

  const SECOND := 1_000_000
  const SESSION_WINDOW := 24 * 60 * 60 * SECOND
  const WEEKLY_WINDOW := 7 * SESSION_WINDOW

  /** 9999-12-31T23:59:59.999999Z, the last instant a datetime can hold. */
  const LAST_INSTANT := 253_402_300_799_999_999

  /** The largest number an integer column can hold. */
  const LARGEST_INTEGER := 0x7FFF_FFFF_FFFF_FFFF

  type KeyId = nat

  datatype Status = Active | Depleted | Disabled

  /** A token window: when it was opened and what has been counted in it. */
  datatype Window = Window(startedAt: Option<int>, prompt: int, completion: int)

  const UNOPENED := Window(None, 0, 0)

  datatype Row = Row(
    status: Status,
    cooldownUntil: Option<int>,
    lastUsedAt: Option<int>,
    lastStatusCode: Option<int>,
    totalRequests: int,
    totalFailures: int,
    session: Window,
    weekly: Window,
    lastTokenAt: Option<int>)

  const FRESH_ROW := Row(Active, None, None, None, 0, 0, UNOPENED, UNOPENED, None)

  type Table = map<KeyId, Row>

  function Max(a: int, b: int): int { if a < b then b else a }

  // ------------------------------------------------------------------ one row

  /** What one upstream answer tells the manager about a key: its `record_*` calls. */
  datatype Report =
    | Success(code: int)
    | SuccessWithUsage(code: int, prompt: Option<int>, completion: Option<int>)
    | Unauthorized(code: int)
    | RateLimited(code: int, retryAfter: int)
    | ServerError(code: int)
  {
    predicate Succeeds() { Success? || SuccessWithUsage? }
  }

  /** Only a positive prompt count opens or feeds the windows. */
  predicate Counts(prompt: Option<int>) {
    prompt.Some? && prompt.value > 0
  }

  function CountedCompletion(completion: Option<int>): int {
    if completion.Some? && completion.value > 0 then completion.value else 0
  }

  /** A window that is unopened or has run its length starts over. */
  predicate Restarts(w: Window, length: int, now: int) {
    w.startedAt.None? || now - w.startedAt.value >= length
  }

  /** One counted event. */
  function Advance(w: Window, length: int, now: int, prompt: int, completion: int): Window {
    var current := if Restarts(w, length, now) then Window(Some(now), 0, 0) else w;
    Window(current.startedAt, current.prompt + prompt, current.completion + completion)
  }

  function CooldownEnd(now: int, retryAfter: int): int {
    now + Max(1, retryAfter) * SECOND
  }

  function CountTokens(row: Row, now: int, prompt: Option<int>, completion: Option<int>): Row {
    if Counts(prompt) then
      var done := CountedCompletion(completion);
      row.(session := Advance(row.session, SESSION_WINDOW, now, prompt.value, done),
           weekly := Advance(row.weekly, WEEKLY_WINDOW, now, prompt.value, done),
           lastTokenAt := Some(now))
    else
      row
  }

  function Succeeded(row: Row, code: int, now: int): Row {
    row.(status := Active, cooldownUntil := None, lastUsedAt := Some(now),
         lastStatusCode := Some(code), totalRequests := row.totalRequests + 1)
  }

  function Recorded(row: Row, report: Report, now: int): Row {
    match report
    case Success(code) => Succeeded(row, code, now)
    case SuccessWithUsage(code, prompt, completion) =>
      Succeeded(CountTokens(row, now, prompt, completion), code, now)
    case Unauthorized(code) =>
      row.(status := Disabled, cooldownUntil := None, lastStatusCode := Some(code),
           totalFailures := row.totalFailures + 1)
    case RateLimited(code, retryAfter) =>
      row.(status := Depleted, cooldownUntil := Some(CooldownEnd(now, retryAfter)),
           lastStatusCode := Some(code), totalFailures := row.totalFailures + 1)
    case ServerError(code) =>
      row.(lastStatusCode := Some(code), totalFailures := row.totalFailures + 1)
  }

  predicate Expired(row: Row, now: int) {
    row.status == Depleted && row.cooldownUntil.Some? && row.cooldownUntil.value <= now
  }

  function Revived(row: Row, now: int): Row {
    if Expired(row, now) then row.(status := Active, cooldownUntil := None) else row
  }

  function Cleared(row: Row): Row {
    row.(status := Active, cooldownUntil := None, lastStatusCode := None, totalFailures := 0)
  }

  // ---------------------------------------------------------------- the table

  /** A committed write to the table. */
  datatype Event =
    | Create(id: KeyId)
    | Delete(id: KeyId)
    | Patch(id: KeyId, status: Option<Status>)
    | ResetAll
    | Revive(now: int)
    | Record(id: KeyId, report: Report, now: int)

  predicate FitsColumns(w: Window) {
    w.prompt <= LARGEST_INTEGER && w.completion <= LARGEST_INTEGER
  }

  /**
    A cooldown past the last datetime and a token sum past the largest integer cannot be
    stored: the call raises instead.
   */
  predicate Storable(row: Row, report: Report, now: int) {
    match report
    case RateLimited(_, retryAfter) => CooldownEnd(now, retryAfter) <= LAST_INSTANT
    case SuccessWithUsage(_, prompt, completion) =>
      var counted := CountTokens(row, now, prompt, completion);
      FitsColumns(counted.session) && FitsColumns(counted.weekly)
    case _ => true
  }

  /** Whether the write happens.  Otherwise the call raises and commits nothing. */
  predicate Accepted(rows: Table, e: Event) {
    match e
    case Create(id) => id !in rows
    case Delete(id) => id in rows
    case Patch(id, _) => id in rows
    case ResetAll => true
    case Revive(_) => true
    case Record(id, report, now) => id in rows && Storable(rows[id], report, now)
  }

  function ReviveAll(rows: Table, now: int): Table {
    map id | id in rows :: Revived(rows[id], now)
  }

  function Commit(rows: Table, e: Event): Table
    requires Accepted(rows, e)
  {
    match e
    case Create(id) => rows[id := FRESH_ROW]
    case Delete(id) => map k | k in rows && k != id :: rows[k]
    case Patch(id, status) =>
      if status.Some? then rows[id := rows[id].(status := status.value)] else rows
    case ResetAll => map k | k in rows :: Cleared(rows[k])
    case Revive(now) => ReviveAll(rows, now)
    case Record(id, report, now) => rows[id := Recorded(rows[id], report, now)]
  }

  /** A log of writes, every one of which was accepted when it was made. */
  ghost predicate Valid(log: seq<Event>)
    decreases |log|, 0
  {
    log == [] || (Valid(log[..|log| - 1]) && Accepted(Replay(log[..|log| - 1]), log[|log| - 1]))
  }

  /** The table after a log of writes, starting from an empty one. */
  ghost function Replay(log: seq<Event>): Table
    requires Valid(log)
    decreases |log|, 1
  {
    if log == [] then map[]
    else Commit(Replay(log[..|log| - 1]), log[|log| - 1])
  }

  lemma Extend(log: seq<Event>, e: Event)
    requires Valid(log) && Accepted(Replay(log), e)
    ensures Valid(log + [e]) && Replay(log + [e]) == Commit(Replay(log), e)
  {
    assert (log + [e])[..|log|] == log;
  }

  // ------------------------------------------------------------- reactivation

  ghost function WithStatus(rows: Table, s: Status): set<KeyId> {
    set id | id in rows && rows[id].status == s
  }

  function ExpiredIds(rows: Table, now: int): set<KeyId> {
    set id | id in rows && Expired(rows[id], now)
  }

  lemma RevivedSets(rows: Table, now: int)
    ensures var after, expired := ReviveAll(rows, now), ExpiredIds(rows, now);
      && WithStatus(after, Active) == WithStatus(rows, Active) + expired
      && WithStatus(rows, Active) !! expired
      && WithStatus(rows, Depleted) == WithStatus(after, Depleted) + expired
      && WithStatus(after, Depleted) !! expired
      && WithStatus(after, Disabled) == WithStatus(rows, Disabled)
  {
    var after := ReviveAll(rows, now);
    assert forall id :: id in rows ==> id in after && after[id] == Revived(rows[id], now);
  }

  /** A key whose sleep is over by `now`. */
  predicate SleptOut(row: Row, now: int) {
    row.status == Depleted && row.cooldownUntil.Some? && now - row.cooldownUntil.value >= 0
  }

  /**
    Reactivation moves exactly the expired keys, as many as it reports, from depleted
    to active; the disabled keys and every other row stay as they were, no expired key
    is left, and doing it again changes nothing.
   */
  lemma ReviveConserves(rows: Table, now: int)
    ensures var after, n := ReviveAll(rows, now), |ExpiredIds(rows, now)|;
      && after.Keys == rows.Keys
      && |WithStatus(after, Active)| == |WithStatus(rows, Active)| + n
      && |WithStatus(after, Depleted)| == |WithStatus(rows, Depleted)| - n
      && WithStatus(after, Disabled) == WithStatus(rows, Disabled)
      && ExpiredIds(after, now) == {}
      && (forall id :: id in rows ==>
            after[id] == if SleptOut(rows[id], now) then rows[id].(status := Active, cooldownUntil := None)
                         else rows[id])
      && ReviveAll(after, now) == after
  {
    RevivedSets(rows, now);
    var after := ReviveAll(rows, now);
    forall id | id in rows
      ensures after[id] == if SleptOut(rows[id], now) then rows[id].(status := Active, cooldownUntil := None)
                           else rows[id]
      ensures !Expired(after[id], now) && Revived(after[id], now) == after[id]
    {
      RevivedRow(rows[id], now);
    }
  }

  lemma RevivedRow(row: Row, now: int)
    ensures var after := Revived(row, now);
      && after == (if SleptOut(row, now) then row.(status := Active, cooldownUntil := None) else row)
      && !Expired(after, now) && Revived(after, now) == after
  {
  }

  /** The three counters of the health report add up to the number of rows. */
  lemma StatusesPartition(rows: Table)
    ensures |WithStatus(rows, Active)| + |WithStatus(rows, Depleted)| + |WithStatus(rows, Disabled)| == |rows|
  {
    var a, d, x := WithStatus(rows, Active), WithStatus(rows, Depleted), WithStatus(rows, Disabled);
    assert rows.Keys == a + d + x;
    assert |a + d| == |a| + |d|;
    assert |a + d + x| == |a + d| + |x|;
  }

  // ------------------------------------------------- the writes, in numbers

  /** A sleep of so many seconds, but at least one, in microseconds. */
  ghost predicate Sleeps(now: int, retryAfter: int, until: int) {
    && (retryAfter >= 1 ==> until - now == retryAfter * 1_000_000)
    && (retryAfter < 1 ==> until - now == 1_000_000)
  }

  /**
    A rate-limit record puts its key to sleep for the seconds asked for, at least one, and
    is refused exactly if the key is gone or its sleep would last beyond the year 9999.
   */
  lemma RateLimitSleeps(rows: Table, id: KeyId, code: int, retryAfter: int, now: int) returns (until: int)
    ensures Sleeps(now, retryAfter, until)
    ensures var e := Record(id, RateLimited(code, retryAfter), now);
      && (Accepted(rows, e) <==> id in rows && until <= 253_402_300_799_999_999)
      && (Accepted(rows, e) ==>
            Commit(rows, e) == rows[id := rows[id].(status := Depleted, cooldownUntil := Some(until),
              lastStatusCode := Some(code), totalFailures := rows[id].totalFailures + 1)])
  {
    until := CooldownEnd(now, retryAfter);
  }

  /** What a success that reports these token counts makes of a window. */
  ghost predicate FedBy(before: Window, after: Window, length: int, now: int,
                        prompt: Option<int>, completion: Option<int>) {
    if prompt.Some? && prompt.value > 0 then
      var over := before.startedAt == None || before.startedAt.value + length <= now;
      && after.startedAt == (if over then Some(now) else before.startedAt)
      && after.prompt - (if over then 0 else before.prompt) == prompt.value
      && after.completion - (if over then 0 else before.completion)
         == if completion.Some? && completion.value > 0 then completion.value else 0
    else
      after == before
  }

  ghost predicate FedDayAndWeek(before: Row, after: Row, now: int, prompt: Option<int>, completion: Option<int>) {
    && FedBy(before.session, after.session, 86_400_000_000, now, prompt, completion)
    && FedBy(before.weekly, after.weekly, 604_800_000_000, now, prompt, completion)
    && after.lastTokenAt == if prompt.Some? && prompt.value > 0 then Some(now) else before.lastTokenAt
  }

  /**
    A success makes its key active, whatever it was, and counts one request; one with usage
    also feeds the windows of 24 hours and of 7 days with what was reported.
   */
  lemma SuccessCounts(rows: Table, id: KeyId, report: Report, now: int)
    requires report.Succeeds() && Accepted(rows, Record(id, report, now))
    ensures var before, after := rows[id], Commit(rows, Record(id, report, now))[id];
      && after == before.(status := Active, cooldownUntil := None, lastUsedAt := Some(now),
           lastStatusCode := Some(report.code), totalRequests := before.totalRequests + 1,
           session := after.session, weekly := after.weekly, lastTokenAt := after.lastTokenAt)
      && if report.Success? then FedDayAndWeek(before, after, now, None, None)
         else FedDayAndWeek(before, after, now, report.prompt, report.completion)
    ensures forall k :: k in rows && k != id ==> Commit(rows, Record(id, report, now))[k] == rows[k]
  {
  }

  /** A reset makes every key active and forgets its cooldown, last status and failures, and no more. */
  lemma ResetWakesAll(rows: Table)
    ensures var after := Commit(rows, ResetAll);
      && after.Keys == rows.Keys
      && WithStatus(after, Active) == rows.Keys
      && forall id :: id in rows ==>
           && after[id].cooldownUntil == None && after[id].lastStatusCode == None && after[id].totalFailures == 0
           && rows[id] == after[id].(status := rows[id].status, cooldownUntil := rows[id].cooldownUntil,
                lastStatusCode := rows[id].lastStatusCode, totalFailures := rows[id].totalFailures)
  {
  }

  /** A patch gives one key the status named, if one is, and changes nothing else anywhere. */
  lemma PatchSetsStatus(rows: Table, id: KeyId, status: Option<Status>)
    requires Accepted(rows, Patch(id, status))
    ensures var after := Commit(rows, Patch(id, status));
      && after.Keys == rows.Keys
      && (status.Some? ==> after[id].status == status.value)
      && (status.None? ==> after == rows)
      && (forall k :: k in rows ==> after[k].(status := rows[k].status) == rows[k])
      && (forall k :: k in rows && k != id ==> after[k] == rows[k])
  {
  }

  // ---------------------------------------------------------------- lifecycle

  ghost predicate CooldownRule(rows: Table) {
    forall id :: id in rows ==> (rows[id].cooldownUntil.Some? <==> rows[id].status == Depleted)
  }

  predicate PatchesStatus(e: Event) { e.Patch? && e.status.Some? }

  /**
    As long as no administrator patches a status, a key has a cooldown exactly while
    it is depleted.
   */
  lemma {:induction false} CooldownIffDepleted(log: seq<Event>)
    requires Valid(log)
    requires forall i :: 0 <= i < |log| ==> !PatchesStatus(log[i])
    ensures CooldownRule(Replay(log))
  {
    if log != [] {
      CooldownIffDepleted(log[..|log| - 1]);
    }
  }

  /**
    A status patch leaves the cooldown alone, so it keeps the rule for its row exactly
    when the new status agrees with the cooldown already stored.
   */
  lemma PatchKeepsRuleIff(rows: Table, id: KeyId, status: Status)
    requires CooldownRule(rows) && id in rows
    ensures CooldownRule(Commit(rows, Patch(id, Some(status))))
       <==> (status == Depleted <==> rows[id].status == Depleted)
  {
    var after := Commit(rows, Patch(id, Some(status)));
    assert after[id].cooldownUntil == rows[id].cooldownUntil;
    if (status == Depleted <==> rows[id].status == Depleted) {
      assert CooldownRule(after);
    }
  }

  /** A write that can end the sleep of a row without a cooldown: no reactivation is one. */
  predicate Wakes(e: Event, id: KeyId) {
    match e
    case Revive(_) => false
    case ResetAll => true
    case Create(k) => k == id
    case Delete(k) => k == id
    case Patch(k, status) => k == id && status.Some?
    case Record(k, report, _) => k == id && !report.ServerError?
  }

  /**
    An active key patched to depleted has no cooldown.  However long the log runs on and
    however often expired keys are revived, it stays depleted until a write wakes it.
   */
  lemma {:induction false} PatchedKeyStaysDepleted(log: seq<Event>, at: nat, id: KeyId)
    requires Valid(log) && at < |log| && log[at] == Patch(id, Some(Depleted))
    requires Valid(log[..at]) && CooldownRule(Replay(log[..at]))
    requires id in Replay(log[..at]) && Replay(log[..at])[id].status == Active
    requires forall i :: at < i < |log| ==> !Wakes(log[i], id)
    ensures id in Replay(log)
    ensures Replay(log)[id].status == Depleted && Replay(log)[id].cooldownUntil == None
  {
    var before := log[..|log| - 1];
    if at < |log| - 1 {
      assert before[..at] == log[..at];
      PatchedKeyStaysDepleted(before, at, id);
    }
  }

  /** Successful reports about `id` since it was created. */
  ghost function Successes(log: seq<Event>, id: KeyId): nat {
    if log == [] then 0 else
    var e, before := log[|log| - 1], log[..|log| - 1];
    if e == Create(id) then 0
    else Successes(before, id) + if e.Record? && e.id == id && e.report.Succeeds() then 1 else 0
  }

  /** Failed reports about `id` since it was created or all keys were last reset. */
  ghost function Failures(log: seq<Event>, id: KeyId): nat {
    if log == [] then 0 else
    var e, before := log[|log| - 1], log[..|log| - 1];
    if e == Create(id) || e == ResetAll then 0
    else Failures(before, id) + if e.Record? && e.id == id && !e.report.Succeeds() then 1 else 0
  }

  /** Both counters of every row tell its history, whatever writes were interleaved. */
  lemma {:induction false} CountersTellHistory(log: seq<Event>, id: KeyId)
    requires Valid(log) && id in Replay(log)
    ensures Replay(log)[id].totalRequests == Successes(log, id)
    ensures Replay(log)[id].totalFailures == Failures(log, id)
  {
    var e, before := log[|log| - 1], log[..|log| - 1];
    if e != Create(id) {
      CountersTellHistory(before, id);
    }
  }

  /** Neither counter needs more than 64 bits with a sign. */
  predicate InInt64(w: Window) {
    w.prompt < 0x8000_0000_0000_0000 && w.completion < 0x8000_0000_0000_0000
  }

  /**
    Whatever the token counts, a success with usage is refused exactly if a sum no longer
    fits its column, and otherwise agrees with a plain one, which is never refused, in all
    but the windows and the last token time.
   */
  lemma UsageRefinesSuccess(rows: Table, id: KeyId, code: int, prompt: Option<int>, completion: Option<int>, now: int)
    requires id in rows
    ensures var plain, counted := Record(id, Success(code), now),
                                  Record(id, SuccessWithUsage(code, prompt, completion), now);
      var sums := CountTokens(rows[id], now, prompt, completion);
      && Accepted(rows, plain)
      && (Accepted(rows, counted) <==> InInt64(sums.session) && InInt64(sums.weekly))
      && (Accepted(rows, counted) ==>
            var row := Commit(rows, counted)[id];
            Commit(rows, plain) == Commit(rows, counted)[id := row.(session := rows[id].session,
              weekly := rows[id].weekly, lastTokenAt := rows[id].lastTokenAt)])
  {
  }

  ghost predicate InColumns(w: Window) {
    0 <= w.prompt && 0 <= w.completion && InInt64(w)
  }

  /** So in any log of writes every token counter stays within its column. */
  lemma {:induction false} CountersFit(log: seq<Event>, id: KeyId)
    requires Valid(log) && id in Replay(log)
    ensures InColumns(Replay(log)[id].session) && InColumns(Replay(log)[id].weekly)
  {
    var e, before := log[|log| - 1], log[..|log| - 1];
    if e != Create(id) {
      CountersFit(before, id);
    }
  }
}
