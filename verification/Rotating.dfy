/**
  The retry loop a chat request runs over the key pool.  The loop is proved against a
  relation on turns, one per iteration; what the turns mean for the client and for the
  keys is then proved about the relation.
 */
module Rotating {
  import opened KeyRows
  import opened Sequences
  import opened Picking
  import opened Classifiers
  import opened KeyPool

  const WAIT_TOTAL := 10 * SECOND
  const WAIT_BACKOFF := 10_000
  const MAX_NAPS := 1000

  // -------------------------------------------------------------------- turns

  /** The pool as the loop sees it; `busy` are the reservations of other requests. */
  datatype Pool = Pool(rows: Table, nextIdx: nat, busy: set<KeyId>)

  /** One iteration: a key was tried, or every active key was reserved. */
  datatype Turn =
    | Tried(loadedAt: int, key: KeyId, answer: Answer, recordedAt: int)
    | Starved(loadedAt: int)

  function Picked(pool: Pool, now: int): Pick {
    Scan(Load(pool.rows, now).1, pool.nextIdx, pool.busy)
  }

  ghost predicate Possible(pool: Pool, turn: Turn) {
    && (turn.Tried? ==> Picked(pool, turn.loadedAt).chosen == Some(turn.key))
    && (turn.Starved? ==> Picked(pool, turn.loadedAt).chosen == None)
  }

  /** The table once a plan's report has been recorded, if it can be. */
  function Reported(rows: Table, key: KeyId, plan: Plan, now: int): Table {
    if plan.report.Some? && Accepted(rows, Record(key, plan.report.value, now))
    then Commit(rows, Record(key, plan.report.value, now)) else rows
  }

  /** How an attempt ends: as planned, unless recording raises. */
  function Ending(rows: Table, key: KeyId, plan: Plan, now: int): Outcome {
    if plan.report.Some? && !Accepted(rows, Record(key, plan.report.value, now)) then Raises
    else plan.outcome
  }

  function After(pool: Pool, turn: Turn, stream: bool): Pool {
    var rows := Load(pool.rows, turn.loadedAt).0;
    if turn.Starved? then pool.(rows := rows)
    else pool.(rows := Reported(rows, turn.key, ChatPlan(turn.answer, stream), turn.recordedAt),
               nextIdx := Picked(pool, turn.loadedAt).nextIdx)
  }

  function OutcomeOf(pool: Pool, turn: Turn, stream: bool): Outcome
    requires turn.Tried?
  {
    Ending(Load(pool.rows, turn.loadedAt).0, turn.key, ChatPlan(turn.answer, stream), turn.recordedAt)
  }

  /** The answers whose report the table takes as a cooldown, and those whose report it refuses. */
  predicate PutsToSleep(answer: Answer, now: int) {
    && answer.Reply? && answer.code == 429 && answer.retryAfter != Infinite
    && CooldownEnd(now, RetrySeconds(answer.retryAfter).value) <= LAST_INSTANT
  }

  predicate Unstorable(row: Row, answer: Answer, stream: bool, now: int) {
    answer.Reply? &&
      if answer.code == 429 then !PutsToSleep(answer, now)
      else CountsTooMuch(row, answer.code, answer.body, stream, now)
  }

  /** How long a Retry-After header puts a key to sleep, in microseconds. */
  ghost predicate SleepsFor(header: RetryAfter, duration: int) {
    match header
    case Finite(x) =>
      if x < 1.0 then duration == 1_000_000
      else duration % 1_000_000 == 0 && duration as real <= x * 1_000_000.0 < (duration + 1_000_000) as real
    case Infinite => false
    case _ => duration == 60_000_000
  }

  /** The answers that count as a failure of the key. */
  predicate Blames(answer: Answer, now: int) {
    || answer.NetworkFailure?
    || PutsToSleep(answer, now)
    || (answer.Reply? && (answer.code == 401 || answer.code == 403 || answer.code >= 500))
  }

  /**
    What an attempt does to the table, whatever the answer.  An active key is disabled
    exactly on 401 and 403, and put to sleep exactly on a 429 whose cooldown can be
    stored; its successes are counted, a 404 leaves no trace, and where the attempt raises,
    which is on a crash and on a cooldown or token sum that cannot be stored, nothing is
    written.  It sleeps for as long as Retry-After asks.  No other key is touched.
   */
  lemma AttemptMovesKeys(rows: Table, key: KeyId, answer: Answer, stream: bool, now: int)
    requires key in rows && rows[key].status == Active
    ensures var plan := ChatPlan(answer, stream);
      var after, end := Reported(rows, key, plan, now), Ending(rows, key, plan, now);
      && after.Keys == rows.Keys && (forall id :: id in rows && id != key ==> after[id] == rows[id])
      && (after[key].status == Disabled <==> IsReply(answer, 401) || IsReply(answer, 403))
      && (after[key].status == Depleted <==> PutsToSleep(answer, now))
      && (PutsToSleep(answer, now) ==>
            && after[key].cooldownUntil.Some?
            && SleepsFor(answer.retryAfter, after[key].cooldownUntil.value - now)
            && now + SECOND <= after[key].cooldownUntil.value <= LAST_INSTANT)
      && after[key].totalFailures == rows[key].totalFailures + (if Blames(answer, now) then 1 else 0)
      && (Blames(answer, now) ==>
            after[key].lastStatusCode == Some(if answer.Reply? then answer.code else 0))
      && (end == Raises <==> answer.Crash? || Unstorable(rows[key], answer, stream, now))
      && (end == Raises || IsReply(answer, 404) ==> after == rows)
      && (end == Rotates(true) <==> IsReply(answer, 404))
      && (after[key].totalRequests
          == rows[key].totalRequests + if end.Delivers? && 200 <= end.code < 300 then 1 else 0)
  {
    if PutsToSleep(answer, now) {
      AttemptSleeps(answer, now);
    }
  }

  lemma AttemptSleeps(answer: Answer, now: int)
    requires PutsToSleep(answer, now)
    ensures SleepsFor(answer.retryAfter, CooldownEnd(now, RetrySeconds(answer.retryAfter).value) - now)
  {
    if answer.retryAfter.Finite? {
      var x := answer.retryAfter.seconds;
      TruncateMeaning(x);
      var seconds := RetrySeconds(answer.retryAfter).value;
      assert x >= 1.0 ==> seconds as real <= x < seconds as real + 1.0;
      assert (seconds * 1_000_000) as real == seconds as real * 1_000_000.0;
    }
  }

  /**
    How an attempt ends, told from the answer: it passes a reply through exactly if it is
    a 2xx that can be recorded, or below 500 and none of 401, 403, 404 and 429; it moves on
    to the next key exactly on the other answers but crashes and what cannot be recorded.
   */
  lemma AttemptEnds(rows: Table, key: KeyId, answer: Answer, stream: bool, now: int)
    requires key in rows
    ensures var end := Ending(rows, key, ChatPlan(answer, stream), now);
      && Fits(end, answer)
      && (end == Raises <==> answer.Crash? || Unstorable(rows[key], answer, stream, now))
      && (forall code :: end == Delivers(code) <==>
            PassesThrough(answer, code) && !Unstorable(rows[key], answer, stream, now))
      && (end == Rotates(true) <==> IsReply(answer, 404))
      && (end == Rotates(false) <==> TurnsAway(answer) && !Unstorable(rows[key], answer, stream, now))
  {
    ChatPlanFits(answer, stream);
  }

  /** The token counts a chat request takes from a reply: none from a stream. */
  function CountsIn(body: Body, stream: bool): (Option<int>, Option<int>) {
    if stream then (None, None) else ParseUsage(body)
  }

  /** A recorded 2xx feeds both windows with the counts of its body, and with nothing else. */
  lemma AttemptFeeds(rows: Table, key: KeyId, answer: Answer, stream: bool, now: int)
    requires key in rows
    ensures var plan := ChatPlan(answer, stream); var after := Reported(rows, key, plan, now);
      && key in after
      && if answer.Reply? && 200 <= answer.code < 300 && Ending(rows, key, plan, now) != Raises then
           var (prompt, completion) := CountsIn(answer.body, stream);
           FedDayAndWeek(rows[key], after[key], now, prompt, completion)
         else
           FedDayAndWeek(rows[key], after[key], now, None, None)
  {
  }

  ghost function PoolAfter(pool: Pool, turns: seq<Turn>, stream: bool): Pool {
    if turns == [] then pool
    else After(PoolAfter(pool, turns[..|turns| - 1], stream), turns[|turns| - 1], stream)
  }

  ghost predicate Follows(pool: Pool, turns: seq<Turn>, stream: bool) {
    turns == [] || (
      var n := |turns| - 1;
      Follows(pool, turns[..n], stream) && Possible(PoolAfter(pool, turns[..n], stream), turns[n]))
  }

  /** The outcomes of the attempts made, in order. */
  ghost function Outcomes(pool: Pool, turns: seq<Turn>, stream: bool): seq<Outcome> {
    if turns == [] then [] else
    var n := |turns| - 1;
    Outcomes(pool, turns[..n], stream) + OutcomesOf(PoolAfter(pool, turns[..n], stream), turns[n], stream)
  }

  /** A series of turns leads from one pool to another with these outcomes. */
  ghost predicate Leads(pool: Pool, turns: seq<Turn>, stream: bool, now: Pool, outcomes: seq<Outcome>) {
    && Follows(pool, turns, stream)
    && PoolAfter(pool, turns, stream) == now
    && Outcomes(pool, turns, stream) == outcomes
  }

  ghost function OutcomesOf(pool: Pool, turn: Turn, stream: bool): seq<Outcome> {
    if turn.Tried? then [OutcomeOf(pool, turn, stream)] else []
  }

  lemma OneMore(pool: Pool, turns: seq<Turn>, turn: Turn, stream: bool, now: Pool, outcomes: seq<Outcome>)
    requires Leads(pool, turns, stream, now, outcomes) && Possible(now, turn)
    ensures Leads(pool, turns + [turn], stream, After(now, turn, stream), outcomes + OutcomesOf(now, turn, stream))
  {
    assert (turns + [turn])[..|turns|] == turns;
  }

  // ------------------------------------------------------------------ verdict

  datatype Response =
    | Delivered(code: int)    // the upstream response, passed through
    | ModelMissing            // 404
    | NoActiveKeys            // 503
    | AllBusy                 // 503
    | AllFailed               // 503
    | Crashed                 // an exception, answered with 503 by the route

  function StatusCode(r: Response): int {
    match r
    case Delivered(code) => code
    case ModelMissing => 404
    case _ => 503
  }

  ghost predicate AllRotate(outcomes: seq<Outcome>) {
    forall i :: 0 <= i < |outcomes| ==> outcomes[i].Rotates?
  }

  ghost predicate AllMissing(outcomes: seq<Outcome>) {
    forall i :: 0 <= i < |outcomes| ==> outcomes[i] == Rotates(true)
  }

  /** What the client is told about a series of attempts. */
  ghost predicate Answers(r: Response, outcomes: seq<Outcome>, initial: nat, named: bool) {
    match r
    case Delivered(code) => outcomes != [] && outcomes[|outcomes| - 1] == Delivers(code)
                            && AllRotate(outcomes[..|outcomes| - 1])
    case Crashed => outcomes != [] && outcomes[|outcomes| - 1] == Raises
                    && AllRotate(outcomes[..|outcomes| - 1])
    case ModelMissing => outcomes != [] && AllMissing(outcomes) && named
    case NoActiveKeys => outcomes == [] && initial == 0
    case AllBusy => outcomes == [] && initial > 0
    case AllFailed => outcomes != [] && AllRotate(outcomes) && !(AllMissing(outcomes) && named)
  }

  /** A delivered status is a 2xx or one that neither rotates nor disables: never 404 and never 503. */
  ghost predicate FromDispatch(o: Outcome) {
    o.Delivers? ==> o.code < 500 && o.code != 404 && o.code != 401 && o.code != 403 && o.code != 429
  }

  lemma DispatchDelivers(rows: Table, key: KeyId, answer: Answer, stream: bool, now: int)
    ensures FromDispatch(Ending(rows, key, ChatPlan(answer, stream), now))
  {
  }

  lemma {:induction false} OutcomesFromDispatch(pool: Pool, turns: seq<Turn>, stream: bool)
    ensures forall i :: 0 <= i < |Outcomes(pool, turns, stream)| ==> FromDispatch(Outcomes(pool, turns, stream)[i])
  {
    if turns != [] {
      var n := |turns| - 1;
      OutcomesFromDispatch(pool, turns[..n], stream);
      if turns[n].Tried? {
        DispatchDelivers(Load(PoolAfter(pool, turns[..n], stream).rows, turns[n].loadedAt).0,
                         turns[n].key, turns[n].answer, stream, turns[n].recordedAt);
      }
    }
  }

  /**
    The client's status code, told from the attempts alone: an upstream code exactly when
    an attempt delivers, and then the first such one's; 404 exactly when something was
    tried, every answer was 404 and a model was named; 503 in every other case.
   */
  lemma StatusExact(r: Response, outcomes: seq<Outcome>, initial: nat, named: bool)
    requires Answers(r, outcomes, initial, named)
    requires forall i :: 0 <= i < |outcomes| ==> FromDispatch(outcomes[i]) && !outcomes[i].Raises?
    ensures r.Delivered? <==> exists i :: 0 <= i < |outcomes| && outcomes[i].Delivers?
    ensures forall i :: 0 <= i < |outcomes| && outcomes[i].Delivers? ==> outcomes[i].code == StatusCode(r)
    ensures StatusCode(r) == 404 <==> outcomes != [] && AllMissing(outcomes) && named
    ensures StatusCode(r) == 503 <==> !r.Delivered? && !(outcomes != [] && AllMissing(outcomes) && named)
  {
    if r.Delivered? {
      assert outcomes[|outcomes| - 1].Delivers?;
      assert forall i :: 0 <= i < |outcomes| - 1 ==> outcomes[i] == outcomes[..|outcomes| - 1][i];
    }
  }

  /** The same for a request run by the loop, whose outcomes all come from the dispatcher. */
  lemma RequestStatusExact(r: Response, pool: Pool, turns: seq<Turn>, stream: bool, initial: nat, named: bool)
    requires var outcomes := Outcomes(pool, turns, stream);
      Answers(r, outcomes, initial, named) && forall i :: 0 <= i < |outcomes| ==> !outcomes[i].Raises?
    ensures var outcomes := Outcomes(pool, turns, stream);
      && (r.Delivered? <==> exists i :: 0 <= i < |outcomes| && outcomes[i].Delivers?)
      && (forall i :: 0 <= i < |outcomes| && outcomes[i].Delivers? ==> outcomes[i].code == StatusCode(r))
      && (StatusCode(r) == 404 <==> outcomes != [] && AllMissing(outcomes) && named)
      && (StatusCode(r) == 503 <==> !r.Delivered? && StatusCode(r) != 404)
  {
    OutcomesFromDispatch(pool, turns, stream);
    StatusExact(r, Outcomes(pool, turns, stream), initial, named);
  }

  /** Every ending of a series of attempts fits the answer to the call made for it. */
  ghost predicate FitAll(outcomes: seq<Outcome>, answers: seq<Answer>) {
    |outcomes| == |answers| && forall i :: 0 <= i < |answers| ==> Fits(outcomes[i], answers[i])
  }

  function AnswersOf(calls: seq<(KeyId, Answer)>): seq<Answer> {
    seq(|calls|, i requires 0 <= i < |calls| => calls[i].1)
  }

  lemma AnswersNext(calls: seq<(KeyId, Answer)>, call: (KeyId, Answer))
    ensures AnswersOf(calls + [call]) == AnswersOf(calls) + [call.1]
  {
  }

  lemma FitNext(outcomes: seq<Outcome>, answers: seq<Answer>, o: Outcome, answer: Answer)
    requires FitAll(outcomes, answers) && Fits(o, answer)
    ensures FitAll(outcomes + [o], answers + [answer])
  {
  }

  lemma {:induction false} OutcomesFitCalls(pool: Pool, turns: seq<Turn>, stream: bool)
    ensures FitAll(Outcomes(pool, turns, stream), AnswersOf(CallsIn(turns)))
  {
    if turns != [] {
      var first, turn := turns[..|turns| - 1], turns[|turns| - 1];
      OutcomesFitCalls(pool, first, stream);
      if turn.Tried? {
        ChatPlanFits(turn.answer, stream);
        AnswersNext(CallsIn(first), (turn.key, turn.answer));
        FitNext(Outcomes(pool, first, stream), AnswersOf(CallsIn(first)),
                OutcomeOf(PoolAfter(pool, first, stream), turn, stream), turn.answer);
      } else {
        assert CallsIn(turns) == CallsIn(first);
      }
    }
  }

  ghost predicate SomePasses(answers: seq<Answer>, code: int) {
    exists i :: 0 <= i < |answers| && PassesThrough(answers[i], code)
  }

  ghost predicate AllReply404(answers: seq<Answer>) {
    forall i :: 0 <= i < |answers| ==> IsReply(answers[i], 404)
  }

  /** What the client is told, from what upstream answered to the calls made. */
  ghost predicate ToldFromAnswers(r: Response, answers: seq<Answer>, named: bool) {
    && (forall code :: r == Delivered(code) <==> SomePasses(answers, code))
    && (StatusCode(r) == 404 <==> answers != [] && AllReply404(answers) && named)
    && (StatusCode(r) != 404 && !r.Delivered? ==> StatusCode(r) == 503)
  }

  /**
    The status told to the client, from what upstream answered: the code of a call whose
    answer is passed through, if there is one; 404 if there was a call, all were answered
    404 and a model was named; else 503.
   */
  lemma StatusFromAnswers(r: Response, outcomes: seq<Outcome>, answers: seq<Answer>, initial: nat, named: bool)
    requires Answers(r, outcomes, initial, named) && FitAll(outcomes, answers)
    requires forall i :: 0 <= i < |outcomes| ==> !outcomes[i].Raises?
    ensures ToldFromAnswers(r, answers, named)
  {
    forall code | r == Delivered(code) ensures SomePasses(answers, code) {
      assert PassesThrough(answers[|answers| - 1], code);
    }
    forall code | SomePasses(answers, code) ensures r == Delivered(code) {
      var i :| 0 <= i < |answers| && PassesThrough(answers[i], code);
      assert outcomes[i] == Delivers(code);
      PassedLast(r, outcomes, initial, named, i);
    }
    assert forall i :: 0 <= i < |answers| ==> (outcomes[i] == Rotates(true) <==> IsReply(answers[i], 404));
    assert r.Delivered? ==> PassesThrough(answers[|answers| - 1], r.code);
  }

  lemma PassedLast(r: Response, outcomes: seq<Outcome>, initial: nat, named: bool, i: nat)
    requires Answers(r, outcomes, initial, named) && i < |outcomes| && outcomes[i].Delivers?
    ensures r == Delivered(outcomes[i].code)
  {
    var n := |outcomes| - 1;
    assert forall k :: 0 <= k < n ==> outcomes[..n][k] == outcomes[k];
  }

  /** The same for every request the loop runs and no call of which raises. */
  lemma RequestStatusFromAnswers(r: Response, pool: Pool, turns: seq<Turn>, stream: bool, initial: nat, named: bool)
    requires Answers(r, Outcomes(pool, turns, stream), initial, named)
    requires forall i :: 0 <= i < |Outcomes(pool, turns, stream)| ==> !Outcomes(pool, turns, stream)[i].Raises?
    ensures ToldFromAnswers(r, AnswersOf(CallsIn(turns)), named)
  {
    OutcomesFitCalls(pool, turns, stream);
    StatusFromAnswers(r, Outcomes(pool, turns, stream), AnswersOf(CallsIn(turns)), initial, named);
  }

  /** The verdict is determined: no series of attempts has two. */
  lemma VerdictUnique(r: Response, s: Response, outcomes: seq<Outcome>, initial: nat, named: bool)
    requires Answers(r, outcomes, initial, named) && Answers(s, outcomes, initial, named)
    ensures r == s
  {
    if outcomes != [] {
      var last := outcomes[|outcomes| - 1];
      assert AllRotate(outcomes) ==> last.Rotates?;
      assert AllMissing(outcomes) ==> last.Rotates?;
    }
  }

  // ----------------------------------------------------------------- the loop

  /**
    A monotonic clock: reading it may take time, sleeping takes at least the time asked for.
    `naps` remembers when each sleep began.
   */
  class Clock {
    var now: int
    ghost var naps: seq<int>

    method Read() returns (t: int)
      modifies this`now
      ensures old(now) <= t == now
    {
      var passed: nat :| 0 <= passed;
      now := now + passed;
      t := now;
    }

    method Sleep(d: nat)
      modifies this
      ensures now >= old(now) + d && naps == old(naps) + [old(now)]
    {
      var late: nat :| 0 <= late;
      naps := naps + [now];
      now := now + d + late;
    }
  }

  // ------------------------------------------------------------------- pacing

  /** The shortest wait after a turn that found no key: a nap, or ten seconds if keys are reserved. */
  ghost function ShortestWait(busy: set<KeyId>): nat {
    if busy == {} then 10_000 else 10_000_000
  }

  /** The naps one wait may take. */
  ghost function MostNaps(busy: set<KeyId>): nat {
    if busy == {} then 1 else 1_000
  }

  ghost function StarvedTurns(turns: seq<Turn>): nat {
    if turns == [] then 0
    else StarvedTurns(turns[..|turns| - 1]) + if turns[|turns| - 1].Starved? then 1 else 0
  }

  /** A turn that found no key is followed by another one only after a wait, and only if keys were counted. */
  ghost predicate Paced(turns: seq<Turn>, busy: set<KeyId>, initial: nat) {
    forall i :: 0 < i < |turns| ==> AfterWait(turns[i - 1], turns[i], busy, initial)
  }

  ghost predicate AfterWait(turn: Turn, next: Turn, busy: set<KeyId>, initial: nat) {
    turn.Starved? ==> initial > 0 && turn.loadedAt + ShortestWait(busy) <= next.loadedAt
  }

  /** Naps are over by `now`, and taken only in waits. */
  ghost predicate Rested(turns: seq<Turn>, busy: set<KeyId>, initial: nat, naps: seq<int>, now: int) {
    && |naps| <= MostNaps(busy) * StarvedTurns(turns)
    && (initial == 0 ==> naps == [])
    && forall k :: 0 <= k < |naps| ==> naps[k] + 10_000 <= now
  }

  /** The loop may go on: the wait after the last turn, if it found no key, is over. */
  ghost predicate Ready(turns: seq<Turn>, busy: set<KeyId>, initial: nat, now: int) {
    turns != [] ==>
      var last := turns[|turns| - 1];
      last.Starved? ==> initial > 0 && last.loadedAt + ShortestWait(busy) <= now
  }

  /**
    The loop may stop before its last iteration only on a turn that found no key, and then
    only if no key was active at the start, or if ten seconds had passed before a first nap.
   */
  ghost predicate Stuck(turns: seq<Turn>, initial: nat, naps: seq<int>, now: int) {
    turns != [] &&
    var last := turns[|turns| - 1];
    && last.Starved?
    && (initial == 0 ||
         (last.loadedAt + 10_000_000 <= now && forall k :: 0 <= k < |naps| ==> naps[k] < last.loadedAt))
  }

  lemma PacedNext(turns: seq<Turn>, turn: Turn, busy: set<KeyId>, initial: nat, now: int)
    requires Paced(turns, busy, initial) && Ready(turns, busy, initial, now) && now <= turn.loadedAt
    ensures Paced(turns + [turn], busy, initial)
  {
    var all := turns + [turn];
    forall i | 0 < i < |all| ensures AfterWait(all[i - 1], all[i], busy, initial) {
      if i < |turns| {
        assert AfterWait(turns[i - 1], turns[i], busy, initial);
      }
    }
  }

  lemma StarvedNext(turns: seq<Turn>, turn: Turn)
    ensures StarvedTurns(turns + [turn]) == StarvedTurns(turns) + if turn.Starved? then 1 else 0
  {
    assert (turns + [turn])[..|turns|] == turns;
  }

  lemma RestedNext(turns: seq<Turn>, turn: Turn, busy: set<KeyId>, initial: nat, naps: seq<int>, more: seq<int>,
                   now: int, later: int)
    requires Rested(turns, busy, initial, naps, now) && now <= later
    requires |more| <= if turn.Starved? && initial > 0 then MostNaps(busy) else 0
    requires forall k :: 0 <= k < |more| ==> more[k] + 10_000 <= later
    ensures Rested(turns + [turn], busy, initial, naps + more, later)
  {
    StarvedNext(turns, turn);
    var m := MostNaps(busy);
    if turn.Starved? {
      assert m * (StarvedTurns(turns) + 1) == m * StarvedTurns(turns) + m;
    }
  }

  /** A turn and the naps after it, from `begun` to `now`; the loop goes on or stops after it. */
  ghost predicate RoundDone(turn: Turn, more: seq<int>, goesOn: bool, busy: set<KeyId>, initial: nat,
                            begun: int, now: int) {
    && begun <= turn.loadedAt <= now
    && |more| <= (if turn.Starved? && initial > 0 then MostNaps(busy) else 0)
    && (forall k :: 0 <= k < |more| ==> turn.loadedAt <= more[k] && more[k] + 10_000 <= now)
    && (turn.Tried? ==> goesOn)
    && (turn.Starved? ==>
          && (goesOn <==> initial > 0 && more != [])
          && (goesOn ==> turn.loadedAt + ShortestWait(busy) <= now)
          && (!goesOn ==> initial == 0 || turn.loadedAt + 10_000_000 <= now))
  }

  /** What the loop keeps between its turns. */
  ghost predicate OnPace(turns: seq<Turn>, busy: set<KeyId>, initial: nat, naps: seq<int>, now: int) {
    Paced(turns, busy, initial) && Ready(turns, busy, initial, now) && Rested(turns, busy, initial, naps, now)
  }

  lemma PaceKept(turns: seq<Turn>, turn: Turn, busy: set<KeyId>, initial: nat, naps: seq<int>, more: seq<int>,
                 goesOn: bool, begun: int, now: int)
    requires OnPace(turns, busy, initial, naps, begun) && RoundDone(turn, more, goesOn, busy, initial, begun, now)
    ensures Paced(turns + [turn], busy, initial) && Rested(turns + [turn], busy, initial, naps + more, now)
    ensures goesOn ==> OnPace(turns + [turn], busy, initial, naps + more, now)
    ensures !goesOn ==> Stuck(turns + [turn], initial, naps + more, now)
  {
    PacedNext(turns, turn, busy, initial, begun);
    RestedNext(turns, turn, busy, initial, naps, more, begun, now);
  }

  /** Decrypting a key and calling upstream with it: any answer is possible, and `asked` remembers it. */
  class Upstream {
    ghost var asked: seq<(KeyId, Answer)>

    constructor ()
      ensures asked == []
    {
      asked := [];
    }

    method Ask(key: KeyId) returns (a: Answer)
      modifies this
      ensures asked == old(asked) + [(key, a)]
    {
      a := *;
      asked := asked + [(key, a)];
    }
  }

  /** The calls a turn makes upstream, with their answers. */
  ghost function CallsOf(turn: Turn): seq<(KeyId, Answer)> {
    if turn.Tried? then [(turn.key, turn.answer)] else []
  }

  ghost function CallsIn(turns: seq<Turn>): seq<(KeyId, Answer)> {
    if turns == [] then [] else CallsIn(turns[..|turns| - 1]) + CallsOf(turns[|turns| - 1])
  }

  lemma OneMoreCall(before: seq<(KeyId, Answer)>, turns: seq<Turn>, turn: Turn)
    ensures before + CallsIn(turns + [turn]) == before + CallsIn(turns) + CallsOf(turn)
  {
    assert (turns + [turn])[..|turns|] == turns;
  }

  class Rotation {
    const keys: KeyManager
    const margin: int

    constructor (keys: KeyManager, margin: int)
      ensures this.keys == keys && this.margin == margin
    {
      this.keys := keys;
      this.margin := margin;
    }

    /**
      At most one thousand naps.  It ends early only once nothing at all is reserved, and
      without a nap only if the ten seconds were over before one could begin.
     */
    method WaitForFreeSlot(clock: Clock) returns (slept: bool, ghost naps: seq<int>)
      modifies clock
      ensures clock.naps == old(clock.naps) + naps && |naps| <= MostNaps(keys.inFlight)
      ensures forall k :: 0 <= k < |naps| ==> old(clock.now) <= naps[k] && naps[k] + 10_000 <= clock.now
      ensures clock.now >= old(clock.now) + |naps| * 10_000
      ensures slept <==> naps != []
      ensures slept ==> clock.now >= old(clock.now) + ShortestWait(keys.inFlight)
      ensures !slept ==> clock.now >= old(clock.now) + 10_000_000
    {
      var start := clock.Read();
      var deadline := start + WAIT_TOTAL;
      slept, naps := false, [];
      var t := clock.Read();
      while t < deadline
        invariant deadline >= old(clock.now) + WAIT_TOTAL
        invariant start + |naps| * WAIT_BACKOFF <= t == clock.now
        invariant |naps| <= MAX_NAPS && clock.naps == old(clock.naps) + naps
        invariant forall k :: 0 <= k < |naps| ==> old(clock.now) <= naps[k] && naps[k] + WAIT_BACKOFF <= t
        invariant slept <==> naps != []
        invariant keys.inFlight == {} ==> naps == []
        decreases MAX_NAPS - |naps|
      {
        naps := naps + [clock.now];
        clock.Sleep(WAIT_BACKOFF);
        slept := true;
        if keys.inFlight == {} {
          return;
        }
        t := clock.Read();
      }
    }

    /** Decrypt, call, classify and record. */
    method DispatchOne(db: KeyTable, upstream: Upstream, clock: Clock, key: KeyId, stream: bool)
      returns (outcome: Outcome, ghost answer: Answer, ghost recordedAt: int)
      modifies db, upstream, clock
      ensures upstream.asked == old(upstream.asked) + [(key, answer)]
      ensures clock.now >= old(clock.now) && clock.naps == old(clock.naps)
      ensures old(clock.now) <= recordedAt <= clock.now
      ensures db.rows == Reported(old(db.rows), key, ChatPlan(answer, stream), recordedAt)
      ensures outcome == Ending(old(db.rows), key, ChatPlan(answer, stream), recordedAt)
    {
      var reply := upstream.Ask(key);
      var now := clock.Read();
      answer, recordedAt := reply, now;
      var plan := ChatPlan(reply, stream);
      outcome := plan.outcome;
      if plan.report.Some? {
        var written := keys.Apply(db, key, plan.report.value, now);
        if written != Done {
          outcome := Raises;
        }
      }
    }

    /** One iteration up to its outcome: pick, and if a key is free dispatch it and release it. */
    method Attempt(db: KeyTable, upstream: Upstream, clock: Clock, stream: bool)
      returns (tried: Option<Outcome>, ghost turn: Turn)
      modifies keys, db, upstream, clock
      ensures upstream.asked == old(upstream.asked) + CallsOf(turn)
      ensures old(clock.now) <= turn.loadedAt <= clock.now && clock.naps == old(clock.naps)
      ensures var pool := Pool(old(db.rows), old(keys.nextIdx), old(keys.inFlight));
        && Possible(pool, turn)
        && Pool(db.rows, keys.nextIdx, keys.inFlight) == After(pool, turn, stream)
        && tried == if turn.Tried? then Some(OutcomeOf(pool, turn, stream)) else None
    {
      var now := clock.Read();
      var picked := keys.PickNextKey(db, now);
      if picked == None {
        return None, Starved(now);
      }
      var key := picked.value;
      var outcome, answer, at := DispatchOne(db, upstream, clock, key, stream);
      keys.Release(key);
      tried, turn := Some(outcome), Tried(now, key, answer, at);
    }

    /** One turn, and the wait after it if it finds no key although some were active at the start. */
    method Round(db: KeyTable, upstream: Upstream, clock: Clock, stream: bool, initial: nat)
      returns (tried: Option<Outcome>, goesOn: bool, ghost turn: Turn, ghost more: seq<int>)
      modifies keys, db, upstream, clock
      ensures upstream.asked == old(upstream.asked) + CallsOf(turn) && clock.naps == old(clock.naps) + more
      ensures RoundDone(turn, more, goesOn, old(keys.inFlight), initial, old(clock.now), clock.now)
      ensures var pool := Pool(old(db.rows), old(keys.nextIdx), old(keys.inFlight));
        && Possible(pool, turn)
        && Pool(db.rows, keys.nextIdx, keys.inFlight) == After(pool, turn, stream)
        && tried == if turn.Tried? then Some(OutcomeOf(pool, turn, stream)) else None
    {
      tried, turn := Attempt(db, upstream, clock, stream);
      goesOn, more := true, [];
      if tried == None {
        if initial == 0 {
          goesOn := false;
        } else {
          goesOn, more := WaitForFreeSlot(clock);
        }
      }
    }

    /**
      The iterations of a request, up to the response that ends them early, if any.  A turn
      that finds no key is followed by a wait and another turn.
     */
    method TryKeys(db: KeyTable, upstream: Upstream, clock: Clock, stream: bool, initial: nat, iterations: nat)
      returns (ended: Option<Response>, anyAttempt: bool, all404: bool,
               ghost turns: seq<Turn>, ghost outcomes: seq<Outcome>, ghost naps: seq<int>)
      modifies keys, db, upstream, clock
      ensures upstream.asked == old(upstream.asked) + CallsIn(turns) && clock.naps == old(clock.naps) + naps
      ensures Leads(Pool(old(db.rows), old(keys.nextIdx), old(keys.inFlight)), turns, stream,
                    Pool(db.rows, keys.nextIdx, keys.inFlight), outcomes)
      ensures keys.inFlight == old(keys.inFlight)
      ensures |turns| <= iterations
      ensures Paced(turns, old(keys.inFlight), initial)
      ensures Rested(turns, old(keys.inFlight), initial, naps, clock.now)
      ensures ended == None ==> InProgress(outcomes, anyAttempt, all404)
      ensures ended == None ==> |turns| == iterations || Stuck(turns, initial, naps, clock.now)
      ensures ended != None ==> Ends(ended.value, outcomes)
    {
      ghost var pool := Pool(db.rows, keys.nextIdx, keys.inFlight);
      ended, anyAttempt, all404 := None, false, true;
      turns, outcomes, naps := [], [], [];
      for attempt := 0 to iterations
        invariant |turns| == attempt
        invariant Leads(pool, turns, stream, Pool(db.rows, keys.nextIdx, keys.inFlight), outcomes)
        invariant InProgress(outcomes, anyAttempt, all404)
        invariant upstream.asked == old(upstream.asked) + CallsIn(turns) && clock.naps == old(clock.naps) + naps
        invariant keys.inFlight == pool.busy && ended == None
        invariant OnPace(turns, pool.busy, initial, naps, clock.now)
      {
        ghost var before, begun := Pool(db.rows, keys.nextIdx, keys.inFlight), clock.now;
        var tried, goesOn, turn, more := Round(db, upstream, clock, stream, initial);
        OneMore(pool, turns, turn, stream, before, outcomes);
        OneMoreCall(old(upstream.asked), turns, turn);
        PaceKept(turns, turn, pool.busy, initial, naps, more, goesOn, begun, clock.now);
        Regroup(old(clock.naps), naps, more);
        turns, naps := turns + [turn], naps + more;
        if tried == None {
          assert outcomes + [] == outcomes;
          if !goesOn {
            return;
          }
          continue;
        }
        Progress(outcomes, tried.value, anyAttempt, all404);
        outcomes, anyAttempt := outcomes + [tried.value], true;
        match tried.value {
          case Raises =>
            ended := Some(Crashed);
            return;
          case Delivers(code) =>
            ended := Some(Delivered(code));
            return;
          case Rotates(missing) =>
            if !missing {
              all404 := false;
            }
        }
      }
    }

    /**
      The whole request.  Its turns follow the pool and made the calls upstream has seen,
      its response is the verdict on their outcomes, and whatever happens it leaves the
      reservations as it found them.  A turn that finds no key is followed by a wait and
      another turn: unless it delivers or raises it uses every iteration, or stops because no
      key was active at the start or because ten seconds were over before a first nap.
     */
    method ExecuteWithRotation(db: KeyTable, upstream: Upstream, clock: Clock, named: bool, stream: bool)
      returns (response: Response, ghost turns: seq<Turn>, ghost naps: seq<int>)
      modifies keys, db, upstream, clock
      ensures upstream.asked == old(upstream.asked) + CallsIn(turns)
      ensures var pool, initial := Pool(old(db.rows), old(keys.nextIdx), old(keys.inFlight)),
                                   |WithStatus(old(db.rows), Active)|;
        && Follows(pool, turns, stream)
        && Pool(db.rows, keys.nextIdx, keys.inFlight) == PoolAfter(pool, turns, stream)
        && Answers(response, Outcomes(pool, turns, stream), initial, named)
        && |turns| <= Iterations(initial, margin)
        && (!response.Delivered? && !response.Crashed? ==>
              |turns| == Iterations(initial, margin) || Stuck(turns, initial, naps, clock.now))
        && Paced(turns, pool.busy, initial) && Rested(turns, pool.busy, initial, naps, clock.now)
      ensures clock.naps == old(clock.naps) + naps
      ensures keys.inFlight == old(keys.inFlight)
    {
      var counts := keys.CountByStatus(db);
      var initial := counts[Active];
      var ended, anyAttempt, all404, made, _, taken :=
        TryKeys(db, upstream, clock, stream, initial, Iterations(initial, margin));
      turns, naps := made, taken;
      if ended != None {
        response := ended.value;
      } else if !anyAttempt {
        response := if initial == 0 then NoActiveKeys else AllBusy;
      } else if all404 && named {
        response := ModelMissing;
      } else {
        response := AllFailed;
      }
    }
  }

  /** The last outcome ends the request at once with this response. */
  ghost predicate Ends(r: Response, outcomes: seq<Outcome>) {
    && outcomes != [] && AllRotate(outcomes[..|outcomes| - 1])
    && match outcomes[|outcomes| - 1]
       case Delivers(code) => r == Delivered(code)
       case Raises => r == Crashed
       case Rotates(_) => false
  }

  function Iterations(initial: nat, margin: int): nat {
    Max(0, Max(1, initial) + margin)
  }

  /** One iteration for each active key, one if there is none, and the margin; none if that is negative. */
  lemma IterationsGranted(initial: nat, margin: int)
    ensures initial == 0 ==> Iterations(initial, margin) == Iterations(1, margin)
    ensures initial > 0 && initial + margin >= 0 ==> Iterations(initial, margin) == initial + margin
    ensures initial > 0 && initial + margin < 0 ==> Iterations(initial, margin) == 0
  {
  }

  // ------------------------------------------------------------ loop invariant

  /** The loop goes on only over rotating outcomes, and its two flags sum them up. */
  ghost predicate InProgress(outcomes: seq<Outcome>, anyAttempt: bool, all404: bool) {
    && AllRotate(outcomes)
    && (anyAttempt <==> outcomes != [])
    && (all404 <==> AllMissing(outcomes))
  }

  lemma Progress(outcomes: seq<Outcome>, o: Outcome, anyAttempt: bool, all404: bool)
    requires InProgress(outcomes, anyAttempt, all404)
    ensures o.Rotates? ==> InProgress(outcomes + [o], true, all404 && o.missing)
    ensures o.Raises? ==> Ends(Crashed, outcomes + [o])
    ensures o.Delivers? ==> Ends(Delivered(o.code), outcomes + [o])
  {
    var after := outcomes + [o];
    assert after[|outcomes|] == o && after[..|outcomes|] == outcomes;
    assert AllMissing(after) <==> AllMissing(outcomes) && o == Rotates(true) by {
      if AllMissing(after) {
        assert forall i :: 0 <= i < |outcomes| ==> outcomes[i] == after[i];
      }
    }
  }
}
