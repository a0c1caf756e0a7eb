/**
  What a chat request is told in any interleaved run, and how much it can do before it
  is told: its verdict, its picks and its steps.
 */
module ProtocolVerdict {
  import opened KeyRows
  import opened Picking
  import opened Classifiers
  import opened Rotating
  import opened Protocol

  // ------------------------------------------------------------------ verdict

  ghost predicate AllFromDispatch(outcomes: seq<Outcome>) {
    forall i :: 0 <= i < |outcomes| ==> FromDispatch(outcomes[i])
  }

  /** The flags of a chat request sum up its attempts, and its answer is the verdict on them. */
  ghost predicate ChatOk(job: Job) {
    var outcomes := job.outcomes;
    && AllFromDispatch(outcomes)
    && (job.pc.Recording? ==> FromDispatch(job.pc.plan.outcome))
    && (job.pc.Releasing? ==> FromDispatch(job.pc.outcome))
    && match job.pc
       case Finished(Told(r)) => Answers(r, outcomes, job.initial, job.kind.Chat? && job.kind.named)
       case Finished(Listed(_)) => false
       case Finished(Threw) => false
       case Aborted => true
       case _ => InProgress(outcomes, if job.pc.Held().Some? then outcomes != [] else job.anyAttempt, job.all404)
                 && (job.pc.Held().Some? ==> job.anyAttempt)
  }

  lemma LoopEndIsVerdict(job: Job)
    requires job.kind.Chat? && InProgress(job.outcomes, job.anyAttempt, job.all404)
    ensures Answers(LoopEnd(job), job.outcomes, job.initial, job.kind.named)
  {
  }

  lemma ContinuedOk(job: Job)
    requires job.kind.Chat? && InProgress(job.outcomes, job.anyAttempt, job.all404) && AllFromDispatch(job.outcomes)
    ensures ChatOk(Continued(job))
  {
    LoopEndIsVerdict(job);
  }

  lemma ConcludedOk(job: Job)
    requires job.kind.Chat? && job.pc.Releasing? && ChatOk(job)
    ensures ChatOk(Concluded(job, job.pc.outcome))
  {
    var o := job.pc.outcome;
    var after := job.outcomes + [o];
    Progress(job.outcomes, o, job.outcomes != [], job.all404);
    assert AllFromDispatch(after);
    if o.Rotates? {
      ContinuedOk(job.(outcomes := after, all404 := job.all404 && o.missing));
    }
  }

  lemma PickKeepsChatOk(s: System, q: RequestId, move: Move)
    requires CanMove(s, q, move) && s.jobs[q].kind.Chat? && ChatOk(s.jobs[q]) && PickMove(move)
    ensures ChatOk(JobAfter(s, q, move))
  {
    if move.ScanAndReserve? {
      LoopEndIsVerdict(s.jobs[q]);
    }
  }

  lemma CallKeepsChatOk(s: System, q: RequestId, move: Move)
    requires CanMove(s, q, move) && s.jobs[q].kind.Chat? && ChatOk(s.jobs[q]) && CallMove(move)
    ensures ChatOk(JobAfter(s, q, move))
  {
    if move.Release? {
      ConcludedOk(s.jobs[q]);
    }
  }

  lemma WaitKeepsChatOk(s: System, q: RequestId, move: Move)
    requires CanMove(s, q, move) && s.jobs[q].kind.Chat? && ChatOk(s.jobs[q]) && (move.Poll? || move.Wake?)
    ensures ChatOk(JobAfter(s, q, move))
  {
    LoopEndIsVerdict(s.jobs[q]);
    ContinuedOk(s.jobs[q]);
  }

  lemma MoveKeepsChatOk(s: System, q: RequestId, move: Move)
    requires CanMove(s, q, move) && s.jobs[q].kind.Chat? && ChatOk(s.jobs[q])
    ensures ChatOk(JobAfter(s, q, move))
  {
    var job, n := s.jobs[q], |ActiveIds(s.rows)|;
    if PickMove(move) {
      PickKeepsChatOk(s, q, move);
    } else if CallMove(move) {
      CallKeepsChatOk(s, q, move);
    } else if move.Begin? {
      ContinuedOk(job.(initial := n, left := Iterations(n, s.margin)));
    } else {
      WaitKeepsChatOk(s, q, move);
    }
  }

  lemma {:induction false} ArrivedIsNew(states: seq<System>, actions: seq<Action>, i: nat, q: RequestId)
    requires IsRun(states, actions) && i < |states|
    requires q in states[i].jobs && states[i].jobs[q].pc.Arrived?
    ensures states[i].jobs[q] == Job(states[i].jobs[q].kind, Arrived, 0, 0, false, true, [], [])
  {
    assert StepAt(states, actions, i - 1);
    var s, a := states[i - 1], actions[i - 1];
    if q in s.jobs {
      if a.Own? && a.q == q {
        MoveFramed(s, q, a.move);
      } else {
        ArrivedIsNew(states, actions, i - 1, q);
      }
    }
  }

  /** In every reachable state every chat request's flags and answer fit its attempts. */
  lemma {:induction false} ChatAlwaysOk(states: seq<System>, actions: seq<Action>, i: nat, q: RequestId)
    requires IsRun(states, actions) && i < |states|
    requires q in states[i].jobs && states[i].jobs[q].kind.Chat?
    ensures ChatOk(states[i].jobs[q])
  {
    assert StepAt(states, actions, i - 1);
    var s, a := states[i - 1], actions[i - 1];
    if q in s.jobs {
      if a.Own? && a.q == q {
        MoveFramed(s, q, a.move);
        ChatAlwaysOk(states, actions, i - 1, q);
        MoveKeepsChatOk(s, q, a.move);
      } else {
        ChatAlwaysOk(states, actions, i - 1, q);
      }
    }
  }

  /**
    In any run, a chat request that finishes without an exception gets the upstream code of
    its first delivering attempt if it has one; otherwise 404 exactly when it tried
    something, every answer was 404 and a model was named; otherwise 503.
   */
  lemma ChatStatusExact(states: seq<System>, actions: seq<Action>, i: nat, q: RequestId)
    requires IsRun(states, actions) && i < |states|
    requires q in states[i].jobs && states[i].jobs[q].kind.Chat? && states[i].jobs[q].pc.Finished?
    requires forall k :: 0 <= k < |states[i].jobs[q].outcomes| ==> !states[i].jobs[q].outcomes[k].Raises?
    ensures var job := states[i].jobs[q];
      && job.pc.result.Told?
      && var code := StatusCode(job.pc.result.response);
      && (job.pc.result.response.Delivered? <==> exists k :: 0 <= k < |job.outcomes| && job.outcomes[k].Delivers?)
      && (forall k :: 0 <= k < |job.outcomes| && job.outcomes[k].Delivers? ==> job.outcomes[k].code == code)
      && (code == 404 <==> job.outcomes != [] && AllMissing(job.outcomes) && job.kind.named)
      && (code == 503 <==> !job.pc.result.response.Delivered? && code != 404)
  {
    ChatAlwaysOk(states, actions, i, q);
    var job := states[i].jobs[q];
    StatusExact(job.pc.result.response, job.outcomes, job.initial, job.kind.named);
  }

  // ----------------------------------------------------- verdict from answers

  /** A request has heard one answer for every attempt, and one more while it deals with it. */
  ghost predicate HeardOk(job: Job) {
    var n := |job.outcomes|;
    && |job.answers| == n + (if job.pc.Recording? || job.pc.Releasing? then 1 else 0)
    && FitAll(job.outcomes, job.answers[..n])
    && (job.pc.Recording? ==> Fits(job.pc.plan.outcome, job.answers[n]))
    && (job.pc.Releasing? ==> Fits(job.pc.outcome, job.answers[n]))
  }

  /** The move leaves the history of attempts alone, and begins and ends outside of one. */
  ghost predicate HistoryKept(job: Job, after: Job) {
    && after.outcomes == job.outcomes && after.answers == job.answers
    && !job.pc.Recording? && !job.pc.Releasing? && !after.pc.Recording? && !after.pc.Releasing?
  }

  lemma ContinuedKeepsHistory(job: Job)
    requires !job.pc.Recording? && !job.pc.Releasing?
    ensures HistoryKept(job, Continued(job))
  {
  }

  lemma PickKeepsHistory(s: System, q: RequestId, move: Move)
    requires CanMove(s, q, move) && PickMove(move)
    ensures HistoryKept(s.jobs[q], JobAfter(s, q, move))
  {
  }

  lemma WaitKeepsHistory(s: System, q: RequestId, move: Move)
    requires CanMove(s, q, move) && (move.Begin? || move.Poll? || move.Wake?)
    ensures HistoryKept(s.jobs[q], JobAfter(s, q, move))
  {
    var job, n := s.jobs[q], |ActiveIds(s.rows)|;
    ContinuedKeepsHistory(job);
    ContinuedKeepsHistory(job.(initial := n, left := Iterations(n, s.margin)));
  }

  lemma ConcludedHeard(job: Job)
    requires job.kind.Chat? && job.pc.Releasing? && HeardOk(job)
    ensures HeardOk(Concluded(job, job.pc.outcome))
  {
    var n := |job.outcomes|;
    FitNext(job.outcomes, job.answers[..n], job.pc.outcome, job.answers[n]);
    assert job.answers[..n] + [job.answers[n]] == job.answers == job.answers[..n + 1];
  }

  lemma CallKeepsHeard(s: System, q: RequestId, move: Move)
    requires CanMove(s, q, move) && CallMove(move) && s.jobs[q].kind.Chat? && HeardOk(s.jobs[q])
    ensures HeardOk(JobAfter(s, q, move))
  {
    var job := s.jobs[q];
    match move
    case Hear(answer) =>
      ChatPlanFits(answer, job.kind.stream);
      assert (job.answers + [answer])[..|job.outcomes|] == job.answers[..|job.outcomes|];
    case Release =>
      ConcludedHeard(job);
    case Fail =>
      assert (job.answers + [Crash])[..|job.outcomes|] == job.answers[..|job.outcomes|];
    case Write(_) =>
  }

  lemma {:induction false} ChatHeardOk(states: seq<System>, actions: seq<Action>, i: nat, q: RequestId)
    requires IsRun(states, actions) && i < |states|
    requires q in states[i].jobs && states[i].jobs[q].kind.Chat?
    ensures HeardOk(states[i].jobs[q])
  {
    assert StepAt(states, actions, i - 1);
    var s, a := states[i - 1], actions[i - 1];
    if q in s.jobs {
      if a.Own? && a.q == q {
        MoveFramed(s, q, a.move);
        ChatHeardOk(states, actions, i - 1, q);
        if PickMove(a.move) {
          PickKeepsHistory(s, q, a.move);
        } else if CallMove(a.move) {
          CallKeepsHeard(s, q, a.move);
        } else {
          WaitKeepsHistory(s, q, a.move);
        }
      } else {
        ChatHeardOk(states, actions, i - 1, q);
      }
    }
  }

  /**
    In any run, what a chat request is told that finishes without an exception, from the
    answers it heard: a code exactly if one of them is passed through, and then that one's;
    404 exactly if it heard any, all were 404 and a model was named; else 503.
   */
  lemma ChatStatusFromAnswers(states: seq<System>, actions: seq<Action>, i: nat, q: RequestId)
    requires IsRun(states, actions) && i < |states|
    requires q in states[i].jobs && states[i].jobs[q].kind.Chat? && states[i].jobs[q].pc.Finished?
    requires forall k :: 0 <= k < |states[i].jobs[q].outcomes| ==> !states[i].jobs[q].outcomes[k].Raises?
    ensures var job := states[i].jobs[q];
      job.pc.result.Told? && ToldFromAnswers(job.pc.result.response, job.answers, job.kind.named)
  {
    ChatAlwaysOk(states, actions, i, q);
    ChatHeardOk(states, actions, i, q);
    var job := states[i].jobs[q];
    assert job.answers[..|job.outcomes|] == job.answers;
    StatusFromAnswers(job.pc.result.response, job.outcomes, job.answers, job.initial, job.kind.named);
  }

  /**
    A chat request counts the active keys when it begins, and is given one iteration for
    each, or one if there is none, and the margin; a model-list request picks at once.
   */
  lemma BeginCounts(s: System, q: RequestId)
    requires CanMove(s, q, Begin)
    ensures var job, after, n := s.jobs[q], JobAfter(s, q, Begin), |WithStatus(s.rows, Active)|;
      var granted := (if n == 0 then 1 else n) + s.margin;
      if job.kind.ModelList? then after == job.(pc := WantsLock)
      else if granted > 0 then after == job.(pc := WantsLock, initial := n, left := granted - 1)
      else after.pc.Finished? && after.initial == n
  {
    ActiveCount(s.rows);
    assert JobAfter(s, q, Begin) == Begun(s.jobs[q], |ActiveIds(s.rows)|, s.margin);
    BegunGranted(s.jobs[q], |ActiveIds(s.rows)|, s.margin);
  }

  lemma BegunGranted(job: Job, n: nat, margin: int)
    ensures var after, granted := Begun(job, n, margin), (if n == 0 then 1 else n) + margin;
      if job.kind.ModelList? then after == job.(pc := WantsLock)
      else if granted > 0 then after == job.(pc := WantsLock, initial := n, left := granted - 1)
      else after.pc.Finished? && after.initial == n
  {
  }

  /** A model-list request that finds all keys reserved ends without a list. */
  lemma ModelListStarved(s: System, q: RequestId)
    requires CanMove(s, q, ScanAndReserve) && s.jobs[q].kind.ModelList?
    requires forall id :: id in s.jobs[q].pc.ids ==> id in s.inFlight
    ensures JobAfter(s, q, ScanAndReserve) == s.jobs[q].(pc := Finished(Listed(false)))
  {
    var _ := ScanExact(s.jobs[q].pc.ids, s.nextIdx, s.inFlight);
  }

  /** A model-list request gets its list exactly if the call it made is answered by a 2xx with one in it. */
  lemma ModelListEnds(s: System, q: RequestId, answer: Answer, at: int) returns (t: System)
    requires q in s.jobs && s.jobs[q].kind.ModelList? && s.jobs[q].pc.Calling? && at <= s.clock
    requires s.jobs[q].pc.key in s.rows
    ensures Makes(s, q, CallMoves(answer, at), t)
    ensures q in t.jobs && t.jobs[q].pc.Finished?
    ensures t.jobs[q].pc.result == Listed(true) <==>
      answer.Reply? && 200 <= answer.code < 300 && answer.body.Payload? && answer.body.walkable
    ensures t.jobs[q].pc.result == Threw <==>
      || answer.Crash?
      || (answer.Reply? && 200 <= answer.code < 300 && !(answer.body.Payload? && answer.body.walkable))
      || (IsReply(answer, 429) && !PutsToSleep(answer, at))
  {
    t := CallSteps(s, q, answer, at);
    ModelsPlanDelivers(answer);
  }

  // ------------------------------------------------------------ bounded effort

  /** Steps a wait can still take: a poll and a wake-up for every backoff that fits. */
  function PollsLeft(deadline: int, now: int): nat {
    if now >= deadline then 0 else (deadline - now + WAIT_BACKOFF - 1) / WAIT_BACKOFF
  }

  /** One iteration: five steps to pick, then a wait of at most a thousand naps. */
  function Rounds(left: nat): nat {
    2006 * left
  }

  function Phase(pc: Pc, clock: int): nat {
    match pc
    case WantsLock => 2006
    case Loading => 2005
    case Reviving => 2004
    case Reloading => 2003
    case Scanning(_) => 2002
    case Polling(deadline, _) => 2 * PollsLeft(deadline, clock) + 1
    case Napping(deadline, wake) => 2 * PollsLeft(deadline, wake) + 2
    case Calling(_) => 4
    case Recording(_, _) => 3
    case Releasing(_, outcome) => if outcome.Raises? then 1 else 2
    case _ => 0
  }

  /** A bound on the moves a request that has begun can still make. */
  function StepsLeft(job: Job, clock: int): nat {
    if job.pc.Over() then 0 else Rounds(job.left) + Phase(job.pc, clock)
  }

  lemma ContinuedCosts(job: Job, clock: int)
    ensures StepsLeft(Continued(job), clock) <= Rounds(job.left)
  {
  }

  lemma ScanCosts(s: System, q: RequestId)
    requires CanMove(s, q, ScanAndReserve)
    ensures StepsLeft(JobAfter(s, q, ScanAndReserve), s.clock) < StepsLeft(s.jobs[q], s.clock)
  {
    assert PollsLeft(s.clock + WAIT_TOTAL, s.clock) == MAX_NAPS;
    assert StepsLeft(FoundNothing(s.jobs[q], s.clock), s.clock) < StepsLeft(s.jobs[q], s.clock);
  }

  lemma PhaseDrops(job: Job, pc: Pc, clock: int)
    requires !job.pc.Over() && Phase(pc, clock) < Phase(job.pc, clock)
    ensures StepsLeft(job.(pc := pc), clock) < StepsLeft(job, clock)
  {
  }

  /** A move that only goes one phase on. */
  ghost predicate Advances(s: System, q: RequestId, move: Move)
    requires CanMove(s, q, move)
  {
    var job, after := s.jobs[q], JobAfter(s, q, move);
    after == job.(pc := after.pc) && !job.pc.Over() && Phase(after.pc, s.clock) < Phase(job.pc, s.clock)
  }

  lemma LoadAdvances(s: System, q: RequestId)
    requires CanMove(s, q, Load)
    ensures Advances(s, q, Load)
  {
    LoadedPhase(ActiveIds(s.rows), s.clock);
  }

  lemma LoadedPhase(ids: seq<KeyId>, clock: int)
    ensures Phase(Loaded(ids), clock) <= Phase(Reviving, clock)
  {
  }

  lemma ReloadAdvances(s: System, q: RequestId)
    requires CanMove(s, q, Reload)
    ensures Advances(s, q, Reload)
  {
  }

  lemma LockAdvances(s: System, q: RequestId, move: Move)
    requires CanMove(s, q, move) && (move.Acquire? || move.ReviveExpired?)
    ensures Advances(s, q, move)
  {
  }

  lemma PickCosts(s: System, q: RequestId, move: Move)
    requires CanMove(s, q, move) && PickMove(move)
    ensures StepsLeft(JobAfter(s, q, move), s.clock) < StepsLeft(s.jobs[q], s.clock)
  {
    if move.ScanAndReserve? {
      ScanCosts(s, q);
    } else {
      match move {
        case Load => LoadAdvances(s, q);
        case Reload => ReloadAdvances(s, q);
        case _ => LockAdvances(s, q, move);
      }
      PhaseDrops(s.jobs[q], JobAfter(s, q, move).pc, s.clock);
    }
  }

  lemma CallCosts(s: System, q: RequestId, move: Move)
    requires CanMove(s, q, move) && CallMove(move) && !s.jobs[q].pc.Arrived?
    ensures StepsLeft(JobAfter(s, q, move), s.clock) < StepsLeft(s.jobs[q], s.clock)
  {
    var job := s.jobs[q];
    if move.Release? && job.pc.outcome.Rotates? {
      var o := job.pc.outcome;
      ContinuedCosts(job.(outcomes := job.outcomes + [o], all404 := job.all404 && o.missing), s.clock);
    }
  }

  lemma WaitCosts(s: System, q: RequestId, move: Move)
    requires CanMove(s, q, move) && (move.Poll? || move.Wake?)
    ensures StepsLeft(JobAfter(s, q, move), s.clock) < StepsLeft(s.jobs[q], s.clock)
  {
    ContinuedCosts(s.jobs[q], s.clock);
  }

  lemma EveryMoveCosts(s: System, q: RequestId, move: Move)
    requires CanMove(s, q, move) && !s.jobs[q].pc.Arrived?
    ensures StepsLeft(JobAfter(s, q, move), s.clock) < StepsLeft(s.jobs[q], s.clock)
  {
    if PickMove(move) {
      PickCosts(s, q, move);
    } else if CallMove(move) {
      CallCosts(s, q, move);
    } else {
      WaitCosts(s, q, move);
    }
  }

  /** The iterations a request is given: a model-list request has one. */
  function Granted(kind: Kind, active: nat, margin: int): nat {
    if kind.ModelList? then 1 else Iterations(active, margin)
  }

  lemma BeginSets(job: Job, active: nat, margin: int, clock: int)
    requires job.left == 0
    ensures StepsLeft(Begun(job, active, margin), clock) <= Rounds(Granted(job.kind, active, margin))
    ensures ScansLeft(Begun(job, active, margin)) <= Granted(job.kind, active, margin)
  {
    if job.kind.Chat? {
      ContinuedCosts(job.(initial := active, left := Iterations(active, margin)), clock);
    }
  }

  lemma TimePassesHarmlessly(job: Job, clock: int, later: int)
    requires clock <= later
    ensures StepsLeft(job, later) <= StepsLeft(job, clock)
  {
  }

  ghost function OwnMoves(actions: seq<Action>, q: RequestId): nat {
    if actions == [] then 0
    else OwnMoves(actions[..|actions| - 1], q)
         + if actions[|actions| - 1].Own? && actions[|actions| - 1].q == q then 1 else 0
  }

  /** From any state on, a begun request moves no more often than its bound says. */
  lemma {:induction false} MovesBounded(states: seq<System>, actions: seq<Action>, j: nat, i: nat, q: RequestId)
    requires IsRun(states, actions) && j <= i < |states|
    requires q in states[j].jobs && !states[j].jobs[q].pc.Arrived?
    ensures q in states[i].jobs && !states[i].jobs[q].pc.Arrived?
    ensures OwnMoves(actions[j..i], q) + StepsLeft(states[i].jobs[q], states[i].clock)
         <= StepsLeft(states[j].jobs[q], states[j].clock)
  {
    if j < i {
      MovesBounded(states, actions, j, i - 1, q);
      assert StepAt(states, actions, i - 1);
      assert actions[j..i][..i - j - 1] == actions[j..i - 1];
      var s, a := states[i - 1], actions[i - 1];
      if a.Own? && a.q == q {
        MoveFramed(s, q, a.move);
        EveryMoveCosts(s, q, a.move);
      } else {
        TimePassesHarmlessly(s.jobs[q], s.clock, states[i].clock);
      }
    }
  }

  /**
    Every request terminates, whatever the others and upstream do: once it has counted n
    active keys it makes at most 2006 moves per iteration, of which a chat request has
    max(1, n) + margin and a model-list request one.
   */
  lemma RequestTerminates(states: seq<System>, actions: seq<Action>, j: nat, i: nat, q: RequestId)
    requires IsRun(states, actions) && j < i < |states|
    requires actions[j] == Own(q, Begin) && q in states[j].jobs
    ensures OwnMoves(actions[j + 1..i], q)
         <= 2006 * Granted(states[j].jobs[q].kind, |ActiveIds(states[j].rows)|, states[j].margin)
  {
    assert StepAt(states, actions, j);
    ArrivedIsNew(states, actions, j, q);
    BeginSets(states[j].jobs[q], |ActiveIds(states[j].rows)|, states[j].margin, states[j].clock);
    MoveFramed(states[j], q, Begin);
    MovesBounded(states, actions, j + 1, i, q);
  }

  // ------------------------------------------------------------- bounded waits

  predicate Waits(pc: Pc) { pc.Polling? || pc.Napping? }

  /** At step `i` a wait lasts that step `l` began: ten seconds from then on it naps no more. */
  ghost predicate WaitsSince(states: seq<System>, actions: seq<Action>, q: RequestId, l: nat, i: nat, pc: Pc)
    requires |states| == |actions| + 1
  {
    && l < i <= |actions| && actions[l] == Own(q, ScanAndReserve)
    && (forall m :: l < m < i ==> actions[m] != Own(q, ScanAndReserve))
    && q in states[l + 1].jobs && states[l + 1].jobs[q].pc.Polling? && !states[l + 1].jobs[q].pc.slept
    && Waits(pc) && pc.deadline == states[l].clock + WAIT_TOTAL
    && (pc.Napping? ==> pc.wake < pc.deadline + WAIT_BACKOFF)
  }

  /** Only a scan begins a wait, and a poll or a wake-up keeps its deadline. */
  ghost predicate KeepsWaiting(s: System, q: RequestId, move: Move)
    requires CanMove(s, q, move)
  {
    var pc, after := s.jobs[q].pc, JobAfter(s, q, move).pc;
    Waits(after) ==>
      && (move.ScanAndReserve? ==> after == Polling(s.clock + WAIT_TOTAL, false))
      && (!move.ScanAndReserve? ==> (move.Poll? || move.Wake?) && Waits(pc) && after.deadline == pc.deadline)
      && (after.Napping? ==> after.wake < after.deadline + WAIT_BACKOFF)
  }

  lemma PickKeepsWaiting(s: System, q: RequestId, move: Move)
    requires CanMove(s, q, move) && PickMove(move)
    ensures KeepsWaiting(s, q, move)
  {
  }

  lemma CallKeepsWaiting(s: System, q: RequestId, move: Move)
    requires CanMove(s, q, move) && CallMove(move)
    ensures KeepsWaiting(s, q, move)
  {
  }

  lemma WaitKeepsWaiting(s: System, q: RequestId, move: Move)
    requires CanMove(s, q, move) && (move.Poll? || move.Wake?)
    ensures KeepsWaiting(s, q, move)
  {
    ContinuedWorks(s.jobs[q]);
  }

  lemma BeginKeepsWaiting(s: System, q: RequestId)
    requires CanMove(s, q, Begin)
    ensures KeepsWaiting(s, q, Begin)
  {
    BegunWorks(s.jobs[q], |ActiveIds(s.rows)|, s.margin);
  }

  lemma BegunWorks(job: Job, active: nat, margin: int)
    ensures !Waits(Begun(job, active, margin).pc)
  {
    ContinuedWorks(job.(initial := active, left := Iterations(active, margin)));
  }

  lemma ContinuedWorks(job: Job)
    ensures !Waits(Continued(job).pc)
  {
  }

  /**
    A wait is bounded in time as well: in every reachable state its deadline is ten seconds
    from the request's last scan, which found nothing and began it, and a nap ends less than
    a backoff past the deadline.
   */
  lemma {:induction false} WaitEnds(states: seq<System>, actions: seq<Action>, i: nat, q: RequestId)
    returns (l: nat)
    requires IsRun(states, actions) && i < |states|
    requires q in states[i].jobs && Waits(states[i].jobs[q].pc)
    ensures WaitsSince(states, actions, q, l, i, states[i].jobs[q].pc)
  {
    assert StepAt(states, actions, i - 1);
    var s, a := states[i - 1], actions[i - 1];
    if a.Own? && a.q == q {
      if PickMove(a.move) {
        PickKeepsWaiting(s, q, a.move);
      } else if CallMove(a.move) {
        CallKeepsWaiting(s, q, a.move);
      } else if a.move.Begin? {
        BeginKeepsWaiting(s, q);
      } else {
        WaitKeepsWaiting(s, q, a.move);
      }
      if a.move.ScanAndReserve? {
        l := i - 1;
      } else {
        l := WaitEnds(states, actions, i - 1, q);
      }
    } else {
      l := WaitEnds(states, actions, i - 1, q);
    }
  }

  /**
    A chat request that finds all keys reserved waits, for ten seconds at most, if any key
    was active at its start; if none was it ends at once.
   */
  lemma StarvedWaits(s: System, q: RequestId)
    requires CanMove(s, q, ScanAndReserve) && s.jobs[q].kind.Chat?
    requires forall id :: id in s.jobs[q].pc.ids ==> id in s.inFlight
    ensures var job, after := s.jobs[q], JobAfter(s, q, ScanAndReserve);
      && (job.initial > 0 ==> after == job.(pc := Polling(s.clock + 10_000_000, false)))
      && (job.initial == 0 ==> after.pc.Finished? && after.left == job.left)
  {
    var _ := ScanExact(s.jobs[q].pc.ids, s.nextIdx, s.inFlight);
  }

  /** It goes back to picking if it has iterations left. */
  ghost predicate TriesAgain(job: Job, after: Job) {
    if job.left > 0 then after == job.(pc := WantsLock, left := job.left - 1)
    else after.pc.Finished?
  }

  /**
    A waiting request naps for a hundredth of a second at a time.  It leaves its wait only
    on a wake-up that finds nothing reserved or on a poll past its deadline, and then tries
    again, unless the deadline had passed before its first nap.
   */
  lemma WaitLeaves(s: System, q: RequestId, move: Move)
    requires CanMove(s, q, move) && Waits(s.jobs[q].pc) && !move.Fail?
    ensures var job, after := s.jobs[q], JobAfter(s, q, move);
      match move
      case Poll =>
        if s.clock < job.pc.deadline then after == job.(pc := Napping(job.pc.deadline, s.clock + 10_000))
        else if job.pc.slept then TriesAgain(job, after)
        else after.pc.Finished?
      case Wake =>
        if s.inFlight == {} then TriesAgain(job, after)
        else after == job.(pc := Polling(job.pc.deadline, true))
      case _ => false
  {
  }

  // ------------------------------------------------------------- bounded picks

  predicate BeforeScan(pc: Pc) { pc.WantsLock? || pc.HasLock() }

  /** The scans a request can still make. */
  function ScansLeft(job: Job): nat {
    job.left + if BeforeScan(job.pc) then 1 else 0
  }

  ghost function Scans(actions: seq<Action>, q: RequestId): nat {
    if actions == [] then 0
    else Scans(actions[..|actions| - 1], q) + if actions[|actions| - 1] == Own(q, ScanAndReserve) then 1 else 0
  }

  lemma MoveSpendsScans(s: System, q: RequestId, move: Move)
    requires CanMove(s, q, move) && !s.jobs[q].pc.Arrived?
    ensures ScansLeft(JobAfter(s, q, move)) + (if move.ScanAndReserve? then 1 else 0) <= ScansLeft(s.jobs[q])
  {
    match move
    case ScanAndReserve =>
    case Release =>
    case Poll =>
    case Wake =>
    case Fail =>
    case _ =>
  }

  lemma {:induction false} ScansBounded(states: seq<System>, actions: seq<Action>, j: nat, i: nat, q: RequestId)
    requires IsRun(states, actions) && j <= i < |states|
    requires q in states[j].jobs && !states[j].jobs[q].pc.Arrived?
    ensures q in states[i].jobs && !states[i].jobs[q].pc.Arrived?
    ensures Scans(actions[j..i], q) + ScansLeft(states[i].jobs[q]) <= ScansLeft(states[j].jobs[q])
  {
    if j < i {
      ScansBounded(states, actions, j, i - 1, q);
      assert StepAt(states, actions, i - 1);
      assert actions[j..i][..i - j - 1] == actions[j..i - 1];
      var s, a := states[i - 1], actions[i - 1];
      if a.Own? && a.q == q {
        MoveFramed(s, q, a.move);
        MoveSpendsScans(s, q, a.move);
      }
    }
  }

  /**
    A chat request that counted n active keys picks at most max(1, n) + margin times; a
    model-list request picks once.
   */
  lemma PicksBounded(states: seq<System>, actions: seq<Action>, j: nat, i: nat, q: RequestId)
    requires IsRun(states, actions) && j < i < |states|
    requires actions[j] == Own(q, Begin) && q in states[j].jobs
    ensures Scans(actions[j + 1..i], q)
         <= Granted(states[j].jobs[q].kind, |ActiveIds(states[j].rows)|, states[j].margin)
  {
    assert StepAt(states, actions, j);
    ArrivedIsNew(states, actions, j, q);
    BeginSets(states[j].jobs[q], |ActiveIds(states[j].rows)|, states[j].margin, states[j].clock);
    MoveFramed(states[j], q, Begin);
    ScansBounded(states, actions, j + 1, i, q);
  }
}
