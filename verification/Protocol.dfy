/**
  The service as a transition system: any number of chat and model-list requests that
  share the pool, interleaved at every await, with administrators and probes writing to
  the table in between.  A pick is several steps: `release` and the `record_*` calls take
  no lock, so they can run between a pick's query and its scan.
 */
module Protocol {
  import opened KeyRows
  import opened Sequences
  import opened Picking
  import opened Classifiers
  import opened Rotating

  type RequestId = nat

  datatype Kind = Chat(named: bool, stream: bool) | ModelList

  datatype Result = Told(response: Response) | Listed(ok: bool) | Threw

  /** Where a request is. */
  datatype Pc =
    | Arrived
    | WantsLock
    | Loading                                   // holds the lock from here
    | Reviving
    | Reloading
    | Scanning(ids: seq<KeyId>)                 // to here
    | Calling(key: KeyId)                       // holds its key from here
    | Recording(key: KeyId, plan: Plan)
    | Releasing(key: KeyId, outcome: Outcome)   // to here
    | Polling(deadline: int, slept: bool)
    | Napping(deadline: int, wake: int)
    | Finished(result: Result)
    | Aborted                                   // cancelled, or failed by the database
  {
    predicate HasLock() { Loading? || Reviving? || Reloading? || Scanning? }

    function Held(): Option<KeyId> {
      if Calling? || Recording? || Releasing? then Some(key) else None
    }

    predicate Over() { Finished? || Aborted? }
  }

  /** A request: `left` iterations it may still begin, and the loop's flags with their history. */
  datatype Job = Job(kind: Kind, pc: Pc, initial: nat, left: nat,
                     anyAttempt: bool, all404: bool, outcomes: seq<Outcome>, answers: seq<Answer>)

  datatype System = System(
    rows: Table,
    nextIdx: nat,
    inFlight: set<KeyId>,
    lock: Option<RequestId>,
    clock: int,
    jobs: map<RequestId, Job>,
    margin: int)

  datatype Move =
    | Begin
    | Acquire
    | Load
    | ReviveExpired(now: int)
    | Reload
    | ScanAndReserve
    | Hear(answer: Answer)
    | Write(now: int)
    | Release
    | Poll
    | Wake
    | Fail

  predicate PickMove(m: Move) {
    m.Acquire? || m.Load? || m.ReviveExpired? || m.Reload? || m.ScanAndReserve?
  }

  predicate CallMove(m: Move) { m.Hear? || m.Write? || m.Release? || m.Fail? }

  datatype Action =
    | Own(q: RequestId, move: Move)
    | Arrive(q: RequestId, kind: Kind)
    | Admin(event: Event)
    | Tick(passed: nat)

  // -------------------------------------------------------------- one request

  function LoopEnd(job: Job): Response {
    if !job.anyAttempt then (if job.initial == 0 then NoActiveKeys else AllBusy)
    else if job.all404 && job.kind.Chat? && job.kind.named then ModelMissing
    else AllFailed
  }

  /** Begin the next iteration, or leave the loop. */
  function Continued(job: Job): Job {
    if job.left == 0 then job.(pc := Finished(Told(LoopEnd(job))))
    else job.(pc := WantsLock, left := job.left - 1)
  }

  function Begun(job: Job, active: nat, margin: int): Job {
    if job.kind.ModelList? then job.(pc := WantsLock)
    else Continued(job.(initial := active, left := Iterations(active, margin)))
  }

  function PlanFor(kind: Kind, answer: Answer): Plan {
    match kind
    case Chat(_, stream) => ChatPlan(answer, stream)
    case ModelList => ModelsPlan(answer)
  }

  /** Expired keys are revived only if none is active. */
  function Loaded(ids: seq<KeyId>): Pc {
    if ids == [] then Reviving else Scanning(ids)
  }

  function FoundNothing(job: Job, clock: int): Job {
    if job.kind.ModelList? then job.(pc := Finished(Listed(false)))
    else if job.initial == 0 then job.(pc := Finished(Told(LoopEnd(job))))
    else job.(pc := Polling(clock + WAIT_TOTAL, false))
  }

  function Concluded(job: Job, outcome: Outcome): Job {
    var j := job.(outcomes := job.outcomes + [outcome]);
    if job.kind.ModelList? then
      j.(pc := Finished(if outcome.Raises? then Threw else Listed(outcome.Delivers?)))
    else match outcome
    case Delivers(code) => j.(pc := Finished(Told(Delivered(code))))
    case Raises => j.(pc := Finished(Told(Crashed)))
    case Rotates(missing) => Continued(j.(all404 := job.all404 && missing))
  }

  /** An exception or a cancellation at an await.  A held key is still released on the way out. */
  function Failed(job: Job): Job {
    match job.pc.Held()
    case Some(key) =>
      job.(pc := Releasing(key, Raises), answers := if job.pc.Calling? then job.answers + [Crash] else job.answers)
    case None => job.(pc := Aborted)
  }

  // --------------------------------------------------------------- the system

  predicate CanMove(s: System, q: RequestId, move: Move)
  {
    q in s.jobs &&
    var pc := s.jobs[q].pc;
    match move
    case Begin => pc.Arrived?
    case Acquire => pc.WantsLock? && s.lock == None
    case Load => pc.Loading?
    case ReviveExpired(now) => pc.Reviving? && now <= s.clock
    case Reload => pc.Reloading?
    case ScanAndReserve => pc.Scanning?
    case Hear(_) => pc.Calling?
    case Write(now) => pc.Recording? && now <= s.clock
    case Release => pc.Releasing?
    case Poll => pc.Polling?
    case Wake => pc.Napping? && pc.wake <= s.clock
    case Fail => !pc.Over() && !(pc.Releasing? && pc.outcome.Raises?)
  }

  /** The write an own move commits, if any. */
  function EventOfMove(s: System, q: RequestId, move: Move): Option<Event>
    requires CanMove(s, q, move)
  {
    var pc := s.jobs[q].pc;
    match move
    case ReviveExpired(now) => Some(Event.Revive(now))
    case Write(now) =>
      if pc.plan.report.Some? && Accepted(s.rows, Record(pc.key, pc.plan.report.value, now))
      then Some(Record(pc.key, pc.plan.report.value, now)) else None
    case _ => None
  }

  /** The request after its own move. */
  function JobAfter(s: System, q: RequestId, move: Move): Job
    requires CanMove(s, q, move)
  {
    var job := s.jobs[q];
    var pc := job.pc;
    match move
    case Begin => Begun(job, |ActiveIds(s.rows)|, s.margin)
    case Acquire => job.(pc := Loading)
    case Load => job.(pc := Loaded(ActiveIds(s.rows)))
    case ReviveExpired(_) => job.(pc := Reloading)
    case Reload => job.(pc := Scanning(ActiveIds(s.rows)))
    case ScanAndReserve =>
      (match Scan(pc.ids, s.nextIdx, s.inFlight).chosen
       case Some(key) => job.(pc := Calling(key), anyAttempt := true)
       case None => FoundNothing(job, s.clock))
    case Hear(answer) =>
      job.(pc := Recording(pc.key, PlanFor(job.kind, answer)), answers := job.answers + [answer])
    case Write(now) => job.(pc := Releasing(pc.key, Ending(s.rows, pc.key, pc.plan, now)))
    case Release => Concluded(job, pc.outcome)
    case Poll =>
      if s.clock < pc.deadline then job.(pc := Napping(pc.deadline, s.clock + WAIT_BACKOFF))
      else if pc.slept then Continued(job)
      else job.(pc := Finished(Told(LoopEnd(job))))
    case Wake => if s.inFlight == {} then Continued(job) else job.(pc := Polling(pc.deadline, true))
    case Fail => Failed(job)
  }

  function LockAfter(s: System, q: RequestId, move: Move): Option<RequestId>
    requires CanMove(s, q, move)
  {
    if move.Acquire? then Some(q)
    else if move.ScanAndReserve? || (move.Fail? && s.jobs[q].pc.HasLock()) then None
    else s.lock
  }

  function Moved(s: System, q: RequestId, move: Move): System
    requires CanMove(s, q, move)
  {
    var pc := s.jobs[q].pc;
    var pick := if move.ScanAndReserve? then Scan(pc.ids, s.nextIdx, s.inFlight)
                else Pick(None, s.nextIdx, if move.Release? then s.inFlight - {pc.key} else s.inFlight);
    s.(rows := match EventOfMove(s, q, move) case Some(e) => Commit(s.rows, e) case None => s.rows,
       nextIdx := pick.nextIdx,
       inFlight := pick.inFlight,
       lock := LockAfter(s, q, move),
       jobs := s.jobs[q := JobAfter(s, q, move)])
  }

  /** Clock readings stored in the table were taken in the past. */
  predicate TimedBy(e: Event, clock: int) {
    match e
    case Revive(now) => now <= clock
    case Record(_, _, now) => now <= clock
    case _ => true
  }

  predicate Enabled(s: System, a: Action) {
    match a
    case Own(q, move) => CanMove(s, q, move)
    case Arrive(q, _) => q !in s.jobs
    case Admin(e) => Accepted(s.rows, e) && TimedBy(e, s.clock)
    case Tick(_) => true
  }

  function Next(s: System, a: Action): System
    requires Enabled(s, a)
  {
    match a
    case Own(q, move) => Moved(s, q, move)
    case Arrive(q, kind) => s.(jobs := s.jobs[q := Job(kind, Arrived, 0, 0, false, true, [], [])])
    case Admin(e) => s.(rows := Commit(s.rows, e))
    case Tick(passed) => s.(clock := s.clock + passed)
  }

  /**
    Who touches what: a request changes no other request's state; an administrator or a
    probe changes the table only; time changes the clock only; and a new request has made
    no attempt yet.
   */
  lemma ActionsTouch(s: System, a: Action)
    requires Enabled(s, a)
    ensures var t := Next(s, a);
      match a
      case Own(q, _) =>
        && t.jobs.Keys == s.jobs.Keys && t.clock == s.clock && t.margin == s.margin
        && forall r :: r in s.jobs && r != q ==> t.jobs[r] == s.jobs[r]
      case Arrive(q, kind) =>
        && q !in s.jobs && t == s.(jobs := t.jobs) && t.jobs.Keys == s.jobs.Keys + {q}
        && (forall r :: r in s.jobs ==> t.jobs[r] == s.jobs[r])
        && t.jobs[q].kind == kind && t.jobs[q].pc == Arrived && t.jobs[q].answers == [] && t.jobs[q].outcomes == []
      case Admin(_) => t == s.(rows := t.rows)
      case Tick(passed) => t == s.(clock := t.clock) && t.clock - s.clock == passed
  {
  }

  ghost predicate Initial(s: System) {
    s.jobs == map[] && s.inFlight == {} && s.lock == None
  }

  ghost predicate StepAt(states: seq<System>, actions: seq<Action>, i: nat)
    requires |states| == |actions| + 1 && i < |actions|
  {
    Enabled(states[i], actions[i]) && states[i + 1] == Next(states[i], actions[i])
  }

  /** A run: each state follows from the one before by an enabled action. */
  ghost predicate IsRun(states: seq<System>, actions: seq<Action>) {
    && |states| == |actions| + 1
    && Initial(states[0])
    && forall i :: 0 <= i < |actions| ==> StepAt(states, actions, i)
  }

  // --------------------------------------------------------- mutual exclusion

  ghost predicate Holds(s: System, q: RequestId, key: KeyId) {
    q in s.jobs && s.jobs[q].pc.Held() == Some(key)
  }

  ghost predicate LockOk(s: System) {
    && (forall q :: q in s.jobs ==> (s.jobs[q].pc.HasLock() <==> s.lock == Some(q)))
    && (s.lock.Some? ==> s.lock.value in s.jobs)
  }

  /** No key is held twice, and the reserved ids are exactly the held ones. */
  ghost predicate Exclusive(s: System) {
    && (forall q, key :: Holds(s, q, key) ==> key in s.inFlight)
    && (forall key :: key in s.inFlight ==> exists q :: Holds(s, q, key))
    && (forall q, r, key :: Holds(s, q, key) && Holds(s, r, key) ==> q == r)
  }

  /**
    What an own move cannot do: change the kind of request, go back to the start, enter the
    locked region except by acquiring or leave it except by the scan or a failure, or come
    to hold a key except by the scan and to let it go except by the release.
   */
  ghost predicate Framed(s: System, q: RequestId, move: Move)
    requires CanMove(s, q, move)
  {
    var job, after := s.jobs[q], JobAfter(s, q, move);
    && after.kind == job.kind && !after.pc.Arrived?
    && (after.pc.HasLock() <==>
          move.Acquire? || (job.pc.HasLock() && !move.ScanAndReserve? && !move.Fail?))
    && (move.ScanAndReserve? ==> job.pc.HasLock())
    && (!move.ScanAndReserve? && !move.Release? ==> after.pc.Held() == job.pc.Held())
  }

  /** The start of an iteration or the end of the loop: no key, no lock. */
  ghost predicate Between(job: Job, after: Job) {
    after.kind == job.kind && (after.pc.WantsLock? || after.pc.Finished? || after.pc.Polling? || after.pc.Napping?)
  }

  lemma ContinuedBetween(job: Job)
    ensures Between(job, Continued(job))
  {
  }

  lemma BegunBetween(job: Job, active: nat, margin: int)
    ensures Between(job, Begun(job, active, margin))
  {
    ContinuedBetween(job.(initial := active, left := Iterations(active, margin)));
  }

  lemma FoundNothingBetween(job: Job, clock: int)
    ensures Between(job, FoundNothing(job, clock))
  {
  }

  lemma ScanFramed(s: System, q: RequestId)
    requires CanMove(s, q, ScanAndReserve)
    ensures Framed(s, q, ScanAndReserve)
  {
    FoundNothingBetween(s.jobs[q], s.clock);
  }

  lemma PickFramed(s: System, q: RequestId, move: Move)
    requires CanMove(s, q, move) && (move.Acquire? || move.ReviveExpired? || move.Reload?)
    ensures Framed(s, q, move)
  {
  }

  lemma LoadFramed(s: System, q: RequestId)
    requires CanMove(s, q, Load)
    ensures Framed(s, q, Load)
  {
    LoadedLocked(ActiveIds(s.rows));
  }

  lemma LoadedLocked(ids: seq<KeyId>)
    ensures Loaded(ids).HasLock() && Loaded(ids).Held() == None
  {
  }

  lemma CallFramed(s: System, q: RequestId, move: Move)
    requires CanMove(s, q, move) && CallMove(move)
    ensures Framed(s, q, move)
  {
  }

  lemma WaitFramed(s: System, q: RequestId, move: Move)
    requires CanMove(s, q, move) && (move.Begin? || move.Poll? || move.Wake?)
    requires Between(s.jobs[q], JobAfter(s, q, move))
    ensures Framed(s, q, move)
  {
  }

  lemma WaitBetween(s: System, q: RequestId, move: Move)
    requires CanMove(s, q, move) && (move.Begin? || move.Poll? || move.Wake?)
    ensures Between(s.jobs[q], JobAfter(s, q, move))
  {
    ContinuedBetween(s.jobs[q]);
    BegunBetween(s.jobs[q], |ActiveIds(s.rows)|, s.margin);
  }

  lemma MoveFramed(s: System, q: RequestId, move: Move)
    requires CanMove(s, q, move)
    ensures Framed(s, q, move)
  {
    if move.ScanAndReserve? {
      ScanFramed(s, q);
    } else if move.Load? {
      LoadFramed(s, q);
    } else if PickMove(move) {
      PickFramed(s, q, move);
    } else if CallMove(move) {
      CallFramed(s, q, move);
    } else {
      WaitBetween(s, q, move);
      WaitFramed(s, q, move);
    }
  }

  lemma MoveKeepsLock(s: System, q: RequestId, move: Move)
    requires CanMove(s, q, move) && LockOk(s)
    ensures LockOk(Moved(s, q, move))
  {
    MoveFramed(s, q, move);
    var jobs, lock := s.jobs[q := JobAfter(s, q, move)], LockAfter(s, q, move);
    assert Moved(s, q, move).jobs == jobs && Moved(s, q, move).lock == lock;
    assert s.jobs[q].pc.HasLock() <==> s.lock == Some(q);
    assert forall r :: r in jobs && r != q ==> r in s.jobs && jobs[r] == s.jobs[r];
  }

  lemma ScanReserves(s: System, q: RequestId)
    requires CanMove(s, q, ScanAndReserve) && Exclusive(s)
    ensures Exclusive(Moved(s, q, ScanAndReserve))
  {
    var t := Moved(s, q, ScanAndReserve);
    var i := ScanExact(s.jobs[q].pc.ids, s.nextIdx, s.inFlight);
    var chosen := Scan(s.jobs[q].pc.ids, s.nextIdx, s.inFlight).chosen;
    assert forall r, key :: r != q ==> (Holds(t, r, key) <==> Holds(s, r, key));
    assert forall key :: !Holds(s, q, key);
    forall key | key in t.inFlight ensures exists r :: Holds(t, r, key) {
      if chosen == Some(key) {
        assert Holds(t, q, key);
      } else {
        var r :| Holds(s, r, key);
        assert Holds(t, r, key);
      }
    }
  }

  lemma ReleaseFrees(s: System, q: RequestId)
    requires CanMove(s, q, Release) && Exclusive(s)
    ensures Exclusive(Moved(s, q, Release))
  {
    var t, mine := Moved(s, q, Release), s.jobs[q].pc.key;
    assert Holds(s, q, mine);
    assert forall r, key :: r != q ==> (Holds(t, r, key) <==> Holds(s, r, key));
    assert forall key :: !Holds(t, q, key);
    forall key | key in t.inFlight ensures exists r :: Holds(t, r, key) {
      var r :| Holds(s, r, key);
      assert Holds(t, r, key);
    }
  }

  lemma OthersKeepHolding(s: System, q: RequestId, move: Move)
    requires CanMove(s, q, move) && Exclusive(s) && !move.ScanAndReserve? && !move.Release?
    ensures Exclusive(Moved(s, q, move))
  {
    MoveFramed(s, q, move);
    var t := Moved(s, q, move);
    var jobs := s.jobs[q := JobAfter(s, q, move)];
    assert t.jobs == jobs && t.inFlight == s.inFlight;
    assert forall r, key :: Holds(t, r, key) <==> Holds(s, r, key);
  }

  lemma NextKeepsExclusive(s: System, a: Action)
    requires Enabled(s, a) && Exclusive(s) && LockOk(s)
    ensures Exclusive(Next(s, a)) && LockOk(Next(s, a))
  {
    var t := Next(s, a);
    match a
    case Own(q, move) =>
      MoveKeepsLock(s, q, move);
      if move.ScanAndReserve? {
        ScanReserves(s, q);
      } else if move.Release? {
        ReleaseFrees(s, q);
      } else {
        OthersKeepHolding(s, q, move);
      }
    case _ =>
      assert forall r, key :: Holds(t, r, key) <==> Holds(s, r, key);
  }

  /**
    In every reachable state, however the requests are interleaved and wherever they fail,
    no key is held by two requests, the reserved ids are exactly the keys held between a
    pick and its release, and the lock is held by exactly the request inside a pick.
   */
  lemma {:induction false} MutualExclusion(states: seq<System>, actions: seq<Action>, i: nat)
    requires IsRun(states, actions) && i < |states|
    ensures Exclusive(states[i]) && LockOk(states[i])
  {
    if i > 0 {
      MutualExclusion(states, actions, i - 1);
      assert StepAt(states, actions, i - 1);
      NextKeepsExclusive(states[i - 1], actions[i - 1]);
    }
  }

  /** When no request is between a pick and its release, nothing is reserved: no id ever leaks. */
  lemma NothingLeaks(states: seq<System>, actions: seq<Action>, i: nat)
    requires IsRun(states, actions) && i < |states|
    requires forall q :: q in states[i].jobs ==> states[i].jobs[q].pc.Held() == None
    ensures states[i].inFlight == {}
  {
    MutualExclusion(states, actions, i);
    assert forall q, key :: !Holds(states[i], q, key);
  }

  /** A key just picked is new to the reservations: nobody held it, and now this request does. */
  lemma PickedKeyWasFree(states: seq<System>, actions: seq<Action>, i: nat, q: RequestId, key: KeyId)
    requires IsRun(states, actions) && i < |actions| && actions[i] == Own(q, ScanAndReserve)
    requires Holds(states[i + 1], q, key)
    ensures forall r :: !Holds(states[i], r, key)
    ensures var t := states[i + 1]; forall r :: r != q ==> !Holds(t, r, key)
    ensures CanMove(states[i], q, ScanAndReserve) && key in states[i].jobs[q].pc.ids
  {
    MutualExclusion(states, actions, i);
    MutualExclusion(states, actions, i + 1);
    assert StepAt(states, actions, i);
    var s := states[i];
    var _ := ScanExact(s.jobs[q].pc.ids, s.nextIdx, s.inFlight);
  }

  // -------------------------------------------------------- uninterrupted pick

  /** `q` gets from `s` to `t` by these moves of its own, with nothing in between. */
  ghost predicate Makes(s: System, q: RequestId, moves: seq<Move>, t: System)
    decreases |moves|
  {
    if moves == [] then t == s
    else CanMove(s, q, moves[0]) && Makes(Moved(s, q, moves[0]), q, moves[1..], t)
  }

  lemma MakesOne(s: System, q: RequestId, m: Move, t: System)
    requires CanMove(s, q, m) && t == Moved(s, q, m)
    ensures Makes(s, q, [m], t)
  {
    assert [m][1..] == [];
  }

  lemma MakesFirst(s: System, q: RequestId, moves: seq<Move>, mid: System, t: System)
    requires moves != [] && CanMove(s, q, moves[0]) && mid == Moved(s, q, moves[0])
    requires Makes(mid, q, moves[1..], t)
    ensures Makes(s, q, moves, t)
  {
  }

  lemma {:induction false} MakesThen(s: System, q: RequestId, first: seq<Move>, t: System, second: seq<Move>, u: System)
    requires Makes(s, q, first, t) && Makes(t, q, second, u)
    ensures Makes(s, q, first + second, u)
    decreases |first|
  {
    if first == [] {
      assert first + second == second;
    } else {
      var mid := Moved(s, q, first[0]);
      MakesThen(mid, q, first[1..], t, second, u);
      TailOfSum(first, second);
      MakesFirst(s, q, first + second, mid, u);
    }
  }

  /** The system with one request inside its pick. */
  function Inside(s: System, q: RequestId, rows: Table, pc: Pc): System
    requires q in s.jobs
  {
    s.(rows := rows, lock := Some(q), jobs := s.jobs[q := s.jobs[q].(pc := pc)])
  }

  lemma AcquireStep(s: System, q: RequestId)
    requires CanMove(s, q, Acquire)
    ensures Moved(s, q, Acquire) == Inside(s, q, s.rows, Loading)
  {
  }

  lemma LoadStep(s: System, q: RequestId, rows: Table)
    requires q in s.jobs
    ensures Moved(Inside(s, q, rows, Loading), q, Move.Load)
         == Inside(s, q, rows, Loaded(ActiveIds(rows)))
  {
    var t := Inside(s, q, rows, Loading);
    assert Moved(t, q, Move.Load).jobs[q] == JobAfter(t, q, Move.Load);
  }

  lemma ReviveStep(s: System, q: RequestId, rows: Table, now: int)
    requires q in s.jobs && now <= s.clock
    ensures Moved(Inside(s, q, rows, Reviving), q, ReviveExpired(now))
         == Inside(s, q, ReviveAll(rows, now), Reloading)
  {
    var t := Inside(s, q, rows, Reviving);
    assert Moved(t, q, ReviveExpired(now)).jobs[q] == JobAfter(t, q, ReviveExpired(now));
  }

  lemma ReloadStep(s: System, q: RequestId, rows: Table)
    requires q in s.jobs
    ensures Moved(Inside(s, q, rows, Reloading), q, Reload) == Inside(s, q, rows, Scanning(ActiveIds(rows)))
  {
    var t := Inside(s, q, rows, Reloading);
    assert Moved(t, q, Reload).jobs[q] == JobAfter(t, q, Reload);
  }

  /** The system after a pick of `q` that worked from these rows and this snapshot. */
  ghost predicate ScanDone(s: System, q: RequestId, rows: Table, ids: seq<KeyId>, t: System)
    requires q in s.jobs
  {
    var pick, job := Scan(ids, s.nextIdx, s.inFlight), s.jobs[q];
    && t.rows == rows && t.nextIdx == pick.nextIdx && t.inFlight == pick.inFlight && t.lock == None
    && t.clock == s.clock && t.margin == s.margin
    && t.jobs == s.jobs[q := match pick.chosen
                             case Some(key) => job.(pc := Calling(key), anyAttempt := true)
                             case None => FoundNothing(job, s.clock)]
  }

  lemma ScanStep(s: System, q: RequestId, rows: Table, ids: seq<KeyId>)
    requires q in s.jobs
    ensures ScanDone(s, q, rows, ids, Moved(Inside(s, q, rows, Scanning(ids)), q, ScanAndReserve))
  {
    var t := Inside(s, q, rows, Scanning(ids));
    var _ := ScanExact(ids, s.nextIdx, s.inFlight);
    assert JobAfter(t, q, ScanAndReserve) == match Scan(ids, s.nextIdx, s.inFlight).chosen
      case Some(key) => s.jobs[q].(pc := Calling(key), anyAttempt := true)
      case None => FoundNothing(s.jobs[q], s.clock);
  }

  /** The moves of a pick: expired keys are revived, and the list queried again, only if none is active. */
  function PickMoves(rows: Table, now: int): seq<Move> {
    [Acquire] + ([Move.Load] + (ReviveMoves(rows, now) + [ScanAndReserve]))
  }

  function ReviveMoves(rows: Table, now: int): seq<Move> {
    if ActiveIds(rows) == [] then [ReviveExpired(now)] + [Reload] else []
  }

  lemma QuerySteps(s: System, q: RequestId, now: int, t: System)
    requires q in s.jobs && now <= s.clock && t == Inside(s, q, s.rows, Loaded(ActiveIds(s.rows)))
    ensures var (rows, ids) := Picking.Load(s.rows, now);
      Makes(t, q, ReviveMoves(s.rows, now), Inside(s, q, rows, Scanning(ids)))
  {
    if ActiveIds(s.rows) == [] {
      var u := Inside(s, q, ReviveAll(s.rows, now), Reloading);
      var v := Inside(s, q, ReviveAll(s.rows, now), Scanning(ActiveIds(ReviveAll(s.rows, now))));
      ReviveStep(s, q, s.rows, now);
      ReloadStep(s, q, ReviveAll(s.rows, now));
      MakesOne(t, q, ReviveExpired(now), u);
      MakesOne(u, q, Reload, v);
      MakesThen(t, q, [ReviveExpired(now)], u, [Reload], v);
    }
  }

  /**
    With nothing in between, the moves of a pick add up to the manager's `PickNextKey`: the
    request can make them one after the other, and they lead to the same table, choice,
    pointer and reservations, with the lock free again and all else as it was.
   */
  lemma UninterruptedPick(s: System, q: RequestId, now: int) returns (t: System)
    requires q in s.jobs && s.jobs[q].pc.WantsLock? && s.lock == None && now <= s.clock
    ensures Makes(s, q, PickMoves(s.rows, now), t)
    ensures var (rows, ids) := Picking.Load(s.rows, now); ScanDone(s, q, rows, ids, t)
  {
    var (rows, ids) := Picking.Load(s.rows, now);
    var a, b := Inside(s, q, s.rows, Loading), Inside(s, q, s.rows, Loaded(ActiveIds(s.rows)));
    var c := Inside(s, q, rows, Scanning(ids));
    AcquireStep(s, q);
    MakesOne(s, q, Acquire, a);
    LoadStep(s, q, s.rows);
    MakesOne(a, q, Move.Load, b);
    QuerySteps(s, q, now, b);
    ScanStep(s, q, rows, ids);
    t := Moved(c, q, ScanAndReserve);
    MakesOne(c, q, ScanAndReserve, t);
    var revive := ReviveMoves(s.rows, now);
    MakesThen(b, q, revive, c, [ScanAndReserve], t);
    MakesThen(a, q, [Move.Load], b, revive + [ScanAndReserve], t);
    MakesThen(s, q, [Acquire], a, [Move.Load] + (revive + [ScanAndReserve]), t);
  }

  /** The moves of a request that holds a key: it hears the answer, records it and lets go of the key. */
  function CallMoves(answer: Answer, at: int): seq<Move> {
    [Hear(answer)] + ([Write(at)] + [Release])
  }

  /** The system after a call of `q` with its key, answered and recorded. */
  ghost predicate CallDone(s: System, q: RequestId, answer: Answer, at: int, t: System)
    requires q in s.jobs && s.jobs[q].pc.Calling?
  {
    var job, key := s.jobs[q], s.jobs[q].pc.key;
    var plan := PlanFor(job.kind, answer);
    && t.rows == Reported(s.rows, key, plan, at)
    && t.nextIdx == s.nextIdx && t.inFlight == s.inFlight - {key} && t.lock == s.lock
    && t.clock == s.clock && t.margin == s.margin
    && t.jobs == s.jobs[q := Concluded(job.(answers := job.answers + [answer]), Ending(s.rows, key, plan, at))]
  }

  lemma HearStep(s: System, q: RequestId, answer: Answer)
    requires CanMove(s, q, Hear(answer))
    ensures var job := s.jobs[q];
      Moved(s, q, Hear(answer)) == s.(jobs := s.jobs[q := job.(
        pc := Recording(job.pc.key, PlanFor(job.kind, answer)), answers := job.answers + [answer])])
  {
  }

  lemma WriteStep(s: System, q: RequestId, at: int)
    requires CanMove(s, q, Write(at))
    ensures var job, pc := s.jobs[q], s.jobs[q].pc;
      Moved(s, q, Write(at)) == s.(rows := Reported(s.rows, pc.key, pc.plan, at),
        jobs := s.jobs[q := job.(pc := Releasing(pc.key, Ending(s.rows, pc.key, pc.plan, at)))])
  {
  }

  lemma ReleaseStep(s: System, q: RequestId)
    requires CanMove(s, q, Release)
    ensures var job, pc := s.jobs[q], s.jobs[q].pc;
      Moved(s, q, Release) == s.(inFlight := s.inFlight - {pc.key}, jobs := s.jobs[q := Concluded(job, pc.outcome)])
  {
  }

  lemma ConcludedAnywhere(job: Job, pc: Pc, outcome: Outcome)
    ensures Concluded(job.(pc := pc), outcome) == Concluded(job, outcome)
  {
  }

  lemma CallSteps(s: System, q: RequestId, answer: Answer, at: int) returns (t: System)
    requires q in s.jobs && s.jobs[q].pc.Calling? && at <= s.clock
    ensures Makes(s, q, CallMoves(answer, at), t) && CallDone(s, q, answer, at, t)
  {
    var job := s.jobs[q];
    var a := Moved(s, q, Hear(answer));
    HearStep(s, q, answer);
    MakesOne(s, q, Hear(answer), a);
    var b := Moved(a, q, Write(at));
    WriteStep(a, q, at);
    MakesOne(a, q, Write(at), b);
    t := Moved(b, q, Release);
    ReleaseStep(b, q);
    MakesOne(b, q, Release, t);
    MakesThen(a, q, [Write(at)], b, [Release], t);
    MakesThen(s, q, [Hear(answer)], a, [Write(at)] + [Release], t);
    ConcludedAnywhere(job.(answers := job.answers + [answer]), b.jobs[q].pc, b.jobs[q].pc.outcome);
    assert t.jobs == s.jobs[q := Concluded(b.jobs[q], b.jobs[q].pc.outcome)];
  }

  /** The turn an uninterrupted iteration is, and the moves it consists of. */
  function TurnAt(pool: Pool, now: int, answer: Answer, at: int): Turn {
    match Picked(pool, now).chosen
    case Some(key) => Tried(now, key, answer, at)
    case None => Starved(now)
  }

  function TurnMoves(pool: Pool, now: int, answer: Answer, at: int): seq<Move> {
    PickMoves(pool.rows, now) + if Picked(pool, now).chosen.Some? then CallMoves(answer, at) else []
  }

  function PoolOf(s: System): Pool { Pool(s.rows, s.nextIdx, s.inFlight) }

  /** The job of a chat request after a turn of its loop. */
  function JobAfterTurn(job: Job, pool: Pool, turn: Turn, stream: bool, clock: int): Job {
    if turn.Tried? then
      Concluded(job.(anyAttempt := true, answers := job.answers + [turn.answer]), OutcomeOf(pool, turn, stream))
    else FoundNothing(job, clock)
  }

  lemma ReleasedAgain(ids: seq<KeyId>, start: nat, busy: set<KeyId>)
    ensures Scan(ids, start, busy).chosen.Some? ==>
      Scan(ids, start, busy).inFlight - {Scan(ids, start, busy).chosen.value} == busy
  {
    var _ := ScanExact(ids, start, busy);
  }

  /**
    With nothing in between, an iteration of a chat request is a turn of the loop: the
    request can make its moves one after the other, and they lead to the same table,
    pointer, reservations and outcome, whether a key was found or not.
   */
  lemma UninterruptedTurn(s: System, q: RequestId, now: int, answer: Answer, at: int) returns (t: System)
    requires q in s.jobs && s.jobs[q].kind.Chat? && s.jobs[q].pc.WantsLock? && s.lock == None
    requires now <= s.clock && at <= s.clock
    ensures var pool, turn, stream := PoolOf(s), TurnAt(PoolOf(s), now, answer, at), s.jobs[q].kind.stream;
      && Makes(s, q, TurnMoves(pool, now, answer, at), t)
      && Possible(pool, turn) && PoolOf(t) == After(pool, turn, stream)
      && t.lock == None && t.jobs == s.jobs[q := JobAfterTurn(s.jobs[q], pool, turn, stream, s.clock)]
  {
    var (rows, ids) := Picking.Load(s.rows, now);
    var u := UninterruptedPick(s, q, now);
    var pick := Scan(ids, s.nextIdx, s.inFlight);
    ReleasedAgain(ids, s.nextIdx, s.inFlight);
    if pick.chosen.Some? {
      t := CallSteps(u, q, answer, at);
      MakesThen(s, q, PickMoves(s.rows, now), u, CallMoves(answer, at), t);
      TriedTurn(s, q, now, answer, at, pick.chosen.value, u, t);
    } else {
      t := u;
      assert PickMoves(s.rows, now) + [] == PickMoves(s.rows, now);
    }
  }

  lemma TriedTurn(s: System, q: RequestId, now: int, answer: Answer, at: int, key: KeyId, u: System, t: System)
    requires q in s.jobs && s.jobs[q].kind.Chat? && Picked(PoolOf(s), now).chosen == Some(key)
    requires var (rows, ids) := Picking.Load(s.rows, now); ScanDone(s, q, rows, ids, u)
    requires CallDone(u, q, answer, at, t)
    ensures var pool, turn, stream := PoolOf(s), TurnAt(PoolOf(s), now, answer, at), s.jobs[q].kind.stream;
      && PoolOf(t) == After(pool, turn, stream)
      && t.jobs == s.jobs[q := JobAfterTurn(s.jobs[q], pool, turn, stream, s.clock)]
  {
    var (rows, ids) := Picking.Load(s.rows, now);
    ReleasedAgain(ids, s.nextIdx, s.inFlight);
    var held := s.jobs[q].(pc := Calling(key), anyAttempt := true);
    assert u.jobs == s.jobs[q := held];
    TriedJobs(s, q, rows, answer, at, key, u, t);
  }

  lemma TriedJobs(s: System, q: RequestId, rows: Table, answer: Answer, at: int, key: KeyId, u: System, t: System)
    requires q in s.jobs && u.rows == rows && Holds(u, q, key) && u.jobs[q].pc.Calling? && CallDone(u, q, answer, at, t)
    requires u.jobs == s.jobs[q := s.jobs[q].(pc := Calling(key), anyAttempt := true)]
    ensures t.jobs == s.jobs[q := Concluded(s.jobs[q].(anyAttempt := true, answers := s.jobs[q].answers + [answer]),
                                            Ending(rows, key, PlanFor(s.jobs[q].kind, answer), at))]
  {
    var end := Ending(rows, key, PlanFor(s.jobs[q].kind, answer), at);
    var heard := u.jobs[q].(answers := u.jobs[q].answers + [answer]);
    ConcludedAnywhere(s.jobs[q].(anyAttempt := true, answers := s.jobs[q].answers + [answer]), Calling(key), end);
    assert t.jobs == s.jobs[q := Concluded(heard, end)];
  }

  // ----------------------------------------------------------------- progress

  /** A move of this request that is not a failure, whatever upstream answers. */
  ghost predicate CanProceed(s: System, q: RequestId) {
    exists move: Move :: !move.Fail? && CanMove(s, q, move)
  }

  /**
    No deadlock: while a request is unfinished, either some request can proceed at once,
    or one that naps can once the clock has passed its wake-up time.
   */
  lemma SomeoneProceeds(s: System, q: RequestId)
    requires LockOk(s) && q in s.jobs && !s.jobs[q].pc.Over()
    ensures || CanProceed(s, q)
            || (s.lock.Some? && CanProceed(s, s.lock.value))
            || (s.jobs[q].pc.Napping? && CanProceed(s.(clock := Max(s.clock, s.jobs[q].pc.wake)), q))
  {
    var r := if s.jobs[q].pc.WantsLock? && s.lock.Some? then s.lock.value else q;
    var pc := s.jobs[r].pc;
    var move := match pc
      case Arrived => Begin
      case WantsLock => Acquire
      case Loading => Load
      case Reviving => ReviveExpired(s.clock)
      case Reloading => Reload
      case Scanning(_) => ScanAndReserve
      case Calling(_) => Hear(NetworkFailure)
      case Recording(_, _) => Write(s.clock)
      case Releasing(_, _) => Release
      case Polling(_, _) => Poll
      case _ => Wake;
    if pc.Napping? {
      assert CanMove(s.(clock := Max(s.clock, pc.wake)), r, Wake);
    } else {
      assert CanMove(s, r, move);
    }
  }
}
