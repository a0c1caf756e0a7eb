/**
  Safety over whole interleaved runs: cooldowns are honoured, no free key is passed over
  for long, and the table is the replay of the writes committed.
 */
module ProtocolSafety {
  import opened Cyclic
  import opened KeyRows
  import opened Sequences
  import opened Picking
  import opened Classifiers
  import opened Protocol
  import TokenWindows

  /** The write committed by an action, if any. */
  ghost function EventOf(s: System, a: Action): Option<Event>
    requires Enabled(s, a)
  {
    match a
    case Own(q, move) => EventOfMove(s, q, move)
    case Admin(e) => Some(e)
    case _ => None
  }

  lemma NextRows(s: System, a: Action)
    requires Enabled(s, a)
    ensures EventOf(s, a).Some? ==>
      && Accepted(s.rows, EventOf(s, a).value) && TimedBy(EventOf(s, a).value, s.clock)
      && Next(s, a).rows == Commit(s.rows, EventOf(s, a).value)
    ensures EventOf(s, a).None? ==> Next(s, a).rows == s.rows
    ensures Next(s, a).clock >= s.clock
  {
  }

  // ----------------------------------------------------------------- cooldown

  /** The writes that may make a cooling key active again, or restart its cooldown. */
  predicate Lifts(e: Event, id: KeyId) {
    match e
    case Create(_) => false
    case Delete(k) => k == id
    case Patch(k, status) => k == id && status.Some?
    case ResetAll => true
    case Revive(_) => false
    case Record(k, report, _) => k == id && (report.Succeeds() || report.RateLimited?)
  }

  /** The key is out: disabled, or asleep until `until`. */
  ghost predicate Cooling(rows: Table, id: KeyId, until: int) {
    id in rows && (rows[id].status == Disabled
                   || (rows[id].status == Depleted && rows[id].cooldownUntil == Some(until)))
  }

  lemma CoolingKept(rows: Table, e: Event, id: KeyId, until: int, clock: int)
    requires Accepted(rows, e) && !Lifts(e, id) && TimedBy(e, clock) && clock < until
    requires Cooling(rows, id, until)
    ensures Cooling(Commit(rows, e), id, until)
  {
  }

  ghost predicate LiftedAt(states: seq<System>, actions: seq<Action>, i: nat, id: KeyId)
    requires IsRun(states, actions) && i < |actions|
  {
    assert StepAt(states, actions, i);
    EventOf(states[i], actions[i]).Some? && Lifts(EventOf(states[i], actions[i]).value, id)
  }

  /** The write of step `i` is a rate limit on the key, for the seconds up to `until`. */
  ghost predicate RateLimitedAt(states: seq<System>, actions: seq<Action>, i: nat, id: KeyId, until: int)
    requires IsRun(states, actions) && i < |actions|
  {
    assert StepAt(states, actions, i);
    match EventOf(states[i], actions[i])
    case Some(Record(k, RateLimited(_, retryAfter), now)) => k == id && Sleeps(now, retryAfter, until)
    case _ => false
  }

  /** From its latest rate-limit record until the cooldown ends a key is out, whatever else happens. */
  lemma {:induction false} StaysCooling(states: seq<System>, actions: seq<Action>, i: nat, j: nat,
                                        id: KeyId, until: int)
    requires IsRun(states, actions) && i < j < |states|
    requires RateLimitedAt(states, actions, i, id, until)
    requires forall k :: i < k < j ==> !LiftedAt(states, actions, k, id)
    requires states[j].clock < until
    ensures Cooling(states[j].rows, id, until)
  {
    assert StepAt(states, actions, j - 1);
    NextRows(states[j - 1], actions[j - 1]);
    if j - 1 > i {
      StaysCooling(states, actions, i, j - 1, id, until);
      assert !LiftedAt(states, actions, j - 1, id);
      var e := EventOf(states[j - 1], actions[j - 1]);
      if e.Some? {
        CoolingKept(states[j - 1].rows, e.value, id, until, states[j - 1].clock);
      }
    }
  }

  predicate IsOwn(a: Action, q: RequestId) { a.Own? && a.q == q }

  /** A request took the snapshot it scans at step `j` by a query at step `l`, its own last move. */
  ghost predicate LoadedAt(states: seq<System>, actions: seq<Action>, q: RequestId, l: nat, j: nat)
    requires |states| == |actions| + 1
  {
    && l < j < |states|
    && (actions[l] == Own(q, Load) || actions[l] == Own(q, Reload))
    && q in states[j].jobs && states[j].jobs[q].pc == Scanning(ActiveIds(states[l].rows))
    && forall m :: l < m < j ==> !IsOwn(actions[m], q)
  }

  lemma OnlyQueriesLoad(s: System, q: RequestId, move: Move)
    requires CanMove(s, q, move) && JobAfter(s, q, move).pc.Scanning?
    ensures move.Load? || move.Reload?
    ensures JobAfter(s, q, move).pc == Scanning(ActiveIds(s.rows))
  {
    MoveFramed(s, q, move);
    assert PickMove(move) && !move.ScanAndReserve?;
  }

  /** Every snapshot being scanned is what one query saw, however long ago. */
  lemma {:induction false} SnapshotWasLoaded(states: seq<System>, actions: seq<Action>, q: RequestId, j: nat)
    returns (l: nat)
    requires IsRun(states, actions) && j < |states|
    requires q in states[j].jobs && states[j].jobs[q].pc.Scanning?
    ensures LoadedAt(states, actions, q, l, j)
  {
    assert StepAt(states, actions, j - 1);
    var a := actions[j - 1];
    if a.Own? && a.q == q {
      OnlyQueriesLoad(states[j - 1], q, a.move);
      l := j - 1;
    } else {
      l := SnapshotWasLoaded(states, actions, q, j - 1);
    }
  }

  lemma {:induction false} ClockMonotone(states: seq<System>, actions: seq<Action>, i: nat, j: nat)
    requires IsRun(states, actions) && i <= j < |states|
    ensures states[i].clock <= states[j].clock
  {
    if i < j {
      ClockMonotone(states, actions, i, j - 1);
      assert StepAt(states, actions, j - 1);
      NextRows(states[j - 1], actions[j - 1]);
    }
  }

  /**
    Cooldowns are honoured: when a pick returns a key, then for every rate-limit record
    made about it before the query this pick worked from, either the cooldown had ended
    at that query, or in between came a success, a status patch, a reset, a deletion or a
    later rate-limit record, to which the same applies.
   */
  lemma CooldownHonoured(states: seq<System>, actions: seq<Action>, q: RequestId, key: KeyId,
                         i: nat, j: nat, until: int) returns (l: nat)
    requires IsRun(states, actions) && i < j < |actions|
    requires actions[j] == Own(q, ScanAndReserve) && Holds(states[j + 1], q, key)
    requires RateLimitedAt(states, actions, i, key, until)
    ensures LoadedAt(states, actions, q, l, j)
    ensures || l <= i
            || states[l].clock >= until
            || exists k :: i < k < l && LiftedAt(states, actions, k, key)
  {
    assert StepAt(states, actions, j);
    l := SnapshotWasLoaded(states, actions, q, j);
    var s := states[j];
    var _ := ScanExact(s.jobs[q].pc.ids, s.nextIdx, s.inFlight);
    assert key in ActiveIds(states[l].rows);
    if i < l && states[l].clock < until && !exists k :: i < k < l && LiftedAt(states, actions, k, key) {
      StaysCooling(states, actions, i, l, key, until);
    }
  }

  // ------------------------------------------------------------ bounded bypass

  ghost function ScansIn(actions: seq<Action>): nat {
    if actions == [] then 0
    else ScansIn(actions[..|actions| - 1])
         + if actions[|actions| - 1].Own? && actions[|actions| - 1].move.ScanAndReserve? then 1 else 0
  }

  ghost predicate IsScan(a: Action) { a.Own? && a.move.ScanAndReserve? }

  /** A scan over the list `ids`, at which the key in slot `p` is free. */
  ghost predicate ScanSeesFree(s: System, a: Action, ids: seq<KeyId>, p: nat)
    requires Enabled(s, a) && IsScan(a) && p < |ids|
  {
    s.jobs[a.q].pc.ids == ids && ids[p] !in s.inFlight
  }

  ghost predicate ScanPicks(s: System, a: Action, key: KeyId)
    requires Enabled(s, a) && IsScan(a)
  {
    Scan(s.jobs[a.q].pc.ids, s.nextIdx, s.inFlight).chosen == Some(key)
  }

  /** A step that, if it scans, finds slot `p` of `ids` free and takes another key. */
  ghost predicate Passes(s: System, a: Action, ids: seq<KeyId>, p: nat)
    requires Enabled(s, a) && p < |ids|
  {
    IsScan(a) ==> ScanSeesFree(s, a, ids, p) && !ScanPicks(s, a, ids[p])
  }

  ghost predicate PassedOver(states: seq<System>, actions: seq<Action>, i: nat, j: nat, ids: seq<KeyId>, p: nat)
    requires IsRun(states, actions) && j <= |actions| && p < |ids|
  {
    forall k :: i <= k < j && StepAt(states, actions, k) ==> Passes(states[k], actions[k], ids, p)
  }

  lemma StepMovesPointer(s: System, a: Action, ids: seq<KeyId>, p: nat)
    requires Enabled(s, a) && p < |ids| && Distinct(ids) && Passes(s, a, ids, p)
    ensures Distance(Next(s, a).nextIdx, p, |ids|) + (if IsScan(a) then 1 else 0) <= Distance(s.nextIdx, p, |ids|)
  {
    if IsScan(a) {
      PassingBringsNearer(ids, s.nextIdx, s.inFlight, p);
    } else {
      assert Next(s, a).nextIdx == s.nextIdx;
    }
  }

  lemma PassedBefore(states: seq<System>, actions: seq<Action>, i: nat, j: nat, ids: seq<KeyId>, p: nat)
    requires IsRun(states, actions) && i < j <= |actions| && p < |ids|
    requires PassedOver(states, actions, i, j, ids, p)
    ensures PassedOver(states, actions, i, j - 1, ids, p)
  {
  }

  lemma ScansNext(actions: seq<Action>, i: nat, j: nat)
    requires i < j <= |actions|
    ensures ScansIn(actions[i..j]) == ScansIn(actions[i..j - 1]) + if IsScan(actions[j - 1]) then 1 else 0
  {
    assert actions[i..j][..j - i - 1] == actions[i..j - 1];
  }

  lemma LastPass(states: seq<System>, actions: seq<Action>, i: nat, j: nat, ids: seq<KeyId>, p: nat)
    requires IsRun(states, actions) && i < j <= |actions| && p < |ids| && Distinct(ids)
    requires PassedOver(states, actions, i, j, ids, p)
    ensures Distance(states[j].nextIdx, p, |ids|) + (if IsScan(actions[j - 1]) then 1 else 0)
         <= Distance(states[j - 1].nextIdx, p, |ids|)
  {
    assert StepAt(states, actions, j - 1);
    StepMovesPointer(states[j - 1], actions[j - 1], ids, p);
  }

  lemma {:induction false} PassesBounded(states: seq<System>, actions: seq<Action>, i: nat, j: nat,
                                         ids: seq<KeyId>, p: nat)
    requires IsRun(states, actions) && i <= j <= |actions| && p < |ids| && Distinct(ids)
    requires PassedOver(states, actions, i, j, ids, p)
    ensures ScansIn(actions[i..j]) + Distance(states[j].nextIdx, p, |ids|) <= Distance(states[i].nextIdx, p, |ids|)
  {
    if i < j {
      PassedBefore(states, actions, i, j, ids, p);
      PassesBounded(states, actions, i, j - 1, ids, p);
      LastPass(states, actions, i, j, ids, p);
      ScansNext(actions, i, j);
    }
  }

  /**
    Bounded bypass: while the active list stays the same n keys, a key that is free at
    every scan is taken by one of the next n scans, whoever makes them and whatever
    happens to the other keys in between.
   */
  lemma BoundedBypass(states: seq<System>, actions: seq<Action>, i: nat, j: nat, ids: seq<KeyId>, p: nat)
    requires IsRun(states, actions) && i <= j <= |actions| && p < |ids| && Distinct(ids)
    requires forall k :: i <= k < j && StepAt(states, actions, k) && IsScan(actions[k])
               ==> ScanSeesFree(states[k], actions[k], ids, p)
    requires ScansIn(actions[i..j]) >= |ids|
    ensures exists k :: i <= k < j && StepAt(states, actions, k) && IsScan(actions[k])
                        && ScanPicks(states[k], actions[k], ids[p])
  {
    if PassedOver(states, actions, i, j, ids, p) {
      PassesBounded(states, actions, i, j, ids, p);
    }
  }

  // ------------------------------------------------------------ table history

  ghost function EventsOf(s: System, a: Action): seq<Event>
    requires Enabled(s, a)
  {
    match EventOf(s, a) case Some(e) => [e] case None => []
  }

  /** The writes committed by the first `i` actions. */
  ghost function Events(states: seq<System>, actions: seq<Action>, i: nat): seq<Event>
    requires IsRun(states, actions) && i <= |actions|
  {
    if i == 0 then [] else
    assert StepAt(states, actions, i - 1);
    Events(states, actions, i - 1) + EventsOf(states[i - 1], actions[i - 1])
  }

  lemma ReplayNext(log: seq<Event>, s: System, a: Action)
    requires Enabled(s, a) && Valid(log) && Replay(log) == s.rows
    ensures Valid(log + EventsOf(s, a)) && Replay(log + EventsOf(s, a)) == Next(s, a).rows
  {
    NextRows(s, a);
    match EventOf(s, a)
    case Some(e) => Extend(log, e);
    case None => assert log + [] == log;
  }

  /** In every reachable state the table is the replay of an accepted log: the old one and the run's. */
  lemma {:induction false} TableIsReplay(states: seq<System>, actions: seq<Action>, i: nat, log: seq<Event>)
    requires IsRun(states, actions) && i <= |actions|
    requires Valid(log) && Replay(log) == states[0].rows
    ensures Valid(log + Events(states, actions, i))
    ensures Replay(log + Events(states, actions, i)) == states[i].rows
  {
    if i == 0 {
      assert log + [] == log;
    } else {
      TableIsReplay(states, actions, i - 1, log);
      assert StepAt(states, actions, i - 1);
      var s, a, before := states[i - 1], actions[i - 1], Events(states, actions, i - 1);
      ReplayNext(log + before, s, a);
      Regroup(log, before, EventsOf(s, a));
    }
  }

  /**
    So what holds of every log holds of every reachable state: the two counters of a row
    are the numbers of its reports, its token windows are folds of what was counted for it
    since its creation, and without status patches a key has a cooldown exactly while it is
    depleted.
   */
  lemma ReachableRows(states: seq<System>, actions: seq<Action>, i: nat, log: seq<Event>, id: KeyId)
    requires IsRun(states, actions) && i <= |actions|
    requires Valid(log) && Replay(log) == states[0].rows && id in states[i].rows
    ensures var history := log + Events(states, actions, i); var row := states[i].rows[id];
      && row.totalRequests == Successes(history, id) && row.totalFailures == Failures(history, id)
      && row.session == TokenWindows.Fold(TokenWindows.Counted(history, id), SESSION_WINDOW)
      && row.weekly == TokenWindows.Fold(TokenWindows.Counted(history, id), WEEKLY_WINDOW)
      && ((forall k :: 0 <= k < |history| ==> !PatchesStatus(history[k])) ==>
            (row.cooldownUntil.Some? <==> row.status == Depleted))
  {
    TableIsReplay(states, actions, i, log);
    LoggedRow(log + Events(states, actions, i), id);
  }

  lemma LoggedRow(history: seq<Event>, id: KeyId)
    requires Valid(history) && id in Replay(history)
    ensures var row := Replay(history)[id];
      && row.totalRequests == Successes(history, id) && row.totalFailures == Failures(history, id)
      && row.session == TokenWindows.Fold(TokenWindows.Counted(history, id), SESSION_WINDOW)
      && row.weekly == TokenWindows.Fold(TokenWindows.Counted(history, id), WEEKLY_WINDOW)
      && ((forall k :: 0 <= k < |history| ==> !PatchesStatus(history[k])) ==>
            (row.cooldownUntil.Some? <==> row.status == Depleted))
  {
    CountersTellHistory(history, id);
    TokenWindows.RowWindowsFold(history, id);
    if forall k :: 0 <= k < |history| ==> !PatchesStatus(history[k]) {
      CooldownIffDepleted(history);
    }
  }
}
