/**
  Coverage of an uncontended request: its turns drive the ring of active keys, so what
  holds of every ring holds of every request that gives up.
 */
module RotationCoverage {
  import opened Cyclic
  import opened KeyRows
  import opened Sequences
  import opened Picking
  import opened Classifiers
  import opened Rotating
  import opened Coverage

  /** The answer takes its key out of the active list. */
  predicate TakesOut(answer: Answer) {
    answer.Reply? && (answer.code == 401 || answer.code == 403 || answer.code == 429)
  }

  /** Nothing is reserved, and the ring shows the pool's active keys and its pointer. */
  ghost predicate Tracks(pool: Pool, r: Ring) {
    && pool.busy == {}
    && r.ids == ActiveIds(pool.rows)
    && WellFormed(r)
    && (r.ids != [] ==> r.at == pool.nextIdx % |r.ids|)
  }

  function RingOf(pool: Pool): (r: Ring)
  {
    var ids := ActiveIds(pool.rows);
    Ring(ids, if ids == [] then 0 else pool.nextIdx % |ids|)
  }

  lemma RingOfTracks(pool: Pool)
    requires pool.busy == {}
    ensures Tracks(pool, RingOf(pool))
  {
    var n := |ActiveIds(pool.rows)|;
    if n > 0 {
      SlotIsModulo(pool.nextIdx, 0, n);
    }
  }

  lemma FreePick(ids: seq<KeyId>, start: nat)
    requires ids != []
    ensures Scan(ids, start, {}) == Pick(Some(ids[start % |ids|]), (start + 1) % |ids|, {ids[start % |ids|]})
  {
  }

  lemma NextSlot(start: nat, n: nat, m: nat)
    requires n > 0 && (m == n || m == n - 1) && m > 0
    ensures (start + 1) % n % m == if start % n + 1 < m then start % n + 1 else 0
  {
    NextPointer(start, 0, n);
    var next := (start + 1) % n;
    QuotientUnique(next, m, if next == m then 1 else 0, if next == m then 0 else next);
  }

  /** A rotating answer leaves the other rows alone and decides its own key's status. */
  lemma RotatingAnswer(rows: Table, key: KeyId, answer: Answer, stream: bool, now: int)
    requires key in rows && rows[key].status == Active
    requires Ending(rows, key, ChatPlan(answer, stream), now).Rotates?
    ensures var after := Reported(rows, key, ChatPlan(answer, stream), now);
      && after.Keys == rows.Keys
      && (forall id :: id in rows && id != key ==> after[id] == rows[id])
      && (after[key].status == Active <==> !TakesOut(answer))
  {
    AttemptMovesKeys(rows, key, answer, stream, now);
  }

  lemma ActiveAfter(rows: Table, after: Table, i: nat, out: bool)
    requires i < |ActiveIds(rows)| && after.Keys == rows.Keys && ActiveIds(rows)[i] in after
    requires forall id :: id in rows && id != ActiveIds(rows)[i] ==> after[id].status == rows[id].status
    requires after[ActiveIds(rows)[i]].status == Active <==> !out
    ensures ActiveIds(after) == if out then Without(ActiveIds(rows), i) else ActiveIds(rows)
  {
    var ids := ActiveIds(rows);
    TakenOut(ids, i);
    if out {
      AscendingUnique(ActiveIds(after), Without(ids, i));
    } else {
      AscendingUnique(ActiveIds(after), ids);
    }
  }

  /** The table left by trying the current key lists the turned ring. */
  lemma TurnTurnsIds(pool: Pool, turn: Turn, stream: bool, r: Ring)
    requires Tracks(pool, r) && r.ids != [] && turn.Tried? && turn.key == r.ids[r.at]
    requires OutcomeOf(pool, turn, stream).Rotates?
    ensures ActiveIds(After(pool, turn, stream).rows) == Turned(r, TakesOut(turn.answer)).ids
  {
    assert turn.key in r.ids;
    RotatingAnswer(pool.rows, turn.key, turn.answer, stream, turn.recordedAt);
    ActiveAfter(pool.rows, After(pool, turn, stream).rows, r.at, TakesOut(turn.answer));
  }

  lemma PicksCurrent(pool: Pool, now: int, r: Ring)
    requires Tracks(pool, r) && r.ids != []
    ensures Picked(pool, now).chosen == Some(r.ids[r.at])
    ensures Picked(pool, now).nextIdx == (pool.nextIdx + 1) % |r.ids|
  {
    FreePick(r.ids, pool.nextIdx);
  }

  lemma PointerTurns(pool: Pool, r: Ring, remove: bool, next: nat)
    requires Tracks(pool, r) && r.ids != [] && next == (pool.nextIdx + 1) % |r.ids|
    ensures var s := Turned(r, remove); s.ids != [] ==> s.at == next % |s.ids|
  {
    var s := Turned(r, remove);
    if s.ids != [] {
      NextSlot(pool.nextIdx, |r.ids|, |s.ids|);
    }
  }

  /** With keys left and nothing reserved, a turn tries the current key and turns the ring. */
  lemma TurnDrivesRing(pool: Pool, turn: Turn, stream: bool, r: Ring)
    requires Tracks(pool, r) && r.ids != [] && Possible(pool, turn)
    requires turn.Tried? ==> OutcomeOf(pool, turn, stream).Rotates?
    ensures turn.Tried? && [turn.key] == Current(r)
    ensures Tracks(After(pool, turn, stream), Turned(r, TakesOut(turn.answer)))
  {
    PicksCurrent(pool, turn.loadedAt, r);
    TurnTurnsIds(pool, turn, stream, r);
    TakenOut(r.ids, r.at);
    PointerTurns(pool, r, TakesOut(turn.answer), After(pool, turn, stream).nextIdx);
  }

  ghost function TriedKeys(turns: seq<Turn>): seq<KeyId> {
    if turns == [] then [] else
    TriedKeys(turns[..|turns| - 1]) + if turns[|turns| - 1].Tried? then [turns[|turns| - 1].key] else []
  }

  ghost function Removals(turns: seq<Turn>): seq<bool> {
    if turns == [] then [] else
    Removals(turns[..|turns| - 1])
      + [turns[|turns| - 1].Tried? && TakesOut(turns[|turns| - 1].answer)]
  }

  lemma {:induction false} RemovalsLength(turns: seq<Turn>)
    ensures |Removals(turns)| == |turns|
    ensures turns != [] ==> Removals(turns)[..|turns| - 1] == Removals(turns[..|turns| - 1])
  {
    if turns != [] {
      RemovalsLength(turns[..|turns| - 1]);
    }
  }

  lemma RepeatPrefix(b: bool, k: nat)
    requires k > 0
    ensures Repeat(b, k)[..k - 1] == Repeat(b, k - 1) && Repeat(b, k)[k - 1] == b
  {
  }

  lemma RemovalsNext(turns: seq<Turn>, turn: Turn)
    ensures Removals(turns + [turn]) == Removals(turns) + [turn.Tried? && TakesOut(turn.answer)]
  {
    assert (turns + [turn])[..|turns|] == turns;
  }

  /** A key leaves the ring only by being tried. */
  lemma {:induction false} EmptyMeansAllTried(r: Ring, removes: seq<bool>)
    requires WellFormed(r)
    ensures forall id :: id in r.ids ==> id in RingAfter(r, removes).ids || id in Tries(r, removes)
  {
    if removes != [] {
      EmptyMeansAllTried(r, removes[..|removes| - 1]);
      var s := RingAfter(r, removes[..|removes| - 1]);
      if s.ids != [] {
        TakenOut(s.ids, s.at);
      }
    }
  }

  /** Up to the turn that empties it, the ring's attempts are the request's. */
  ghost predicate Drives(pool: Pool, turns: seq<Turn>, stream: bool, r: Ring, removes: seq<bool>)
    requires WellFormed(r)
  {
    && (RingAfter(r, removes).ids != [] ==> Tracks(PoolAfter(pool, turns, stream), RingAfter(r, removes)))
    && (forall id :: id in Tries(r, removes) ==> id in TriedKeys(turns))
  }

  ghost predicate Exactly(turns: seq<Turn>, r: Ring, removes: seq<bool>)
    requires WellFormed(r)
  {
    TriedKeys(turns) == Tries(r, removes) && (turns != [] ==> turns[|turns| - 1].Tried?)
  }

  /** One turn more of a request whose attempts have been the ring's so far. */
  lemma DriveOn(pool: Pool, turns: seq<Turn>, first: seq<Turn>, stream: bool, r: Ring, s: Ring)
    requires turns != [] && first == turns[..|turns| - 1]
    requires Follows(pool, turns, stream) && AllRotate(Outcomes(pool, turns, stream))
    requires WellFormed(r) && s == RingAfter(r, Removals(first)) && Drives(pool, first, stream, r, Removals(first))
    requires s.ids != [] ==> Exactly(first, r, Removals(first))
    ensures Drives(pool, turns, stream, r, Removals(turns))
    ensures s.ids != [] ==> Exactly(turns, r, Removals(turns))
  {
    RemovalsLength(turns);
    RotatePrefix(pool, turns, stream);
    if s.ids != [] {
      TurnDrivesRing(PoolAfter(pool, first, stream), turns[|first|], stream, s);
    }
  }

  /**
    As long as the ring has keys the request's attempts are the ring's.  Once it is empty
    the ring's attempts, which are among the request's, have covered every key.
   */
  lemma {:induction false} TurnsDriveRing(pool: Pool, turns: seq<Turn>, stream: bool)
    requires pool.busy == {} && Follows(pool, turns, stream) && AllRotate(Outcomes(pool, turns, stream))
    ensures WellFormed(RingOf(pool)) && Drives(pool, turns, stream, RingOf(pool), Removals(turns))
    ensures RingAfter(RingOf(pool), Removals(turns)).ids != [] ==> Exactly(turns, RingOf(pool), Removals(turns))
    ensures turns != [] && RingAfter(RingOf(pool), Removals(turns[..|turns| - 1])).ids != []
      ==> Exactly(turns, RingOf(pool), Removals(turns))
  {
    var r := RingOf(pool);
    RingOfTracks(pool);
    if turns != [] {
      var first := turns[..|turns| - 1];
      ButLast(pool, turns, stream);
      TurnsDriveRing(pool, first, stream);
      DriveOn(pool, turns, first, stream, r, RingAfter(r, Removals(first)));
      RemovalsLength(turns);
    }
  }

  lemma RotatePrefix(pool: Pool, turns: seq<Turn>, stream: bool)
    requires turns != [] && AllRotate(Outcomes(pool, turns, stream))
    ensures var n := |turns| - 1; var before := PoolAfter(pool, turns[..n], stream);
      && AllRotate(Outcomes(pool, turns[..n], stream))
      && (turns[n].Tried? ==> OutcomeOf(before, turns[n], stream).Rotates?)
  {
    var n := |turns| - 1;
    var all, first := Outcomes(pool, turns, stream), Outcomes(pool, turns[..n], stream);
    assert forall i :: 0 <= i < |first| ==> first[i] == all[i];
    if turns[n].Tried? {
      assert all[|first|] == OutcomeOf(PoolAfter(pool, turns[..n], stream), turns[n], stream);
    }
  }

  lemma ButLast(pool: Pool, turns: seq<Turn>, stream: bool)
    requires turns != [] && Follows(pool, turns, stream) && AllRotate(Outcomes(pool, turns, stream))
    ensures var first := turns[..|turns| - 1]; Follows(pool, first, stream) && AllRotate(Outcomes(pool, first, stream))
  {
    RotatePrefix(pool, turns, stream);
  }

  ghost predicate EveryKeyTried(pool: Pool, turns: seq<Turn>) {
    forall id :: id in pool.rows && pool.rows[id].status == Active ==> id in TriedKeys(turns)
  }

  /** How a request that neither delivers nor raises ends: out of iterations, or out of keys. */
  ghost predicate GaveUp(pool: Pool, turns: seq<Turn>, stream: bool, margin: int) {
    && pool.busy == {}
    && Follows(pool, turns, stream)
    && AllRotate(Outcomes(pool, turns, stream))
    && (|turns| == Iterations(|ActiveIds(pool.rows)|, margin) || (turns != [] && turns[|turns| - 1].Starved?))
  }

  lemma CoverLifts(pool: Pool, turns: seq<Turn>, stream: bool)
    requires pool.busy == {} && Follows(pool, turns, stream) && AllRotate(Outcomes(pool, turns, stream))
    requires var r := RingOf(pool);
      WellFormed(r) && (RingAfter(r, Removals(turns)).ids == [] || AllTried(r, Removals(turns)))
    ensures EveryKeyTried(pool, turns)
  {
    TurnsDriveRing(pool, turns, stream);
    EmptyMeansAllTried(RingOf(pool), Removals(turns));
    assert forall id :: id in pool.rows && pool.rows[id].status == Active ==> id in RingOf(pool).ids;
  }

  /** A request that gives up with n + margin > n(n-1)/2 iterations has tried every active key. */
  lemma GivesUpAfterAll(pool: Pool, turns: seq<Turn>, stream: bool, margin: int)
    requires GaveUp(pool, turns, stream, margin) && ActiveIds(pool.rows) != []
    requires |ActiveIds(pool.rows)| + margin > Tri(|ActiveIds(pool.rows)|)
    ensures EveryKeyTried(pool, turns)
  {
    var r := RingOf(pool);
    RingOfTracks(pool);
    RemovalsLength(turns);
    TurnsDriveRing(pool, turns, stream);
    if |turns| == Iterations(|ActiveIds(pool.rows)|, margin) {
      EnoughAttempts(r, Removals(turns));
    }
    CoverLifts(pool, turns, stream);
  }

  /**
    What the loop promises of an uncontended request that ends without delivering or
    raising is that it gave up, so with enough iterations it tried every active key.
   */
  lemma UnansweredTriedAll(pool: Pool, turns: seq<Turn>, stream: bool, margin: int, r: Response, named: bool)
    requires pool.busy == {} && Follows(pool, turns, stream)
    requires var initial := |WithStatus(pool.rows, Active)|;
      && Answers(r, Outcomes(pool, turns, stream), initial, named) && !r.Delivered? && !r.Crashed?
      && (|turns| == Iterations(initial, margin) || (turns != [] && turns[|turns| - 1].Starved?))
      && 0 < initial && initial + margin > Tri(initial)
    ensures EveryKeyTried(pool, turns)
  {
    ActiveCount(pool.rows);
    GivesUpAfterAll(pool, turns, stream, margin);
  }

  // ------------------------------------------------------------ uniform answers

  /** Every attempt made leaves its key in, or every attempt made takes it out. */
  ghost predicate Uniform(turns: seq<Turn>, out: bool) {
    forall i :: 0 <= i < |turns| && turns[i].Tried? ==> (TakesOut(turns[i].answer) <==> out)
  }

  /** While some of n keys are left after k < n uniform answers, the ring is not empty. */
  lemma UniformLeavesKeys(r: Ring, out: bool, k: nat)
    requires WellFormed(r) && k < |r.ids|
    ensures RingAfter(r, Repeat(out, k)).ids != []
  {
    if out {
      RemoveNeverRepeats(r, k);
    } else {
      KeepVisitsInOrder(r, k);
    }
  }

  lemma UniformNext(turns: seq<Turn>, out: bool)
    requires turns != [] && turns[|turns| - 1].Tried? && Uniform(turns, out)
    requires Removals(turns[..|turns| - 1]) == Repeat(out, |turns| - 1)
    ensures Removals(turns) == Repeat(out, |turns|)
  {
    var n := |turns| - 1;
    SplitLast(turns);
    RemovalsNext(turns[..n], turns[n]);
    SplitLast(Repeat(out, |turns|));
    RepeatPrefix(out, |turns|);
  }

  /** A uniform series of attempts, no longer than the ring, has been the ring's. */
  ghost predicate UniformRun(pool: Pool, turns: seq<Turn>, out: bool) {
    && Removals(turns) == Repeat(out, |turns|)
    && WellFormed(RingOf(pool)) && Exactly(turns, RingOf(pool), Removals(turns))
  }

  lemma UniformStep(pool: Pool, turns: seq<Turn>, first: seq<Turn>, stream: bool, out: bool)
    requires pool.busy == {} && Follows(pool, turns, stream) && AllRotate(Outcomes(pool, turns, stream))
    requires turns != [] && Uniform(turns, out) && |turns| <= |RingOf(pool).ids|
    requires first == turns[..|turns| - 1] && UniformRun(pool, first, out)
    ensures UniformRun(pool, turns, out)
  {
    UniformLeavesKeys(RingOf(pool), out, |first|);
    TurnsDriveRing(pool, turns, stream);
    UniformNext(turns, out);
  }

  /** A series of rotating turns, whose answers all agree so far. */
  ghost predicate UniformTurns(pool: Pool, turns: seq<Turn>, stream: bool, out: bool) {
    && pool.busy == {} && Follows(pool, turns, stream) && AllRotate(Outcomes(pool, turns, stream))
    && Uniform(turns, out) && |turns| <= |RingOf(pool).ids|
  }

  lemma UniformButLast(pool: Pool, turns: seq<Turn>, stream: bool, out: bool)
    requires turns != [] && UniformTurns(pool, turns, stream, out)
    ensures UniformTurns(pool, turns[..|turns| - 1], stream, out)
  {
    ButLast(pool, turns, stream);
  }

  lemma {:induction false} UniformRemovals(pool: Pool, turns: seq<Turn>, stream: bool, out: bool)
    requires UniformTurns(pool, turns, stream, out)
    ensures UniformRun(pool, turns, out)
    decreases |turns|
  {
    if turns == [] {
      RingOfTracks(pool);
    } else {
      var first := turns[..|turns| - 1];
      UniformButLast(pool, turns, stream, out);
      UniformRemovals(pool, first, stream, out);
      UniformStep(pool, turns, first, stream, out);
    }
  }

  /**
    When all answers agree in leaving keys in or in taking them out, the first n turns of
    an uncontended request over n active keys try n different keys, so every one of them.
   */
  lemma UniformRequestCovers(pool: Pool, turns: seq<Turn>, stream: bool, out: bool)
    requires pool.busy == {} && Follows(pool, turns, stream) && AllRotate(Outcomes(pool, turns, stream))
    requires Uniform(turns, out) && turns != [] && |turns| == |ActiveIds(pool.rows)|
    ensures Distinct(TriedKeys(turns)) && |TriedKeys(turns)| == |turns|
    ensures EveryKeyTried(pool, turns)
  {
    var r := RingOf(pool);
    RingOfTracks(pool);
    UniformRemovals(pool, turns, stream, out);
    UniformCovers(r, out);
    CoverLifts(pool, turns, stream);
  }

  /** The first turns of a request are turns of it: they follow the pool and try no other keys. */
  lemma {:induction false} FirstTurns(pool: Pool, turns: seq<Turn>, stream: bool, k: nat)
    requires Follows(pool, turns, stream) && AllRotate(Outcomes(pool, turns, stream)) && k <= |turns|
    ensures Follows(pool, turns[..k], stream) && AllRotate(Outcomes(pool, turns[..k], stream))
  {
    if k < |turns| {
      ButLast(pool, turns, stream);
      FirstTurns(pool, turns[..|turns| - 1], stream, k);
      PrefixOfPrefix(turns, k);
    } else {
      PrefixOfPrefix(turns, k);
    }
  }

  lemma {:induction false} FirstTried(turns: seq<Turn>, k: nat)
    requires k <= |turns|
    ensures forall id :: id in TriedKeys(turns[..k]) ==> id in TriedKeys(turns)
  {
    PrefixOfPrefix(turns, k);
    if k < |turns| {
      FirstTried(turns[..|turns| - 1], k);
    }
  }

  /** A request that gives up after answers that agree has tried every active key. */
  lemma UniformGivesUpAfterAll(pool: Pool, turns: seq<Turn>, stream: bool, margin: int, out: bool)
    requires GaveUp(pool, turns, stream, margin) && ActiveIds(pool.rows) != []
    requires margin >= 0 && Uniform(turns, out)
    ensures EveryKeyTried(pool, turns)
  {
    var n := |ActiveIds(pool.rows)|;
    if |turns| < n {
      UniformRemovals(pool, turns, stream, out);
    } else {
      FirstTurns(pool, turns, stream, n);
      FirstTried(turns, n);
      UniformRequestCovers(pool, turns[..n], stream, out);
    }
  }

  // --------------------------------------------------- the condition is exact

  function RotatingReply(out: bool): Answer {
    Reply(if out then 401 else 500, Absent, Undecodable)
  }

  lemma RealiseTurn(pool: Pool, r: Ring, out: bool) returns (turn: Turn)
    requires Tracks(pool, r) && r.ids != []
    ensures turn.Tried? && Possible(pool, turn) && OutcomeOf(pool, turn, false).Rotates?
    ensures TakesOut(turn.answer) == out
  {
    PicksCurrent(pool, 0, r);
    assert r.ids[r.at] in r.ids;
    turn := Tried(0, r.ids[r.at], RotatingReply(out), 0);
  }

  lemma RotatesOn(outcomes: seq<Outcome>, o: Outcome)
    requires AllRotate(outcomes) && o.Rotates?
    ensures AllRotate(outcomes + [o])
  {
  }

  /** Any pattern of kept and removed keys is the pattern of some request. */
  lemma {:induction false} Realise(pool: Pool, removes: seq<bool>) returns (turns: seq<Turn>)
    requires pool.busy == {} && WellFormed(RingOf(pool)) && RingAfter(RingOf(pool), removes).ids != []
    ensures Follows(pool, turns, false) && AllRotate(Outcomes(pool, turns, false))
    ensures |turns| == |removes| && Removals(turns) == removes
  {
    if removes == [] {
      turns := [];
    } else {
      var n := |removes| - 1;
      var first := Realise(pool, removes[..n]);
      TurnsDriveRing(pool, first, false);
      var now, outcomes := PoolAfter(pool, first, false), Outcomes(pool, first, false);
      var turn := RealiseTurn(now, RingAfter(RingOf(pool), removes[..n]), removes[n]);
      OneMore(pool, first, turn, false, now, outcomes);
      RotatesOn(outcomes, OutcomeOf(now, turn, false));
      RemovalsNext(first, turn);
      SplitLast(removes);
      turns := first + [turn];
    }
  }

  /** A pool whose uncontended requests, however they are answered, give up only after trying every key. */
  ghost predicate AlwaysTriesAll(rows: Table, margin: int) {
    forall nextIdx: nat, turns: seq<Turn>, stream: bool ::
      GaveUp(Pool(rows, nextIdx, {}), turns, stream, margin) ==> EveryKeyTried(Pool(rows, nextIdx, {}), turns)
  }

  /**
    "Every active key is tried before giving up" holds for n active keys, for every stored
    pointer and every series of answers, exactly when the safety margin makes the number
    of iterations exceed n(n-1)/2.
   */
  lemma TriesAllIff(rows: Table, margin: int)
    requires ActiveIds(rows) != []
    ensures var n := |ActiveIds(rows)|; AlwaysTriesAll(rows, margin) <==> n + margin > Tri(n)
  {
    var ids := ActiveIds(rows);
    var n := |ids|;
    if n + margin > Tri(n) {
      forall nextIdx: nat, turns: seq<Turn>, stream: bool | GaveUp(Pool(rows, nextIdx, {}), turns, stream, margin)
        ensures EveryKeyTried(Pool(rows, nextIdx, {}), turns)
      {
        GivesUpAfterAll(Pool(rows, nextIdx, {}), turns, stream, margin);
      }
    } else {
      var pool := Pool(rows, 0, {});
      var turns := MissesLast(pool, margin);
      assert GaveUp(pool, turns, false, margin) && !EveryKeyTried(pool, turns);
    }
  }

  lemma MissedByTurns(pool: Pool, turns: seq<Turn>, r: Ring, id: KeyId)
    requires pool.busy == {} && Follows(pool, turns, false) && AllRotate(Outcomes(pool, turns, false))
    requires r == RingOf(pool) && WellFormed(r) && id in r.ids
    requires RingAfter(r, Removals(turns)).ids != [] && id !in Tries(r, Removals(turns))
    ensures !EveryKeyTried(pool, turns)
  {
    TurnsDriveRing(pool, turns, false);
  }

  /** With fewer iterations some request gives up without ever trying the last key. */
  lemma MissesLast(pool: Pool, margin: int) returns (turns: seq<Turn>)
    requires pool.busy == {} && pool.nextIdx == 0 && ActiveIds(pool.rows) != []
    requires |ActiveIds(pool.rows)| + margin <= Tri(|ActiveIds(pool.rows)|)
    ensures GaveUp(pool, turns, false, margin) && !EveryKeyTried(pool, turns)
  {
    var ids, r := ActiveIds(pool.rows), RingOf(pool);
    var n, k := |ids|, Iterations(|ids|, margin);
    RingOfTracks(pool);
    QuotientUnique(0, n, 0, 0);
    WorstMisses(ids);
    var removes := Worst(n)[..k];
    PrefixTries(r, Worst(n), k);
    turns := Realise(pool, removes);
    MissedByTurns(pool, turns, r, ids[n - 1]);
  }

  // --------------------------------------------- the condition for uniform answers

  lemma {:induction false} RemovalsAt(turns: seq<Turn>, i: nat)
    requires i < |turns|
    ensures |Removals(turns)| == |turns|
    ensures Removals(turns)[i] <==> turns[i].Tried? && TakesOut(turns[i].answer)
  {
    RemovalsLength(turns);
    if i < |turns| - 1 {
      RemovalsAt(turns[..|turns| - 1], i);
    }
  }

  /** With a negative margin there is a request over keys that all stay, which misses the last one. */
  lemma NegativeMarginMisses(pool: Pool, margin: int) returns (turns: seq<Turn>)
    requires pool.busy == {} && pool.nextIdx == 0 && ActiveIds(pool.rows) != [] && margin < 0
    ensures GaveUp(pool, turns, false, margin) && Uniform(turns, false) && !EveryKeyTried(pool, turns)
  {
    var ids, r := ActiveIds(pool.rows), RingOf(pool);
    var n, k := |ids|, Iterations(|ids|, margin);
    RingOfTracks(pool);
    QuotientUnique(0, n, 0, 0);
    KeepWalks(r, k);
    turns := Realise(pool, Repeat(false, k));
    forall i | 0 <= i < |turns| && turns[i].Tried? ensures !TakesOut(turns[i].answer) {
      RemovalsAt(turns, i);
    }
    MissedByTurns(pool, turns, r, ids[n - 1]);
  }

  /** The pool's uncontended requests whose answers agree give up only after trying every key. */
  ghost predicate UniformTriesAll(rows: Table, margin: int) {
    forall nextIdx: nat, turns: seq<Turn>, stream: bool, out: bool ::
      GaveUp(Pool(rows, nextIdx, {}), turns, stream, margin) && Uniform(turns, out) ==>
        EveryKeyTried(Pool(rows, nextIdx, {}), turns)
  }

  /** For answers that agree it takes no more than a margin that is not negative. */
  lemma UniformTriesAllIff(rows: Table, margin: int)
    requires ActiveIds(rows) != []
    ensures UniformTriesAll(rows, margin) <==> margin >= 0
  {
    if margin >= 0 {
      forall nextIdx: nat, turns: seq<Turn>, stream: bool, out: bool |
        GaveUp(Pool(rows, nextIdx, {}), turns, stream, margin) && Uniform(turns, out)
        ensures EveryKeyTried(Pool(rows, nextIdx, {}), turns)
      {
        UniformGivesUpAfterAll(Pool(rows, nextIdx, {}), turns, stream, margin, out);
      }
    } else {
      var pool := Pool(rows, 0, {});
      var turns := NegativeMarginMisses(pool, margin);
      assert GaveUp(pool, turns, false, margin) && Uniform(turns, false) && !EveryKeyTried(pool, turns);
    }
  }
}
