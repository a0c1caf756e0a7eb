/**
  The key manager: an object that holds the rotating pointer and the reserved ids, and
  reads and writes the committed rows of the table it is handed.
 */
module KeyPool {
  import opened Cyclic
  import opened KeyRows
  import opened Picking

  /** The committed `api_keys` table behind a session. */
  class KeyTable {
    var rows: Table

    constructor (rows: Table)
      ensures this.rows == rows
    {
      this.rows := rows;
    }
  }

  /** How a `record_*` call ends; anything but `Done` is an exception. */
  datatype Written = Done | LookupError | OverflowError

  /** What a write leaves behind: the accepted event, or the table untouched and an exception. */
  ghost predicate Wrote(before: Table, after: Table, e: Event, w: Written) {
    && (w == Done <==> Accepted(before, e))
    && after == if Accepted(before, e) then Commit(before, e) else before
  }

  class KeyManager {
    var nextIdx: nat
    var inFlight: set<KeyId>

    constructor ()
      ensures nextIdx == 0 && inFlight == {}
    {
      nextIdx := 0;
      inFlight := {};
    }

    // ---------------------------------------------------------------- selection

    /** Pick and reserve the next free active key, reviving expired keys only if none is active. */
    method PickNextKey(db: KeyTable, now: int) returns (chosen: Option<KeyId>)
      modifies this, db
      ensures db.rows == Load(old(db.rows), now).0
      ensures WithStatus(old(db.rows), Active) != {} ==> db.rows == old(db.rows)
      ensures WithStatus(old(db.rows), Active) == {} ==> db.rows == Commit(old(db.rows), Revive(now))
      ensures Pick(chosen, nextIdx, inFlight) == Scan(Load(old(db.rows), now).1, old(nextIdx), old(inFlight))
      ensures chosen == None <==> forall id :: id in db.rows && db.rows[id].status == Active ==> id in old(inFlight)
      ensures chosen == None ==> nextIdx == old(nextIdx) && inFlight == old(inFlight)
      ensures chosen != None ==>
        && chosen.value in db.rows && db.rows[chosen.value].status == Active
        && chosen.value !in old(inFlight) && inFlight == old(inFlight) + {chosen.value}
    {
      var active := LoadActive(db);
      if active == [] {
        var _ := ReactivateLocked(db, now);
        active := LoadActive(db);
      }
      if active == [] {
        return None;
      }
      chosen := ReserveNextFree(active);
    }

    /** The anti-stacking scan over a loaded, non-empty snapshot. */
    method ReserveNextFree(active: seq<KeyId>) returns (chosen: Option<KeyId>)
      requires active != []
      modifies this
      ensures Pick(chosen, nextIdx, inFlight) == Scan(active, old(nextIdx), old(inFlight))
      ensures chosen == None <==> forall id :: id in active ==> id in old(inFlight)
      ensures chosen == None ==> nextIdx == old(nextIdx) && inFlight == old(inFlight)
      ensures chosen != None ==>
        && chosen.value in active && chosen.value !in old(inFlight)
        && inFlight == old(inFlight) + {chosen.value}
    {
      ghost var _ := ScanExact(active, nextIdx, inFlight);
      var n, start := |active|, nextIdx;
      var offset := 0;
      while offset < n && Candidate(active, start, offset) in inFlight
        invariant offset <= n
        invariant FirstFree(active, start, inFlight, 0) == FirstFree(active, start, inFlight, offset)
      {
        offset := offset + 1;
      }
      if offset == n {
        return None;
      }
      chosen := Some(Candidate(active, start, offset));
      inFlight := inFlight + {chosen.value};
      nextIdx := (start + offset + 1) % n;
    }

    method Release(id: KeyId)
      modifies this`inFlight
      ensures inFlight == old(inFlight) - {id}
    {
      inFlight := inFlight - {id};
    }

    method LoadActive(db: KeyTable) returns (ids: seq<KeyId>)
      ensures ids == ActiveIds(db.rows)
      ensures forall id :: id in ids <==> id in db.rows && db.rows[id].status == Active
    {
      ids := ActiveIds(db.rows);
    }

    // ------------------------------------------------------ reactivation / count

    method ReactivateLocked(db: KeyTable, now: int) returns (reactivated: nat)
      modifies db
      ensures db.rows == Commit(old(db.rows), Revive(now))
      ensures reactivated == |ExpiredIds(old(db.rows), now)|
      ensures ExpiredIds(db.rows, now) == {}
      ensures |WithStatus(db.rows, Active)| == |WithStatus(old(db.rows), Active)| + reactivated
    {
      ReviveConserves(db.rows, now);
      reactivated := |ExpiredIds(db.rows, now)|;
      db.rows := ReviveAll(db.rows, now);
    }

    method CountByStatus(db: KeyTable) returns (counts: map<Status, nat>)
      ensures forall s: Status :: s in counts && counts[s] == |WithStatus(db.rows, s)|
      ensures counts[Active] + counts[Depleted] + counts[Disabled] == |db.rows|
    {
      counts := map[Active := 0, Depleted := 0, Disabled := 0];
      var ids := Sorted(db.rows.Keys);
      NoneCounted(counts, db.rows);
      for i := 0 to |ids|
        invariant Tallied(counts, db.rows, ids[..i])
      {
        CountedNext(counts, db.rows, ids, i);
        var s := db.rows[ids[i]].status;
        counts := counts[s := counts[s] + 1];
      }
      assert ids[..|ids|] == ids;
      AllCounted(db.rows, ids);
      StatusesPartition(db.rows);
    }

    // -------------------------------------------------------------- classifiers

    method RecordSuccess(db: KeyTable, id: KeyId, code: int, now: int) returns (w: Written)
      modifies db
      ensures Wrote(old(db.rows), db.rows, Record(id, Success(code), now), w)
      ensures w == if id in old(db.rows) then Done else LookupError
      ensures w == Done ==>
        db.rows == old(db.rows)[id := old(db.rows[id]).(status := Active, cooldownUntil := None,
          lastUsedAt := Some(now), lastStatusCode := Some(code), totalRequests := old(db.rows[id]).totalRequests + 1)]
    {
      if id !in db.rows {
        return LookupError;
      }
      var key := db.rows[id];
      key := key.(status := Active, lastUsedAt := Some(now), lastStatusCode := Some(code),
                  cooldownUntil := None, totalRequests := key.totalRequests + 1);
      db.rows := db.rows[id := key];
      w := Done;
    }

    method RecordSuccessWithUsage(db: KeyTable, id: KeyId, code: int,
                                  prompt: Option<int>, completion: Option<int>, now: int)
      returns (w: Written)
      modifies db
      ensures Wrote(old(db.rows), db.rows, Record(id, SuccessWithUsage(code, prompt, completion), now), w)
      ensures w == LookupError <==> id !in old(db.rows)
      ensures w == Done ==>
        var before, after := old(db.rows[id]), db.rows[id];
        && FedDayAndWeek(before, after, now, prompt, completion)
        && db.rows == old(db.rows)[id := before.(status := Active, cooldownUntil := None,
             lastUsedAt := Some(now), lastStatusCode := Some(code), totalRequests := before.totalRequests + 1,
             session := after.session, weekly := after.weekly, lastTokenAt := after.lastTokenAt)]
    {
      if id !in db.rows {
        return LookupError;
      }
      var key := db.rows[id];
      if prompt.Some? && prompt.value > 0 {
        if key.session.startedAt.None? || now - key.session.startedAt.value >= SESSION_WINDOW {
          key := key.(session := Window(Some(now), 0, 0));
        }
        if key.weekly.startedAt.None? || now - key.weekly.startedAt.value >= WEEKLY_WINDOW {
          key := key.(weekly := Window(Some(now), 0, 0));
        }
        key := key.(session := key.session.(prompt := key.session.prompt + prompt.value),
                    weekly := key.weekly.(prompt := key.weekly.prompt + prompt.value));
        if completion.Some? && completion.value > 0 {
          key := key.(session := key.session.(completion := key.session.completion + completion.value),
                      weekly := key.weekly.(completion := key.weekly.completion + completion.value));
        }
        key := key.(lastTokenAt := Some(now));
      }
      if !FitsColumns(key.session) || !FitsColumns(key.weekly) {
        return OverflowError;
      }
      key := key.(status := Active, lastUsedAt := Some(now), lastStatusCode := Some(code),
                  cooldownUntil := None, totalRequests := key.totalRequests + 1);
      db.rows := db.rows[id := key];
      w := Done;
    }

    method RecordUnauthorized(db: KeyTable, id: KeyId, code: int, now: int) returns (w: Written)
      modifies db
      ensures Wrote(old(db.rows), db.rows, Record(id, Unauthorized(code), now), w)
      ensures w == if id in old(db.rows) then Done else LookupError
      ensures w == Done ==>
        db.rows == old(db.rows)[id := old(db.rows[id]).(status := Disabled, cooldownUntil := None,
          lastStatusCode := Some(code), totalFailures := old(db.rows[id]).totalFailures + 1)]
    {
      if id !in db.rows {
        return LookupError;
      }
      var key := db.rows[id];
      key := key.(status := Disabled, lastStatusCode := Some(code), cooldownUntil := None,
                  totalFailures := key.totalFailures + 1);
      db.rows := db.rows[id := key];
      w := Done;
    }

    method RecordRateLimited(db: KeyTable, id: KeyId, code: int, retryAfter: int, now: int) returns (w: Written)
      modifies db
      ensures Wrote(old(db.rows), db.rows, Record(id, RateLimited(code, retryAfter), now), w)
      ensures w == Done ==>
        && id in old(db.rows) && db.rows[id].cooldownUntil.Some?
        && Sleeps(now, retryAfter, db.rows[id].cooldownUntil.value)
        && db.rows == old(db.rows)[id := old(db.rows[id]).(status := Depleted,
             cooldownUntil := db.rows[id].cooldownUntil, lastStatusCode := Some(code),
             totalFailures := old(db.rows[id]).totalFailures + 1)]
    {
      var cooldown := now + Max(1, retryAfter) * SECOND;
      if cooldown > LAST_INSTANT {
        return OverflowError;
      }
      if id !in db.rows {
        return LookupError;
      }
      var key := db.rows[id];
      key := key.(status := Depleted, lastStatusCode := Some(code), cooldownUntil := Some(cooldown),
                  totalFailures := key.totalFailures + 1);
      db.rows := db.rows[id := key];
      w := Done;
    }

    method RecordServerError(db: KeyTable, id: KeyId, code: int, now: int) returns (w: Written)
      modifies db
      ensures Wrote(old(db.rows), db.rows, Record(id, ServerError(code), now), w)
      ensures w == if id in old(db.rows) then Done else LookupError
      ensures w == Done ==>
        db.rows == old(db.rows)[id := old(db.rows[id]).(lastStatusCode := Some(code),
          totalFailures := old(db.rows[id]).totalFailures + 1)]
    {
      if id !in db.rows {
        return LookupError;
      }
      var key := db.rows[id];
      key := key.(lastStatusCode := Some(code), totalFailures := key.totalFailures + 1);
      db.rows := db.rows[id := key];
      w := Done;
    }

    /** The `record_*` call a report stands for. */
    method Apply(db: KeyTable, id: KeyId, report: Report, now: int) returns (w: Written)
      modifies db
      ensures Wrote(old(db.rows), db.rows, Record(id, report, now), w)
    {
      match report
      case Success(code) => w := RecordSuccess(db, id, code, now);
      case SuccessWithUsage(code, p, c) => w := RecordSuccessWithUsage(db, id, code, p, c, now);
      case Unauthorized(code) => w := RecordUnauthorized(db, id, code, now);
      case RateLimited(code, retryAfter) => w := RecordRateLimited(db, id, code, retryAfter, now);
      case ServerError(code) => w := RecordServerError(db, id, code, now);
    }
  }

  /** How an administrator's request ends. */
  datatype AdminResult = Fine | NotFound | Conflict

  /** The administrator's routes, which write to the table without the manager or its lock. */
  class KeyAdmin {

    /** `taken` says that a key of the same value is stored; `id` is the one the database gives out next. */
    method CreateKey(db: KeyTable, taken: bool, id: KeyId) returns (r: AdminResult)
      requires id !in db.rows
      modifies db
      ensures r == if taken then Conflict else Fine
      ensures taken ==> db.rows == old(db.rows)
      ensures !taken ==> db.rows == Commit(old(db.rows), Create(id))
      ensures !taken ==>
        && db.rows.Keys == old(db.rows).Keys + {id} && (forall k :: k in old(db.rows) ==> db.rows[k] == old(db.rows)[k])
        && db.rows[id].status == Active && db.rows[id].cooldownUntil == None
        && db.rows[id].totalRequests == 0 && db.rows[id].totalFailures == 0
        && db.rows[id].session.startedAt == None && db.rows[id].weekly.startedAt == None
    {
      if taken {
        return Conflict;
      }
      db.rows := db.rows[id := FRESH_ROW];
      r := Fine;
    }

    method UpdateKey(db: KeyTable, id: KeyId, status: Option<Status>) returns (r: AdminResult)
      modifies db
      ensures r == if id in old(db.rows) then Fine else NotFound
      ensures r == NotFound ==> db.rows == old(db.rows)
      ensures r == Fine ==> db.rows == Commit(old(db.rows), Patch(id, status))
    {
      if id !in db.rows {
        return NotFound;
      }
      var key := db.rows[id];
      if status.Some? {
        key := key.(status := status.value);
      }
      db.rows := db.rows[id := key];
      r := Fine;
    }

    method DeleteKey(db: KeyTable, id: KeyId) returns (r: AdminResult)
      modifies db
      ensures r == if id in old(db.rows) then Fine else NotFound
      ensures db.rows == old(db.rows) - {id}
      ensures r == Fine ==> db.rows == Commit(old(db.rows), Delete(id))
    {
      if id !in db.rows {
        return NotFound;
      }
      db.rows := db.rows - {id};
      r := Fine;
    }

    method ResetKeyStates(db: KeyTable) returns (reset: nat)
      modifies db
      ensures db.rows == Commit(old(db.rows), ResetAll)
      ensures reset == |old(db.rows)| == |WithStatus(db.rows, Active)|
    {
      reset := |db.rows|;
      ResetWakesAll(db.rows);
      db.rows := map k | k in db.rows :: db.rows[k].(status := Active, cooldownUntil := None,
                                                     lastStatusCode := None, totalFailures := 0);
    }
  }

  // -------------------------------------------------------- counting by status

  ghost function Counted(rows: Table, ids: seq<KeyId>, s: Status): set<KeyId> {
    set id | id in ids && id in rows && rows[id].status == s
  }

  ghost predicate Tallied(counts: map<Status, nat>, rows: Table, ids: seq<KeyId>) {
    forall s: Status :: s in counts && counts[s] == |Counted(rows, ids, s)|
  }

  lemma CountedOne(rows: Table, ids: seq<KeyId>, i: nat, s: Status)
    requires i < |ids| && Ascending(ids) && ids[i] in rows
    ensures |Counted(rows, ids[..i + 1], s)|
         == |Counted(rows, ids[..i], s)| + if rows[ids[i]].status == s then 1 else 0
  {
    assert ids[..i + 1] == ids[..i] + [ids[i]];
    var before := Counted(rows, ids[..i], s);
    assert ids[i] !in before;
    assert Counted(rows, ids[..i + 1], s) == if rows[ids[i]].status == s then before + {ids[i]} else before;
  }

  lemma CountedNext(counts: map<Status, nat>, rows: Table, ids: seq<KeyId>, i: nat)
    requires i < |ids| && Ascending(ids) && ids[i] in rows && Tallied(counts, rows, ids[..i])
    ensures var s := rows[ids[i]].status; Tallied(counts[s := counts[s] + 1], rows, ids[..i + 1])
  {
    forall s: Status
      ensures |Counted(rows, ids[..i + 1], s)|
           == |Counted(rows, ids[..i], s)| + if rows[ids[i]].status == s then 1 else 0
    {
      CountedOne(rows, ids, i, s);
    }
  }

  lemma NoneCounted(counts: map<Status, nat>, rows: Table)
    requires counts == map[Active := 0, Depleted := 0, Disabled := 0]
    ensures Tallied(counts, rows, [])
  {
    forall s: Status ensures s in counts && counts[s] == |Counted(rows, [], s)| {
      assert Counted(rows, [], s) == {};
      assert s == Active || s == Depleted || s == Disabled;
    }
  }

  lemma AllCounted(rows: Table, ids: seq<KeyId>)
    requires forall id :: id in ids <==> id in rows
    ensures forall s :: Counted(rows, ids, s) == WithStatus(rows, s)
  {
  }
}
