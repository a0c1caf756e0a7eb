/**
  Choosing a key: the active snapshot, the anti-stacking scan and the pointer.  The
  scan is a function of the snapshot, the stored pointer and the reserved ids.
 */
module Picking {
  import opened Cyclic
  import opened KeyRows
  import opened Sequences

  // ------------------------------------------------------------ active snapshot

  ghost predicate Ascending(ids: seq<KeyId>) {
    forall i, j :: 0 <= i < j < |ids| ==> ids[i] < ids[j]
  }

  predicate IsSmallest(s: set<KeyId>, x: KeyId) {
    x in s && forall y :: y in s ==> x <= y
  }

  lemma SmallestExists(s: set<KeyId>)
    requires s != {}
    ensures exists x :: IsSmallest(s, x)
  {
    var x :| x in s;
    var others := s - {x};
    if others == {} {
      assert s == {x};
      assert IsSmallest(s, x);
    } else {
      SmallestExists(others);
      var m :| IsSmallest(others, m);
      assert s == others + {x};
      assert IsSmallest(s, if m < x then m else x);
    }
  }

  function Smallest(s: set<KeyId>): (x: KeyId)
    requires s != {}
    ensures IsSmallest(s, x)
  {
    SmallestExists(s);
    var x :| x in s && IsSmallest(s, x);
    x
  }

  /** The ids of a set in ascending order, as `ORDER BY id` lists them. */
  function Sorted(s: set<KeyId>): (ids: seq<KeyId>)
    ensures Ascending(ids) && |ids| == |s|
    ensures forall x :: x in ids <==> x in s
  {
    if s == {} then [] else
    var x := Smallest(s);
    var rest := Sorted(s - {x});
    assert forall i :: 0 <= i < |rest| ==> rest[i] in s - {x};
    [x] + rest
  }

  function ActiveIds(rows: Table): seq<KeyId> {
    Sorted(set id | id in rows && rows[id].status == Active)
  }

  lemma ActiveCount(rows: Table)
    ensures |ActiveIds(rows)| == |WithStatus(rows, Active)|
  {
    assert WithStatus(rows, Active) == set id | id in rows && rows[id].status == Active;
  }

  lemma AscendingUnique(a: seq<KeyId>, b: seq<KeyId>)
    requires Ascending(a) && Ascending(b)
    requires forall x :: x in a <==> x in b
    ensures a == b
  {
    assert a != [] ==> a[0] in b;
    assert b != [] ==> b[0] in a;
    if a != [] && b != [] {
      assert a[0] == b[0];
      forall x ensures x in a[1..] <==> x in b[1..] {
        if x in a[1..] {
          assert x in b && x != a[0];
        }
        if x in b[1..] {
          assert x in a && x != b[0];
        }
      }
      AscendingUnique(a[1..], b[1..]);
      assert a == [a[0]] + a[1..] && b == [b[0]] + b[1..];
    }
  }

  /** The table and snapshot a pick works from: expired keys are revived only if none is active. */
  function Load(rows: Table, now: int): (Table, seq<KeyId>) {
    if ActiveIds(rows) != [] then (rows, ActiveIds(rows))
    else (ReviveAll(rows, now), ActiveIds(ReviveAll(rows, now)))
  }

  // ----------------------------------------------------------------- the scan

  datatype Pick = Pick(chosen: Option<KeyId>, nextIdx: nat, inFlight: set<KeyId>)

  /** The key the scan looks at after `offset` steps from the stored pointer. */
  function Candidate(ids: seq<KeyId>, start: nat, offset: nat): KeyId
    requires ids != []
  {
    ids[(start + offset) % |ids|]
  }

  /** The first offset from `from` on whose key is free, or the length if there is none. */
  function FirstFree(ids: seq<KeyId>, start: nat, busy: set<KeyId>, from: nat): (k: nat)
    requires ids != [] && from <= |ids|
    ensures from <= k <= |ids|
    decreases |ids| - from
  {
    if from == |ids| || Candidate(ids, start, from) !in busy then from
    else FirstFree(ids, start, busy, from + 1)
  }

  lemma {:induction false} FirstFreeExact(ids: seq<KeyId>, start: nat, busy: set<KeyId>, from: nat)
    requires ids != [] && from <= |ids|
    ensures var k := FirstFree(ids, start, busy, from);
      && (forall j :: from <= j < k ==> Candidate(ids, start, j) in busy)
      && (k < |ids| ==> Candidate(ids, start, k) !in busy)
    decreases |ids| - from
  {
    if from < |ids| && Candidate(ids, start, from) in busy {
      FirstFreeExact(ids, start, busy, from + 1);
    }
  }

  function Scan(ids: seq<KeyId>, start: nat, busy: set<KeyId>): Pick {
    if ids == [] then Pick(None, start, busy) else
    var k := FirstFree(ids, start, busy, 0);
    if k == |ids| then Pick(None, start, busy)
    else
      var key := Candidate(ids, start, k);
      Pick(Some(key), (start + k + 1) % |ids|, busy + {key})
  }

  /** Slot `i` holds the free key the pointer meets first: no free slot is nearer. */
  ghost predicate Nearest(ids: seq<KeyId>, start: nat, busy: set<KeyId>, i: nat) {
    && i < |ids| && ids[i] !in busy
    && forall j :: 0 <= j < |ids| && ids[j] !in busy
         ==> Distance(start, i, |ids|) <= Distance(start, j, |ids|)
  }

  lemma CandidateAtDistance(ids: seq<KeyId>, start: nat, j: nat)
    requires j < |ids|
    ensures Candidate(ids, start, Distance(start, j, |ids|)) == ids[j]
  {
    SlotIsModulo(start, Distance(start, j, |ids|), |ids|);
  }

  /**
    A pick is exact for any stored pointer, even one left by a longer list.  It fails
    exactly when every listed key is reserved, and then changes nothing.  Otherwise it
    takes the free key the pointer meets first, reserves that id and no other, and
    leaves the pointer just behind it.
   */
  lemma ScanExact(ids: seq<KeyId>, start: nat, busy: set<KeyId>) returns (i: nat)
    ensures var pick := Scan(ids, start, busy);
      && (pick.chosen == None <==> forall id :: id in ids ==> id in busy)
      && (pick.chosen == None ==> pick == Pick(None, start, busy))
      && (pick.chosen != None ==>
            && Nearest(ids, start, busy, i)
            && pick == Pick(Some(ids[i]), if i + 1 == |ids| then 0 else i + 1, busy + {ids[i]}))
  {
    var n := |ids|;
    i := 0;
    if n == 0 {
      return;
    }
    var k := FirstFree(ids, start, busy, 0);
    FirstFreeExact(ids, start, busy, 0);
    if k == n {
      forall j | 0 <= j < n ensures ids[j] in busy {
        CandidateAtDistance(ids, start, j);
      }
    } else {
      i := Slot(start, k, n);
      SlotIsModulo(start, k, n);
      NextPointer(start, k, n);
      forall j | 0 <= j < n && ids[j] !in busy
        ensures k <= Distance(start, j, n)
      {
        CandidateAtDistance(ids, start, j);
      }
      DistanceInverts(start, i, n);
    }
  }

  // ------------------------------------------------------------ bounded bypass

  /**
    A pick that passes over a free key brings the pointer strictly nearer to it, so over
    a fixed list the key is taken within as many picks as the list is long.
   */
  lemma PassingBringsNearer(ids: seq<KeyId>, start: nat, busy: set<KeyId>, p: nat)
    requires p < |ids| && Distinct(ids) && ids[p] !in busy
    requires Scan(ids, start, busy).chosen != Some(ids[p])
    ensures Distance(Scan(ids, start, busy).nextIdx, p, |ids|) < Distance(start, p, |ids|)
  {
    var i := ScanExact(ids, start, busy);
    assert ids[p] in ids;
    assert i != p;
    PointerBehind(start, i, p, |ids|);
  }

  lemma PointerBehind(start: nat, i: nat, p: nat, n: nat)
    requires i < n && p < n && i != p && Distance(start, i, n) <= Distance(start, p, n)
    ensures Distance(if i + 1 == n then 0 else i + 1, p, n) < Distance(start, p, n)
  {
    var next := if i + 1 == n then 0 else i + 1;
    QuotientUnique(next, n, 0, next);
  }

  // ---------------------------------------------------------------- round robin

  /** The keys chosen by `k` picks in a row, each released before the next. */
  function Sequential(ids: seq<KeyId>, start: nat, k: nat): (chosen: seq<KeyId>)
    requires ids != []
    ensures |chosen| == k
    decreases k
  {
    if k == 0 then [] else
    var pick := Scan(ids, start, {});
    [pick.chosen.value] + Sequential(ids, pick.nextIdx, k - 1)
  }

  lemma {:induction false} ModuloShift(a: nat, j: nat, n: nat)
    requires n > 0
    ensures (a % n + j) % n == (a + j) % n
  {
    var q := a / n;
    assert a == n * q + a % n;
    var s := a % n + j;
    assert s == n * (s / n) + s % n;
    assert a + j == n * (q + s / n) + s % n by {
      assert n * (q + s / n) == n * q + n * (s / n);
    }
    QuotientUnique(a + j, n, q + s / n, s % n);
  }

  /** Pick number `i` of a sequential run is the key `i` places on from the pointer. */
  lemma {:induction false} SequentialIsRoundRobin(ids: seq<KeyId>, start: nat, k: nat, i: nat)
    requires ids != [] && i < k
    ensures Sequential(ids, start, k)[i] == Candidate(ids, start, i)
    decreases k
  {
    assert Scan(ids, start, {}).nextIdx == (start + 1) % |ids|;
    if i > 0 {
      var next := (start + 1) % |ids|;
      SequentialIsRoundRobin(ids, next, k - 1, i - 1);
      ModuloShift(start + 1, i - 1, |ids|);
    }
  }

  ghost function Times(chosen: seq<KeyId>, key: KeyId): nat {
    if chosen == [] then 0
    else Times(chosen[..|chosen| - 1], key) + if chosen[|chosen| - 1] == key then 1 else 0
  }

  lemma {:induction false} SequentialPrefix(ids: seq<KeyId>, start: nat, k: nat)
    requires ids != [] && k > 0
    ensures Sequential(ids, start, k)[..k - 1] == Sequential(ids, start, k - 1)
  {
    forall i | 0 <= i < k - 1
      ensures Sequential(ids, start, k)[i] == Sequential(ids, start, k - 1)[i]
    {
      SequentialIsRoundRobin(ids, start, k, i);
      SequentialIsRoundRobin(ids, start, k - 1, i);
    }
  }

  lemma DivModStep(k: nat, n: nat)
    requires n > 0
    ensures if k % n + 1 == n then (k + 1) / n == k / n + 1 && (k + 1) % n == 0
            else (k + 1) / n == k / n && (k + 1) % n == k % n + 1
  {
    assert k == n * (k / n) + k % n;
    if k % n + 1 == n {
      assert n * (k / n + 1) == n * (k / n) + n;
      QuotientUnique(k + 1, n, k / n + 1, 0);
    } else {
      QuotientUnique(k + 1, n, k / n, k % n + 1);
    }
  }

  /**
    Sequential picks are fair: after `k` of them the key in slot `p` was chosen once for
    every full round, and once more if the running round has already passed it.
   */
  lemma {:induction false} SequentialIsFair(ids: seq<KeyId>, start: nat, k: nat, p: nat)
    requires p < |ids| && Distinct(ids)
    ensures Times(Sequential(ids, start, k), ids[p])
         == k / |ids| + if Distance(start, p, |ids|) < k % |ids| then 1 else 0
  {
    var n := |ids|;
    if k == 0 {
      QuotientUnique(0, n, 0, 0);
    } else {
      var chosen := Sequential(ids, start, k);
      SequentialIsFair(ids, start, k - 1, p);
      SequentialPrefix(ids, start, k);
      SequentialIsRoundRobin(ids, start, k, k - 1);
      DivModStep(k - 1, n);
      RoundPosition(start, k - 1, n);
      var s := Slot(start, (k - 1) % n, n);
      assert chosen[k - 1] == ids[s];
      DistanceInverts(start, s, n);
      DistanceInverts(start, p, n);
      assert chosen[k - 1] == ids[p] <==> s == p;
    }
  }

  lemma RoundPosition(start: nat, i: nat, n: nat)
    requires n > 0
    ensures i % n < n && (start + i) % n == Slot(start, i % n, n)
  {
    ModuloShift(i, start, n);
    SlotIsModulo(start, i % n, n);
  }
}
