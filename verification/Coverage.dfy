/**
  Does a request try every key before it gives up?  The pointer is an index into a list
  that shrinks whenever an answer takes a key out, so keys can be passed over.  This
  module finds the exact number of iterations that rules it out.
 */
module Coverage {
  import opened Cyclic
  import opened KeyRows
  import opened Sequences
  import opened Picking

  /** The active keys and the slot the next pick takes, when nothing is reserved. */
  datatype Ring = Ring(ids: seq<KeyId>, at: nat)

  ghost predicate WellFormed(r: Ring) {
    Distinct(r.ids) && (r.ids != [] ==> r.at < |r.ids|)
  }

  function Without(ids: seq<KeyId>, i: nat): seq<KeyId>
    requires i < |ids|
  {
    ids[..i] + ids[i + 1..]
  }

  /** One attempt on the current key, which stays active or is taken out. */
  function Turned(r: Ring, remove: bool): Ring
    requires r.ids != [] ==> r.at < |r.ids|
  {
    if r.ids == [] then r else
    var left := if remove then Without(r.ids, r.at) else r.ids;
    Ring(left, if r.at + 1 < |left| then r.at + 1 else 0)
  }

  ghost function RingAfter(r: Ring, removes: seq<bool>): (s: Ring)
    requires WellFormed(r)
    ensures WellFormed(s)
  {
    if removes == [] then r
    else Turned(RingAfter(r, removes[..|removes| - 1]), removes[|removes| - 1])
  }

  ghost function Current(r: Ring): seq<KeyId>
    requires WellFormed(r)
  {
    if r.ids == [] then [] else [r.ids[r.at]]
  }

  /** The keys attempted, in order; nothing is left to attempt once the ring is empty. */
  ghost function Tries(r: Ring, removes: seq<bool>): seq<KeyId>
    requires WellFormed(r)
  {
    if removes == [] then [] else
    var before := removes[..|removes| - 1];
    Tries(r, before) + Current(RingAfter(r, before))
  }

  ghost predicate AllTried(r: Ring, removes: seq<bool>)
    requires WellFormed(r)
  {
    forall id :: id in r.ids ==> id in Tries(r, removes)
  }

  // ------------------------------------------------------------- upper bound

  /** n(n-1)/2 */
  function Tri(n: nat): nat {
    if n == 0 then 0 else Tri(n - 1) + n - 1
  }

  lemma {:induction false} TriClosed(n: nat)
    ensures 2 * Tri(n) == n * (n - 1)
  {
    if n > 0 {
      TriClosed(n - 1);
      assert n * (n - 1) == (n - 1) * (n - 2) + 2 * (n - 1);
    }
  }

  function Gap(at: nat, p: nat, n: nat): nat
    requires at < n && p < n
  {
    if at <= p then p - at else p - at + n
  }

  /** How many more attempts can miss the key in slot `p`. */
  function Slack(r: Ring, p: nat): nat
    requires r.at < |r.ids| && p < |r.ids|
  {
    Gap(r.at, p, |r.ids|) + Tri(|r.ids| - 1)
  }

  /** An attempt on another key uses up slack, whether that key stays or goes. */
  lemma MissCosts(r: Ring, remove: bool, p: nat) returns (q: nat)
    requires WellFormed(r) && p < |r.ids| && p != r.at
    ensures var s := Turned(r, remove);
      WellFormed(s) && q < |s.ids| && s.ids[q] == r.ids[p] && Slack(s, q) < Slack(r, p)
  {
    var s := Turned(r, remove);
    q := if remove && r.at < p then p - 1 else p;
  }

  /** A key missed by every attempt is still in the ring, with that much less slack. */
  lemma {:induction false} MissedKeepsSlack(r: Ring, removes: seq<bool>, p: nat) returns (q: nat)
    requires WellFormed(r) && p < |r.ids| && r.ids[p] !in Tries(r, removes)
    ensures var s := RingAfter(r, removes);
      q < |s.ids| && s.ids[q] == r.ids[p] && Slack(s, q) + |removes| <= Slack(r, p)
  {
    if removes == [] {
      q := p;
    } else {
      var n := |removes| - 1;
      q := MissedKeepsSlack(r, removes[..n], p);
      var s := RingAfter(r, removes[..n]);
      assert Current(s)[0] in Tries(r, removes);
      q := MissCosts(s, removes[n], q);
    }
  }

  lemma SlackBound(r: Ring, p: nat)
    requires r.at < |r.ids| && p < |r.ids|
    ensures Slack(r, p) <= Tri(|r.ids|)
  {
  }

  lemma MissedByFew(r: Ring, removes: seq<bool>, p: nat)
    requires WellFormed(r) && p < |r.ids| && r.ids[p] !in Tries(r, removes)
    ensures |removes| <= Tri(|r.ids|)
  {
    SlackBound(r, p);
    var q := MissedKeepsSlack(r, removes, p);
    assert Slack(RingAfter(r, removes), q) >= 0;
  }

  /** More than n(n-1)/2 attempts reach every key, whatever the answers. */
  lemma EnoughAttempts(r: Ring, removes: seq<bool>)
    requires WellFormed(r) && |removes| > Tri(|r.ids|)
    ensures AllTried(r, removes)
  {
    forall p | 0 <= p < |r.ids| ensures r.ids[p] in Tries(r, removes) {
      if r.ids[p] !in Tries(r, removes) {
        MissedByFew(r, removes, p);
      }
    }
  }

  // --------------------------------------------------------------- worst case

  /** One series of attempts is another followed by a third. */
  ghost predicate Continues(r: Ring, whole: seq<bool>, first: seq<bool>, second: seq<bool>)
    requires WellFormed(r)
  {
    && RingAfter(r, whole) == RingAfter(RingAfter(r, first), second)
    && Tries(r, whole) == Tries(r, first) + Tries(RingAfter(r, first), second)
  }

  lemma ContinuesNext(r: Ring, whole: seq<bool>, before: seq<bool>, first: seq<bool>,
                      second: seq<bool>, head: seq<bool>)
    requires WellFormed(r) && whole != [] && second != []
    requires before == whole[..|whole| - 1] && head == second[..|second| - 1]
    requires whole[|whole| - 1] == second[|second| - 1] && Continues(r, before, first, head)
    ensures Continues(r, whole, first, second)
  {
    var s := RingAfter(r, first);
    Regroup(Tries(r, first), Tries(s, head), Current(RingAfter(s, head)));
  }

  lemma {:induction false} RunsAppend(r: Ring, a: seq<bool>, b: seq<bool>)
    requires WellFormed(r)
    ensures Continues(r, a + b, a, b)
  {
    if b == [] {
      assert a + b == a;
    } else {
      var head := b[..|b| - 1];
      assert (a + b)[..|a + b| - 1] == a + head;
      RunsAppend(r, a, head);
      ContinuesNext(r, a + b, a + head, a, b, head);
    }
  }

  function Repeat(b: bool, k: nat): seq<bool> {
    seq(k, _ => b)
  }

  ghost predicate Walks(r: Ring, removes: seq<bool>)
    requires WellFormed(r)
  {
    && r.at + |removes| <= |r.ids|
    && RingAfter(r, removes) == Ring(r.ids, r.at + |removes|)
    && Tries(r, removes) == r.ids[r.at..r.at + |removes|]
  }

  lemma WalksNext(r: Ring, removes: seq<bool>, before: seq<bool>)
    requires WellFormed(r) && removes != [] && before == removes[..|removes| - 1] && !removes[|removes| - 1]
    requires r.at + |removes| < |r.ids| && Walks(r, before)
    ensures Walks(r, removes)
  {
    SliceNext(r.ids, r.at, r.at + |before|);
  }

  lemma {:induction false} KeepWalks(r: Ring, k: nat)
    requires WellFormed(r) && r.at + k < |r.ids|
    ensures Walks(r, Repeat(false, k))
  {
    if k > 0 {
      KeepWalks(r, k - 1);
      assert Repeat(false, k)[..k - 1] == Repeat(false, k - 1);
      WalksNext(r, Repeat(false, k), Repeat(false, k - 1));
    }
  }

  /**
    The answers that avoid the last key for as long as possible: keep every key up to the
    one in front of it and take that one out, so that the pointer jumps over it.
   */
  function Worst(n: nat): seq<bool>
    requires n > 0
  {
    if n == 1 then [] else Repeat(false, n - 2) + [true] + Worst(n - 1)
  }

  lemma {:induction false} WorstMisses(ids: seq<KeyId>)
    requires ids != [] && Distinct(ids)
    ensures |Worst(|ids|)| == Tri(|ids|)
    ensures ids[|ids| - 1] !in Tries(Ring(ids, 0), Worst(|ids|))
    ensures RingAfter(Ring(ids, 0), Worst(|ids|)).ids != []
    decreases |ids|
  {
    var n := |ids|;
    if n > 1 {
      var r, lap := Ring(ids, 0), Repeat(false, n - 2) + [true];
      var rest := Without(ids, n - 2);
      KeepWalks(r, n - 2);
      assert lap[..n - 2] == Repeat(false, n - 2);
      assert RingAfter(r, lap) == Ring(rest, 0);
      assert Tries(r, lap) == ids[..n - 2] + [ids[n - 2]] == ids[..n - 1];
      WorstMisses(rest);
      RunsAppend(r, lap, Worst(n - 1));
      assert rest[n - 2] == ids[n - 1];
    } else {
      assert Tries(Ring(ids, 0), []) == [];
    }
  }

  lemma {:induction false} PrefixTries(r: Ring, removes: seq<bool>, k: nat)
    requires WellFormed(r) && k <= |removes|
    ensures Tries(r, removes[..k]) <= Tries(r, removes)
    ensures RingAfter(r, removes).ids != [] ==> RingAfter(r, removes[..k]).ids != []
  {
    assert removes == removes[..k] + removes[k..];
    RunsAppend(r, removes[..k], removes[k..]);
    EmptyStays(RingAfter(r, removes[..k]), removes[k..]);
  }

  lemma {:induction false} EmptyStays(r: Ring, removes: seq<bool>)
    requires WellFormed(r)
    ensures r.ids == [] ==> RingAfter(r, removes) == r
  {
    if removes != [] {
      EmptyStays(r, removes[..|removes| - 1]);
    }
  }

  ghost predicate AlwaysCovered(ids: seq<KeyId>, k: nat)
    requires Distinct(ids)
  {
    forall at: nat, removes: seq<bool> :: at < |ids| && |removes| == k ==> AllTried(Ring(ids, at), removes)
  }

  /** `k` attempts can miss the last key if k is n(n-1)/2 or less. */
  lemma SomeMissed(ids: seq<KeyId>, r: Ring, k: nat) returns (removes: seq<bool>)
    requires ids != [] && Distinct(ids) && k <= Tri(|ids|) && r == Ring(ids, 0)
    ensures |removes| == k && ids[|ids| - 1] !in Tries(r, removes)
  {
    WorstMisses(ids);
    removes := Worst(|ids|)[..k];
    PrefixTries(r, Worst(|ids|), k);
  }

  /** `k` attempts reach every one of n keys, from any pointer and for any answers, iff k > n(n-1)/2. */
  lemma CoveredIff(ids: seq<KeyId>, k: nat)
    requires ids != [] && Distinct(ids)
    ensures AlwaysCovered(ids, k) <==> k > Tri(|ids|)
  {
    if k > Tri(|ids|) {
      forall at: nat, removes: seq<bool> | at < |ids| && |removes| == k
        ensures AllTried(Ring(ids, at), removes)
      {
        EnoughAttempts(Ring(ids, at), removes);
      }
    } else {
      var r := Ring(ids, 0);
      var removes := SomeMissed(ids, r, k);
      assert ids[|ids| - 1] in r.ids;
      assert !AllTried(r, removes);
    }
  }

  // ---------------------------------------------------------- uniform answers

  /** So far every slot from the pointer on has been tried once, in cyclic order, and all keys are left. */
  ghost predicate Visits(r: Ring, removes: seq<bool>)
    requires WellFormed(r) && r.ids != []
  {
    var k, tried, s := |removes|, Tries(r, removes), RingAfter(r, removes);
    && |tried| == k <= |r.ids|
    && (forall j :: 0 <= j < k ==> tried[j] == r.ids[Slot(r.at, j, |r.ids|)])
    && s.ids == r.ids && (k < |r.ids| ==> s.at == Slot(r.at, k, |r.ids|))
  }

  lemma VisitsNext(r: Ring, removes: seq<bool>, before: seq<bool>)
    requires WellFormed(r) && r.ids != [] && |removes| <= |r.ids|
    requires removes != [] && before == removes[..|removes| - 1] && !removes[|removes| - 1]
    requires Visits(r, before)
    ensures Visits(r, removes)
  {
  }

  /** If every answer keeps its key, the first n attempts visit the n slots in cyclic order. */
  lemma {:induction false} KeepVisitsInOrder(r: Ring, k: nat)
    requires WellFormed(r) && r.ids != []  && k <= |r.ids|
    ensures Visits(r, Repeat(false, k))
  {
    if k > 0 {
      KeepVisitsInOrder(r, k - 1);
      assert Repeat(false, k)[..k - 1] == Repeat(false, k - 1);
      VisitsNext(r, Repeat(false, k), Repeat(false, k - 1));
    } else {
      QuotientUnique(r.at, |r.ids|, 0, r.at);
    }
  }

  /** So far no key has been tried twice, and what is left is what has not been tried. */
  ghost predicate Clears(r: Ring, removes: seq<bool>)
    requires WellFormed(r)
  {
    var s, tried := RingAfter(r, removes), Tries(r, removes);
    && |s.ids| == |r.ids| - |removes| && |tried| == |removes| && Distinct(tried)
    && (forall id :: id in r.ids <==> id in s.ids || id in tried)
    && (forall id :: !(id in s.ids && id in tried))
  }

  lemma ClearsNext(r: Ring, removes: seq<bool>, before: seq<bool>)
    requires WellFormed(r) && |removes| <= |r.ids|
    requires removes != [] && before == removes[..|removes| - 1] && removes[|removes| - 1]
    requires Clears(r, before)
    ensures Clears(r, removes)
  {
    var s := RingAfter(r, before);
    TakenOut(s.ids, s.at);
  }

  /** If every answer removes its key, what is left is what has not been tried. */
  lemma {:induction false} RemoveNeverRepeats(r: Ring, k: nat)
    requires WellFormed(r) && k <= |r.ids|
    ensures Clears(r, Repeat(true, k))
  {
    if k > 0 {
      RemoveNeverRepeats(r, k - 1);
      assert Repeat(true, k)[..k - 1] == Repeat(true, k - 1);
      ClearsNext(r, Repeat(true, k), Repeat(true, k - 1));
    }
  }

  lemma TakenOut(ids: seq<KeyId>, i: nat)
    requires i < |ids| && Distinct(ids)
    ensures Distinct(Without(ids, i)) && ids[i] !in Without(ids, i)
    ensures forall id :: id in ids <==> id == ids[i] || id in Without(ids, i)
  {
    forall id | id in ids && id != ids[i] ensures id in Without(ids, i) {
      var j :| 0 <= j < |ids| && ids[j] == id;
      assert Without(ids, i)[if j < i then j else j - 1] == id;
    }
  }

  /** When the answers all agree, the first n attempts hit n different keys, so all of them. */
  lemma UniformCovers(r: Ring, remove: bool)
    requires WellFormed(r) && r.ids != []
    ensures var tried := Tries(r, Repeat(remove, |r.ids|));
      |tried| == |r.ids| && Distinct(tried) && AllTried(r, Repeat(remove, |r.ids|))
  {
    var n := |r.ids|;
    if remove {
      RemoveNeverRepeats(r, n);
    } else {
      KeepVisitsInOrder(r, n);
      var tried := Tries(r, Repeat(false, n));
      forall p | 0 <= p < n ensures r.ids[p] in tried {
        DistanceInverts(r.at, p, n);
        assert tried[Distance(r.at, p, n)] == r.ids[p];
      }
    }
  }
}
