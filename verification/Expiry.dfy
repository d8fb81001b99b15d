/**
  The three ways the library throws out messages that have outlived their TTL: skipping them at the
  front, erasing them wherever they are, and compacting the rest in place.
 */
module Expiry {
  import opened Common

  /** Skips dead elements at the front and stops at the first live one. */
  function SkipFront<T>(q: seq<T>, dead: T -> bool): (r: seq<T>)
    ensures |r| <= |q| && r == q[|q| - |r|..]
    ensures forall i | 0 <= i < |q| - |r| :: dead(q[i])
    ensures r == [] || !dead(r[0])
  {
    if q == [] || !dead(q[0]) then q else SkipFront(q[1..], dead)
  }

  /** Keeps the live elements, in order. */
  function Keep<T>(q: seq<T>, dead: T -> bool): (r: seq<T>)
    ensures |r| <= |q|
  {
    if q == [] then []
    else (if dead(q[0]) then [] else [q[0]]) + Keep(q[1..], dead)
  }

  lemma {:induction false} KeepLive<T>(q: seq<T>, dead: T -> bool)
    ensures forall i | 0 <= i < |Keep(q, dead)| :: !dead(Keep(q, dead)[i])
  {
    if q == [] {
    } else {
      KeepLive(q[1..], dead);
    }
  }

  lemma KeepCons<T>(x: T, q: seq<T>, dead: T -> bool)
    ensures Keep([x] + q, dead) == (if dead(x) then [] else [x]) + Keep(q, dead)
  {
    assert ([x] + q)[1..] == q;
  }

  /** No dead element comes after a live one. */
  ghost predicate DeadFirst<T>(q: seq<T>, dead: T -> bool) {
    forall i, j | 0 <= i < j < |q| && dead(q[j]) :: dead(q[i])
  }

  lemma {:induction false} KeepAll<T>(q: seq<T>, dead: T -> bool)
    requires forall i | 0 <= i < |q| :: !dead(q[i])
    ensures Keep(q, dead) == q
  {
    if q == [] {
    } else {
      KeepAll(q[1..], dead);
    }
  }

  lemma {:induction false} KeepNone<T>(q: seq<T>, dead: T -> bool)
    requires forall i | 0 <= i < |q| :: dead(q[i])
    ensures Keep(q, dead) == []
  {
    if q == [] {
    } else {
      KeepNone(q[1..], dead);
    }
  }

  lemma {:induction false} KeepSnoc<T>(q: seq<T>, x: T, dead: T -> bool)
    ensures Keep(q + [x], dead) == Keep(q, dead) + (if dead(x) then [] else [x])
  {
    if q == [] {
      assert q + [x] == [x] + [];
      KeepCons(x, [], dead);
    } else {
      KeepSnoc(q[1..], x, dead);
      KeepCons(q[0], q[1..] + [x], dead);
      assert q + [x] == [q[0]] + (q[1..] + [x]);
      Regroup(if dead(q[0]) then [] else [q[0]], Keep(q[1..], dead), if dead(x) then [] else [x]);
    }
  }

  lemma {:induction false} KeepLosesNothing<T>(q: seq<T>, dead: T -> bool)
    requires |Keep(q, dead)| == |q|
    ensures Keep(q, dead) == q
  {
    if q == [] {
    } else {
      KeepLosesNothing(q[1..], dead);
    }
  }

  /** Erasing one dead element does not change what is kept. */
  lemma {:induction false} KeepErasing<T>(q: seq<T>, i: nat, dead: T -> bool)
    requires i < |q| && dead(q[i])
    ensures Keep(q[..i] + q[i + 1..], dead) == Keep(q, dead)
  {
    if i == 0 {
      assert q[..0] + q[1..] == q[1..];
    } else {
      KeepErasing(q[1..], i - 1, dead);
      assert (q[..i] + q[i + 1..])[1..] == q[1..][..i - 1] + q[1..][i..];
    }
  }

  /** When the dead come first, skipping at the front and filtering are the same. */
  lemma {:induction false} SkipIsKeep<T>(q: seq<T>, dead: T -> bool)
    requires DeadFirst(q, dead)
    ensures SkipFront(q, dead) == Keep(q, dead)
  {
    if q == [] {
    } else {
      if dead(q[0]) {
        SkipIsKeep(q[1..], dead);
      } else {
        KeepAll(q, dead);
      }
    }
  }

  /** A dead element behind a live one survives the front-skipping loop. */
  lemma {:induction false} DeadSurvives<T>(q: seq<T>, dead: T -> bool, i: nat, j: nat)
    requires i < j < |q| && dead(q[j]) && !dead(q[i])
    ensures exists k | 0 <= k < |SkipFront(q, dead)| :: dead(SkipFront(q, dead)[k])
  {
    if !dead(q[0]) {
      assert dead(SkipFront(q, dead)[j]);
    } else {
      DeadSurvives(q[1..], dead, i - 1, j - 1);
      assert SkipFront(q, dead) == SkipFront(q[1..], dead);
    }
  }

  /** And only then: on any other queue the front-skipping loop leaves a dead element behind. */
  lemma SkipIsKeepOnlyThen<T>(q: seq<T>, dead: T -> bool)
    ensures SkipFront(q, dead) == Keep(q, dead) <==> DeadFirst(q, dead)
  {
    if DeadFirst(q, dead) {
      SkipIsKeep(q, dead);
    } else {
      var i, j :| 0 <= i < j < |q| && dead(q[j]) && !dead(q[i]);
      DeadSurvives(q, dead, i, j);
      KeepLive(q, dead);
    }
  }

  function Repeat<T>(n: nat, x: T): (r: seq<T>)
    ensures |r| == n && forall i | 0 <= i < n :: r[i] == x
  {
    if n == 0 then [] else [x] + Repeat(n - 1, x)
  }

  lemma RepeatSnoc<T>(n: nat, x: T)
    ensures Repeat(n, x) + [x] == Repeat(n + 1, x)
  {
  }

  lemma RepeatCons<T>(s: seq<T>, x: T, k: nat)
    ensures s + [x] + Repeat(k, x) == s + Repeat(k + 1, x)
    ensures s + Repeat(0, x) == s
  {
  }
}
