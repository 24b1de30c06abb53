/** The two particle-pool idioms shared by the fireworks and the fountain: an accumulator that
    emits one item per whole unit while the pool is below its cap, and `Vec::retain`. */
module Pools {
  import opened Pixels

  /** How many items the emission loop adds: one per whole unit in the accumulator, but never
      past the cap (and none once the pool is at or over it). */
  function EmitCount(accum: real, size: nat, cap: nat): nat {
    if size >= cap || accum < 1.0 then 0 else Min(accum.Floor, cap - size)
  }

  /** `while accum >= 1.0 && pool.len() < cap { accum -= 1.0; pool.push(make(..)) }`, where
      the item pushed into slot `i` is `make(i)`. */
  function Emit<T>(pool: seq<T>, accum: real, cap: nat, make: nat -> T): (r: (seq<T>, real))
    ensures pool <= r.0
    ensures |r.0| == |pool| + EmitCount(accum, |pool|, cap)
    ensures r.1 == accum - EmitCount(accum, |pool|, cap) as real
    ensures forall i :: |pool| <= i < |r.0| ==> r.0[i] == make(i)
    ensures r.1 < 1.0 || |r.0| >= cap
    ensures |pool| <= cap ==> |r.0| <= cap
    decreases cap - |pool|
  {
    if accum >= 1.0 && |pool| < cap then
      var r := Emit(pool + [make(|pool|)], accum - 1.0, cap, make);
      assert (accum - 1.0).Floor == accum.Floor - 1;
      r
    else (pool, accum)
  }

  /** `Vec::retain(keep)`: the items satisfying `keep`, in their original order. */
  function Keep<T>(s: seq<T>, keep: T -> bool): (r: seq<T>)
    ensures |r| <= |s|
    ensures forall i :: 0 <= i < |r| ==> keep(r[i])
    decreases |s|
  {
    if |s| == 0 then []
    else if keep(s[0]) then [s[0]] + Keep(s[1..], keep)
    else Keep(s[1..], keep)
  }

  /** An item survives `retain` exactly when it was in the pool and passes the test. */
  lemma {:induction false} KeepMembership<T>(s: seq<T>, keep: T -> bool, x: T)
    ensures x in Keep(s, keep) <==> x in s && keep(x)
    decreases |s|
  {
    if |s| > 0 {
      KeepMembership(s[1..], keep, x);
      assert s == [s[0]] + s[1..];
    }
  }

  /** Splitting a pool by a test and by its negation loses and duplicates nothing. */
  lemma {:induction false} KeepSplits<T>(s: seq<T>, keep: T -> bool, drop: T -> bool)
    requires forall x :: drop(x) == !keep(x)
    ensures |Keep(s, keep)| + |Keep(s, drop)| == |s|
    decreases |s|
  {
    if |s| > 0 {
      KeepSplits(s[1..], keep, drop);
    }
  }

  /** `f` applied to every item, in order. */
  function Map<A, B>(s: seq<A>, f: A -> B): (r: seq<B>)
    ensures |r| == |s|
    ensures forall i :: 0 <= i < |s| ==> r[i] == f(s[i])
  {
    seq(|s|, i requires 0 <= i < |s| => f(s[i]))
  }

  /** One pixel of the trail fade: each channel drops by its own amount, stopping at zero. */
  function Dim(p: Pixel, dr: nat, dg: nat, db: nat): (q: Pixel)
    ensures q.r <= p.r && q.g <= p.g && q.b <= p.b
    ensures p.r >= dr ==> q.r == p.r - dr
    ensures p.g >= dg ==> q.g == p.g - dg
    ensures p.b >= db ==> q.b == p.b - db
    ensures p == Black ==> q == Black
  {
    Pixel(SatSubU8(p.r, dr), SatSubU8(p.g, dg), SatSubU8(p.b, db))
  }
}
