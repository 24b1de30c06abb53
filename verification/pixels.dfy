/** Colour triplets, Rust's numeric casts, and `Vec::resize`, shared by every other module. */
module Pixels {

  /** An 8-bit colour channel. */
  type U8 = x: int | 0 <= x < 256

  /** A pixel is the source's `(u8, u8, u8)` triplet. */
  datatype Pixel = Pixel(r: U8, g: U8, b: U8)

  const Black: Pixel := Pixel(0, 0, 0)

  const U32Max: int := 0xFFFF_FFFF

  function Min(a: int, b: int): int { if a <= b then a else b }

  function Max(a: int, b: int): int { if a <= b then b else a }

  function MinReal(a: real, b: real): real { if a <= b then a else b }

  function MaxReal(a: real, b: real): real { if a <= b then b else a }

  /** `f64::clamp(v, lo, hi)`. */
  function Clamp(v: real, lo: real, hi: real): (c: real)
    requires lo <= hi
    ensures lo <= c <= hi
    ensures lo <= v <= hi ==> c == v
    ensures v < lo ==> c == lo
    ensures v > hi ==> c == hi
  {
    if v < lo then lo else if v > hi then hi else v
  }

  /** `t.clamp(0.0, 1.0)`. */
  function Clamp01(t: real): (r: real)
    ensures 0.0 <= r <= 1.0
    ensures 0.0 <= t <= 1.0 ==> r == t
    ensures t < 0.0 ==> r == 0.0
    ensures t > 1.0 ==> r == 1.0
  {
    Clamp(t, 0.0, 1.0)
  }

  /** Rust's `x as u8` for a float: truncation toward zero, saturating at both ends. */
  function CastU8(x: real): (c: U8)
    ensures 0.0 <= x < 256.0 ==> c == x.Floor
    ensures x <= 0.0 ==> c == 0
    ensures x >= 255.0 ==> c == 255
  {
    if x <= 0.0 then 0 else if x >= 255.0 then 255 else x.Floor
  }

  /** Rust's `x as u32` (or `as usize`) for a float: truncation toward zero, saturating. */
  function CastU32(x: real): (n: nat)
    ensures n <= U32Max
    ensures 0.0 <= x < U32Max as real ==> n == x.Floor
    ensures x <= 0.0 ==> n == 0
  {
    if x <= 0.0 then 0 else if x >= U32Max as real then U32Max else x.Floor
  }

  /** Rust's `x as i32` for a float, without the saturation at +-2^31 (positions stay on screen). */
  function TruncInt(x: real): (n: int)
    ensures x >= 0.0 ==> n == x.Floor
    ensures x < 0.0 ==> x <= n as real <= 0.0 && (n - 1) as real < x
  {
    if x >= 0.0 then x.Floor else -((-x).Floor)
  }

  /** `u8::saturating_sub`. */
  function SatSubU8(a: U8, k: nat): (c: U8)
    ensures c <= a
    ensures a >= k ==> c == a - k
    ensures a < k ==> c == 0
  {
    if a >= k then a - k else 0
  }

  /** `Vec::resize(n, fill)`: the existing prefix is kept, new slots hold `fill`. */
  function Resize<T>(s: seq<T>, n: nat, fill: T): (r: seq<T>)
    ensures |r| == n
    ensures forall i :: 0 <= i < n && i < |s| ==> r[i] == s[i]
    ensures forall i :: |s| <= i < n ==> r[i] == fill
  {
    if n <= |s| then s[..n] else s + seq(n - |s|, _ => fill)
  }

  /** `vec![v; n]`. */
  function Repeat<T>(v: T, n: nat): (r: seq<T>)
    ensures |r| == n
    ensures forall i :: 0 <= i < n ==> r[i] == v
  {
    seq(n, _ => v)
  }

  lemma ResizeToOwnLength<T>(s: seq<T>, fill: T)
    ensures Resize(s, |s|, fill) == s
  {
  }
}

/** The source's `Option`. */
module Options {
  datatype Option<+T> = None | Some(value: T)
}
