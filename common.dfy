/** Small shared vocabulary of the three userscript revisions: an optional value
    (JavaScript's `null`), the `Math.min(Math.max(x, lo), hi)` clamp and the
    percentage-to-intensity conversion `v / 100`. */
module Common {

  /** `null` or a value. */
  datatype Option<T> = None | Some(value: T)

  /** `new Array(n).fill(null)`: n empty slots. */
  function Nulls<T>(n: nat): (z: seq<Option<T>>)
    ensures |z| == n && forall m | 0 <= m < n :: z[m] == None
  {
    seq(n, _ => None)
  }

  /** An array of n cleared timer slots: no slot runs. */
  function Falses(n: nat): (z: seq<bool>)
    ensures |z| == n && forall m | 0 <= m < n :: !z[m]
  {
    seq(n, _ => false)
  }

  /** `Math.min(Math.max(x, lo), hi)`: the nearest point of [lo, hi] to x. */
  function Clamp(x: real, lo: real, hi: real): (r: real)
    requires lo <= hi
    ensures lo <= r <= hi
    ensures lo <= x <= hi ==> r == x
    ensures x <= lo ==> r == lo
    ensures hi <= x ==> r == hi
  {
    if x < lo then lo else if x > hi then hi else x
  }

  /** A raw percentage `v` read from the chat as the intensity `v / 100`. */
  function Fraction(v: int): real
  {
    v as real / 100.0
  }

  /** The percentages 0..100 are exactly the values whose fraction lies in
      [0, 1]; 0 maps to 0 and 100 maps to 1. */
  lemma FractionRange(v: int)
    ensures 0 <= v <= 100 <==> 0.0 <= Fraction(v) <= 1.0
    ensures Fraction(0) == 0.0 && Fraction(100) == 1.0
    ensures v > 100 ==> Fraction(v) > 1.0
  {
  }

  // Proof steps, not properties of the scripts: the log-append identities
  // and the real-arithmetic facts the oscillation bounds go through.

  /** Appending to a log in two steps or in one. */
  lemma AppendAssoc<T>(a: seq<T>, b: seq<T>, c: seq<T>)
    ensures (a + b) + c == a + (b + c)
  {
  }

  /** Appending nothing leaves a log as it is. */
  lemma AppendNil<T>(a: seq<T>)
    ensures a + [] == a
  {
  }

  lemma MulZero(a: real)
    ensures a * 0.0 == 0.0
  {
  }

  lemma MulUnitBound(a: real, s: real)
    requires -1.0 <= s <= 1.0
    requires 0.0 <= a
    ensures -a <= a * s <= a
  {
    if s >= 0.0 {
      assert a * s <= a * 1.0;
    } else {
      assert a * s >= a * -1.0;
    }
  }

  lemma MulAtMostOne(o: real, b: real)
    requires 0.0 <= o <= 1.0 && 0.0 <= b
    ensures 0.0 <= o * b <= b
  {
    assert o * b <= 1.0 * b;
  }

  /** An amplitude `o * b` with o in [0, 1] lies in [0, b], and its product
      with a sine value lies within the amplitude. */
  lemma ScaledWithin(o: real, b: real, s: real)
    requires 0.0 <= o <= 1.0 && 0.0 <= b && -1.0 <= s <= 1.0
    ensures 0.0 <= o * b <= b
    ensures -(o * b) <= (o * b) * s <= o * b
  {
    MulAtMostOne(o, b);
    MulUnitBound(o * b, s);
  }
}
