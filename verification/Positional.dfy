/**
  Re-spelling a number from one positional base into another while keeping the
  leading zero digits one for one.  Base58 text is this construction between
  base 256 and base 58, in both directions.
 */
module Positional {

  /** The two bases in use: raw bytes and the base58 alphabet. */
  type Base = b: nat | b == 58 || b == 256 witness 58

  // The arithmetic is written out per base, so that every product is linear.
  function Shift(base: Base, n: nat): nat {
    if base == 58 then 58 * n else 256 * n
  }

  function Quotient(base: Base, n: nat): (q: nat)
    ensures n > 0 ==> q < n
  {
    if base == 58 then n / 58 else n / 256
  }

  function Remainder(base: Base, n: nat): (d: nat)
    ensures d < base
  {
    if base == 58 then n % 58 else n % 256
  }

  ghost predicate DigitsOf(base: Base, ds: seq<nat>) {
    forall i :: 0 <= i < |ds| ==> ds[i] < base
  }

  /** The number spelled by `ds`, most significant digit first. */
  function Value(base: Base, ds: seq<nat>): nat {
    if ds == [] then 0 else Shift(base, Value(base, ds[..|ds| - 1])) + ds[|ds| - 1]
  }

  /** The digits of `n` without leading zeros. */
  function Spell(base: Base, n: nat): (ds: seq<nat>)
    ensures DigitsOf(base, ds)
    ensures ds != [] ==> ds[0] != 0
    ensures Value(base, ds) == n
    decreases n
  {
    if n == 0 then [] else
    var front, last := Spell(base, Quotient(base, n)), Remainder(base, n);
    assert (front + [last])[..|front|] == front;
    assert Shift(base, Quotient(base, n)) + last == n;
    front + [last]
  }

  function LeadingZeros(ds: seq<nat>): (z: nat)
    ensures z <= |ds|
    ensures forall i :: 0 <= i < z ==> ds[i] == 0
    ensures z < |ds| ==> ds[z] != 0
  {
    if ds == [] || ds[0] != 0 then 0 else 1 + LeadingZeros(ds[1..])
  }

  function Zeros(n: nat): (ds: seq<nat>)
    ensures |ds| == n
    ensures forall i :: 0 <= i < n ==> ds[i] == 0
  {
    seq(n, _ => 0)
  }

  /** Keep every leading zero, re-spell the number that follows. */
  function Respell(from: Base, to: Base, ds: seq<nat>): (r: seq<nat>)
    ensures DigitsOf(to, r)
  {
    Zeros(LeadingZeros(ds)) + Spell(to, Value(from, ds))
  }

  /** Spelling is the inverse of evaluation on digit strings without leading zeros. */
  lemma {:induction false} SpellValue(base: Base, ds: seq<nat>)
    requires DigitsOf(base, ds)
    requires ds != [] ==> ds[0] != 0
    ensures Spell(base, Value(base, ds)) == ds
    ensures ds != [] ==> Value(base, ds) > 0
  {
    if ds != [] {
      var front, last := ds[..|ds| - 1], ds[|ds| - 1];
      SpellValue(base, front);
      var n := Value(base, ds);
      assert Quotient(base, n) == Value(base, front) && Remainder(base, n) == last;
      assert ds == front + [last];
    }
  }

  lemma {:induction false} ValueSkipsZeros(base: Base, z: nat, ds: seq<nat>)
    ensures Value(base, Zeros(z) + ds) == Value(base, ds)
    decreases z + |ds|
  {
    var whole := Zeros(z) + ds;
    if ds != [] {
      ValueSkipsZeros(base, z, ds[..|ds| - 1]);
      assert whole[..|whole| - 1] == Zeros(z) + ds[..|ds| - 1];
    } else if z > 0 {
      ValueSkipsZeros(base, z - 1, []);
      assert whole[..z - 1] == Zeros(z - 1) + [];
    } else {
      assert whole == ds;
    }
  }

  lemma {:induction false} LeadingZerosOfPadded(z: nat, ds: seq<nat>)
    requires ds != [] ==> ds[0] != 0
    ensures LeadingZeros(Zeros(z) + ds) == z
  {
    if z > 0 {
      LeadingZerosOfPadded(z - 1, ds);
      assert (Zeros(z) + ds)[1..] == Zeros(z - 1) + ds;
    } else {
      assert Zeros(z) + ds == ds;
    }
  }

  /** Re-spelling there and back is the identity, leading zeros included. */
  lemma RespellInverse(from: Base, to: Base, ds: seq<nat>)
    requires DigitsOf(from, ds)
    ensures Respell(to, from, Respell(from, to, ds)) == ds
  {
    var z := LeadingZeros(ds);
    var tail := ds[z..];
    assert ds == Zeros(z) + tail;
    ValueSkipsZeros(from, z, tail);
    SpellValue(from, tail);
    var there := Spell(to, Value(from, tail));
    LeadingZerosOfPadded(z, there);
    ValueSkipsZeros(to, z, there);
  }
}
