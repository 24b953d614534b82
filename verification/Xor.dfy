/** Addresses and the XOR metric on them: closeness to a target, common leading bits, and the
    numeric distance both are views of. */
module Xor {

  const ADDRESS_BITS: nat := 512

  type Address = a: seq<bool> | |a| == ADDRESS_BITS witness seq(ADDRESS_BITS, _ => false)

  /** The number of leading bits on which `a` and `b` agree. */
  function CommonLeadingBits(a: seq<bool>, b: seq<bool>): (n: nat)
    requires |a| == |b|
    ensures n <= |a|
    ensures forall i :: 0 <= i < n ==> a[i] == b[i]
    ensures n < |a| ==> a[n] != b[n]
  {
    if a == [] || a[0] != b[0] then 0 else 1 + CommonLeadingBits(a[1..], b[1..])
  }

  function Exor(a: seq<bool>, b: seq<bool>): (x: seq<bool>)
    requires |a| == |b|
    ensures |x| == |a|
    ensures forall i :: 0 <= i < |a| ==> x[i] == (a[i] != b[i])
  {
    seq(|a|, i requires 0 <= i < |a| => a[i] != b[i])
  }

  /** Lexicographic order on bit strings: decided at the first bit that differs. */
  predicate LexLess(a: seq<bool>, b: seq<bool>)
    requires |a| == |b|
  {
    var n := CommonLeadingBits(a, b);
    n < |a| && b[n]
  }

  /** True when `lhs` is strictly closer to `target` than `rhs` is. */
  predicate CloserToTarget(lhs: Address, rhs: Address, target: Address)
  {
    LexLess(Exor(lhs, target), Exor(rhs, target))
  }

  ghost function Pow2(n: nat): (p: nat)
    ensures p >= 1
  {
    if n == 0 then 1 else 2 * Pow2(n - 1)
  }

  /** The bit string read as a binary number, most significant bit first. */
  ghost function Value(a: seq<bool>): (v: nat)
    ensures v < Pow2(|a|)
  {
    if a == [] then 0 else (if a[0] then Pow2(|a| - 1) else 0) + Value(a[1..])
  }

  /** The XOR distance, as a number. */
  ghost function Distance(a: Address, b: Address): nat {
    Value(Exor(a, b))
  }

  /** The lexicographic order is the numeric order. */
  lemma {:induction false} LexLessIsNumeric(a: seq<bool>, b: seq<bool>)
    requires |a| == |b|
    ensures LexLess(a, b) <==> Value(a) < Value(b)
    ensures a == b <==> Value(a) == Value(b)
  {
    if a != [] {
      LexLessIsNumeric(a[1..], b[1..]);
      if a[0] == b[0] {
        assert a == b <==> a[1..] == b[1..] by {
          assert a == [a[0]] + a[1..] && b == [b[0]] + b[1..];
        }
      }
    }
  }

  /** Closeness is comparison of distances. */
  lemma CloserIsNumeric(lhs: Address, rhs: Address, target: Address)
    ensures CloserToTarget(lhs, rhs, target) <==> Distance(lhs, target) < Distance(rhs, target)
  {
    LexLessIsNumeric(Exor(lhs, target), Exor(rhs, target));
  }

  /** Distinct addresses have distinct distances to any target, and only the target is at 0. */
  lemma DistanceIsInjective(a: Address, b: Address, target: Address)
    ensures Distance(a, target) == Distance(b, target) <==> a == b
    ensures Distance(a, target) == 0 <==> a == target
  {
    var x, y, z := Exor(a, target), Exor(b, target), Exor(target, target);
    LexLessIsNumeric(x, y);
    LexLessIsNumeric(x, z);
    if x == y {
      forall i | 0 <= i < |a| ensures a[i] == b[i] { assert x[i] == y[i]; }
    }
    if x == z {
      forall i | 0 <= i < |a| ensures a[i] == target[i] { assert x[i] == z[i]; }
    }
    ZeroValue(z);
  }

  lemma {:induction false} ZeroValue(a: seq<bool>)
    requires forall i :: 0 <= i < |a| ==> !a[i]
    ensures Value(a) == 0
  {
    if a != [] { ZeroValue(a[1..]); }
  }

  /** Closeness is decided at the first bit where the two contacts differ. */
  lemma CloserAtFirstDifference(lhs: Address, rhs: Address, target: Address)
    ensures CloserToTarget(lhs, rhs, target) <==>
            var n := CommonLeadingBits(lhs, rhs); n < ADDRESS_BITS && lhs[n] == target[n]
  {
  }

  /** XOR order refines prefix order: a closer contact shares at least as many leading bits. */
  lemma CloserSharesMoreBits(a: Address, b: Address, us: Address)
    requires Distance(a, us) <= Distance(b, us)
    ensures CommonLeadingBits(us, a) >= CommonLeadingBits(us, b)
  {
    DistanceIsInjective(a, b, us);
    if a != b {
      CloserIsNumeric(a, b, us);
      CloserAtFirstDifference(a, b, us);
      var n := CommonLeadingBits(a, b);
      assert n >= CommonLeadingBits(us, b);
    }
  }

  /** An address sharing `k` leading bits with us is nearer than 2^(512-k). */
  lemma SharedBitsBoundDistance(a: Address, us: Address, k: nat)
    requires k <= CommonLeadingBits(us, a)
    ensures Distance(a, us) < Pow2(ADDRESS_BITS - k)
  {
    var x := Exor(a, us);
    forall i | 0 <= i < k ensures !x[i] { assert us[i] == a[i]; }
    LeadingZeros(x, k);
  }

  lemma {:induction false} FirstOne(x: seq<bool>, n: nat)
    requires n < |x| && x[n]
    ensures Value(x) >= Pow2(|x| - 1 - n)
  {
    if n > 0 { FirstOne(x[1..], n - 1); }
  }

  lemma {:induction false} Pow2Grows(m: nat, n: nat)
    requires m <= n
    ensures Pow2(m) <= Pow2(n)
  {
    if m < n { Pow2Grows(m, n - 1); }
  }

  /** The position of the leading bit of the distance is the number of shared bits. */
  lemma LeadingBitOfDistance(a: Address, us: Address, k: nat)
    requires k < ADDRESS_BITS && Pow2(ADDRESS_BITS - 1 - k) <= Distance(a, us) < Pow2(ADDRESS_BITS - k)
    ensures CommonLeadingBits(us, a) == k
  {
    hide Value, Pow2, CommonLeadingBits;
    var n := CommonLeadingBits(us, a);
    if n > k {
      SharedBitsBoundDistance(a, us, k + 1);
    } else if n < k {
      FirstOne(Exor(a, us), n);
      Pow2Grows(ADDRESS_BITS - k, ADDRESS_BITS - 1 - n);
    }
  }

  /** The bit string of length `n` that reads as `v`. */
  ghost function Bits(v: nat, n: nat): (x: seq<bool>)
    requires v < Pow2(n)
    ensures |x| == n && Value(x) == v
  {
    if n == 0 then []
    else
      var top := v >= Pow2(n - 1);
      var rest := Bits(if top then v - Pow2(n - 1) else v, n - 1);
      assert ([top] + rest)[1..] == rest;
      [top] + rest
  }

  /** The address at a given distance from us. */
  ghost function AtDistance(us: Address, d: nat): (a: Address)
    requires d < Pow2(ADDRESS_BITS)
    ensures Distance(a, us) == d
  {
    var x := Bits(d, ADDRESS_BITS);
    assert Exor(Exor(us, x), us) == x;
    Exor(us, x)
  }

  lemma {:induction false} LeadingZeros(x: seq<bool>, k: nat)
    requires k <= |x| && forall i :: 0 <= i < k ==> !x[i]
    ensures Value(x) < Pow2(|x| - k)
  {
    if k > 0 { LeadingZeros(x[1..], k - 1); }
  }
}
