/** The compact "bits" encoding of proof-of-work targets: 8 bits of exponent, a sign bit, 23 bits of mantissa. */
module Compact {
  import opened Arithmetic
  import opened Headers

  /** n shifted left by k bytes. */
  function ShiftLeft(n: nat, k: nat): (r: nat)
    ensures r >= n
  {
    if k == 0 then n else 256 * ShiftLeft(n, k - 1)
  }

  /** n shifted right by k bytes. */
  function ShiftRight(n: nat, k: nat): nat
    decreases k
  {
    if k == 0 then n else ShiftRight(n / 256, k - 1)
  }

  /** Length of the big-endian byte string of n; zero has none. */
  function ByteLen(n: nat): nat {
    if n == 0 then 0 else 1 + ByteLen(n / 256)
  }

  function CompactToBig(compact: nat): int {
    var mantissa := compact % 0x80_0000;
    var exponent := compact / 0x100_0000;
    var magnitude := if exponent <= 3 then ShiftRight(mantissa, 3 - exponent) else ShiftLeft(mantissa, exponent - 3);
    if compact / 0x80_0000 % 2 == 1 then -magnitude else magnitude
  }

  /** The three leading bytes of n as the encoder reads them. */
  function LeadingBytes(n: nat): nat {
    var exponent := ByteLen(n);
    if exponent <= 3 then ShiftLeft(n, 3 - exponent) else ShiftRight(n, exponent - 3)
  }

  function BigToCompact(n: nat): nat {
    if n == 0 then 0 else
    var exponent := ByteLen(n);
    var mantissa := LeadingBytes(n);
    if mantissa / 0x80_0000 % 2 == 1
    then (exponent + 1) * 0x100_0000 + mantissa / 256
    else exponent * 0x100_0000 + mantissa
  }

  /** Expected number of hashes to meet the target; none for a target that is not positive. */
  function CalcWork(bits: nat): nat {
    var target := CompactToBig(bits);
    if target <= 0 then 0 else Quotient(TWO_256, target + 1)
  }

  function Quotient(n: nat, d: nat): (q: nat)
    requires d > 0
    ensures q >= 1 <==> n >= d
  {
    QuotientPositive(n, d);
    n / d
  }

  /** n with low bytes zeroed until what is left fits 23 bits of mantissa. */
  function Truncated(n: nat): nat {
    if n < 0x80_0000 then n else 256 * Truncated(n / 256)
  }

  /** The weight of the lowest byte that Truncated keeps. */
  function KeptUnit(n: nat): nat {
    if n < 0x80_0000 then 1 else 256 * KeptUnit(n / 256)
  }

  lemma {:induction false} TruncatedBounds(n: nat)
    ensures Truncated(n) <= n < Truncated(n) + KeptUnit(n)
    ensures n >= 0x80_0000 ==> 0x8000 * KeptUnit(n) <= Truncated(n) && 0x80_0000 <= Truncated(n)
  {
    if n >= 0x80_0000 {
      TruncatedBounds(n / 256);
    }
  }

  lemma {:induction false} TruncatedMonotone(m: nat, n: nat)
    requires m <= n
    ensures Truncated(m) <= Truncated(n)
  {
    if m >= 0x80_0000 {
      TruncatedMonotone(m / 256, n / 256);
    } else {
      TruncatedBounds(n);
    }
  }

  lemma LeadingBytesShift(n: nat)
    requires ByteLen(n) > 3
    ensures ByteLen(n) == 1 + ByteLen(n / 256) && LeadingBytes(n) == LeadingBytes(n / 256)
  {
    var k: nat := ByteLen(n) - 4;
    assert ShiftRight(n, k + 1) == ShiftRight(n / 256, k);
    assert k == 0 ==> LeadingBytes(n / 256) == ShiftLeft(n / 256, 0) == n / 256;
  }

  lemma {:induction false} LeadingBytesBounds(n: nat)
    requires n > 0
    ensures 0x1_0000 <= LeadingBytes(n) < 0x100_0000
  {
    if ByteLen(n) > 3 {
      LeadingBytesShift(n);
      LeadingBytesBounds(n / 256);
    } else {
      ShortLengths(n);
    }
  }

  lemma ShortLengths(n: nat)
    requires 0 < ByteLen(n) <= 3
    ensures ByteLen(n) == if n < 0x100 then 1 else if n < 0x1_0000 then 2 else 3
    ensures n < 0x100_0000
    ensures LeadingBytes(n) == if n < 0x100 then n * 0x1_0000 else if n < 0x1_0000 then n * 0x100 else n
  {
    var n1, n2, n3 := n / 256, n / 256 / 256, n / 256 / 256 / 256;
    assert ByteLen(n) == 1 + ByteLen(n1);
    assert n1 > 0 ==> ByteLen(n1) == 1 + ByteLen(n2);
    assert n2 > 0 ==> ByteLen(n2) == 1 + ByteLen(n3);
    assert ShiftLeft(n, 1) == 256 * ShiftLeft(n, 0) == 256 * n;
    assert ShiftLeft(n, 2) == 256 * ShiftLeft(n, 1);
  }

  lemma LongLength(n: nat)
    requires ByteLen(n) > 3
    ensures n >= 0x100_0000
  {
    var n3 := n / 256 / 256 / 256;
    assert ByteLen(n) == 1 + ByteLen(n / 256) == 2 + ByteLen(n / 256 / 256) == 3 + ByteLen(n3);
  }

  /** One more in the exponent is one more byte of target. */
  lemma DecodeShift(c: nat)
    requires c / 0x100_0000 >= 3
    ensures CompactToBig(c + 0x100_0000) == 256 * CompactToBig(c)
  {
    assert (c + 0x100_0000) % 0x80_0000 == c % 0x80_0000;
    assert (c + 0x100_0000) / 0x80_0000 == c / 0x80_0000 + 2;
  }

  lemma RoundTripShort(n: nat)
    requires ByteLen(n) <= 3
    ensures CompactToBig(BigToCompact(n)) == Truncated(n)
  {
    if n > 0 {
      ShortLengths(n);
      var e, m := EncodedFields(n);
      DecodeFields(e, m);
      assert n >= 0x80_0000 ==> Truncated(n) == 256 * Truncated(n / 256) == 256 * (n / 256);
    }
  }

  lemma EncodedFields(n: nat) returns (e: nat, m: nat)
    requires 0 < ByteLen(n) <= 3
    ensures BigToCompact(n) == e * 0x100_0000 + m && 1 <= e <= 4 && m < 0x80_0000
    ensures m == if e == 1 then n * 0x1_0000 else if e == 2 then n * 0x100 else if e == 3 then n else n / 256
    ensures e == 4 <==> n >= 0x80_0000
  {
    ShortLengths(n);
    var lead := LeadingBytes(n);
    assert lead < 0x100_0000;
    if lead < 0x80_0000 {
      e, m := ByteLen(n), lead;
      assert lead / 0x80_0000 == 0;
    } else {
      e, m := ByteLen(n) + 1, lead / 256;
      assert lead / 0x80_0000 == 1;
    }
  }

  /** Decoding a compact number with small fields. */
  lemma DecodeFields(e: nat, m: nat)
    requires 1 <= e <= 4
    requires m < 0x80_0000
    ensures CompactToBig(e * 0x100_0000 + m)
         == if e == 1 then m / 0x1_0000 else if e == 2 then m / 0x100 else if e == 3 then m else 256 * m
  {
    var c := e * 0x100_0000 + m;
    assert c / 0x100_0000 == e && c % 0x80_0000 == m && c / 0x80_0000 == 2 * e;
    assert ShiftRight(m, 1) == ShiftRight(m / 256, 0) == m / 256;
    assert ShiftRight(m, 2) == ShiftRight(m / 256, 1) == ShiftRight(m / 256 / 256, 0) == m / 0x1_0000;
    assert ShiftLeft(m, 1) == 256 * ShiftLeft(m, 0) == 256 * m;
  }

  /** Encoding and decoding a target zeroes its low bytes and changes nothing else. */
  lemma {:induction false} RoundTrip(n: nat)
    ensures CompactToBig(BigToCompact(n)) == Truncated(n)
  {
    if ByteLen(n) <= 3 {
      RoundTripShort(n);
    } else {
      LeadingBytesBounds(n);
      LeadingBytesShift(n);
      assert BigToCompact(n) == BigToCompact(n / 256) + 0x100_0000;
      DecodeShift(BigToCompact(n / 256));
      RoundTrip(n / 256);
      LongLength(n);
    }
  }

  /** What comes back never exceeds the target, is positive if it was, and has lost less than 2^-15 of it. */
  lemma RoundTripError(n: nat)
    requires n > 0
    ensures var r := CompactToBig(BigToCompact(n)); 0 < r <= n && (n - r) * 0x8000 < n
  {
    RoundTrip(n);
    TruncatedBounds(n);
  }

  /** A larger target never decodes to a smaller one. */
  lemma {:induction false} RoundTripMonotone(m: nat, n: nat)
    requires m <= n
    ensures CompactToBig(BigToCompact(m)) <= CompactToBig(BigToCompact(n))
  {
    RoundTrip(m);
    RoundTrip(n);
    TruncatedMonotone(m, n);
  }

  lemma {:induction false} TruncatedIdempotent(n: nat)
    ensures Truncated(Truncated(n)) == Truncated(n)
  {
    if n >= 0x80_0000 {
      TruncatedBounds(n);
      TruncatedIdempotent(n / 256);
    }
  }

  /** A target that has been through the encoding once goes through it unchanged. */
  lemma {:induction false} RoundTripStable(n: nat)
    ensures var r := CompactToBig(BigToCompact(n)); r >= 0 && CompactToBig(BigToCompact(r)) == r
  {
    RoundTrip(n);
    RoundTrip(Truncated(n));
    TruncatedIdempotent(n);
  }

  lemma {:induction false} EncodedBelow(n: nat, k: nat)
    requires n < ShiftLeft(1, k)
    ensures ByteLen(n) <= k
    decreases k
  {
    if n > 0 {
      EncodedBelow(n / 256, k - 1);
    }
  }

  /** Targets below 2^256 encode into 32 bits, so packing them loses nothing. */
  lemma EncodingFits(n: nat)
    requires n < TWO_256
    ensures BigToCompact(n) < TWO_32
  {
    assert ShiftLeft(1, 8) == 0x1_0000_0000_0000_0000;
    assert ShiftLeft(1, 16) == 0x1_0000_0000_0000_0000_0000_0000_0000_0000;
    assert ShiftLeft(1, 24) == 0x1_0000_0000_0000_0000_0000_0000_0000_0000_0000_0000_0000_0000;
    EncodedBelow(n, 32);
    if n > 0 {
      LeadingBytesBounds(n);
    }
  }

  /** A positive target below 2^256, and no other, takes at least one expected hash. */
  lemma CalcWorkPositive(bits: nat)
    ensures 0 < CompactToBig(bits) < TWO_256 <==> CalcWork(bits) >= 1
  {
    var t := CompactToBig(bits);
    assert t < TWO_256 <==> TWO_256 >= t + 1;
  }

  function Pow256(k: nat): (r: nat)
    ensures r >= 1
  {
    if k == 0 then 1 else 256 * Pow256(k - 1)
  }

  lemma {:induction false} ShiftLeftMeans(n: nat, k: nat)
    ensures ShiftLeft(n, k) == n * Pow256(k)
  {
    if k > 0 {
      ShiftLeftMeans(n, k - 1);
      Regroup(n, 256, Pow256(k - 1));
    }
  }

  lemma {:induction false} ShiftRightMeans(n: nat, k: nat)
    ensures ShiftRight(n, k) * Pow256(k) <= n < (ShiftRight(n, k) + 1) * Pow256(k)
    decreases k
  {
    if k > 0 {
      ShiftRightMeans(n / 256, k - 1);
      var r, p := ShiftRight(n, k), Pow256(k - 1);
      Regroup(r, 256, p);
      Regroup(r + 1, 256, p);
    }
  }

  /** What compact bits stand for: a sign bit, 23 bits of mantissa, and how many bytes it is shifted from three, with
      what is shifted out at the bottom lost. */
  lemma {:induction false} CompactMeans(c: nat)
    ensures var mantissa, bytes: int, v := c % 0x80_0000, c / 0x100_0000 - 3, CompactToBig(c);
      var size := if v < 0 then -v else v;
      && (if c / 0x80_0000 % 2 == 1 then v <= 0 else v >= 0)
      && (bytes >= 0 ==> size == mantissa * Pow256(bytes))
      && (bytes <= 0 ==> size * Pow256(-bytes) <= mantissa < (size + 1) * Pow256(-bytes))
    ensures Pow256(1) == 256 && Pow256(32) == TWO_256
  {
    var mantissa, bytes: int := c % 0x80_0000, c / 0x100_0000 - 3;
    if bytes > 0 {
      ShiftLeftMeans(mantissa, bytes);
    } else {
      ShiftRightMeans(mantissa, -bytes);
    }
    Pow256Values();
  }

  lemma Pow256Values()
    ensures Pow256(0) == 1 && Pow256(1) == 256 && Pow256(32) == TWO_256
  {
    assert Pow256(8) == 0x1_0000_0000_0000_0000;
    assert Pow256(16) == 0x1_0000_0000_0000_0000_0000_0000_0000_0000;
    assert Pow256(24) == 0x1_0000_0000_0000_0000_0000_0000_0000_0000_0000_0000_0000_0000;
  }

  lemma {:induction false} TruncatedShifted(m: nat, k: nat)
    requires m < 0x80_0000
    ensures Truncated(m * Pow256(k)) == m * Pow256(k)
  {
    var n := m * Pow256(k);
    if n >= 0x80_0000 {
      assert k > 0 by { assert k == 0 ==> n == m * 1; }
      Regroup(m, 256, Pow256(k - 1));
      assert n == 256 * (m * Pow256(k - 1));
      TruncatedShifted(m, k - 1);
    }
  }

  /** Truncation changes nothing that some bits stand for. */
  lemma {:induction false} TruncatedKeeps(c: nat)
    requires CompactToBig(c) >= 0
    ensures Truncated(CompactToBig(c)) == CompactToBig(c)
  {
    CompactMeans(c);
    var mantissa, bytes: int, v := c % 0x80_0000, c / 0x100_0000 - 3, CompactToBig(c);
    if bytes >= 0 {
      TruncatedShifted(mantissa, bytes);
    } else {
      ScaleMonotone(1, Pow256(-bytes), v);
    }
  }

  /** The encoder finds the greatest target that any bits stand for and that is no greater than the one it is given. */
  lemma {:induction false} EncodesGreatest(n: nat, c: nat)
    requires CompactToBig(c) <= n
    ensures CompactToBig(c) <= CompactToBig(BigToCompact(n)) <= n
  {
    RoundTrip(n);
    TruncatedBounds(n);
    if CompactToBig(c) >= 0 {
      TruncatedKeeps(c);
      TruncatedMonotone(CompactToBig(c), n);
    }
  }

  /** Encoded bits are in normal form: sign clear, and no room for one more byte in the mantissa. */
  lemma {:induction false} EncodesNormally(n: nat)
    requires n > 0
    ensures 0x8000 <= BigToCompact(n) % 0x100_0000 < 0x80_0000
  {
    LeadingBytesBounds(n);
  }

  /** Work is 2^256 divided by one more than the target, rounded down; none for a target that is not positive. */
  lemma {:induction false} WorkBounds(bits: nat)
    ensures var t, w := CompactToBig(bits), CalcWork(bits);
      if t <= 0 then w == 0 else w * (t + 1) <= TWO_256 < (w + 1) * (t + 1)
  {
    var t := CompactToBig(bits);
    if t > 0 {
      DivisionBounds(TWO_256, t + 1);
    }
  }

  lemma DivisionBounds(n: nat, d: nat)
    requires d > 0
    ensures Quotient(n, d) * d <= n < (Quotient(n, d) + 1) * d
  {
    assert n == d * (n / d) + n % d;
    Successor(n / d, d);
  }

  /** The harder the target, the more work: a smaller positive target never has less. */
  lemma {:induction false} HarderWeighsMore(bits: nat, bits': nat)
    requires 0 < CompactToBig(bits) <= CompactToBig(bits')
    ensures CalcWork(bits) >= CalcWork(bits')
  {
    WorkBounds(bits);
    WorkBounds(bits');
    var t, t', w, w' := CompactToBig(bits), CompactToBig(bits'), CalcWork(bits), CalcWork(bits');
    if w + 1 <= w' {
      ScaleMonotone(w + 1, w', t + 1);
      ScaleMonotone(t + 1, t' + 1, w');
      Swap(t + 1, w');
      Swap(t' + 1, w');
    }
  }

  lemma QuotientPositive(n: nat, d: nat)
    requires d > 0
    ensures n / d >= 0 && (n / d >= 1 <==> n >= d)
  {
    assert n == d * (n / d) + n % d;
    if n / d == 0 {
      assert n == n % d;
    }
  }
}
