/** Proof of work and the difficulty adjustment made once per epoch. */
module Difficulty {
  import opened Arithmetic
  import opened Headers
  import opened Compact

  const NANOS_PER_SECOND := 1_000_000_000
  const TARGET_TIMESPAN := 14 * 24 * 60 * 60 * NANOS_PER_SECOND
  const TARGET_SPACING := 10 * 60 * NANOS_PER_SECOND
  const EPOCH_LENGTH := 2016
  const MAX_DIFF_ADJUST := 4
  const MIN_RETARGET_TIMESPAN := TARGET_TIMESPAN / MAX_DIFF_ADJUST
  const MAX_RETARGET_TIMESPAN := TARGET_TIMESPAN * MAX_DIFF_ADJUST

  ghost predicate ValidLimits(p: Params) {
    0 < p.powLimit < TWO_256
  }

  /** The first two checks of CheckProofOfWork: the target the bits stand for is positive and not too easy. */
  predicate TargetInRange(bits: nat, p: Params) {
    0 < CompactToBig(bits) <= p.powLimit
  }

  predicate CheckProofOfWork(header: Header, p: Params) {
    TargetInRange(header.bits, p) && p.hash(header) <= CompactToBig(header.bits)
  }

  /** Nanoseconds between two headers, held within a factor four of two weeks. */
  function ClampedDuration(start: Header, end: Header): nat {
    var duration := (end.time - start.time) * NANOS_PER_SECOND;
    if duration < MIN_RETARGET_TIMESPAN then MIN_RETARGET_TIMESPAN
    else if duration > MAX_RETARGET_TIMESPAN then MAX_RETARGET_TIMESPAN
    else duration
  }

  /** The old target scaled by the time the epoch took. */
  function ScaledTarget(target: nat, duration: nat): nat {
    target * duration / TARGET_TIMESPAN
  }

  function CalcDiffAdjust(start: Header, end: Header, p: Params): (bits: uint32)
    requires CompactToBig(end.bits) >= 0 && p.powLimit < TWO_256
  {
    var newTarget := ScaledTarget(CompactToBig(end.bits), ClampedDuration(start, end));
    var clipped := if newTarget > p.powLimit then p.powLimit else newTarget;
    EncodingFits(clipped);
    BigToCompact(clipped)
  }

  lemma {:induction false} ScaledTargetBounds(target: nat, duration: nat)
    requires MIN_RETARGET_TIMESPAN <= duration <= MAX_RETARGET_TIMESPAN
    ensures target / 4 <= ScaledTarget(target, duration) <= 4 * target
  {
    ScaleMonotone(MIN_RETARGET_TIMESPAN, duration, target);
    ScaleMonotone(duration, MAX_RETARGET_TIMESPAN, target);
    QuotientBounds(target * duration, target);
  }

  lemma QuotientBounds(product: nat, target: nat)
    requires MIN_RETARGET_TIMESPAN * target <= product <= MAX_RETARGET_TIMESPAN * target
    ensures target / 4 <= product / TARGET_TIMESPAN <= 4 * target
  {
  }

  lemma ScaledTargetPositive(target: nat, duration: nat)
    ensures ScaledTarget(target, duration) >= 1 <==> target * duration >= TARGET_TIMESPAN
  {
    ProductNonNegative(target, duration);
    QuotientPositive(target * duration, TARGET_TIMESPAN);
  }

  /** The quotient of an adjustment: old target times the elapsed time, or the nearest end of half a week to eight weeks,
      divided by two weeks and rounded down. */
  ghost predicate IsQuotient(target: nat, start: Header, end: Header, n: int) {
    var second, d := 1_000_000_000, (end.time - start.time) * 1_000_000_000;
    var span := if d < 302_400 * second then 302_400 * second else if d > 4_838_400 * second then 4_838_400 * second else d;
    n * (1_209_600 * second) <= target * span < (n + 1) * (1_209_600 * second)
  }

  lemma {:induction false} ScaledIsQuotient(target: nat, start: Header, end: Header)
    ensures IsQuotient(target, start, end, ScaledTarget(target, ClampedDuration(start, end)))
  {
    var product, n := target * ClampedDuration(start, end), ScaledTarget(target, ClampedDuration(start, end));
    ProductNonNegative(target, ClampedDuration(start, end));
    assert product == TARGET_TIMESPAN * n + product % TARGET_TIMESPAN;
  }

  /** The next target is the greatest that bits can stand for and that exceeds neither the quotient nor the limit. */
  lemma {:induction false} RetargetExact(start: Header, end: Header, p: Params) returns (n: nat)
    requires ValidLimits(p) && CompactToBig(end.bits) >= 0
    ensures IsQuotient(CompactToBig(end.bits), start, end, n)
    ensures var next, bound := CompactToBig(CalcDiffAdjust(start, end, p)), if n > p.powLimit then p.powLimit else n;
      next <= bound && forall c: nat | CompactToBig(c) <= bound :: CompactToBig(c) <= next
  {
    hide CompactToBig, BigToCompact, ClampedDuration;
    n := ScaledTarget(CompactToBig(end.bits), ClampedDuration(start, end));
    ScaledIsQuotient(CompactToBig(end.bits), start, end);
    var bound := if n > p.powLimit then p.powLimit else n;
    EncodesGreatest(bound, 0) by { CompactMeans(0); }
    forall c: nat | CompactToBig(c) <= bound ensures CompactToBig(c) <= CompactToBig(BigToCompact(bound)) {
      EncodesGreatest(bound, c);
    }
  }

  /** One adjustment moves the target by at most a factor of four, the encoding rounds it down by less than
      2^-15 of itself, and the header that carries it passes the range checks of proof of work. */
  lemma {:induction false} RetargetBounds(start: Header, end: Header, p: Params) returns (quotient: nat)
    requires ValidLimits(p) && CompactToBig(end.bits) >= 4
    ensures IsQuotient(CompactToBig(end.bits), start, end, quotient)
    ensures var before := CompactToBig(end.bits);
      var exact := if quotient > p.powLimit then p.powLimit else quotient;
      var next := CompactToBig(CalcDiffAdjust(start, end, p));
      && before / 4 <= quotient <= 4 * before
      && 0 < next <= exact <= p.powLimit
      && (exact - next) * 0x8000 < exact
      && TargetInRange(CalcDiffAdjust(start, end, p), p)
  {
    var before := CompactToBig(end.bits);
    quotient := ScaledTarget(before, ClampedDuration(start, end));
    ScaledIsQuotient(before, start, end);
    ScaledTargetBounds(before, ClampedDuration(start, end));
    RoundTripError(if quotient > p.powLimit then p.powLimit else quotient);
  }

  /** The longer the epoch took, the easier the next target. */
  lemma {:induction false} RetargetMonotone(start: Header, end: Header, start': Header, end': Header, p: Params)
    requires ValidLimits(p) && CompactToBig(end.bits) >= 0 && end'.bits == end.bits
    requires end.time - start.time <= end'.time - start'.time
    ensures CompactToBig(CalcDiffAdjust(start, end, p)) <= CompactToBig(CalcDiffAdjust(start', end', p))
  {
    var before := CompactToBig(end.bits);
    var d, d' := ClampedDuration(start, end), ClampedDuration(start', end');
    ScaleMonotone(d, d', before);
    var n, n' := ScaledTarget(before, d), ScaledTarget(before, d');
    assert n <= n';
    RoundTripMonotone(if n > p.powLimit then p.powLimit else n, if n' > p.powLimit then p.powLimit else n');
  }

  /** For targets of any size, the adjusted bits can be met exactly when the scaled target has not vanished. */
  lemma {:induction false} RetargetInRangeIff(start: Header, end: Header, p: Params)
    requires ValidLimits(p) && CompactToBig(end.bits) >= 0
    ensures TargetInRange(CalcDiffAdjust(start, end, p), p)
       <==> CompactToBig(end.bits) * ClampedDuration(start, end) >= TARGET_TIMESPAN
  {
    hide CompactToBig, BigToCompact, ClampedDuration, ScaledTarget;
    ScaledTargetPositive(CompactToBig(end.bits), ClampedDuration(start, end));
    var quotient := ScaledTarget(CompactToBig(end.bits), ClampedDuration(start, end));
    EncodedInRange(if quotient > p.powLimit then p.powLimit else quotient, p);
  }

  lemma {:induction false} EncodedInRange(exact: nat, p: Params)
    requires exact <= p.powLimit
    ensures TargetInRange(BigToCompact(exact), p) <==> exact >= 1
  {
    if exact > 0 {
      RoundTripError(exact);
    } else {
      RoundTrip(0);
    }
  }

  /** A target of 3 after a fast epoch adjusts to zero, which no header can meet. */
  lemma {:induction false} RetargetCanVanish(p: Params)
    requires ValidLimits(p)
    ensures var start := Header(1, 0, 0, 0, 0x0300_0003, 0);
      CompactToBig(start.bits) == 3 && CalcDiffAdjust(start, start, p) == 0 && !TargetInRange(0, p)
  {
    var start := Header(1, 0, 0, 0, 0x0300_0003, 0);
    assert CompactToBig(start.bits) == 3;
    assert ScaledTarget(3, MIN_RETARGET_TIMESPAN) == 0;
    RoundTrip(0);
  }
}
