/** The itemised price of an order (src/common/pricing/derive-price-breakdown.ts), in halalas. */
module Pricing {
  import opened Rounding

  datatype Fee = NoFee | Fee(amount: real)
  datatype RoundedFee = NoRoundedFee | RoundedFee(halalas: int)

  datatype Breakdown = Breakdown(
    fuelLineTotal: int,
    deliveryFee: RoundedFee,
    serviceFee: int,
    tax: int,
    total: int,
    unitPrice: real,
    serviceFeePercent: real,
    taxRatePercent: real)

  function FeeOrZero(fee: RoundedFee): int {
    match fee
    case NoRoundedFee => 0
    case RoundedFee(h) => h
  }

  /** Prices are halalas (per litre for `unitPrice`); each component is rounded before the next
      one is derived from it, and the sum is rounded once more. */
  function Derive(unitPrice: real, litres: real, deliveryFee: Fee, servicePercent: real, taxPercent: real): Breakdown
  {
    var fuelLine := Round(unitPrice * litres);
    var fee := match deliveryFee case NoFee => NoRoundedFee case Fee(a) => RoundedFee(Round(a));
    var service := Round(Share(fuelLine as real, servicePercent));
    var tax := Round(Share((fuelLine + FeeOrZero(fee) + service) as real, taxPercent));
    var total := Round((fuelLine + FeeOrZero(fee) + service + tax) as real);
    Breakdown(fuelLine, fee, service, tax, total, unitPrice, servicePercent, taxPercent)
  }

  function Share(base: real, percent: real): real { base * percent / 100.0 }

  /** The same derivation with no rounding anywhere: what the customer would owe in exact arithmetic. */
  function UnroundedTotal(unitPrice: real, litres: real, deliveryFee: Fee, servicePercent: real, taxPercent: real): real
  {
    var fuelLine := unitPrice * litres;
    var base := fuelLine + (match deliveryFee case NoFee => 0.0 case Fee(a) => a) + Share(fuelLine, servicePercent);
    base + Share(base, taxPercent)
  }

  /** The printed total is exactly the sum of the printed lines: the outer rounding never moves it. */
  lemma TotalIsSumOfLines(unitPrice: real, litres: real, deliveryFee: Fee, servicePercent: real, taxPercent: real)
    ensures var b := Derive(unitPrice, litres, deliveryFee, servicePercent, taxPercent);
            b.total == b.fuelLineTotal + FeeOrZero(b.deliveryFee) + b.serviceFee + b.tax
  {
    var b := Derive(unitPrice, litres, deliveryFee, servicePercent, taxPercent);
    RoundOfInteger(b.fuelLineTotal + FeeOrZero(b.deliveryFee) + b.serviceFee + b.tax);
  }

  /** The figure is this percentage of the base to the nearest halala, halves upward. */
  predicate IsPercentOf(figure: int, percent: real, base: int) {
    100.0 * figure as real - 50.0 <= base as real * percent < 100.0 * figure as real + 50.0
  }

  predicate IsNearest(figure: int, exact: real) { figure as real - 0.5 <= exact < figure as real + 0.5 }

  lemma RoundedShare(base: int, percent: real)
    ensures IsPercentOf(Round(Share(base as real, percent)), percent, base)
  {
    var exact, figure := Share(base as real, percent), Round(Share(base as real, percent));
    assert exact - 0.5 < figure as real <= exact + 0.5 && exact * 100.0 == base as real * percent;
  }

  /** Every printed line is the nearest figure to its own rule, applied to the lines printed before it: the
      price of the litres; the delivery fee, when there is one; the service percentage of the fuel line; and
      the tax percentage of the three together. The rates printed are the rates given. */
  lemma LinesFollowTheirRules(unitPrice: real, litres: real, fee: Fee, servicePercent: real, taxPercent: real)
    ensures var b := Derive(unitPrice, litres, fee, servicePercent, taxPercent);
      && IsNearest(b.fuelLineTotal, unitPrice * litres)
      && (b.deliveryFee.RoundedFee? <==> fee.Fee?)
      && (fee.Fee? ==> IsNearest(b.deliveryFee.halalas, fee.amount))
      && IsPercentOf(b.serviceFee, servicePercent, b.fuelLineTotal)
      && IsPercentOf(b.tax, taxPercent,
                     b.fuelLineTotal + (if fee.Fee? then b.deliveryFee.halalas else 0) + b.serviceFee)
      && b.unitPrice == unitPrice && b.serviceFeePercent == servicePercent && b.taxRatePercent == taxPercent
  {
    var b := Derive(unitPrice, litres, fee, servicePercent, taxPercent);
    RoundedShare(b.fuelLineTotal, servicePercent);
    RoundedShare(b.fuelLineTotal + FeeOrZero(b.deliveryFee) + b.serviceFee, taxPercent);
  }

  lemma ShareMonotone(a: real, b: real, p: real, q: real)
    requires 0.0 <= a <= b && 0.0 <= p <= q
    ensures 0.0 <= Share(a, p) <= Share(b, q)
  {
    MulMonotone(a, b, p, q);
  }

  lemma MulMonotone(a: real, b: real, p: real, q: real)
    requires 0.0 <= a <= b && 0.0 <= p <= q
    ensures 0.0 <= a * p <= b * q
  {
    assert a * p <= b * p by { assert (b - a) * p >= 0.0; }
    assert b * p <= b * q by { assert b * (q - p) >= 0.0; }
    assert a * p >= 0.0;
  }

  ghost predicate FeeAtMost(a: Fee, b: Fee) {
    match a
    case NoFee => b.NoFee? || b.amount >= 0.0
    case Fee(x) => 0.0 <= x && b.Fee? && x <= b.amount
  }

  /** Raising any non-negative input never lowers any line or the total. An absent fee counts as
      below every non-negative one. */
  lemma TotalIsMonotone(u: real, l: real, f: Fee, s: real, t: real, u': real, l': real, f': Fee, s': real, t': real)
    requires 0.0 <= u <= u' && 0.0 <= l <= l' && FeeAtMost(f, f') && 0.0 <= s <= s' && 0.0 <= t <= t'
    ensures var b, b' := Derive(u, l, f, s, t), Derive(u', l', f', s', t');
            && 0 <= b.fuelLineTotal <= b'.fuelLineTotal
            && 0 <= FeeOrZero(b.deliveryFee) <= FeeOrZero(b'.deliveryFee)
            && 0 <= b.serviceFee <= b'.serviceFee && 0 <= b.tax <= b'.tax && 0 <= b.total <= b'.total
  {
    var b, b' := Derive(u, l, f, s, t), Derive(u', l', f', s', t');
    MulMonotone(u, u', l, l');
    RoundedStep(u * l, u' * l');
    match f' { case NoFee => case Fee(y) => RoundedStep(if f.Fee? then f.amount else 0.0, y); }
    RoundOfInteger(0);
    ShareMonotone(b.fuelLineTotal as real, b'.fuelLineTotal as real, s, s');
    RoundedStep(Share(b.fuelLineTotal as real, s), Share(b'.fuelLineTotal as real, s'));
    var base := b.fuelLineTotal + FeeOrZero(b.deliveryFee) + b.serviceFee;
    var base' := b'.fuelLineTotal + FeeOrZero(b'.deliveryFee) + b'.serviceFee;
    ShareMonotone(base as real, base' as real, t, t');
    RoundedStep(Share(base as real, t), Share(base' as real, t'));
    TotalIsSumOfLines(u, l, f, s, t);
    TotalIsSumOfLines(u', l', f', s', t');
  }

  lemma RoundedStep(x: real, y: real)
    requires 0.0 <= x <= y
    ensures 0 <= Round(x) <= Round(y)
  {
    RoundMonotone(x, y);
    RoundRespectsIntegerBound(x, 0);
  }

  /** Quoting without a transporter and quoting with a free haul cost the same; only the presence
      of the line differs. */
  lemma AbsentFeeCostsTheSameAsZeroFee(u: real, l: real, s: real, t: real)
    ensures var absent, zero := Derive(u, l, NoFee, s, t), Derive(u, l, Fee(0.0), s, t);
            && absent.deliveryFee.NoRoundedFee? && zero.deliveryFee == RoundedFee(0)
            && zero.(deliveryFee := NoRoundedFee) == absent
  {
    RoundOfInteger(0);
    assert Round(0.0) == 0;
    var zero := Derive(u, l, Fee(0.0), s, t);
    assert zero.fuelLineTotal + 0 + zero.serviceFee
        == zero.fuelLineTotal + FeeOrZero(zero.deliveryFee) + zero.serviceFee;
  }

  ghost predicate Near(x: real, y: real, d: real) { x - d <= y <= x + d }

  /** A share of two nearby bases is nearby, scaled by a percentage of at most one hundred. */
  lemma ShareError(x: real, y: real, p: real, d: real)
    requires 0.0 <= p <= 100.0 && Near(x, y, d)
    ensures Near(Share(x, p), Share(y, p), d)
  {
    assert (y - x + d) * p >= 0.0 && (x - y + d) * p >= 0.0;
    assert d * p <= d * 100.0 by { assert d * (100.0 - p) >= 0.0; }
  }

  /** Step-by-step rounding drifts from the exact total by at most 4.5 halalas: half a halala on
      each line, compounded through the service fee and the tax. */
  lemma RoundingDriftIsBounded(u: real, l: real, f: Fee, s: real, t: real)
    requires 0.0 <= s <= 100.0 && 0.0 <= t <= 100.0
    ensures Near(UnroundedTotal(u, l, f, s, t), Derive(u, l, f, s, t).total as real, 4.5)
  {
    var b := Derive(u, l, f, s, t);
    var fuel := u * l;
    var fee := match f case NoFee => 0.0 case Fee(a) => a;
    assert Near(fuel, b.fuelLineTotal as real, 0.5);
    assert Near(fee, FeeOrZero(b.deliveryFee) as real, 0.5);
    ShareError(fuel, b.fuelLineTotal as real, s, 0.5);
    assert Near(Share(fuel, s), b.serviceFee as real, 1.0);
    var exactBase := fuel + fee + Share(fuel, s);
    var base := b.fuelLineTotal + FeeOrZero(b.deliveryFee) + b.serviceFee;
    assert Near(exactBase, base as real, 2.0);
    ShareError(exactBase, base as real, t, 2.0);
    assert Near(Share(exactBase, t), b.tax as real, 2.5);
    TotalIsSumOfLines(u, l, f, s, t);
  }

  /** Rounding only the final sum would be a different rule: here it disagrees by a halala. */
  lemma RoundingOnlyTheSumDisagrees()
    ensures Round(UnroundedTotal(0.4, 1.0, Fee(0.4), 0.0, 0.0)) != Derive(0.4, 1.0, Fee(0.4), 0.0, 0.0).total
  {
    RoundIsUnique(0.8, 1);
    RoundIsUnique(0.4, 0);
    RoundOfInteger(0);
  }
}
