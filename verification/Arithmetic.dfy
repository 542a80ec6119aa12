/**
 * Charge arithmetic of the quote service (src/application/quote-v2/arithmetic.ts).
 * Amounts are whole pesos, quantities and rates are scaled by 10^6; rounding
 * happens once per charge and totals are sums of rounded charges.
 */
module Arithmetic {
  import opened Wrappers

  const SCALE: pos := 1_000_000
  const MAX_CLP_AMOUNT: nat := 9_007_199_254_740_991

  datatype TaxBasis = Included | Excluded | Exempt

  datatype Amounts = Amounts(net: int, tax: int, gross: int)

  /** An amount together with the basis it was charged on, as the totals see it. */
  datatype Charged = Charged(amounts: Amounts, basis: TaxBasis)

  datatype Totals = Totals(net: int, tax: int, gross: int, exemptNet: int)

  const ZERO := Totals(0, 0, 0, 0)

  function HalfUp(numerator: nat, denominator: pos): nat {
    (2 * numerator + denominator) / (2 * denominator)
  }

  /** Amounts of a charge whose quantity and rate are already scaled by 10^6. */
  function ChargeAmounts(unitAmount: nat, quantity: nat, basis: TaxBasis, rate: nat): Amounts {
    var extension := HalfUp(unitAmount * quantity, SCALE);
    match basis
    case Exempt => Amounts(extension, 0, extension)
    case Included =>
      var net := HalfUp(extension * SCALE, SCALE + rate);
      Amounts(net, extension - net, extension)
    case Excluded =>
      var tax := HalfUp(extension * rate, SCALE);
      Amounts(extension, tax, extension + tax)
  }

  function AddCharge(totals: Totals, c: Charged): Totals {
    Totals(totals.net + c.amounts.net, totals.tax + c.amounts.tax, totals.gross + c.amounts.gross,
           totals.exemptNet + if c.basis == Exempt then c.amounts.net else 0)
  }

  /** The left fold the service uses. */
  function SumFrom(totals: Totals, charges: seq<Charged>): Totals
    decreases |charges|
  {
    if charges == [] then totals else SumFrom(AddCharge(totals, charges[0]), charges[1..])
  }

  function SumTotals(charges: seq<Charged>): Totals {
    SumFrom(ZERO, charges)
  }

  /** Half-up division is the integer r with n/d - 1/2 < r <= n/d + 1/2, and no other. */
  lemma HalfUpIsNearest(n: nat, d: pos, r: int)
    ensures r == HalfUp(n, d) <==> 2 * n - d < 2 * (r * d) <= 2 * n + d
  {
    var q := HalfUp(n, d);
    var m := 2 * n + d;
    DivisionBounds(m, 2 * d);
    assert q * (2 * d) == 2 * (q * d);
    if r < q {
      Scale(r + 1, q, d);
      assert (r + 1) * d == r * d + d;
    } else if r > q {
      Scale(q + 1, r, d);
      assert (q + 1) * d == q * d + d;
    }
  }

  lemma DivisionBounds(m: nat, d: pos)
    ensures m / d * d <= m < m / d * d + d
  {
    assert m == m / d * d + m % d;
  }

  lemma Scale(a: int, b: int, d: nat)
    requires a <= b
    ensures a * d <= b * d
  {
  }

  lemma QuotientAndRest(n: nat, d: pos)
    ensures n == n / d * d + n % d && n / d >= 0
  {
  }

  lemma Distributes(a: int, b: int, c: int)
    ensures a * (b + c) == a * b + a * c
  {
  }

  /** Every charge conserves net + tax = gross with no negative part. */
  lemma ChargeConserves(unitAmount: nat, quantity: nat, basis: TaxBasis, rate: nat)
    ensures var a := ChargeAmounts(unitAmount, quantity, basis, rate);
            a.net + a.tax == a.gross && a.net >= 0 && a.tax >= 0
  {
    var e := HalfUp(unitAmount * quantity, SCALE);
    if basis == Included {
      var net := HalfUp(e * SCALE, SCALE + rate);
      HalfUpIsNearest(e * SCALE, SCALE + rate, net);
      Scale(0, e, rate);
      if net > e { Scale(e + 1, net, SCALE + rate); }
    }
  }

  /** q is the integer nearest to n / d, ties upwards. */
  predicate Nearest(q: int, n: int, d: int) { 2 * n - d < 2 * (q * d) <= 2 * n + d }

  /**
   * What a charge costs, for every price, quantity, basis and rate, by inequalities alone: the extension is the
   * price times the quantity, an excluded tax is the rate of the whole extension, and an included price is the
   * gross of which the net is extracted.
   */
  lemma ChargeCosts(unitAmount: nat, quantity: nat, basis: TaxBasis, rate: nat)
    ensures var a := ChargeAmounts(unitAmount, quantity, basis, rate);
            match basis
            case Exempt => Nearest(a.gross, unitAmount * quantity, 1_000_000) && a.net == a.gross && a.tax == 0
            case Excluded =>
              && Nearest(a.net, unitAmount * quantity, 1_000_000)
              && Nearest(a.tax, a.net * rate, 1_000_000) && a.gross == a.net + a.tax
            case Included =>
              && Nearest(a.gross, unitAmount * quantity, 1_000_000)
              && Nearest(a.net, a.gross * 1_000_000, 1_000_000 + rate) && a.tax == a.gross - a.net
  {
    var e := HalfUp(unitAmount * quantity, SCALE);
    HalfUpIsNearest(unitAmount * quantity, SCALE, e);
    HalfUpIsNearest(e * rate, SCALE, HalfUp(e * rate, SCALE));
    HalfUpIsNearest(e * SCALE, SCALE + rate, HalfUp(e * SCALE, SCALE + rate));
  }

  /** There is only one nearest integer, so these inequalities determine every amount. */
  lemma NearestIsUnique(p: nat, q: nat, n: nat, d: pos)
    requires Nearest(p, n, d) && Nearest(q, n, d)
    ensures p == q
  {
    HalfUpIsNearest(n, d, p);
    HalfUpIsNearest(n, d, q);
  }

  /** Extracting the included tax from the gross of an excluded charge gives back exactly its amounts. */
  lemma ExtractionInvertsAddition(unitAmount: nat, quantity: nat, rate: nat)
    ensures var x := ChargeAmounts(unitAmount, quantity, Excluded, rate);
            x.gross >= 0 && ChargeAmounts(x.gross, SCALE, Included, rate) == x
  {
    var x := ChargeAmounts(unitAmount, quantity, Excluded, rate);
    OneUnitIsItself(x.gross);
    NetIsExtracted(x.net, rate);
  }

  lemma NetIsExtracted(net: nat, rate: nat)
    ensures var gross := net + HalfUp(net * rate, SCALE);
            HalfUp(gross * SCALE, SCALE + rate) == net
  {
    var t := HalfUp(net * rate, SCALE);
    HalfUpIsNearest(net * rate, SCALE, t);
    if rate == 0 { TimesZero(net, rate); }
    NetIsNearest(net, rate, net * rate, t);
    Distributes(net, SCALE, rate);
    HalfUpIsNearest((net + t) * SCALE, SCALE + rate, net);
  }

  lemma TimesZero(a: int, b: int)
    requires b == 0
    ensures a * b == 0
  {
  }

  /** The inequalities alone: `product` stands for net times rate. */
  lemma NetIsNearest(net: int, rate: nat, product: int, t: int)
    requires Nearest(t, product, SCALE) && (rate == 0 ==> product == 0)
    ensures 2 * ((net + t) * SCALE) - (SCALE + rate) < 2 * (net * SCALE + product) <= 2 * ((net + t) * SCALE) + (SCALE + rate)
  {
  }

  /** Re-adding the tax to the net extracted from an included price lands within one peso of that price. */
  lemma ReaddedTaxIsWithinOne(gross: nat, rate: pos)
    requires rate <= SCALE
    ensures var net := HalfUp(gross * SCALE, SCALE + rate);
            gross - 1 <= net + HalfUp(net * rate, SCALE) <= gross + 1
  {
    var net := HalfUp(gross * SCALE, SCALE + rate);
    HalfUpIsNearest(gross * SCALE, SCALE + rate, net);
    Distributes(net, SCALE, rate);
    HalfUpIsNearest(net * rate, SCALE, HalfUp(net * rate, SCALE));
  }

  /**
   * The rest of dividing the scaled price by one plus the rate lies outside a band that starts
   * above half a unit and is one rate wide.
   */
  predicate ReaddsExactly(gross: nat, rate: nat) {
    var rest := gross * SCALE % (SCALE + rate);
    2 * rest <= SCALE || 2 * rest > SCALE + 2 * rate
  }

  /** What is missing from the net to the gross amount, against the tax on the net. */
  lemma MissingTax(gross: nat, rate: nat)
    ensures var (net, d) := (HalfUp(gross * SCALE, SCALE + rate), SCALE + rate);
            var rest := gross * SCALE % d;
            (gross - net) * SCALE == net * rate + rest - if 2 * rest >= d then d else 0
  {
    var d := SCALE + rate;
    var (net, rest, whole) := (HalfUp(gross * SCALE, d), gross * SCALE % d, gross * SCALE / d);
    QuotientAndRest(gross * SCALE, d);
    RoundedTimesDivisor(whole, rest, d);
    Distributes(net, SCALE, rate);
  }

  /** Adding the tax to a net amount that was extracted from `gross` by division of `gross * SCALE` by `SCALE + rate`. */
  lemma ReaddedNetIsExactIff(gross: nat, rate: nat)
    ensures var net := HalfUp(gross * SCALE, SCALE + rate);
            net + HalfUp(net * rate, SCALE) == gross <==> ReaddsExactly(gross, rate)
  {
    var net := HalfUp(gross * SCALE, SCALE + rate);
    MissingTax(gross, rate);
    HalfUpIsNearest(net * rate, SCALE, gross - net);
  }

  lemma RoundedTimesDivisor(whole: nat, rest: nat, d: pos)
    requires rest < d
    ensures HalfUp(whole * d + rest, d) * d == whole * d + if 2 * rest >= d then d else 0
  {
    HalfUpOfRest(whole, rest, d);
    Distributes(d, whole, 1);
  }

  /** Half-up rounds the quotient up exactly if the rest is at least half the divisor. */
  lemma HalfUpOfRest(whole: nat, rest: nat, d: pos)
    requires rest < d
    ensures HalfUp(whole * d + rest, d) == whole + if 2 * rest >= d then 1 else 0
  {
    var r := whole + if 2 * rest >= d then 1 else 0;
    assert r * d == whole * d + if 2 * rest >= d then d else 0;
    HalfUpIsNearest(whole * d + rest, d, r);
  }

  /** The price of one whole unit is charged as it is. */
  lemma OneUnitIsItself(amount: nat)
    ensures HalfUp(amount * SCALE, SCALE) == amount
  {
    HalfUpOfRest(amount, 0, SCALE);
  }

  /**
   * Charging the net of an included price as an excluded price gives back the very amounts of the
   * included price exactly if the price stays out of the band.
   */
  lemma ReaddedTaxIsExactIff(unitAmount: nat, quantity: nat, rate: nat)
    ensures var included := ChargeAmounts(unitAmount, quantity, Included, rate);
            && included.net >= 0 && included.gross == HalfUp(unitAmount * quantity, SCALE)
            && (ChargeAmounts(included.net, SCALE, Excluded, rate) == included <==> ReaddsExactly(included.gross, rate))
  {
    var included := ChargeAmounts(unitAmount, quantity, Included, rate);
    ReaddedNetIsExactIff(included.gross, rate);
    OneUnitIsItself(included.net);
  }

  lemma {:induction false} AddChargeCommutes(totals: Totals, x: Charged, charges: seq<Charged>)
    ensures SumFrom(AddCharge(totals, x), charges) == AddCharge(SumFrom(totals, charges), x)
    decreases |charges|
  {
    if charges != [] {
      assert AddCharge(AddCharge(totals, x), charges[0]) == AddCharge(AddCharge(totals, charges[0]), x);
      AddChargeCommutes(AddCharge(totals, charges[0]), x, charges[1..]);
    }
  }

  lemma {:induction false} SumFromSplits(totals: Totals, left: seq<Charged>, right: seq<Charged>)
    ensures SumFrom(totals, left + right) == SumFrom(SumFrom(totals, left), right)
    decreases |left|
  {
    if left == [] {
      assert left + right == right;
    } else {
      assert (left + right)[1..] == left[1..] + right;
      SumFromSplits(AddCharge(totals, left[0]), left[1..], right);
    }
  }

  lemma SumMovesToFront(left: seq<Charged>, x: Charged, right: seq<Charged>)
    ensures SumTotals(left + [x] + right) == AddCharge(SumTotals(left + right), x)
  {
    SumFromSplits(ZERO, left + [x], right);
    SumFromSplits(ZERO, left, [x]);
    SumFromSplits(ZERO, left, right);
    AddChargeCommutes(SumTotals(left), x, right);
  }

  /** Totals depend on the charges and their multiplicities only, never on their order. */
  lemma {:induction false} TotalsAreOrderIndependent(a: seq<Charged>, b: seq<Charged>)
    requires multiset(a) == multiset(b)
    ensures SumTotals(a) == SumTotals(b)
    decreases |a|
  {
    if a == [] {
      assert |multiset(b)| == 0;
    } else {
      assert a[0] in multiset(b);
      var i :| 0 <= i < |b| && b[i] == a[0];
      var rest := b[..i] + b[i + 1..];
      assert b == b[..i] + [a[0]] + b[i + 1..];
      assert a == [a[0]] + a[1..];
      assert multiset(a[1..]) == multiset(a) - multiset{a[0]};
      assert multiset(rest) == multiset(b[..i]) + multiset(b[i + 1..]) == multiset(b) - multiset{a[0]};
      TotalsAreOrderIndependent(a[1..], rest);
      SumMovesToFront(b[..i], a[0], b[i + 1..]);
      AddChargeCommutes(ZERO, a[0], a[1..]);
    }
  }

  /** The sum of one amount of each charge. */
  function SumOf(charges: seq<Charged>, amount: Charged -> int): int {
    if charges == [] then 0 else amount(charges[0]) + SumOf(charges[1..], amount)
  }

  lemma {:induction false} SumFromAdds(totals: Totals, charges: seq<Charged>)
    ensures var t := SumFrom(totals, charges);
            && t.net == totals.net + SumOf(charges, (c: Charged) => c.amounts.net)
            && t.tax == totals.tax + SumOf(charges, (c: Charged) => c.amounts.tax)
            && t.gross == totals.gross + SumOf(charges, (c: Charged) => c.amounts.gross)
            && t.exemptNet == totals.exemptNet + SumOf(charges, (c: Charged) => if c.basis.Exempt? then c.amounts.net else 0)
    decreases |charges|
  {
    if charges != [] { SumFromAdds(AddCharge(totals, charges[0]), charges[1..]); }
  }

  /** Each total is the sum of that amount over all charges; the exempt net is that of the exempt charges. */
  lemma TotalsAreSums(charges: seq<Charged>)
    ensures var t := SumTotals(charges);
            && t.net == SumOf(charges, (c: Charged) => c.amounts.net) && t.tax == SumOf(charges, (c: Charged) => c.amounts.tax)
            && t.gross == SumOf(charges, (c: Charged) => c.amounts.gross)
            && t.exemptNet == SumOf(charges, (c: Charged) => if c.basis.Exempt? then c.amounts.net else 0)
  {
    SumFromAdds(ZERO, charges);
  }

  ghost predicate Balanced(c: Charged) {
    c.amounts.net + c.amounts.tax == c.amounts.gross && c.amounts.net >= 0 && c.amounts.tax >= 0
  }

  /** Totals conserve net + tax = gross, never lose an amount to a negative part, and contain the exempt net. */
  lemma {:induction false} TotalsConserve(charges: seq<Charged>, bound: nat)
    requires forall c <- charges :: Balanced(c) && c.amounts.gross <= bound
    ensures var t := SumTotals(charges);
            && t.net + t.tax == t.gross
            && 0 <= t.exemptNet <= t.net
            && 0 <= t.tax
            && t.gross <= |charges| * bound
    decreases |charges|
  {
    if charges != [] {
      assert forall c <- charges[1..] :: c in charges;
      TotalsConserve(charges[1..], bound);
      AddChargeCommutes(ZERO, charges[0], charges[1..]);
      assert (|charges[1..]| + 1) * bound == |charges[1..]| * bound + bound;
    }
  }

  /** Request bounds keep one charge below 2 * 10^13 pesos. */
  lemma ChargeIsBounded(unitAmount: nat, quantity: nat, basis: TaxBasis, rate: nat)
    requires unitAmount <= 1_000_000_000 && quantity <= 9_999_999_999 && rate <= SCALE
    ensures ChargeAmounts(unitAmount, quantity, basis, rate).gross <= 20_000_000_000_000
  {
    var e := HalfUp(unitAmount * quantity, SCALE);
    assert unitAmount * quantity <= 1_000_000_000 * 9_999_999_999 by {
      Scale(unitAmount, 1_000_000_000, quantity);
    }
    HalfUpIsNearest(unitAmount * quantity, SCALE, e);
    var t := HalfUp(e * rate, SCALE);
    HalfUpIsNearest(e * rate, SCALE, t);
    assert e * rate <= e * SCALE by { Scale(rate, SCALE, e); }
  }
}
