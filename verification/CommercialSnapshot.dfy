/**
 * The commercial snapshot of a quote: what a request carries, what the tables
 * hold (decimals padded by their column), what is read back, and the owner
 * arithmetic over it.
 */
module CommercialSnapshot {
  import opened Wrappers
  import opened Arithmetic
  import opened Decimals

  datatype Charge = Charge(amount: nat, basis: TaxBasis, rate: Option<string>)

  /** `item` stands for the descriptive members of a line, which no rule inspects. */
  datatype Line = Line(item: nat, quantity: string, unitPrice: Charge)

  /** `party` stands for the customer and correlation members. */
  datatype Commercial = Commercial(lines: seq<Line>, shipping: Option<Charge>, party: nat)

  datatype Computed = Computed(lines: seq<Amounts>, shipping: Option<Amounts>, totals: Totals)

  const MAX_LINES := 100

  predicate ValidCharge(c: Charge) {
    && c.amount <= 1_000_000_000
    && (c.basis == Exempt <==> c.rate == None)
    && (c.rate.Some? ==> IsTaxRate(c.rate.value))
  }

  predicate ValidLine(l: Line) {
    IsQuantity(l.quantity) && ValidCharge(l.unitPrice)
  }

  predicate ValidLines(lines: seq<Line>) {
    |lines| <= MAX_LINES && forall i | 0 <= i < |lines| :: ValidLine(lines[i])
  }

  predicate ValidShipping(shipping: Option<Charge>) {
    shipping.Some? ==> ValidCharge(shipping.value)
  }

  predicate ValidCommercial(c: Commercial) {
    ValidLines(c.lines) && ValidShipping(c.shipping)
  }

  /** A price of the schema: at most 10^9, with a rate unless it is exempt. */
  predicate InSchema(c: Charge) {
    0 <= c.amount <= 1_000_000_000 && if c.basis.Exempt? then c.rate.None? else c.rate.Some? && IsTaxRate(c.rate.value)
  }

  /** The requests of the schema, in its own bounds: at most 100 lines, each with a quantity and a price. */
  lemma SchemaIsExactly(c: Commercial)
    ensures ValidCommercial(c) <==>
              && |c.lines| <= 100
              && (forall l <- c.lines :: IsQuantity(l.quantity) && InSchema(l.unitPrice))
              && (c.shipping.Some? ==> InSchema(c.shipping.value))
  {
    if forall l <- c.lines :: IsQuantity(l.quantity) && InSchema(l.unitPrice) {
      forall i | 0 <= i < |c.lines| ensures ValidLine(c.lines[i]) { assert c.lines[i] in c.lines; }
    }
    if ValidCommercial(c) {
      forall l | l in c.lines ensures IsQuantity(l.quantity) && InSchema(l.unitPrice) {
        var i :| 0 <= i < |c.lines| && c.lines[i] == l;
        assert ValidLine(c.lines[i]);
      }
    }
  }

  function ScaledQuantity(quantity: string): (r: nat)
    requires IsQuantity(quantity)
    ensures 0 < r <= 9_999_999_999
  {
    GrammarsBoundValues(quantity);
    ScaleDecimal(quantity)
  }

  function ScaledRate(rate: Option<string>): (r: nat)
    requires rate.Some? ==> IsTaxRate(rate.value)
    ensures r <= SCALE
  {
    if rate.None? then 0 else GrammarsBoundValues(rate.value); ScaleDecimal(rate.value)
  }

  function LineAmounts(l: Line): Amounts
    requires ValidLine(l)
  {
    ChargeAmounts(l.unitPrice.amount, ScaledQuantity(l.quantity), l.unitPrice.basis, ScaledRate(l.unitPrice.rate))
  }

  /** Shipping is one charge of quantity "1". */
  function ShippingAmounts(c: Charge): Amounts
    requires ValidCharge(c)
  {
    ChargeAmounts(c.amount, SCALE, c.basis, ScaledRate(c.rate))
  }

  function LineCharges(lines: seq<Line>): (r: seq<Charged>)
    requires forall i | 0 <= i < |lines| :: ValidLine(lines[i])
    ensures |r| == |lines|
    ensures forall i | 0 <= i < |lines| :: r[i] == Charged(LineAmounts(lines[i]), lines[i].unitPrice.basis)
  {
    seq(|lines|, i requires 0 <= i < |lines| => Charged(LineAmounts(lines[i]), lines[i].unitPrice.basis))
  }

  function Charges(c: Commercial): seq<Charged>
    requires ValidCommercial(c)
  {
    LineCharges(c.lines) +
    if c.shipping.Some? then [Charged(ShippingAmounts(c.shipping.value), c.shipping.value.basis)] else []
  }

  predicate Overflows(gross: int) { gross > MAX_CLP_AMOUNT }

  datatype ComputeError = AmountOverflow

  function ComputeSnapshot(c: Commercial): Result<Totals, ComputeError>
    requires ValidCommercial(c)
  {
    var charges := Charges(c);
    var totals := SumTotals(charges);
    if (exists i | 0 <= i < |charges| :: Overflows(charges[i].amounts.gross)) || Overflows(totals.gross)
    then Failure(AmountOverflow)
    else Success(totals)
  }

  /**
   * For every schema-valid snapshot the overflow rejection is dead, every charge and every
   * total is an exactly representable integer, and the totals balance.
   */
  lemma OverflowIsDead(c: Commercial)
    requires ValidCommercial(c)
    ensures ComputeSnapshot(c) == Success(SumTotals(Charges(c)))
    ensures var t := SumTotals(Charges(c));
            0 <= t.exemptNet <= t.net && 0 <= t.tax && t.net + t.tax == t.gross <= 9_007_199_254_740_991
    ensures forall x <- Charges(c) ::
              0 <= x.amounts.net && 0 <= x.amounts.tax && x.amounts.net + x.amounts.tax == x.amounts.gross <= 9_007_199_254_740_991
    ensures forall gross :: Overflows(gross) <==> gross > 9_007_199_254_740_991
  {
    var charges := Charges(c);
    var bound := 20_000_000_000_000;
    forall x | x in charges ensures Balanced(x) && x.amounts.gross <= bound {
      var i :| 0 <= i < |charges| && charges[i] == x;
      if i < |c.lines| {
        var l := c.lines[i];
        ChargeConserves(l.unitPrice.amount, ScaledQuantity(l.quantity), l.unitPrice.basis, ScaledRate(l.unitPrice.rate));
        ChargeIsBounded(l.unitPrice.amount, ScaledQuantity(l.quantity), l.unitPrice.basis, ScaledRate(l.unitPrice.rate));
      } else {
        var s := c.shipping.value;
        ChargeConserves(s.amount, SCALE, s.basis, ScaledRate(s.rate));
        ChargeIsBounded(s.amount, SCALE, s.basis, ScaledRate(s.rate));
      }
    }
    TotalsConserve(charges, bound);
    assert |charges| * bound <= 101 * bound;
  }

  // ---------- what a request costs ----------

  /** A line costs its price times the value of its quantity, taxed at the value of its rate. */
  lemma LineCosts(l: Line)
    requires ValidLine(l)
    ensures IsDecimal(l.quantity) && (l.unitPrice.rate.Some? ==> IsDecimal(l.unitPrice.rate.value))
    ensures var (a, price) := (LineAmounts(l), l.unitPrice.amount);
            var rate := if l.unitPrice.rate.Some? then ScaleDecimal(l.unitPrice.rate.value) else 0;
            match l.unitPrice.basis
            case Exempt => Nearest(a.gross, price * ScaleDecimal(l.quantity), 1_000_000) && a.net == a.gross && a.tax == 0
            case Excluded =>
              Nearest(a.net, price * ScaleDecimal(l.quantity), 1_000_000) && Nearest(a.tax, a.net * rate, 1_000_000) && a.gross == a.net + a.tax
            case Included =>
              && Nearest(a.gross, price * ScaleDecimal(l.quantity), 1_000_000)
              && Nearest(a.net, a.gross * 1_000_000, 1_000_000 + rate) && a.tax == a.gross - a.net
  {
    GrammarsBoundValues(l.quantity);
    if l.unitPrice.rate.Some? { GrammarsBoundValues(l.unitPrice.rate.value); }
    ChargeCosts(l.unitPrice.amount, ScaledQuantity(l.quantity), l.unitPrice.basis, ScaledRate(l.unitPrice.rate));
  }

  /** Shipping is charged once, at its amount. */
  lemma ShippingCosts(c: Charge)
    requires ValidCharge(c)
    ensures c.rate.Some? ==> IsDecimal(c.rate.value)
    ensures var a := ShippingAmounts(c);
            var rate := if c.rate.Some? then ScaleDecimal(c.rate.value) else 0;
            match c.basis
            case Exempt => a == Amounts(c.amount, 0, c.amount)
            case Excluded => a.net == c.amount && Nearest(a.tax, c.amount * rate, 1_000_000) && a.gross == a.net + a.tax
            case Included => a.gross == c.amount && Nearest(a.net, c.amount * 1_000_000, 1_000_000 + rate) && a.tax == a.gross - a.net
  {
    if c.rate.Some? { GrammarsBoundValues(c.rate.value); }
    OneUnitIsItself(c.amount);
    ChargeCosts(c.amount, SCALE, c.basis, ScaledRate(c.rate));
  }

  /** The totals of a request are the sums over its lines and its shipping, if it has any. */
  lemma TotalsCoverTheRequest(c: Commercial)
    requires ValidCommercial(c)
    ensures var (t, lines) := (SumTotals(Charges(c)), SumTotals(LineCharges(c.lines)));
            if c.shipping.None? then t == lines
            else
              var a := ShippingAmounts(c.shipping.value);
              && t.net == lines.net + a.net && t.tax == lines.tax + a.tax && t.gross == lines.gross + a.gross
              && t.exemptNet == lines.exemptNet + if c.shipping.value.basis.Exempt? then a.net else 0
  {
    if c.shipping.Some? {
      SumFromSplits(ZERO, LineCharges(c.lines), [Charged(ShippingAmounts(c.shipping.value), c.shipping.value.basis)]);
    } else {
      assert Charges(c) == LineCharges(c.lines);
    }
  }

  // ---------- quoting a net amount again ----------

  /** The line that charges the net of an included line as an excluded price. */
  function NetLine(l: Line, net: nat): Line {
    Line(l.item, "1", Charge(net, Excluded, l.unitPrice.rate))
  }

  /** An included line and the excluded line of its net cost the same exactly if its price stays out of the band. */
  lemma NetLineCostsTheSameIff(l: Line)
    requires ValidLine(l) && l.unitPrice.basis == Included
    ensures var a := LineAmounts(l);
            && a.net >= 0 && a.gross >= 0
            && (ValidLine(NetLine(l, a.net)) <==> a.net <= 1_000_000_000)
            && (a.net <= 1_000_000_000 ==>
                  (LineAmounts(NetLine(l, a.net)) == a <==> ReaddsExactly(a.gross, ScaledRate(l.unitPrice.rate))))
  {
    ReaddedTaxIsExactIff(l.unitPrice.amount, ScaledQuantity(l.quantity), ScaledRate(l.unitPrice.rate));
    OneIsScale();
  }

  lemma OneIsScale()
    ensures IsQuantity("1") && IsTaxRate("1") && IsDecimal("1") && ScaleDecimal("1") == SCALE
  {
    assert Whole("1") == "1" && Fraction("1") == "";
    assert SixDigits("") == Zeros(6);
    ZerosAreZero(6);
    assert Digits("1") == 10 * Digits("1"[..0]) + 1;
  }

  /** A line of the schema that falls into the band: 1 with the tax of rate 1 included is charged as 2 again. */
  lemma NetLineCanCostMore()
    ensures var l := Line(0, "1", Charge(1, Included, Some("1")));
            && ValidLine(l) && LineAmounts(l) == Amounts(1, 0, 1)
            && ValidLine(NetLine(l, 1)) && LineAmounts(NetLine(l, 1)) == Amounts(1, 1, 2)
  {
    OneIsScale();
  }

  // ---------- storage ----------

  function StoredCharge(c: Charge): Charge {
    c.(rate := if c.rate.Some? then Some(Padded(c.rate.value)) else None)
  }

  function StoredLine(l: Line): Line {
    l.(quantity := Padded(l.quantity), unitPrice := StoredCharge(l.unitPrice))
  }

  function ReadCharge(c: Charge): Charge {
    c.(rate := if c.rate.Some? then Some(CanonicalDecimal(c.rate.value)) else None)
  }

  function ReadLine(l: Line): Line {
    l.(quantity := CanonicalDecimal(l.quantity), unitPrice := ReadCharge(l.unitPrice))
  }

  function MapLines(f: Line -> Line, lines: seq<Line>): (r: seq<Line>)
    ensures |r| == |lines| && forall i | 0 <= i < |lines| :: r[i] == f(lines[i])
  {
    seq(|lines|, i requires 0 <= i < |lines| => f(lines[i]))
  }

  function Stored(c: Commercial): Commercial {
    Commercial(MapLines(StoredLine, c.lines), if c.shipping.Some? then Some(StoredCharge(c.shipping.value)) else None, c.party)
  }

  function ReadBack(c: Commercial): Commercial {
    Commercial(MapLines(ReadLine, c.lines), if c.shipping.Some? then Some(ReadCharge(c.shipping.value)) else None, c.party)
  }

  lemma ReadLineStored(l: Line)
    requires ValidLine(l)
    ensures ReadLine(StoredLine(l)) == l
  {
    CanonicalUndoesPadding(l.quantity);
    ReadChargeStored(l.unitPrice);
  }

  lemma ReadChargeStored(c: Charge)
    requires ValidCharge(c)
    ensures ReadCharge(StoredCharge(c)) == c
  {
    if c.rate.Some? { CanonicalUndoesPadding(c.rate.value); }
  }

  /** A valid snapshot survives its columns. */
  lemma ReadBackStored(c: Commercial)
    requires ValidCommercial(c)
    ensures ReadBack(Stored(c)) == c
  {
    forall i | 0 <= i < |c.lines| ensures ReadBack(Stored(c)).lines[i] == c.lines[i] {
      assert ValidLine(c.lines[i]);
      ReadLineStored(c.lines[i]);
    }
    assert ReadBack(Stored(c)).lines == c.lines;
    if c.shipping.Some? { ReadChargeStored(c.shipping.value); }
  }
}
