/**
  * `src/lib/ato/tax.ts`: resident income tax from a table of brackets, each
  * taxing the income above the previous bracket's limit at its rate on top
  * of a fixed base, and the Medicare levy.
  */
module Tax {

  /** A bracket's upper limit: an amount, or `Infinity` for the top bracket. */
  datatype Limit = Finite(amount: real) | Infinity

  /** `Bracket`. */
  datatype Bracket = Bracket(upTo: Limit, rate: real, base: real)

  /** `taxable <= b.upTo`. */
  predicate Within(taxable: real, l: Limit) {
    l.Infinity? || taxable <= l.amount
  }

  /** `residentBrackets`, the 2023-24 resident rates. */
  const ResidentBrackets: seq<Bracket> := [
    Bracket(Finite(18200.0), 0.0, 0.0),
    Bracket(Finite(45000.0), 0.19, 0.0),
    Bracket(Finite(120000.0), 0.325, 5092.0),
    Bracket(Finite(180000.0), 0.37, 29467.0),
    Bracket(Infinity, 0.45, 51667.0)]

  /** What the loop returns from bracket list `bs` on, the previous limit being `last`. */
  function TaxFrom(taxable: real, bs: seq<Bracket>, last: real): real {
    if bs == [] then 0.0
    else if Within(taxable, bs[0].upTo) then bs[0].base + (taxable - last) * bs[0].rate
    else TaxFrom(taxable, bs[1..], bs[0].upTo.amount)
  }

  /** The tax `incomeTaxResident` computes with the table `brackets`. */
  function BracketTax(taxable: real, brackets: seq<Bracket>): real {
    TaxFrom(taxable, brackets, 0.0)
  }

  /** `incomeTaxResident(taxable, brackets)`. */
  method IncomeTax(taxable: real, brackets: seq<Bracket>) returns (tax: real)
    ensures tax == BracketTax(taxable, brackets)
  {
    var last := 0.0;
    for i := 0 to |brackets|
      invariant TaxFrom(taxable, brackets[i..], last) == BracketTax(taxable, brackets)
    {
      assert brackets[i..][1..] == brackets[i + 1..];
      var b := brackets[i];
      if Within(taxable, b.upTo) {
        return b.base + (taxable - last) * b.rate;
      }
      last := b.upTo.amount;
    }
    return 0.0;
  }

  /** The lower limit of bracket `i`: the previous bracket's limit, or 0 for the first. */
  function LowerLimit(bs: seq<Bracket>, i: int): real
    requires 0 <= i < |bs|
  {
    if i == 0 || bs[i - 1].upTo.Infinity? then 0.0 else bs[i - 1].upTo.amount
  }

  /** The income is above every limit of `bs[..i]`. */
  predicate AboveAll(taxable: real, bs: seq<Bracket>, i: int)
    requires 0 <= i <= |bs|
  {
    forall j | 0 <= j < i :: !Within(taxable, bs[j].upTo)
  }

  lemma {:induction false} TaxFromBracket(taxable: real, bs: seq<Bracket>, last: real, i: int)
    requires 0 <= i < |bs| && Within(taxable, bs[i].upTo) && AboveAll(taxable, bs, i)
    ensures TaxFrom(taxable, bs, last) == bs[i].base + (taxable - (if i == 0 then last else LowerLimit(bs, i))) * bs[i].rate
  {
    if i > 0 {
      assert !Within(taxable, bs[0].upTo);
      assert AboveAll(taxable, bs[1..], i - 1) by {
        forall j | 0 <= j < i - 1 ensures !Within(taxable, bs[1..][j].upTo) {
          assert bs[1..][j] == bs[j + 1];
        }
      }
      TaxFromBracket(taxable, bs[1..], bs[0].upTo.amount, i - 1);
      assert bs[1..][i - 1] == bs[i];
      if i > 1 {
        assert bs[1..][i - 2] == bs[i - 1];
      }
    }
  }

  /**
    * The tax is the base of the first bracket whose limit the income does
    * not exceed, plus its rate on the income above the previous limit.
    */
  lemma TaxInFirstBracket(taxable: real, bs: seq<Bracket>, i: int)
    requires 0 <= i < |bs| && Within(taxable, bs[i].upTo) && AboveAll(taxable, bs, i)
    ensures BracketTax(taxable, bs) == bs[i].base + (taxable - LowerLimit(bs, i)) * bs[i].rate
  {
    TaxFromBracket(taxable, bs, 0.0, i);
  }

  /** An income above every limit of a finite table is taxed 0. */
  lemma {:induction false} TaxAboveAll(taxable: real, bs: seq<Bracket>, last: real)
    requires AboveAll(taxable, bs, |bs|)
    ensures TaxFrom(taxable, bs, last) == 0.0
  {
    if bs != [] {
      assert !Within(taxable, bs[0].upTo);
      assert AboveAll(taxable, bs[1..], |bs| - 1) by {
        forall j | 0 <= j < |bs| - 1 ensures !Within(taxable, bs[1..][j].upTo) {
          assert bs[1..][j] == bs[j + 1];
        }
      }
      TaxAboveAll(taxable, bs[1..], bs[0].upTo.amount);
    }
  }

  /** `incomeTaxResident(taxable)` with the default table. */
  function ResidentTax(taxable: real): real {
    BracketTax(taxable, ResidentBrackets)
  }

  /** The resident tax, bracket by bracket. */
  lemma ResidentSchedule(t: real)
    ensures t <= 18200.0 ==> ResidentTax(t) == 0.0
    ensures 18200.0 < t <= 45000.0 ==> ResidentTax(t) == (t - 18200.0) * 0.19
    ensures 45000.0 < t <= 120000.0 ==> ResidentTax(t) == 5092.0 + (t - 45000.0) * 0.325
    ensures 120000.0 < t <= 180000.0 ==> ResidentTax(t) == 29467.0 + (t - 120000.0) * 0.37
    ensures 180000.0 < t ==> ResidentTax(t) == 51667.0 + (t - 180000.0) * 0.45
  {
    var bs := ResidentBrackets;
    var i := if t <= 18200.0 then 0 else if t <= 45000.0 then 1 else if t <= 120000.0 then 2
             else if t <= 180000.0 then 3 else 4;
    TaxInFirstBracket(t, bs, i);
  }

  /**
    * The table is continuous: each base is the tax at the previous limit,
    * so the tax at 45000, 120000 and 180000 is 5092, 29467 and 51667 from
    * either side.
    */
  lemma ResidentContinuous()
    ensures ResidentTax(45000.0) == 5092.0
    ensures ResidentTax(120000.0) == 29467.0
    ensures ResidentTax(180000.0) == 51667.0
  {
    ResidentSchedule(45000.0);
    ResidentSchedule(120000.0);
    ResidentSchedule(180000.0);
  }

  /** A higher income never pays less resident tax. */
  lemma ResidentMonotone(a: real, b: real)
    requires a <= b
    ensures ResidentTax(a) <= ResidentTax(b)
  {
    ResidentSchedule(a);
    ResidentSchedule(b);
  }

  /** `medicareLevy`: 2% of the taxable income. */
  function MedicareLevy(taxable: real): (levy: real)
    ensures taxable >= 0.0 ==> 0.0 <= levy <= taxable
    ensures levy * 50.0 == taxable
  {
    taxable * 0.02
  }
}
