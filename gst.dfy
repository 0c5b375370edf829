/**
  * `computeGst` of `src/lib/ato/gst.ts`: the goods and services tax in an
  * amount, one eleventh of a GST-inclusive amount or a tenth of a
  * GST-exclusive one, and none for GST-free or input-taxed supplies.
  */
module Gst {

  /** Whether the amount already includes the GST. */
  datatype AmountType = Inc | Ex

  datatype Treatment = Taxable | GstFree | InputTaxed

  /** `GstEntry`. */
  datatype GstEntry = GstEntry(amount: real, amountType: AmountType, gstTreatment: Treatment)

  /** `computeGst`. */
  function ComputeGst(entry: GstEntry): (gst: real)
    ensures entry.gstTreatment != Taxable ==> gst == 0.0
    ensures entry.amount >= 0.0 ==> 0.0 <= gst <= entry.amount
    ensures entry.gstTreatment == Taxable && entry.amountType == Ex ==> gst * 10.0 == entry.amount
  {
    if entry.gstTreatment != Taxable then 0.0
    else if entry.amountType == Inc then entry.amount / 11.0
    else entry.amount * 0.1
  }

  /**
    * A GST-inclusive amount is a net price plus 10% of it: the GST taken
    * out of it is a tenth of what remains, which is the GST an exclusive
    * entry for that remainder computes.
    */
  lemma InclusiveIsTenthOfNet(entry: GstEntry)
    requires entry.gstTreatment == Taxable && entry.amountType == Inc
    ensures var gst := ComputeGst(entry);
      gst == (entry.amount - gst) * 0.1
      && gst == ComputeGst(GstEntry(entry.amount - gst, Ex, Taxable))
  {
  }

  /** The GST scales with the amount. */
  lemma GstLinear(entry: GstEntry, k: real)
    ensures ComputeGst(entry.(amount := k * entry.amount)) == k * ComputeGst(entry)
  {
  }
}
