/**
  * `validateDeduction` of `src/lib/ato/validation.ts`: an ordered list of
  * checks on a new tax deduction, the first failing one giving the message,
  * including two rules that look at the deductions already recorded in the
  * same tax year.
  */
module Validation {
  import opened Wrappers
  import opened TaxYear

  /** `ProfileKey`: the IT work profile or the rideshare profile. */
  datatype Profile = It | Uber

  /** `DeductionEntryInput`. */
  datatype Deduction = Deduction(profileKey: Profile, date: string, categoryKey: string, amount: real,
                                 workUsePercent: real, claimMethod: Option<string>, km: Option<real>,
                                 receipt: Option<bool>)

  const DateRequired := "Date is required."
  const AmountNotPositive := "Amount must be greater than 0."
  const WorkUseOutOfRange := "Work use must be between 0 and 100%."
  const PhoneBlocked := "Phone/Internet blocked: fixed-rate WFH already claimed this tax year."
  const KmRequired := "Kilometres required for cents-per-km."
  const KmCapExceeded := "Cents-per-km cap of 5000km per tax year exceeded."
  const MethodRequired := "Select a car expense method."

  /** The yearly limit on kilometres claimed at cents per kilometre. */
  const KmCap: real := 5000.0

  /** `!input.km || input.km <= 0`. */
  predicate KmMissing(km: Option<real>) {
    km.None? || km.value <= 0.0
  }

  /** `!input.method`: no method, or an empty one. */
  predicate NoMethod(m: Option<string>) {
    m.None? || m.value == ""
  }

  /** A rideshare car expense claimed at cents per kilometre. */
  predicate CentsPerKm(d: Deduction) {
    d.profileKey == Uber && d.categoryKey == "car_expenses" && d.claimMethod == Some("cents_per_km")
  }

  /** The `some` of the phone rule: an IT fixed-rate working-from-home claim in the tax year. */
  predicate FixedRateClaimed(existing: seq<Deduction>, taxYear: string) {
    exists d | d in existing :: d.profileKey == It && GetTaxYear(d.date) == taxYear && d.categoryKey == "wfh_fixed_rate"
  }

  /** The kilometres of one recorded deduction that count towards the year's cap, `d.km ?? 0`, or 0. */
  function KmOf(d: Deduction, taxYear: string): real {
    if CentsPerKm(d) && GetTaxYear(d.date) == taxYear then d.km.GetOr(0.0) else 0.0
  }

  /** The `filter` and `reduce` of the cap rule: the kilometres already claimed in the tax year. */
  function KmThisYear(existing: seq<Deduction>, taxYear: string): real {
    if existing == [] then 0.0
    else KmThisYear(existing[..|existing| - 1], taxYear) + KmOf(existing[|existing| - 1], taxYear)
  }

  /** `validateDeduction`: `None` is `null`, every failure a message. */
  function Validate(input: Deduction, existing: seq<Deduction>): (r: Option<string>) {
    if input.date == "" then Some(DateRequired)
    else if input.amount <= 0.0 then Some(AmountNotPositive)
    else if input.workUsePercent < 0.0 || input.workUsePercent > 100.0 then Some(WorkUseOutOfRange)
    else
      var taxYear := GetTaxYear(input.date);
      if input.profileKey == It && input.categoryKey == "phone_internet" && FixedRateClaimed(existing, taxYear) then
        Some(PhoneBlocked)
      else if input.profileKey == Uber && input.categoryKey == "car_expenses" then
        if input.claimMethod == Some("cents_per_km") then
          if KmMissing(input.km) then Some(KmRequired)
          else if KmThisYear(existing, taxYear) + input.km.value > KmCap then Some(KmCapExceeded)
          else None
        else if NoMethod(input.claimMethod) then Some(MethodRequired)
        else None
      else None
  }

  // ----- the rules as a flat list -----

  /** The rules, each stated on its own. */
  datatype Check = DateCheck | AmountCheck | WorkUseCheck | PhoneCheck | KmCheck | CapCheck | MethodCheck

  /** The order in which the rules are tried. */
  const Order: seq<Check> := [DateCheck, AmountCheck, WorkUseCheck, PhoneCheck, KmCheck, CapCheck, MethodCheck]

  /** When a rule rejects the deduction, independently of the others. */
  predicate Fails(c: Check, input: Deduction, existing: seq<Deduction>) {
    match c
    case DateCheck => input.date == ""
    case AmountCheck => input.amount <= 0.0
    case WorkUseCheck => !(0.0 <= input.workUsePercent <= 100.0)
    case PhoneCheck =>
      input.profileKey == It && input.categoryKey == "phone_internet"
      && FixedRateClaimed(existing, GetTaxYear(input.date))
    case KmCheck => CentsPerKm(input) && KmMissing(input.km)
    case CapCheck =>
      CentsPerKm(input) && !KmMissing(input.km)
      && KmThisYear(existing, GetTaxYear(input.date)) + input.km.value > KmCap
    case MethodCheck => input.profileKey == Uber && input.categoryKey == "car_expenses" && NoMethod(input.claimMethod)
  }

  function Message(c: Check): string {
    match c
    case DateCheck => DateRequired
    case AmountCheck => AmountNotPositive
    case WorkUseCheck => WorkUseOutOfRange
    case PhoneCheck => PhoneBlocked
    case KmCheck => KmRequired
    case CapCheck => KmCapExceeded
    case MethodCheck => MethodRequired
  }

  /** The message of the first rule in `checks` that fails, or `None`. */
  function FirstFailure(checks: seq<Check>, input: Deduction, existing: seq<Deduction>): (r: Option<string>)
    ensures r.None? <==> forall i | 0 <= i < |checks| :: !Fails(checks[i], input, existing)
    ensures r.Some? ==> exists i | 0 <= i < |checks| :: Fails(checks[i], input, existing) && r.value == Message(checks[i])
  {
    if checks == [] then None
    else if Fails(checks[0], input, existing) then Some(Message(checks[0]))
    else
      var r := FirstFailure(checks[1..], input, existing);
      assert forall i | 1 <= i < |checks| :: checks[i] == checks[1..][i - 1];
      r
  }

  lemma FirstFailureCons(c: Check, rest: seq<Check>, input: Deduction, existing: seq<Deduction>)
    ensures FirstFailure([c] + rest, input, existing)
         == if Fails(c, input, existing) then Some(Message(c)) else FirstFailure(rest, input, existing)
  {
    assert ([c] + rest)[0] == c && ([c] + rest)[1..] == rest;
  }

  /** The rule list, tried in order, as a chain of tests. */
  lemma OrderChain(input: Deduction, existing: seq<Deduction>)
    ensures FirstFailure(Order, input, existing) ==
      if Fails(DateCheck, input, existing) then Some(DateRequired)
      else if Fails(AmountCheck, input, existing) then Some(AmountNotPositive)
      else if Fails(WorkUseCheck, input, existing) then Some(WorkUseOutOfRange)
      else if Fails(PhoneCheck, input, existing) then Some(PhoneBlocked)
      else if Fails(KmCheck, input, existing) then Some(KmRequired)
      else if Fails(CapCheck, input, existing) then Some(KmCapExceeded)
      else if Fails(MethodCheck, input, existing) then Some(MethodRequired)
      else None
  {
    assert Order == [DateCheck] + ([AmountCheck] + ([WorkUseCheck] + ([PhoneCheck] + ([KmCheck] + ([CapCheck] + ([MethodCheck] + []))))));
    FirstFailureCons(MethodCheck, [], input, existing);
    FirstFailureCons(CapCheck, [MethodCheck] + [], input, existing);
    FirstFailureCons(KmCheck, [CapCheck] + ([MethodCheck] + []), input, existing);
    FirstFailureCons(PhoneCheck, [KmCheck] + ([CapCheck] + ([MethodCheck] + [])), input, existing);
    FirstFailureCons(WorkUseCheck, [PhoneCheck] + ([KmCheck] + ([CapCheck] + ([MethodCheck] + []))), input, existing);
    FirstFailureCons(AmountCheck, [WorkUseCheck] + ([PhoneCheck] + ([KmCheck] + ([CapCheck] + ([MethodCheck] + [])))), input, existing);
    FirstFailureCons(DateCheck, [AmountCheck] + ([WorkUseCheck] + ([PhoneCheck] + ([KmCheck] + ([CapCheck] + ([MethodCheck] + []))))), input, existing);
  }

  /** The validator is the flat list of rules tried in order: the first failing rule's message wins. */
  lemma ValidateInOrder(input: Deduction, existing: seq<Deduction>)
    ensures Validate(input, existing) == FirstFailure(Order, input, existing)
  {
    OrderChain(input, existing);
  }

  /** The deduction is accepted exactly when no rule fails. */
  lemma AcceptedIffNoRuleFails(input: Deduction, existing: seq<Deduction>)
    ensures Validate(input, existing).None? <==> forall c | c in Order :: !Fails(c, input, existing)
  {
    ValidateInOrder(input, existing);
  }

  /**
    * The phone rule: with the first three checks passed, an IT phone and
    * internet claim is rejected exactly when a fixed-rate working-from-home
    * claim exists in the same tax year.
    */
  lemma PhoneRule(input: Deduction, existing: seq<Deduction>)
    requires input.date != "" && input.amount > 0.0 && 0.0 <= input.workUsePercent <= 100.0
    requires input.profileKey == It && input.categoryKey == "phone_internet"
    ensures Validate(input, existing) == Some(PhoneBlocked) <==>
            exists d | d in existing :: d.profileKey == It && d.categoryKey == "wfh_fixed_rate"
                                        && GetTaxYear(d.date) == GetTaxYear(input.date)
    ensures Validate(input, existing) != Some(PhoneBlocked) ==> Validate(input, existing) == None
  {
  }

  /**
    * The cap rule: with the earlier checks passed, a cents-per-kilometre
    * car claim with kilometres is rejected exactly when the year's recorded
    * kilometres plus these exceed 5000, so a total of exactly 5000 passes.
    */
  lemma CapRule(input: Deduction, existing: seq<Deduction>)
    requires input.date != "" && input.amount > 0.0 && 0.0 <= input.workUsePercent <= 100.0
    requires CentsPerKm(input) && !KmMissing(input.km)
    ensures Validate(input, existing) == Some(KmCapExceeded) <==>
            KmThisYear(existing, GetTaxYear(input.date)) + input.km.value > 5000.0
    ensures KmThisYear(existing, GetTaxYear(input.date)) + input.km.value == 5000.0 ==> Validate(input, existing) == None
  {
  }

  /** Each recorded claim adds its kilometres to the year's total only when it is a cents-per-km car claim of that year. */
  lemma {:induction false} KmThisYearAppend(existing: seq<Deduction>, d: Deduction, taxYear: string)
    ensures KmThisYear(existing + [d], taxYear) == KmThisYear(existing, taxYear) +
            (if CentsPerKm(d) && GetTaxYear(d.date) == taxYear then d.km.GetOr(0.0) else 0.0)
  {
    assert (existing + [d])[..|existing|] == existing;
  }

  /** Appending a non-empty list is appending all but its last element, then the last. */
  lemma AppendLast(existing: seq<Deduction>, others: seq<Deduction>)
    requires others != []
    ensures existing + others == (existing + others[..|others| - 1]) + [others[|others| - 1]]
  {
  }

  /** Claims of other tax years, other profiles or other methods do not count towards the cap. */
  lemma {:induction false} KmThisYearIgnores(existing: seq<Deduction>, others: seq<Deduction>, taxYear: string)
    requires forall d | d in others :: !CentsPerKm(d) || GetTaxYear(d.date) != taxYear
    ensures KmThisYear(existing + others, taxYear) == KmThisYear(existing, taxYear)
    decreases |others|
  {
    if others == [] {
      assert existing + others == existing;
    } else {
      var n := |others| - 1;
      var init, last := others[..n], others[n];
      assert last in others;
      forall d | d in init ensures !CentsPerKm(d) || GetTaxYear(d.date) != taxYear {
        assert d in others;
      }
      KmThisYearIgnores(existing, init, taxYear);
      AppendLast(existing, others);
      KmThisYearAppend(existing + init, last, taxYear);
    }
  }

  /** A rideshare car claim by any method other than cents per km, and not empty, is not checked further. */
  lemma OtherMethodPasses(input: Deduction, existing: seq<Deduction>)
    requires input.date != "" && input.amount > 0.0 && 0.0 <= input.workUsePercent <= 100.0
    requires input.profileKey == Uber && input.categoryKey == "car_expenses"
    requires !NoMethod(input.claimMethod) && input.claimMethod != Some("cents_per_km")
    ensures Validate(input, existing) == None
  {
  }
}
