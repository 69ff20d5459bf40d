/** The per-field validation chains of the bid form. Each field runs its
    validators in order: a ValidationError adds its message and the chain goes
    on, a StopValidation adds its message and ends the chain; the inline
    `validate_<field>` method runs after the declared validators. The form
    passes field validation when no field has a message. */
module FieldValidators {
  import opened Esco

  /** `validate_yearly_payments_percentage`, then InputRequired (the value is
      present, so it passes). There is no exemption for the withdrawal
      sentinel: -1 passes only when the lower bound is at most -1. */
  function PercentageErrors(lower: real, p: real): (errs: seq<Message>)
    ensures errs == [] <==> lower <= p && p <= 1.0
    ensures errs != [] ==> errs == [PercentageOutOfRange(lower * 100.0)]
    ensures p == Withdraw ==> (errs == [] <==> lower <= Withdraw)
  {
    if !(lower <= p <= 1.0) then [PercentageOutOfRange(lower * 100.0)] else []
  }

  /** NumberRange(0, MAX_CONTRACT_DURATION) on `contractDuration`. */
  function YearsErrors(limits: Limits, years: int): (errs: seq<Message>)
    ensures errs == [] <==> 0 <= years <= limits.maxContractDuration
    ensures errs != [] ==> errs == [YearsOutOfRange(0, limits.maxContractDuration)]
  {
    if years < 0 || years > limits.maxContractDuration then [YearsOutOfRange(0, limits.maxContractDuration)] else []
  }

  /** The condition of `validate_contract_duration`: both values non-zero and
      days as a fraction of a year plus years strictly above the maximum. */
  predicate DurationExceeds(limits: Limits, years: int, days: int)
    requires limits.daysInYear > 0
    ensures DurationExceeds(limits, years, days) <==>
              days != 0 && years != 0 &&
              days + years * limits.daysInYear > limits.maxContractDuration * limits.daysInYear
  {
    var exceeds := days as real / limits.daysInYear as real + years as real > limits.maxContractDuration as real;
    WholeDays(limits.daysInYear, years, days, limits.maxContractDuration);
    days != 0 && years != 0 && exceeds
  }

  /** Multiplying through by the (positive) year length turns the rational
      comparison of `validate_contract_duration` into one on whole days. */
  lemma WholeDays(d: int, years: int, days: int, max: int)
    requires d > 0
    ensures days as real / d as real + years as real > max as real <==> days + years * d > max * d
  {
    var dr := d as real;
    var lhs := days as real / dr + years as real;
    assert lhs * dr == (days + years * d) as real;
    assert max as real * dr == (max * d) as real;
    if lhs > max as real {
      assert lhs * dr > max as real * dr;
    } else {
      assert lhs * dr <= max as real * dr;
    }
  }

  /** `validate_contract_duration`, then NumberRange(0, DAYS_IN_YEAR - 1) on
      `contractDurationDays`; both are ValidationErrors, so both may report. */
  function DaysErrors(limits: Limits, years: int, days: int): (errs: seq<Message>)
    requires limits.daysInYear > 0
    ensures MaximumContractDuration in errs <==> DurationExceeds(limits, years, days)
    ensures DaysOutOfRange(0, limits.daysInYear - 1) in errs <==> !(0 <= days < limits.daysInYear)
    ensures errs == [] <==> !DurationExceeds(limits, years, days) && 0 <= days < limits.daysInYear
    ensures forall m :: m in errs ==> m == MaximumContractDuration || m == DaysOutOfRange(0, limits.daysInYear - 1)
  {
    var duration := if DurationExceeds(limits, years, days) then [MaximumContractDuration] else [];
    var range := if days < 0 || days > limits.daysInYear - 1 then [DaysOutOfRange(0, limits.daysInYear - 1)] else [];
    duration + range
  }

  /** `validate_bidder_id` with `validate_bidder_id_on_bidding`: only in a
      "bids" stage, a bidder other than the stage's bidder is refused. The
      validator adds 'Not valid bidder' to the field itself and then raises
      StopValidation with the same text, which the chain adds again. */
  function ValidateBidderId(doc: Document, bidderId: string): (errs: seq<Message>)
    requires doc.HasCurrentStage()
    ensures errs == [] <==> (doc.CurrentStage().IsBidding() ==> bidderId == doc.CurrentStage().bidderId)
    ensures errs != [] ==> errs == [NotValidBidder, NotValidBidder]
  {
    var stage := doc.CurrentStage();
    if stage.kind == "bids" && bidderId != stage.bidderId then [NotValidBidder, NotValidBidder] else []
  }

  /** InputRequired on `bidder_id` (StopValidation on an empty value, which
      also clears the field's messages), then `validate_bidder_id`. */
  function BidderIdErrors(doc: Document, bidderId: string): (errs: seq<Message>)
    requires doc.HasCurrentStage()
    ensures errs == [] <==> bidderId != "" && (doc.CurrentStage().IsBidding() ==> bidderId == doc.CurrentStage().bidderId)
    ensures bidderId == "" ==> errs == [NoBidderId]
    ensures bidderId != "" && errs != [] ==> errs == [NotValidBidder, NotValidBidder]
  {
    if bidderId == "" then [NoBidderId] else ValidateBidderId(doc, bidderId)
  }

  /** The messages the chain of the field named by `key` produces; the form
      key has no chain. */
  function FieldChain(limits: Limits, auction: Auction, doc: Document, sub: Submission, key: Key): seq<Message>
    requires WellFormed(limits, auction, doc)
  {
    match key
    case BidderIdKey => BidderIdErrors(doc, sub.bidderId)
    case PercentageKey => PercentageErrors(auction.yearlyPaymentsPercentageRange, sub.yearlyPaymentsPercentage)
    case DurationKey => YearsErrors(limits, sub.contractDuration)
    case DurationDaysKey => DaysErrors(limits, sub.contractDuration, sub.contractDurationDays)
    case FormKey => []
  }

  /** Every field check passes, stated rule by rule. */
  predicate FieldsPass(limits: Limits, auction: Auction, doc: Document, sub: Submission)
    requires WellFormed(limits, auction, doc)
  {
    var stage := doc.CurrentStage();
    && sub.bidderId != ""
    && (stage.IsBidding() ==> sub.bidderId == stage.bidderId)
    && auction.yearlyPaymentsPercentageRange <= sub.yearlyPaymentsPercentage <= 1.0
    && 0 <= sub.contractDuration <= limits.maxContractDuration
    && 0 <= sub.contractDurationDays < limits.daysInYear
    && !DurationExceeds(limits, sub.contractDuration, sub.contractDurationDays)
  }

  function AddFieldErrors(errors: Errors, key: Key, errs: seq<Message>): Errors
  {
    if errs == [] then errors else errors[key := errs]
  }

  /** The form's `errors` after field validation: the fields are validated in
      declaration order and a field appears exactly when its chain reported. */
  function FieldErrors(limits: Limits, auction: Auction, doc: Document, sub: Submission): (errors: Errors)
    requires WellFormed(limits, auction, doc)
    ensures forall k :: k in errors <==> FieldChain(limits, auction, doc, sub, k) != []
    ensures forall k :: k in errors ==> errors[k] == FieldChain(limits, auction, doc, sub, k)
    ensures FormKey !in errors
    ensures errors == map[] <==> FieldsPass(limits, auction, doc, sub)
  {
    var e0 := AddFieldErrors(map[], BidderIdKey, BidderIdErrors(doc, sub.bidderId));
    var e1 := AddFieldErrors(e0, PercentageKey, PercentageErrors(auction.yearlyPaymentsPercentageRange, sub.yearlyPaymentsPercentage));
    var e2 := AddFieldErrors(e1, DurationKey, YearsErrors(limits, sub.contractDuration));
    var e3 := AddFieldErrors(e2, DurationDaysKey, DaysErrors(limits, sub.contractDuration, sub.contractDurationDays));
    if FieldsPass(limits, auction, doc, sub) then
      assert e3 == map[];
      e3
    else
      assert BidderIdKey in e3 || PercentageKey in e3 || DurationKey in e3 || DurationDaysKey in e3;
      e3
  }

  /** Within the field ranges, the joint duration check fires exactly when
      the years are at the maximum and some days are added on top. */
  lemma DurationExceedsWithinRanges(limits: Limits, years: int, days: int)
    requires limits.daysInYear > 0 && limits.maxContractDuration > 0
    requires 0 <= years <= limits.maxContractDuration
    requires 0 <= days < limits.daysInYear
    ensures DurationExceeds(limits, years, days) <==> years == limits.maxContractDuration && days > 0
  {
    var d, max := limits.daysInYear, limits.maxContractDuration;
    if years < max {
      assert years * d <= (max - 1) * d by { MulMonotone(years, max - 1, d); }
      assert (max - 1) * d == max * d - d;
    }
  }

  lemma MulMonotone(a: int, b: int, d: int)
    requires a <= b && d >= 0
    ensures a * d <= b * d
  {
    assert b * d - a * d == (b - a) * d;
  }

  /** The joint check is strict: a total exactly at the maximum passes. */
  lemma DurationAtMaximumPasses(limits: Limits, years: int, days: int)
    requires limits.daysInYear > 0
    requires days as real / limits.daysInYear as real + years as real == limits.maxContractDuration as real
    ensures !DurationExceeds(limits, years, days)
  {
  }

  /** Years alone are never checked by `validate_contract_duration`: with no
      days, only the years' own range check can refuse them. */
  lemma YearsAloneNotJointlyChecked(limits: Limits, years: int)
    requires limits.daysInYear > 0
    ensures !DurationExceeds(limits, years, 0)
    ensures MaximumContractDuration !in DaysErrors(limits, years, 0)
  {
  }

  /** 14 years and 200 days come to less than 15 years, so they pass. */
  lemma FourteenYearsTwoHundredDaysPass()
    ensures !DurationExceeds(EscoLimits, 14, 200)
    ensures DaysErrors(EscoLimits, 14, 200) == []
  {
  }
}
