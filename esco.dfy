/** The data the ESCO bid form reads and reports: the deployment's duration
    limits, the auction's in-memory state, the stored auction document with
    its stages and initial bids, one submitted bid, and the error messages
    the form collects per field and for the form as a whole. */
module Esco {

  /** The deployment constants DAYS_IN_YEAR and MAX_CONTRACT_DURATION. */
  datatype Limits = Limits(daysInYear: int, maxContractDuration: int)

  /** The values the duration message names (15 years) with a 365-day year;
      used by the worked examples only, every rule takes the limits as input. */
  const EscoLimits: Limits := Limits(365, 15)

  /** One round of the auction. `kind` is the stage's `type`; `bidderId` is
      the bidder entitled to bid in a "bids" stage; `amount` is the leading
      amount and `amountFeatures` its pre-coefficient form in features mode. */
  datatype Stage = Stage(kind: string, bidderId: string, amount: real, amountFeatures: real)
  {
    predicate IsBidding() { kind == "bids" }
  }

  /** An entry of `initial_bids`: a bidder and the yearly cost reduction it offered. */
  datatype InitialBid = InitialBid(bidderId: string, annualCostsReduction: real)

  /** The auction document as read from the database for one submission. */
  datatype Document = Document(
    currentStage: int,
    stages: seq<Stage>,
    initialBids: seq<InitialBid>,
    minimalStepPercentage: real)
  {
    /** `stages[current_stage]` is defined, with Python's negative indexing. */
    predicate HasCurrentStage() { -|stages| <= currentStage < |stages| }

    function CurrentStage(): (s: Stage)
      requires HasCurrentStage()
      ensures s in stages
      ensures 0 <= currentStage ==> s == stages[currentStage]
      ensures currentStage < 0 ==> s == stages[|stages| + currentStage]
    {
      stages[if currentStage < 0 then |stages| + currentStage else currentStage]
    }
  }

  /** The auction object's own state: whether it runs in features mode, the
      per-bidder coefficients of that mode, and the fields of its in-memory
      auction document that the form reads. */
  datatype Auction = Auction(
    features: bool,
    biddersCoefficient: map<string, real>,
    yearlyPaymentsPercentageRange: real,
    nbuDiscountRate: real,
    noticePublicationDate: string)

  /** The submitted offer, once the form has bound the request's fields. */
  datatype Submission = Submission(
    bidderId: string,
    yearlyPaymentsPercentage: real,
    contractDuration: int,
    contractDurationDays: int)

  /** The withdrawal sentinel of `yearlyPaymentsPercentage`. */
  const Withdraw: real := -1.0

  /** The keys of the form's `errors` dictionary: one per field, and 'form'. */
  datatype Key = BidderIdKey | PercentageKey | DurationKey | DurationDaysKey | FormKey

  /** The messages the form can report. */
  datatype Message =
    | NoBidderId                              // 'No bidder id'
    | NotValidBidder                          // 'Not valid bidder'
    | PercentageOutOfRange(lowerTimes100: real) // 'Percentage value must be between {} and 100'
    | YearsOutOfRange(min: int, max: int)     // 'contractDuration must be between %(min)s and %(max)s.'
    | MaximumContractDuration                 // 'Maximun contract duration is 15 years'
    | DaysOutOfRange(min: int, max: int)      // 'contractDurationDays must be between %(min)s and %(max)s.'
    | ZeroDuration                            // "You can't bid 0 days and 0 years"
    | StageNotForBidding                      // 'Stage not for bidding'
    | AmountTooLow                            // 'Amount NPV: Too low value'

  type Errors = map<Key, seq<Message>>

  /** `errors.get('form', [])` */
  function FormErrors(errors: Errors): (r: seq<Message>)
    ensures FormKey !in errors ==> r == []
  {
    if FormKey in errors then errors[FormKey] else []
  }

  /** What the form's code needs of its inputs so that it neither divides by
      zero, indexes outside `stages`, nor looks up a missing coefficient. */
  predicate WellFormed(limits: Limits, auction: Auction, doc: Document)
  {
    && limits.daysInYear > 0
    && doc.HasCurrentStage()
    && (auction.features && doc.CurrentStage().IsBidding() ==>
          doc.CurrentStage().bidderId in auction.biddersCoefficient)
  }

  /** The external present-value function `npv(years, days, percentage,
      annual_costs_reduction, notice_publication_date, discount_rate)`. */
  type Npv = (int, int, real, real, string, real) -> real
}
