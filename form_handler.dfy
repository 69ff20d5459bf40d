/** `form_handler`: bind the submission to a fresh form, validate it against
    the auction document read for this request, and append a record to the
    current stage exactly when `validate` returned a truthy value. */
module FormHandling {
  import opened Esco
  import opened BidsForms

  /** The record handed to `add_bid`; `amount` is the exact value that
      `str(total_amount)` renders and `time` the request's timestamp. */
  datatype BidRecord = BidRecord(
    bidderId: string,
    amount: real,
    contractDurationYears: int,
    contractDurationDays: int,
    yearlyPaymentsPercentage: real,
    time: string)

  /** An `add_bid(stage, record)` call. */
  datatype StageBid = StageBid(stage: int, record: BidRecord)

  /** `{'status': 'ok', 'data': form.data}`, `{'status': 'failed', 'errors': form.errors}`,
      or `Fault`: the handler raised after `add_bid` and sent no answer of its
      own (the KeyError of the placed-bid log line, which reads `form.data['bid']`,
      a key the form does not have). */
  datatype Response = Ok(data: Submission) | Rejected(errors: Errors) | Fault

  /** Python truthiness of what `validate` returns: -1 is true, an amount is
      true unless it is zero, False is false. */
  predicate Truthy(o: Outcome)
    ensures Truthy(o) <==> !o.Failed? && o != Amount(0.0)
    ensures Truthy(o) ==> ErrorsOf(o) == map[]
  {
    o.Withdrawal? || (o.Amount? && o.value != 0.0)
  }

  /** The amount written for a truthy outcome: -1 for a withdrawal, the
      present value itself otherwise. */
  function TotalAmount(o: Outcome): (a: real)
    requires Truthy(o)
    ensures a != 0.0
    ensures o.Withdrawal? ==> a == Withdraw
    ensures o.Amount? ==> a == o.value
  {
    if o.Withdrawal? then Withdraw else o.value
  }

  /** The record `add_bid` receives: the submitted bidder, durations and
      percentage, the amount of the outcome and the request's time. */
  function Record(sub: Submission, o: Outcome, now: string): (r: BidRecord)
    requires Truthy(o)
    ensures r.bidderId == sub.bidderId && r.time == now
    ensures r.contractDurationYears == sub.contractDuration && r.contractDurationDays == sub.contractDurationDays
    ensures r.yearlyPaymentsPercentage == sub.yearlyPaymentsPercentage
    ensures r.amount != 0.0
    ensures o.Withdrawal? ==> r.amount == Withdraw
    ensures o.Amount? ==> r.amount == o.value
  {
    BidRecord(sub.bidderId, TotalAmount(o), sub.contractDuration, sub.contractDurationDays,
              sub.yearlyPaymentsPercentage, now)
  }

  /** What one request does: the response and the `add_bid` calls it makes. */
  datatype Handling = Handling(response: Response, appended: seq<StageBid>)

  /** One request: a truthy result of `validate` is recorded; the answer is
      then 'ok' unless the percentage is zero, in which case the placed-bid
      log line raises. A falsy result answers 'failed' with the form's errors. */
  function Handle(limits: Limits, auction: Auction, doc: Document, sub: Submission, npv: Npv, now: string): (h: Handling)
    requires WellFormed(limits, auction, doc)
    ensures |h.appended| <= 1
    ensures h.appended != [] <==> Truthy(Evaluate(limits, auction, doc, sub, npv))
    ensures h.appended != [] ==>
              h.appended[0] == StageBid(doc.currentStage, Record(sub, Evaluate(limits, auction, doc, sub, npv), now))
    ensures h.response.Ok? <==> h.appended != [] && sub.yearlyPaymentsPercentage != 0.0
    ensures h.response.Fault? <==> h.appended != [] && sub.yearlyPaymentsPercentage == 0.0
    ensures h.response.Ok? ==> h.response.data == sub
    ensures h.response.Rejected? <==> h.appended == []
    ensures h.response.Rejected? ==> h.response.errors == ErrorsOf(Evaluate(limits, auction, doc, sub, npv))
  {
    var o := Evaluate(limits, auction, doc, sub, npv);
    if Truthy(o) then
      var response := if sub.yearlyPaymentsPercentage != 0.0 then Ok(sub) else Fault;
      Handling(response, [StageBid(doc.currentStage, Record(sub, o, now))])
    else
      Handling(Rejected(ErrorsOf(o)), [])
  }

  /** The stage bid history behind `auction.add_bid`, as the list of calls. */
  class BidLedger {
    var bids: seq<StageBid>

    constructor ()
      ensures bids == []
    {
      bids := [];
    }

    method AddBid(stage: int, record: BidRecord)
      modifies this
      ensures bids == old(bids) + [StageBid(stage, record)]
    {
      bids := bids + [StageBid(stage, record)];
    }
  }

  /** `form_handler` for one request; the document is the one read for it,
      `now` the current time in the auction's time zone. */
  method FormHandler(ledger: BidLedger, limits: Limits, auction: Auction, document: Document,
                     submission: Submission, npv: Npv, now: string) returns (response: Response)
    requires WellFormed(limits, auction, document)
    modifies ledger
    ensures var h := Handle(limits, auction, document, submission, npv, now);
            response == h.response && ledger.bids == old(ledger.bids) + h.appended
  {
    var form := new BidsForm(limits, auction, document, submission);
    var total := form.Validate(npv);
    if Truthy(total) {
      ledger.AddBid(document.currentStage, Record(submission, total, now));
      if submission.yearlyPaymentsPercentage != 0.0 {
        response := Ok(submission);
      } else {
        response := Fault;
      }
    } else {
      response := Rejected(form.errors);
    }
  }

  /** A withdrawal that gets through is recorded with amount -1. */
  lemma WithdrawalRecorded(limits: Limits, auction: Auction, doc: Document, sub: Submission, npv: Npv, now: string)
    requires WellFormed(limits, auction, doc)
    requires Evaluate(limits, auction, doc, sub, npv) == Withdrawal
    ensures Handle(limits, auction, doc, sub, npv, now).appended
            == [StageBid(doc.currentStage, BidRecord(sub.bidderId, Withdraw, sub.contractDuration,
                                                      sub.contractDurationDays, sub.yearlyPaymentsPercentage, now))]
  {
  }

  /** An accepted bid is recorded with its present value as the amount. */
  lemma AmountRecorded(limits: Limits, auction: Auction, doc: Document, sub: Submission, npv: Npv, now: string, a: real)
    requires WellFormed(limits, auction, doc)
    requires Evaluate(limits, auction, doc, sub, npv) == Amount(a) && a != 0.0
    ensures Handle(limits, auction, doc, sub, npv, now).appended
            == [StageBid(doc.currentStage, BidRecord(sub.bidderId, a, sub.contractDuration,
                                                      sub.contractDurationDays, sub.yearlyPaymentsPercentage, now))]
  {
  }

  /** A bid with a zero percentage that gets through is recorded, and then
      the handler fails instead of answering 'ok'. Such a bid is never a
      withdrawal, so it is the placed-bid branch that raises. */
  lemma ZeroPercentageFaultsAfterRecording(limits: Limits, auction: Auction, doc: Document, sub: Submission, npv: Npv, now: string)
    requires WellFormed(limits, auction, doc)
    requires sub.yearlyPaymentsPercentage == 0.0
    requires Truthy(Evaluate(limits, auction, doc, sub, npv))
    ensures Evaluate(limits, auction, doc, sub, npv).Amount?
    ensures var h := Handle(limits, auction, doc, sub, npv, now);
            h.response == Fault && |h.appended| == 1
  {
  }

  /** An accepted bid whose present value is exactly zero is neither
      recorded nor reported as an error: the answer is 'failed' with an
      empty error dictionary. */
  lemma ZeroAmountFailsWithoutErrors(limits: Limits, auction: Auction, doc: Document, sub: Submission, npv: Npv, now: string)
    requires WellFormed(limits, auction, doc)
    requires Evaluate(limits, auction, doc, sub, npv) == Amount(0.0)
    ensures Handle(limits, auction, doc, sub, npv, now) == Handling(Rejected(map[]), [])
  {
  }

  /** Every refusal of `validate` leaves the ledger alone and answers with
      the form's errors, which are never empty. */
  lemma RefusalNotRecorded(limits: Limits, auction: Auction, doc: Document, sub: Submission, npv: Npv, now: string)
    requires WellFormed(limits, auction, doc)
    requires Evaluate(limits, auction, doc, sub, npv).Failed?
    ensures var h := Handle(limits, auction, doc, sub, npv, now);
            h.appended == [] && h.response.Rejected? && h.response.errors != map[]
  {
  }
}
