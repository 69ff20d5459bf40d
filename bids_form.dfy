/** `BidsForm.validate`: field validation first; then, in order, the
    withdrawal short-circuit, the zero-duration refusal, the baseline lookup,
    the present-value call, and the stage-type check with the threshold rule.
    Business refusals go to the form-level 'form' list of `errors`. */
module BidsForms {
  import opened Esco
  import opened FieldValidators
  import opened BidChange
  import opened Baseline

  /** What `validate` returns: -1 for a withdrawal, the present value of an
      accepted bid, or False with the form's errors. */
  datatype Outcome = Withdrawal | Amount(value: real) | Failed(errors: Errors)

  /** The form's `errors` once `validate` has returned. */
  function ErrorsOf(o: Outcome): Errors
  {
    if o.Failed? then o.errors else map[]
  }

  /** The present value `npv` gives for this submission: the bidder's
      baseline is the first matching initial bid's cost reduction, or 0. */
  function NpvAmount(auction: Auction, doc: Document, sub: Submission, npv: Npv): (r: real)
    ensures NoEarlierEntry(doc.initialBids, sub.bidderId, |doc.initialBids|) ==>
              r == npv(sub.contractDuration, sub.contractDurationDays, sub.yearlyPaymentsPercentage,
                       0.0, auction.noticePublicationDate, auction.nbuDiscountRate)
    ensures forall i :: 0 <= i < |doc.initialBids| && doc.initialBids[i].bidderId == sub.bidderId &&
                        NoEarlierEntry(doc.initialBids, sub.bidderId, i) ==>
              r == npv(sub.contractDuration, sub.contractDurationDays, sub.yearlyPaymentsPercentage,
                       doc.initialBids[i].annualCostsReduction, auction.noticePublicationDate, auction.nbuDiscountRate)
  {
    npv(sub.contractDuration, sub.contractDurationDays, sub.yearlyPaymentsPercentage,
        AnnualCostsReduction(doc.initialBids, sub.bidderId),
        auction.noticePublicationDate, auction.nbuDiscountRate)
  }

  /** Both duration fields are zero. */
  predicate ZeroDurationBid(sub: Submission)
  {
    sub.contractDuration == 0 && sub.contractDurationDays == 0
  }

  /** The outcome of `validate` for one submission. */
  function Evaluate(limits: Limits, auction: Auction, doc: Document, sub: Submission, npv: Npv): (r: Outcome)
    requires WellFormed(limits, auction, doc)
    ensures r.Failed? ==> r.errors != map[]
    ensures r.Withdrawal? ==> FieldsPass(limits, auction, doc, sub) && sub.yearlyPaymentsPercentage == Withdraw
    ensures r.Amount? ==>
              && FieldsPass(limits, auction, doc, sub)
              && sub.yearlyPaymentsPercentage != Withdraw
              && !ZeroDurationBid(sub)
              && doc.CurrentStage().IsBidding()
              && r.value == NpvAmount(auction, doc, sub, npv)
              && BidChangeAccepted(auction, doc, sub.bidderId, r.value)
  {
    var fieldErrors := FieldErrors(limits, auction, doc, sub);
    if fieldErrors != map[] then Failed(fieldErrors)
    else if sub.yearlyPaymentsPercentage == Withdraw then Withdrawal
    else if ZeroDurationBid(sub) then Failed(map[FormKey := [ZeroDuration]])
    else
      var amount := NpvAmount(auction, doc, sub, npv);
      if !doc.CurrentStage().IsBidding() then Failed(map[FormKey := [StageNotForBidding]])
      else if !BidChangeAccepted(auction, doc, sub.bidderId, amount) then Failed(map[FormKey := [AmountTooLow]])
      else Amount(amount)
  }

  /** One bid form, bound to a submission and to the auction state it is
      checked against; validation updates its `errors`. */
  class BidsForm {
    const limits: Limits
    const auction: Auction
    const document: Document
    const data: Submission
    var errors: Errors

    predicate Ready()
    {
      WellFormed(limits, auction, document)
    }

    constructor (limits: Limits, auction: Auction, document: Document, data: Submission)
      ensures this.limits == limits && this.auction == auction
      ensures this.document == document && this.data == data
      ensures errors == map[]
    {
      this.limits := limits;
      this.auction := auction;
      this.document := document;
      this.data := data;
      errors := map[];
    }

    /** `errors = self.errors.get('form', []); errors.append(m);
        self.errors['form'] = errors`: earlier form-level messages are kept. */
    method AppendFormError(message: Message)
      modifies this
      ensures errors == old(errors)[FormKey := FormErrors(old(errors)) + [message]]
    {
      errors := errors[FormKey := FormErrors(errors) + [message]];
    }

    /** The base form's validation: every field chain runs, and the form
        passes when no field reported. */
    method ValidateFields() returns (ok: bool)
      requires Ready()
      modifies this
      ensures errors == FieldErrors(limits, auction, document, data)
      ensures ok <==> FieldsPass(limits, auction, document, data)
    {
      errors := FieldErrors(limits, auction, document, data);
      ok := errors == map[];
    }

    /** `validate_bid_change_on_bidding(form, amount_npv)`. */
    method ValidateBidChangeOnBidding(amountNpv: real) returns (ok: bool)
      requires Ready()
      requires auction.features ==> data.bidderId in auction.biddersCoefficient
      modifies this
      ensures ok <==> BidChangeAccepted(auction, document, data.bidderId, amountNpv)
      ensures ok ==> errors == old(errors)
      ensures !ok ==> errors == old(errors)[FormKey := FormErrors(old(errors)) + [AmountTooLow]]
    {
      var stage := document.CurrentStage();
      var max: real;
      if auction.features {
        max := stage.amountFeatures * auction.biddersCoefficient[data.bidderId];
        max := max + document.minimalStepPercentage;
      } else {
        max := stage.amount + stage.amount * document.minimalStepPercentage;
      }
      assert max == Threshold(auction, document, data.bidderId);
      ok := true;
      if amountNpv < max {
        AppendFormError(AmountTooLow);
        ok := false;
      }
    }

    /** `BidsForm.validate`, with the present-value function as a parameter. */
    method Validate(npv: Npv) returns (r: Outcome)
      requires Ready()
      modifies this
      ensures r == Evaluate(limits, auction, document, data, npv)
      ensures errors == ErrorsOf(r)
    {
      var fieldsOk := ValidateFields();
      if !fieldsOk {
        return Failed(errors);
      }
      assert errors == map[];
      if data.yearlyPaymentsPercentage == Withdraw {
        return Withdrawal;
      }
      if data.contractDuration == 0 && data.contractDurationDays == 0 {
        AppendFormError(ZeroDuration);
        FirstFormError(ZeroDuration);
        return Failed(errors);
      }
      var reduction := FindAnnualCostsReduction(document.initialBids, data.bidderId);
      var amount := npv(data.contractDuration, data.contractDurationDays, data.yearlyPaymentsPercentage,
                        reduction, auction.noticePublicationDate, auction.nbuDiscountRate);
      assert amount == NpvAmount(auction, document, data, npv);
      if document.CurrentStage().kind == "bids" {
        assert auction.features ==> data.bidderId in auction.biddersCoefficient;
        var ok := ValidateBidChangeOnBidding(amount);
        if !ok {
          FirstFormError(AmountTooLow);
          return Failed(errors);
        }
      } else {
        AppendFormError(StageNotForBidding);
        FirstFormError(StageNotForBidding);
        return Failed(errors);
      }
      return Amount(amount);
    }
  }

  /** A form-level message added to empty errors is the only message. */
  lemma FirstFormError(message: Message)
    ensures map[][FormKey := FormErrors(map[]) + [message]] == map[FormKey := [message]]
  {
    assert FormErrors(map[]) + [message] == [message];
  }

  /** Field validation gates everything: while any field reports, `validate`
      returns False with exactly the field messages, whatever `npv` does. */
  lemma FieldFailureStops(limits: Limits, auction: Auction, doc: Document, sub: Submission, npv: Npv)
    requires WellFormed(limits, auction, doc)
    requires !FieldsPass(limits, auction, doc, sub)
    ensures Evaluate(limits, auction, doc, sub, npv) == Failed(FieldErrors(limits, auction, doc, sub))
    ensures FormKey !in ErrorsOf(Evaluate(limits, auction, doc, sub, npv))
  {
  }

  /** `validate` returns -1 exactly for a valid form carrying the sentinel. */
  lemma WithdrawalIff(limits: Limits, auction: Auction, doc: Document, sub: Submission, npv: Npv)
    requires WellFormed(limits, auction, doc)
    ensures Evaluate(limits, auction, doc, sub, npv) == Withdrawal
        <==> FieldsPass(limits, auction, doc, sub) && sub.yearlyPaymentsPercentage == Withdraw
  {
  }

  /** Because the percentage check has no exemption for -1, a withdrawal can
      only get through when the configured lower bound is at most -1. */
  lemma WithdrawalNeedsLowerBoundAtMostMinusOne(limits: Limits, auction: Auction, doc: Document, sub: Submission, npv: Npv)
    requires WellFormed(limits, auction, doc)
    requires Evaluate(limits, auction, doc, sub, npv) == Withdrawal
    ensures auction.yearlyPaymentsPercentageRange <= Withdraw
  {
  }

  /** A percentage outside [lower bound, 1] is refused under its field with
      the message naming the lower bound times 100; -1 included. */
  lemma PercentageOutOfRangeRefused(limits: Limits, auction: Auction, doc: Document, sub: Submission, npv: Npv)
    requires WellFormed(limits, auction, doc)
    requires !(auction.yearlyPaymentsPercentageRange <= sub.yearlyPaymentsPercentage <= 1.0)
    ensures var o := Evaluate(limits, auction, doc, sub, npv);
            o.Failed? && PercentageKey in o.errors &&
            o.errors[PercentageKey] == [PercentageOutOfRange(auction.yearlyPaymentsPercentageRange * 100.0)]
  {
  }

  /** The present value is asked for only after the field checks, the
      withdrawal and the zero-duration refusal: before that point the
      outcome does not depend on `npv`. */
  lemma NpvNotConsultedEarly(limits: Limits, auction: Auction, doc: Document, sub: Submission, npv1: Npv, npv2: Npv)
    requires WellFormed(limits, auction, doc)
    requires !FieldsPass(limits, auction, doc, sub) || sub.yearlyPaymentsPercentage == Withdraw || ZeroDurationBid(sub)
    ensures Evaluate(limits, auction, doc, sub, npv1) == Evaluate(limits, auction, doc, sub, npv2)
  {
  }

  /** A valid, non-withdrawal bid of 0 years and 0 days is refused at form
      level, before the present value and before the stage type matter. */
  lemma ZeroDurationRefused(limits: Limits, auction: Auction, doc: Document, sub: Submission, npv: Npv)
    requires WellFormed(limits, auction, doc)
    requires FieldsPass(limits, auction, doc, sub)
    requires sub.yearlyPaymentsPercentage != Withdraw && ZeroDurationBid(sub)
    ensures Evaluate(limits, auction, doc, sub, npv) == Failed(map[FormKey := [ZeroDuration]])
  {
  }

  /** In a "bids" stage, a non-empty bidder id other than the stage's bidder
      is refused under `bidder_id` (the message twice, as the chain adds it
      again), however good the rest of the bid is. */
  lemma NotValidBidderRefused(limits: Limits, auction: Auction, doc: Document, sub: Submission, npv: Npv)
    requires WellFormed(limits, auction, doc)
    requires doc.CurrentStage().IsBidding()
    requires sub.bidderId != "" && sub.bidderId != doc.CurrentStage().bidderId
    ensures var o := Evaluate(limits, auction, doc, sub, npv);
            o.Failed? && BidderIdKey in o.errors && o.errors[BidderIdKey] == [NotValidBidder, NotValidBidder]
  {
  }

  /** Outside a "bids" stage the identity is not checked, and a bid that
      reaches the stage check is refused at form level. */
  lemma StageNotForBiddingRefused(limits: Limits, auction: Auction, doc: Document, sub: Submission, npv: Npv)
    requires WellFormed(limits, auction, doc)
    requires !doc.CurrentStage().IsBidding()
    ensures BidderIdKey !in FieldErrors(limits, auction, doc, sub) <==> sub.bidderId != ""
    ensures FieldsPass(limits, auction, doc, sub) && sub.yearlyPaymentsPercentage != Withdraw && !ZeroDurationBid(sub)
            ==> Evaluate(limits, auction, doc, sub, npv) == Failed(map[FormKey := [StageNotForBidding]])
  {
  }

  /** `validate` returns an amount exactly when every check passes, and the
      amount is then the present value unchanged. */
  lemma AcceptedIff(limits: Limits, auction: Auction, doc: Document, sub: Submission, npv: Npv, a: real)
    requires WellFormed(limits, auction, doc)
    ensures Evaluate(limits, auction, doc, sub, npv) == Amount(a) <==>
              && FieldsPass(limits, auction, doc, sub)
              && sub.yearlyPaymentsPercentage != Withdraw
              && !ZeroDurationBid(sub)
              && doc.CurrentStage().IsBidding()
              && a == NpvAmount(auction, doc, sub, npv)
              && BidChangeAccepted(auction, doc, sub.bidderId, a)
  {
  }

  /** A bid that passes everything but the threshold is refused at form
      level with the single 'too low' message. */
  lemma TooLowRefused(limits: Limits, auction: Auction, doc: Document, sub: Submission, npv: Npv)
    requires WellFormed(limits, auction, doc)
    requires FieldsPass(limits, auction, doc, sub)
    requires sub.yearlyPaymentsPercentage != Withdraw && !ZeroDurationBid(sub)
    requires doc.CurrentStage().IsBidding()
    requires !BidChangeAccepted(auction, doc, sub.bidderId, NpvAmount(auction, doc, sub, npv))
    ensures Evaluate(limits, auction, doc, sub, npv) == Failed(map[FormKey := [AmountTooLow]])
  {
  }

  /** A failure reports either field messages only, or exactly one
      form-level message and nothing else; a success reports nothing. */
  lemma ErrorsNeverMixed(limits: Limits, auction: Auction, doc: Document, sub: Submission, npv: Npv)
    requires WellFormed(limits, auction, doc)
    ensures var e := ErrorsOf(Evaluate(limits, auction, doc, sub, npv));
            && (FormKey in e ==> e.Keys == {FormKey} && |e[FormKey]| == 1)
            && (Evaluate(limits, auction, doc, sub, npv).Failed? <==> e != map[])
  {
  }
}
