/** The threshold rule of `validate_bid_change_on_bidding`: the present value
    of a bid must reach the current stage's leading amount plus the minimal
    step. In standard mode the step is a fraction of the leading amount; in
    features mode the leading amount is first scaled by the bidder's
    coefficient and the step is added as an absolute amount. */
module BidChange {
  import opened Esco

  /** What the bidder's present value must reach in the current stage. */
  function Threshold(auction: Auction, doc: Document, bidderId: string): (t: real)
    requires doc.HasCurrentStage()
    requires auction.features ==> bidderId in auction.biddersCoefficient
    ensures !auction.features ==> t == doc.CurrentStage().amount * (1.0 + doc.minimalStepPercentage)
    ensures auction.features ==>
              t - doc.minimalStepPercentage == doc.CurrentStage().amountFeatures * auction.biddersCoefficient[bidderId]
    ensures !auction.features && doc.minimalStepPercentage >= 0.0 && doc.CurrentStage().amount >= 0.0 ==>
              t >= doc.CurrentStage().amount
    ensures auction.features && doc.minimalStepPercentage >= 0.0 ==>
              t >= doc.CurrentStage().amountFeatures * auction.biddersCoefficient[bidderId]
  {
    var stage := doc.CurrentStage();
    if auction.features then
      stage.amountFeatures * auction.biddersCoefficient[bidderId] + doc.minimalStepPercentage
    else
      stage.amount + stage.amount * doc.minimalStepPercentage
  }

  /** The bid is kept unless its present value is below the threshold. */
  predicate BidChangeAccepted(auction: Auction, doc: Document, bidderId: string, amountNpv: real)
    requires doc.HasCurrentStage()
    requires auction.features ==> bidderId in auction.biddersCoefficient
    ensures BidChangeAccepted(auction, doc, bidderId, amountNpv) <==> amountNpv >= Threshold(auction, doc, bidderId)
    ensures BidChangeAccepted(auction, doc, bidderId, amountNpv) && !auction.features &&
            doc.minimalStepPercentage >= 0.0 && doc.CurrentStage().amount >= 0.0 ==>
              amountNpv >= doc.CurrentStage().amount
  {
    !(amountNpv < Threshold(auction, doc, bidderId))
  }

  /** Standard mode: accepted iff the value reaches the leading amount
      grown by the minimal step percentage. */
  lemma StandardModeRule(auction: Auction, doc: Document, bidderId: string, amountNpv: real)
    requires doc.HasCurrentStage() && !auction.features
    ensures BidChangeAccepted(auction, doc, bidderId, amountNpv)
        <==> amountNpv >= doc.CurrentStage().amount * (1.0 + doc.minimalStepPercentage)
  {
  }

  /** Features mode: accepted iff the value reaches the coefficient-scaled
      baseline plus the step, the step added rather than multiplied. */
  lemma FeaturesModeRule(auction: Auction, doc: Document, bidderId: string, amountNpv: real)
    requires doc.HasCurrentStage() && auction.features && bidderId in auction.biddersCoefficient
    ensures BidChangeAccepted(auction, doc, bidderId, amountNpv)
        <==> amountNpv >= doc.CurrentStage().amountFeatures * auction.biddersCoefficient[bidderId] + doc.minimalStepPercentage
  {
  }

  /** Acceptance is upward closed: a value at least an accepted one is accepted. */
  lemma AcceptanceUpwardClosed(auction: Auction, doc: Document, bidderId: string, a: real, b: real)
    requires doc.HasCurrentStage()
    requires auction.features ==> bidderId in auction.biddersCoefficient
    requires BidChangeAccepted(auction, doc, bidderId, a) && a <= b
    ensures BidChangeAccepted(auction, doc, bidderId, b)
  {
  }

  /** The two modes do not agree even where they could: with a coefficient
      of 1 and the same baseline amount, the thresholds coincide only when
      the step is zero or the amount is exactly 1. */
  lemma ModesAgreeOnlyInDegenerateCases(auction: Auction, doc: Document, bidderId: string)
    requires doc.HasCurrentStage() && auction.features
    requires bidderId in auction.biddersCoefficient && auction.biddersCoefficient[bidderId] == 1.0
    requires doc.CurrentStage().amountFeatures == doc.CurrentStage().amount
    ensures Threshold(auction, doc, bidderId) == Threshold(auction.(features := false), doc, bidderId)
        <==> doc.minimalStepPercentage == 0.0 || doc.CurrentStage().amount == 1.0
  {
    var amount, step := doc.CurrentStage().amount, doc.minimalStepPercentage;
    assert Threshold(auction, doc, bidderId) == amount + step;
    assert Threshold(auction.(features := false), doc, bidderId) == amount + amount * step;
    StepsAgree(amount, step);
  }

  /** a + s == a + a * s exactly when s is 0 or a is 1. */
  lemma StepsAgree(a: real, s: real)
    ensures a + s == a + a * s <==> s == 0.0 || a == 1.0
  {
    assert a * s - s == (a - 1.0) * s;
    if s != 0.0 && a != 1.0 {
      NonZeroProduct(a - 1.0, s);
    }
  }

  lemma NonZeroProduct(x: real, y: real)
    requires x != 0.0 && y != 0.0
    ensures x * y != 0.0
  {
  }

  /** A leading amount of 1000 with a 1% step: exactly 1010 is accepted,
      anything below it is refused. */
  lemma StandardThresholdExample(auction: Auction, doc: Document, bidderId: string, amountNpv: real)
    requires doc.HasCurrentStage() && !auction.features
    requires doc.CurrentStage().amount == 1000.0 && doc.minimalStepPercentage == 0.01
    ensures BidChangeAccepted(auction, doc, bidderId, amountNpv) <==> amountNpv >= 1010.0
  {
  }
}
