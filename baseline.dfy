/** The cost-reduction baseline of a bidder: `annualCostsReduction` of the
    first entry of `initial_bids` that carries the bidder's id, or 0 when no
    entry does. */
module Baseline {
  import opened Esco

  /** True when no entry before index `i` carries `bidderId`. */
  predicate NoEarlierEntry(bids: seq<InitialBid>, bidderId: string, i: int)
    requires 0 <= i <= |bids|
  {
    forall j :: 0 <= j < i ==> bids[j].bidderId != bidderId
  }

  function AnnualCostsReduction(bids: seq<InitialBid>, bidderId: string): (r: real)
    ensures NoEarlierEntry(bids, bidderId, |bids|) ==> r == 0.0
    ensures forall i :: 0 <= i < |bids| && bids[i].bidderId == bidderId && NoEarlierEntry(bids, bidderId, i) ==>
                          r == bids[i].annualCostsReduction
  {
    if bids == [] then 0.0
    else if bids[0].bidderId == bidderId then bids[0].annualCostsReduction
    else
      var rest := AnnualCostsReduction(bids[1..], bidderId);
      assert forall i :: 1 <= i < |bids| && NoEarlierEntry(bids, bidderId, i) ==>
                           NoEarlierEntry(bids[1..], bidderId, i - 1);
      rest
  }

  /** The lookup loop of `validate`: scan `initial_bids` and stop at the
      first entry of the bidder. */
  method FindAnnualCostsReduction(bids: seq<InitialBid>, bidderId: string) returns (reduction: real)
    ensures reduction == AnnualCostsReduction(bids, bidderId)
  {
    reduction := 0.0;
    var i := 0;
    while i < |bids|
      invariant 0 <= i <= |bids|
      invariant reduction == 0.0
      invariant AnnualCostsReduction(bids[i..], bidderId) == AnnualCostsReduction(bids, bidderId)
    {
      if bids[i].bidderId == bidderId {
        reduction := bids[i].annualCostsReduction;
        break;
      }
      assert bids[i..][1..] == bids[i + 1..];
      i := i + 1;
    }
  }
}
