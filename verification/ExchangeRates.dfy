/**
  The order-book estimate of an exchange rate: bids are consumed in book order until the source
  amount is spent. Amounts and prices are reals; the book is what the network returned.
 */
module ExchangeRates {

  datatype Bid = Bid(price: real, amount: real)

  /** `AskForPath` is the fallback to a path-payment query, whose answer is not modelled. */
  datatype Quote =
    | SameAsset(destinationAmount: real)
    | FromBook(rate: real, destinationAmount: real)
    | AskForPath

  // ----- Allocations -----

  function Total(x: seq<real>): real {
    if x == [] then 0.0 else x[0] + Total(x[1..])
  }

  function Value(x: seq<real>, bids: seq<Bid>): real
    requires |x| == |bids|
  {
    if x == [] then 0.0 else x[0] * bids[0].price + Value(x[1..], bids[1..])
  }

  /** An allocation takes between nothing and everything of each bid. */
  ghost predicate Allocation(x: seq<real>, bids: seq<Bid>) {
    if x == [] || bids == [] then x == [] && bids == []
    else 0.0 <= x[0] <= bids[0].amount && Allocation(x[1..], bids[1..])
  }

  ghost predicate FallingPrices(bids: seq<Bid>) {
    bids == [] || ((forall b <- bids[1..] :: b.price <= bids[0].price) && FallingPrices(bids[1..]))
  }

  ghost predicate WellFormed(bids: seq<Bid>) {
    forall b <- bids :: b.amount >= 0.0
  }

  /** What the loop takes of one bid with `remaining` still to be spent. */
  function TakenOf(b: Bid, remaining: real): real {
    if remaining <= 0.0 then 0.0 else if remaining >= b.amount then b.amount else remaining
  }

  function Taken(bids: seq<Bid>, remaining: real): (x: seq<real>)
    ensures |x| == |bids|
  {
    if bids == [] then []
    else
      var t := TakenOf(bids[0], remaining);
      [t] + Taken(bids[1..], remaining - t)
  }

  function Filled(bids: seq<Bid>, amount: real): real {
    Total(Taken(bids, amount))
  }

  function Received(bids: seq<Bid>, amount: real): real {
    Value(Taken(bids, amount), bids)
  }

  lemma TakenFirst(bids: seq<Bid>, remaining: real)
    requires bids != []
    ensures var t := TakenOf(bids[0], remaining);
      && Filled(bids, remaining) == t + Filled(bids[1..], remaining - t)
      && Received(bids, remaining) == t * bids[0].price + Received(bids[1..], remaining - t)
  {
  }

  // ----- The loop -----

  method FillFromBook(bids: seq<Bid>, sourceAmount: real)
    returns (totalReceived: real, remainingAmount: real)
    ensures totalReceived == Received(bids, sourceAmount)
    ensures Filled(bids, sourceAmount) + remainingAmount == sourceAmount
  {
    remainingAmount := sourceAmount;
    totalReceived := 0.0;
    ghost var filled := 0.0;
    for i := 0 to |bids|
      invariant filled + remainingAmount == sourceAmount
      invariant totalReceived + Received(bids[i..], remainingAmount) == Received(bids, sourceAmount)
      invariant filled + Filled(bids[i..], remainingAmount) == Filled(bids, sourceAmount)
    {
      if remainingAmount <= 0.0 {
        TakenNothing(bids[i..], remainingAmount);
        return;
      }
      TakenFirst(bids[i..], remainingAmount);
      assert bids[i..][1..] == bids[i + 1..];
      var bidPrice, bidAmount := bids[i].price, bids[i].amount;
      if remainingAmount >= bidAmount {
        totalReceived := totalReceived + bidAmount * bidPrice;
        filled := filled + bidAmount;
        remainingAmount := remainingAmount - bidAmount;
      } else {
        totalReceived := totalReceived + remainingAmount * bidPrice;
        filled := filled + remainingAmount;
        remainingAmount := 0.0;
      }
    }
  }

  method GetBestExchangeRate(sameAsset: bool, bids: seq<Bid>, sourceAmount: real, slippageTolerance: real)
    returns (q: Quote)
    ensures sameAsset ==> q == SameAsset(sourceAmount)
    ensures !sameAsset ==>
      var total := Received(bids, sourceAmount);
      if Filled(bids, sourceAmount) < sourceAmount || total == 0.0 then q == AskForPath
      else
        && q.FromBook?
        && q.rate * sourceAmount == total
        && q.destinationAmount == total * (1.0 - slippageTolerance)
    ensures q.FromBook? && WellFormed(bids) ==>
      forall worst, best :: TouchedWithin(bids, sourceAmount, worst, best) ==> worst <= q.rate <= best
    ensures q.FromBook? && WellFormed(bids) && FallingPrices(bids) ==>
      forall x :: Allocation(x, bids) && |x| == |bids| && Total(x) == sourceAmount ==>
        Value(x, bids) <= q.rate * sourceAmount
  {
    if sameAsset {
      return SameAsset(sourceAmount);
    }
    var totalReceived, remainingAmount := FillFromBook(bids, sourceAmount);
    if remainingAmount > 0.0 || totalReceived == 0.0 {
      return AskForPath;
    }
    if sourceAmount <= 0.0 {
      TakenNothing(bids, sourceAmount);
    }
    q := FromBook(totalReceived / sourceAmount, totalReceived * (1.0 - slippageTolerance));
    if WellFormed(bids) {
      QuoteWithinPrices(bids, sourceAmount, q.rate);
      if FallingPrices(bids) {
        QuoteIsBest(bids, sourceAmount, q.rate);
      }
    }
  }

  lemma {:induction false} TakenNothing(bids: seq<Bid>, remaining: real)
    requires remaining <= 0.0
    ensures Filled(bids, remaining) == 0.0 == Received(bids, remaining)
  {
    if bids != [] {
      TakenFirst(bids, remaining);
      TakenNothing(bids[1..], remaining);
    }
  }

  // ----- The loop is optimal -----

  lemma {:induction false} TakenIsAllocation(bids: seq<Bid>, amount: real)
    requires WellFormed(bids) && amount >= 0.0
    ensures Allocation(Taken(bids, amount), bids)
  {
    if bids != [] {
      TakenIsAllocation(bids[1..], amount - TakenOf(bids[0], amount));
    }
  }

  /** Bids are consumed in book order: a bid is touched only when all before it are used up. */
  lemma {:induction false} TakenInOrder(bids: seq<Bid>, amount: real, i: nat, j: nat)
    requires WellFormed(bids) && i < j < |bids| && Taken(bids, amount)[j] > 0.0
    ensures Taken(bids, amount)[i] == bids[i].amount
  {
    var rest := amount - TakenOf(bids[0], amount);
    if i > 0 {
      TakenInOrder(bids[1..], rest, i - 1, j - 1);
    } else if rest <= 0.0 {
      NothingLeft(bids[1..], rest, j - 1);
    }
  }

  lemma {:induction false} NothingLeft(bids: seq<Bid>, amount: real, j: nat)
    requires amount <= 0.0 && j < |bids|
    ensures Taken(bids, amount)[j] == 0.0
  {
    if j > 0 {
      NothingLeft(bids[1..], amount, j - 1);
    }
  }

  /** A bid is left over only when the whole amount is spent. */
  lemma {:induction false} LeftOverMeansSpent(bids: seq<Bid>, amount: real, i: nat)
    requires WellFormed(bids) && amount >= 0.0 && i < |bids| && Taken(bids, amount)[i] < bids[i].amount
    ensures Filled(bids, amount) == amount
  {
    TakenFirst(bids, amount);
    var rest := amount - TakenOf(bids[0], amount);
    if i > 0 {
      LeftOverMeansSpent(bids[1..], rest, i - 1);
    } else {
      TakenNothing(bids[1..], rest);
    }
  }

  lemma {:induction false} AllocationTotal(x: seq<real>, bids: seq<Bid>)
    requires Allocation(x, bids)
    ensures |x| == |bids| && Total(x) >= 0.0
  {
    if x != [] {
      AllocationTotal(x[1..], bids[1..]);
    }
  }

  lemma ScaleLe(k: real, p: real, q: real)
    requires k >= 0.0 && p <= q
    ensures k * p <= k * q
  {
  }

  /** Spending `d` more on bids priced at most `p` brings at most `d * p` more. */
  lemma {:induction false} MarginalValue(bids: seq<Bid>, r: real, d: real, p: real)
    requires WellFormed(bids) && r >= 0.0 && d >= 0.0
    requires forall b <- bids :: b.price <= p
    requires Filled(bids, r + d) == r + d
    ensures Received(bids, r + d) <= Received(bids, r) + d * p
  {
    if bids != [] {
      var q, rest := bids[0].price, bids[1..];
      var t, u := TakenOf(bids[0], r), TakenOf(bids[0], r + d);
      TakenFirst(bids, r);
      TakenFirst(bids, r + d);
      MarginalValue(rest, r - t, d - (u - t), p);
      ScaleLe(u - t, q, p);
      Distribute(d, u - t, p);
      Distribute(u, t, q);
    }
  }

  lemma Distribute(a: real, b: real, p: real)
    ensures (a - b) * p == a * p - b * p
  {
  }

  /**
    Sorted by falling price and with enough liquidity, what the loop receives is the most that
    any allocation of the source amount brings.
   */
  lemma {:induction false} FillIsOptimal(bids: seq<Bid>, amount: real, x: seq<real>)
    requires WellFormed(bids) && FallingPrices(bids)
    requires |x| == |bids| && Allocation(x, bids) && Total(x) == amount
    ensures Filled(bids, amount) == amount
    ensures Value(x, bids) <= Received(bids, amount)
  {
    if bids == [] {
      assert x == [];
    } else {
      FillIsOptimal(bids[1..], amount - x[0], x[1..]);
      AllocationTotal(x[1..], bids[1..]);
      FirstBidFirst(bids, amount, x[0], Value(x[1..], bids[1..]));
    }
  }

  lemma RestGains(rest: seq<Bid>, more: real, less: real, p: real)
    requires WellFormed(rest) && 0.0 <= less <= more && Filled(rest, more) == more
    requires forall b <- rest :: b.price <= p
    ensures Filled(rest, less) == less && Received(rest, more) <= Received(rest, less) + (more - less) * p
  {
    FilledBelow(rest, more, less);
    MarginalValue(rest, less, more - less, p);
  }

  /** Moving an allocation's share of the first bid up to what the loop takes loses nothing. */
  lemma FirstBidFirst(bids: seq<Bid>, amount: real, share: real, value: real)
    requires WellFormed(bids) && bids != []
    requires forall b <- bids[1..] :: b.price <= bids[0].price
    requires 0.0 <= share <= bids[0].amount && share <= amount
    requires Filled(bids[1..], amount - share) == amount - share
    requires value <= Received(bids[1..], amount - share)
    ensures Filled(bids, amount) == amount
    ensures share * bids[0].price + value <= Received(bids, amount)
  {
    var p, rest := bids[0].price, bids[1..];
    var t := TakenOf(bids[0], amount);
    TakenFirst(bids, amount);
    RestGains(rest, amount - share, amount - t, p);
    MoveToTop(share, t, p, value, Received(rest, amount - share), Received(rest, amount - t));
  }

  lemma MoveToTop(x: real, t: real, p: real, value: real, before: real, after: real)
    requires value <= before <= after + (t - x) * p
    ensures x * p + value <= t * p + after
  {
  }

  /** If a larger amount can be filled, so can a smaller one. */
  lemma {:induction false} FilledBelow(bids: seq<Bid>, more: real, less: real)
    requires WellFormed(bids) && 0.0 <= less <= more && Filled(bids, more) == more
    ensures Filled(bids, less) == less
  {
    if bids != [] {
      TakenFirst(bids, more);
      TakenFirst(bids, less);
      FilledBelow(bids[1..], more - TakenOf(bids[0], more), less - TakenOf(bids[0], less));
    }
  }

  /** Every bid the loop takes something of is priced between `worst` and `best`. */
  ghost predicate TouchedWithin(bids: seq<Bid>, amount: real, worst: real, best: real) {
    bids == [] ||
    var t := TakenOf(bids[0], amount);
    (t > 0.0 ==> worst <= bids[0].price <= best) && TouchedWithin(bids[1..], amount - t, worst, best)
  }

  /** The rate lies between the worst and the best price of the bids that were touched. */
  lemma {:induction false} RateBetweenPrices(bids: seq<Bid>, amount: real, worst: real, best: real)
    requires WellFormed(bids) && amount >= 0.0
    requires TouchedWithin(bids, amount, worst, best)
    ensures Filled(bids, amount) * worst <= Received(bids, amount) <= Filled(bids, amount) * best
  {
    if bids == [] {
      assert Filled(bids, amount) == 0.0 == Received(bids, amount);
    } else {
      var t, rest := TakenOf(bids[0], amount), bids[1..];
      RateBetweenPrices(rest, amount - t, worst, best);
      TakenFirst(bids, amount);
      Average(t, bids[0].price, Filled(rest, amount - t), Received(rest, amount - t), worst, best);
    }
  }

  lemma Average(t: real, p: real, filled: real, received: real, worst: real, best: real)
    requires t >= 0.0 && (t > 0.0 ==> worst <= p <= best)
    requires filled * worst <= received <= filled * best
    ensures (t + filled) * worst <= t * p + received <= (t + filled) * best
  {
    if t > 0.0 {
      ScaleLe(t, worst, p);
      ScaleLe(t, p, best);
    }
    assert (t + filled) * worst == t * worst + filled * worst;
    assert (t + filled) * best == t * best + filled * best;
  }

  lemma {:induction false} FilledAtMost(bids: seq<Bid>, amount: real)
    requires WellFormed(bids) && amount >= 0.0
    ensures Filled(bids, amount) <= amount
  {
    if bids != [] {
      TakenFirst(bids, amount);
      FilledAtMost(bids[1..], amount - TakenOf(bids[0], amount));
    }
  }

  lemma RateBounds(amount: real, worst: real, rate: real, best: real)
    requires amount > 0.0 && amount * worst <= rate * amount <= amount * best
    ensures worst <= rate <= best
  {
  }

  /** The rate of a quote from the book lies between the worst and the best price touched. */
  lemma QuoteWithinPrices(bids: seq<Bid>, amount: real, rate: real)
    requires WellFormed(bids) && amount > 0.0 && Filled(bids, amount) >= amount
    requires rate * amount == Received(bids, amount)
    ensures forall worst, best :: TouchedWithin(bids, amount, worst, best) ==> worst <= rate <= best
  {
    FilledAtMost(bids, amount);
    forall worst, best | TouchedWithin(bids, amount, worst, best)
      ensures worst <= rate <= best
    {
      RateBetweenPrices(bids, amount, worst, best);
      RateBounds(amount, worst, rate, best);
    }
  }

  /** No allocation of the source amount beats the rate of a quote from a sorted book. */
  lemma QuoteIsBest(bids: seq<Bid>, amount: real, rate: real)
    requires WellFormed(bids) && FallingPrices(bids) && rate * amount == Received(bids, amount)
    ensures forall x :: Allocation(x, bids) && |x| == |bids| && Total(x) == amount ==>
      Value(x, bids) <= rate * amount
  {
    forall x | Allocation(x, bids) && |x| == |bids| && Total(x) == amount
      ensures Value(x, bids) <= rate * amount
    {
      FillIsOptimal(bids, amount, x);
    }
  }
}
