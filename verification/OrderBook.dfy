/** Walking an order book: a greedy fill over levels sorted best first. */
module OrderBook {
  import opened JsMath
  import opened Core

  datatype Level = Level(price: int, qty: int)

  datatype Book = Book(bids: seq<Level>, asks: seq<Level>, bestBid: Level, bestAsk: Level)

  datatype Fill = Fill(price: int, qty: int, cost: int)

  datatype WalkResult = WalkResult(
    avgPrice: int, totalCost: int, slippageBps: int, levelsConsumed: nat, fullyFilled: bool, fills: seq<Fill>)

  function Levels(book: Book, side: Side): seq<Level> { if side.Buy? then book.asks else book.bids }

  function BestPrice(book: Book, side: Side): int { if side.Buy? then book.bestAsk.price else book.bestBid.price }

  function FillAt(l: Level, remaining: int): Fill {
    var filled := if remaining < l.qty then remaining else l.qty;
    Fill(l.price, filled, TruncDiv(filled * l.price, PRICE_SCALE))
  }

  /** The fills of a walk that still wants `remaining`. */
  function FillsOf(levels: seq<Level>, remaining: int): seq<Fill> {
    if levels == [] || remaining <= 0 then []
    else
      var f := FillAt(levels[0], remaining);
      [f] + FillsOf(levels[1..], remaining - f.qty)
  }

  function Quantity(fills: seq<Fill>): int { if fills == [] then 0 else fills[0].qty + Quantity(fills[1..]) }

  function Cost(fills: seq<Fill>): int { if fills == [] then 0 else fills[0].cost + Cost(fills[1..]) }

  function Slippage(side: Side, avgPrice: int, bestPrice: int): int {
    if bestPrice > 0 && avgPrice > 0 then
      var bps := if side.Buy? then TruncDiv((avgPrice - bestPrice) * BPS, bestPrice)
                 else TruncDiv((bestPrice - avgPrice) * BPS, bestPrice);
      if bps < 0 then 0 else bps
    else 0
  }

  function Walk(book: Book, side: Side, qty: int): WalkResult {
    var fills := FillsOf(Levels(book, side), qty);
    var totalFilled := Quantity(fills);
    var avgPrice := if totalFilled > 0 then TruncDiv(Cost(fills) * PRICE_SCALE, totalFilled) else 0;
    WalkResult(avgPrice, Cost(fills), Slippage(side, avgPrice, BestPrice(book, side)), |fills|,
               qty - totalFilled <= 0, fills)
  }

  lemma {:induction false} Totals(fills: seq<Fill>, f: Fill)
    ensures Quantity(fills + [f]) == Quantity(fills) + f.qty
    ensures Cost(fills + [f]) == Cost(fills) + f.cost
  {
    if fills == [] {
      assert fills + [f] == [f] && [f][1..] == [];
    } else {
      assert (fills + [f])[1..] == fills[1..] + [f];
      Totals(fills[1..], f);
    }
  }

  /** The loop stands at level i: its fills and those still to come make up the walk. */
  ghost predicate Walked(levels: seq<Level>, qty: int, i: nat, fills: seq<Fill>, remaining: int) {
    && i <= |levels| && remaining == qty - Quantity(fills)
    && fills + FillsOf(levels[i..], remaining) == FillsOf(levels, qty)
  }

  lemma NextFill(levels: seq<Level>, qty: int, i: nat, fills: seq<Fill>, remaining: int)
    requires i < |levels| && remaining > 0 && Walked(levels, qty, i, fills, remaining)
    ensures var f := FillAt(levels[i], remaining);
            Walked(levels, qty, i + 1, fills + [f], remaining - f.qty)
  {
    var f := FillAt(levels[i], remaining);
    assert levels[i..][1..] == levels[i + 1..];
    assert (fills + [f]) + FillsOf(levels[i + 1..], remaining - f.qty) == fills + FillsOf(levels[i..], remaining);
    Totals(fills, f);
  }

  lemma WalkEnds(levels: seq<Level>, qty: int, i: nat, fills: seq<Fill>, remaining: int)
    requires Walked(levels, qty, i, fills, remaining) && (i == |levels| || remaining <= 0)
    ensures fills == FillsOf(levels, qty) && remaining == qty - Quantity(FillsOf(levels, qty))
  {
    assert FillsOf(levels[i..], remaining) == [];
  }

  /** A quantity in whole units, brought to the fixed-point scale. */
  function Scaled(qty: real): int { Round(qty * PRICE_SCALE as real) }

  method WalkTheBook(book: Book, side: Side, quantity: real) returns (r: WalkResult)
    ensures r == Walk(book, side, Scaled(quantity))
  {
    var qty := Scaled(quantity);
    var levels := if side == Buy then book.asks else book.bids;
    var bestPrice := if side == Buy then book.bestAsk.price else book.bestBid.price;
    var remaining := qty;
    var totalCost := 0;
    var fills := [];
    var i := 0;
    while i < |levels|
      invariant 0 <= i <= |levels|
      invariant Walked(levels, qty, i, fills, remaining)
      invariant totalCost == Cost(fills)
    {
      if remaining <= 0 {
        break;
      }
      var fill := FillAt(levels[i], remaining);
      NextFill(levels, qty, i, fills, remaining);
      Totals(fills, fill);
      fills := fills + [fill];
      totalCost := totalCost + fill.cost;
      remaining := remaining - fill.qty;
      i := i + 1;
    }
    WalkEnds(levels, qty, i, fills, remaining);
    var totalFilled := qty - remaining;
    var avgPrice := if totalFilled > 0 then TruncDiv(totalCost * PRICE_SCALE, totalFilled) else 0;
    var slippageBps := Slippage(side, avgPrice, bestPrice);
    return WalkResult(avgPrice, totalCost, slippageBps, |fills|, remaining <= 0, fills);
  }

  // ----- how much is filled -----

  predicate NonNegative(levels: seq<Level>) {
    forall i :: 0 <= i < |levels| ==> levels[i].price >= 0 && levels[i].qty >= 0
  }

  function Depth(levels: seq<Level>): int { if levels == [] then 0 else levels[0].qty + Depth(levels[1..]) }

  lemma {:induction false} DepthNonNegative(levels: seq<Level>)
    requires forall i :: 0 <= i < |levels| ==> levels[i].qty >= 0
    ensures Depth(levels) >= 0
  {
    if levels != [] { DepthNonNegative(levels[1..]); }
  }

  /** A walk fills exactly the lesser of what was asked and what is there, level by level. */
  lemma {:induction false} FillsExactly(levels: seq<Level>, q: int)
    requires NonNegative(levels)
    ensures Quantity(FillsOf(levels, q)) == Min(Max(q, 0), Depth(levels))
    ensures |FillsOf(levels, q)| <= |levels|
    ensures forall i :: 0 <= i < |FillsOf(levels, q)| ==>
              FillsOf(levels, q)[i].price == levels[i].price && 0 <= FillsOf(levels, q)[i].qty <= levels[i].qty
  {
    DepthNonNegative(levels);
    if levels != [] && q > 0 {
      FillsExactly(levels[1..], q - FillAt(levels[0], q).qty);
      DepthNonNegative(levels[1..]);
      assert forall i :: 1 <= i < |levels| ==> levels[i] == levels[1..][i - 1];
    }
  }

  lemma FullyFilledIff(book: Book, side: Side, qty: int)
    requires NonNegative(Levels(book, side))
    ensures Walk(book, side, qty).fullyFilled <==> qty <= Depth(Levels(book, side))
  {
    FillsExactly(Levels(book, side), qty);
    DepthNonNegative(Levels(book, side));
  }

  // ----- what it costs -----

  /** The cost of the fills before rounding, at twice the scale. */
  function ExactCost(fills: seq<Fill>): int {
    if fills == [] then 0 else fills[0].qty * fills[0].price + ExactCost(fills[1..])
  }

  /** An allocation takes some quantity, within the level's, from every level. */
  predicate Fits(levels: seq<Level>, alloc: seq<int>) {
    |alloc| == |levels| && forall i :: 0 <= i < |levels| ==> 0 <= alloc[i] <= levels[i].qty
  }

  function Amount(alloc: seq<int>): int { if alloc == [] then 0 else alloc[0] + Amount(alloc[1..]) }

  function Value(levels: seq<Level>, alloc: seq<int>): int
    requires |alloc| == |levels|
  {
    if levels == [] then 0 else alloc[0] * levels[0].price + Value(levels[1..], alloc[1..])
  }

  predicate Ascending(levels: seq<Level>) {
    forall i, j :: 0 <= i < j < |levels| ==> levels[i].price <= levels[j].price
  }

  predicate Descending(levels: seq<Level>) {
    forall i, j :: 0 <= i < j < |levels| ==> levels[i].price >= levels[j].price
  }

  /** What a greedy taker of `q` pays, before rounding. */
  function GreedyCost(levels: seq<Level>, q: int): int {
    if levels == [] || q <= 0 then 0
    else
      var f := Min(q, levels[0].qty);
      f * levels[0].price + GreedyCost(levels[1..], q - f)
  }

  lemma {:induction false} FillsAreGreedy(levels: seq<Level>, q: int)
    ensures ExactCost(FillsOf(levels, q)) == GreedyCost(levels, q)
  {
    if levels != [] && q > 0 {
      FillsAreGreedy(levels[1..], q - FillAt(levels[0], q).qty);
    }
  }

  lemma {:induction false} AmountBounds(levels: seq<Level>, alloc: seq<int>)
    requires Fits(levels, alloc)
    ensures 0 <= Amount(alloc) <= Depth(levels)
  {
    if levels != [] { AmountBounds(levels[1..], alloc[1..]); }
  }

  lemma IncrementArithmetic(p: int, low: int, f: int, f': int, d: int, c: int, c': int)
    requires low <= p && f <= f' && c' >= c + (d - (f' - f)) * low
    ensures f' * p + c' >= f * p + c + d * low
  {
    MulMono(low, p, f' - f);
    assert (f' - f) * p == f' * p - f * p && (d - (f' - f)) * low == d * low - (f' - f) * low;
    assert low * (f' - f) == (f' - f) * low && p * (f' - f) == (f' - f) * p;
  }

  /** Every further unit costs at least the lowest price left. */
  lemma {:induction false} GreedyIncrement(levels: seq<Level>, q: int, d: int, low: int)
    requires forall i :: 0 <= i < |levels| ==> levels[i].price >= low && levels[i].qty >= 0
    requires 0 <= q && 0 <= d && q + d <= Depth(levels)
    ensures GreedyCost(levels, q + d) >= GreedyCost(levels, q) + d * low
  {
    if d > 0 && levels != [] {
      var q0, rest := levels[0].qty, levels[1..];
      var f, f' := Min(q, q0), Min(q + d, q0);
      DepthNonNegative(rest);
      GreedyIncrement(rest, q - f, d - (f' - f), low);
      assert (q - f) + (d - (f' - f)) == q + d - f';
      assert GreedyCost(levels, q) == f * levels[0].price + GreedyCost(rest, q - f);
      IncrementArithmetic(levels[0].price, low, f, f', d, GreedyCost(rest, q - f), GreedyCost(rest, q + d - f'));
    }
  }

  /** Taking less than the best level offers is never cheaper. */
  lemma TakingLess(levels: seq<Level>, q: int, a: int)
    requires levels != [] && Ascending(levels) && forall i :: 0 <= i < |levels| ==> levels[i].qty >= 0
    requires 0 <= a <= q <= Depth(levels) && a <= levels[0].qty && q - a <= Depth(levels[1..])
    ensures GreedyCost(levels, q) <= a * levels[0].price + GreedyCost(levels[1..], q - a)
  {
    var p, rest, f := levels[0].price, levels[1..], Min(q, levels[0].qty);
    DepthNonNegative(rest);
    GreedyIncrement(rest, q - f, f - a, p);
    assert (q - f) + (f - a) == q - a;
    assert f * p == a * p + (f - a) * p;
  }

  /** No allocation of the same quantity is cheaper than the greedy one. */
  lemma {:induction false} GreedyIsCheapest(levels: seq<Level>, alloc: seq<int>)
    requires Ascending(levels) && Fits(levels, alloc)
    ensures GreedyCost(levels, Amount(alloc)) <= Value(levels, alloc)
  {
    if levels != [] {
      assert Fits(levels[1..], alloc[1..]) && Ascending(levels[1..]);
      GreedyIsCheapest(levels[1..], alloc[1..]);
      AmountBounds(levels, alloc);
      AmountBounds(levels[1..], alloc[1..]);
      TakingLess(levels, Amount(alloc), alloc[0]);
    }
  }

  function Negated(levels: seq<Level>): (r: seq<Level>)
    ensures |r| == |levels| && forall i :: 0 <= i < |r| ==> r[i] == Level(-levels[i].price, levels[i].qty)
  {
    if levels == [] then [] else [Level(-levels[0].price, levels[0].qty)] + Negated(levels[1..])
  }

  lemma {:induction false} NegatedCosts(levels: seq<Level>, q: int, alloc: seq<int>)
    requires |alloc| == |levels|
    ensures GreedyCost(Negated(levels), q) == -GreedyCost(levels, q)
    ensures Value(Negated(levels), alloc) == -Value(levels, alloc)
  {
    if levels != [] {
      NegatedCosts(levels[1..], q - Min(q, levels[0].qty), alloc[1..]);
    }
  }

  /** The walk is optimal: among all ways to trade the quantity it fills, a buy pays least and
      a sell receives most. */
  lemma WalkIsOptimal(book: Book, side: Side, qty: int, alloc: seq<int>)
    requires var levels := Levels(book, side);
             NonNegative(levels) && (if side.Buy? then Ascending(levels) else Descending(levels))
    requires Fits(Levels(book, side), alloc) && Amount(alloc) == Quantity(Walk(book, side, qty).fills)
    ensures var exact := ExactCost(Walk(book, side, qty).fills);
            if side.Buy? then exact <= Value(Levels(book, side), alloc)
            else exact >= Value(Levels(book, side), alloc)
  {
    var levels := Levels(book, side);
    FillsExactly(levels, qty);
    FillsAreGreedy(levels, qty);
    DepthNonNegative(levels);
    GreedyCapped(levels, qty);
    if side.Buy? {
      GreedyIsCheapest(levels, alloc);
    } else {
      GreedyIsCheapest(Negated(levels), alloc);
      NegatedCosts(levels, Amount(alloc), alloc);
    }
  }

  /** Asking for more than is there buys what is there. */
  lemma {:induction false} GreedyCapped(levels: seq<Level>, q: int)
    requires NonNegative(levels)
    ensures GreedyCost(levels, Min(Max(q, 0), Depth(levels))) == GreedyCost(levels, q)
  {
    DepthNonNegative(levels);
    if levels != [] && q > 0 {
      DepthNonNegative(levels[1..]);
      var f := Min(q, levels[0].qty);
      GreedyCapped(levels[1..], q - f);
      var c := Min(q, Depth(levels));
      if c <= 0 {
        assert levels[0].qty == 0 && Depth(levels[1..]) == 0;
        GreedyOfEmpty(levels[1..], q);
      }
    }
  }

  lemma {:induction false} GreedyOfEmpty(levels: seq<Level>, q: int)
    requires NonNegative(levels) && Depth(levels) == 0
    ensures GreedyCost(levels, q) == 0
  {
    if levels != [] && q > 0 {
      DepthNonNegative(levels[1..]);
      GreedyOfEmpty(levels[1..], q);
    }
  }

  // ----- rounding -----

  /** Rounding each fill down loses less than one unit a fill. */
  lemma {:induction false} RoundingLoss(fills: seq<Fill>)
    requires forall i :: 0 <= i < |fills| ==>
               fills[i].cost * PRICE_SCALE <= fills[i].qty * fills[i].price < (fills[i].cost + 1) * PRICE_SCALE
    ensures Cost(fills) * PRICE_SCALE <= ExactCost(fills)
    ensures fills != [] ==> ExactCost(fills) < (Cost(fills) + |fills|) * PRICE_SCALE
    ensures fills == [] ==> ExactCost(fills) == 0
  {
    if fills != [] {
      RoundingLoss(fills[1..]);
    }
  }

  lemma {:induction false} FillsRoundDown(levels: seq<Level>, q: int)
    requires NonNegative(levels)
    ensures forall i :: 0 <= i < |FillsOf(levels, q)| ==>
              var f := FillsOf(levels, q)[i];
              f.cost * PRICE_SCALE <= f.qty * f.price < (f.cost + 1) * PRICE_SCALE
  {
    if levels != [] && q > 0 {
      var f := FillAt(levels[0], q);
      MulMono(0, f.qty, f.price);
      TruncDivBounds(f.qty * f.price, PRICE_SCALE);
      FillsRoundDown(levels[1..], q - f.qty);
    }
  }

  lemma WalkRoundingLoss(book: Book, side: Side, qty: int)
    requires NonNegative(Levels(book, side))
    ensures var w := Walk(book, side, qty);
            && w.totalCost * PRICE_SCALE <= ExactCost(w.fills)
            && (w.fills != [] ==> ExactCost(w.fills) < (w.totalCost + w.levelsConsumed) * PRICE_SCALE)
  {
    FillsRoundDown(Levels(book, side), qty);
    RoundingLoss(FillsOf(Levels(book, side), qty));
  }

  lemma {:induction false} ExactCostBetween(fills: seq<Fill>, low: int, high: int)
    requires forall i :: 0 <= i < |fills| ==> low <= fills[i].price <= high && fills[i].qty >= 0
    ensures low * Quantity(fills) <= ExactCost(fills) <= high * Quantity(fills)
  {
    if fills != [] {
      ExactCostBetween(fills[1..], low, high);
      var q, p := fills[0].qty, fills[0].price;
      MulMono(low, p, q);
      MulMono(p, high, q);
      assert low * Quantity(fills) == low * q + low * Quantity(fills[1..]);
      assert high * Quantity(fills) == high * q + high * Quantity(fills[1..]);
    }
  }

  /** An average, from the bounds on the cost it is taken of. */
  lemma AverageArithmetic(cost: int, exact: int, n: int, fills: int, low: int, high: int)
    requires n > 0 && 0 <= cost && cost * PRICE_SCALE <= exact < (cost + fills) * PRICE_SCALE
    requires low * n <= exact <= high * n
    ensures var avg := TruncDiv(cost * PRICE_SCALE, n);
            0 <= avg <= high && (low - avg - 1) * n < fills * PRICE_SCALE
  {
    var avg := TruncDiv(cost * PRICE_SCALE, n);
    TruncDivBounds(cost * PRICE_SCALE, n);
    MulCancel(avg, high, n);
    assert (low - avg - 1) * n == low * n - (avg + 1) * n;
  }

  /** The average never exceeds the highest price consumed, and falls short of the lowest only
      by the rounding: one unit of price, plus one unit of cost for each fill. */
  lemma AveragePriceBounds(book: Book, side: Side, qty: int, low: int, high: int)
    requires NonNegative(Levels(book, side))
    requires forall f :: f in Walk(book, side, qty).fills ==> low <= f.price <= high
    requires Quantity(Walk(book, side, qty).fills) > 0
    ensures var w := Walk(book, side, qty);
            && 0 <= w.avgPrice <= high
            && (low - w.avgPrice - 1) * Quantity(w.fills) < w.levelsConsumed * PRICE_SCALE
  {
    var w := Walk(book, side, qty);
    FillsExactly(Levels(book, side), qty);
    WalkRoundingLoss(book, side, qty);
    ExactCostBetween(w.fills, low, high);
    CostNonNegative(Levels(book, side), qty);
    AverageArithmetic(w.totalCost, ExactCost(w.fills), Quantity(w.fills), w.levelsConsumed, low, high);
  }

  lemma {:induction false} CostNonNegative(levels: seq<Level>, q: int)
    requires NonNegative(levels)
    ensures Cost(FillsOf(levels, q)) >= 0
  {
    if levels != [] && q > 0 {
      var f := FillAt(levels[0], q);
      MulMono(0, f.qty, f.price);
      CostNonNegative(levels[1..], q - f.qty);
    }
  }

  /** What the summary of a walk says of its fills: their number, their whole cost, whether they make
      up what was asked, and the cost of one unit, rounded down; nothing filled has no average. */
  lemma SummaryIsOfFills(book: Book, side: Side, qty: int)
    requires NonNegative(Levels(book, side))
    ensures var w := Walk(book, side, qty);
            && w.levelsConsumed == |w.fills| && w.totalCost == Cost(w.fills)
            && (w.fullyFilled <==> Quantity(w.fills) >= qty)
            && (if Quantity(w.fills) > 0
                then w.avgPrice * Quantity(w.fills) <= w.totalCost * PRICE_SCALE < (w.avgPrice + 1) * Quantity(w.fills)
                else w.avgPrice == 0)
  {
    var w := Walk(book, side, qty);
    CostNonNegative(Levels(book, side), qty);
    if Quantity(w.fills) > 0 {
      TruncDivBounds(w.totalCost * PRICE_SCALE, Quantity(w.fills));
    }
  }

  /** Each fill takes what is still wanted, or the level when that is less, at the level's price, and
      costs their product, rounded down. */
  lemma {:induction false} FillsTakeLevels(levels: seq<Level>, qty: int, i: nat)
    requires NonNegative(levels) && i < |FillsOf(levels, qty)|
    ensures i < |levels|
    ensures var f, before := FillsOf(levels, qty)[i], Quantity(FillsOf(levels, qty)[..i]);
            && f.price == levels[i].price && f.qty == Min(qty - before, levels[i].qty) && before < qty
            && f.cost * PRICE_SCALE <= f.qty * f.price < (f.cost + 1) * PRICE_SCALE
  {
    FillsRoundDown(levels, qty);
    var fills, f := FillsOf(levels, qty), FillAt(levels[0], qty);
    if i > 0 {
      FillsTakeLevels(levels[1..], qty - f.qty, i - 1);
      assert fills[1..] == FillsOf(levels[1..], qty - f.qty);
      assert fills[..i][0] == f && fills[..i][1..] == fills[1..][..i - 1];
    }
  }

  /** The slippage of a walk is what its average loses against the best price, in whole basis points
      of the best price, and none when it loses nothing or there is no average. */
  lemma WalkSlippage(book: Book, side: Side, qty: int)
    ensures var w, best := Walk(book, side, qty),
                           if side.Buy? then book.bestAsk.price else book.bestBid.price;
            var loss := if side.Buy? then w.avgPrice - best else best - w.avgPrice;
            if w.avgPrice <= 0 || best <= 0 || loss <= 0 then w.slippageBps == 0
            else w.slippageBps * best <= loss * 10_000 < (w.slippageBps + 1) * best
  {
    var w, best := Walk(book, side, qty), BestPrice(book, side);
    if w.avgPrice > 0 && best > 0 { SlippageMeasuresLoss(side, w.avgPrice, best); }
  }

  /** Slippage is the loss against the best price, in whole basis points of it, and never negative. */
  lemma SlippageMeasuresLoss(side: Side, avgPrice: int, bestPrice: int)
    requires avgPrice > 0 && bestPrice > 0
    ensures var loss := if side.Buy? then avgPrice - bestPrice else bestPrice - avgPrice;
            var bps := Slippage(side, avgPrice, bestPrice);
            if loss <= 0 then bps == 0 else bps >= 0 && bps * bestPrice <= loss * BPS < (bps + 1) * bestPrice
  {
    var loss := if side.Buy? then avgPrice - bestPrice else bestPrice - avgPrice;
    TruncDivBounds(loss * BPS, bestPrice);
  }

  /** A sell never averages above the best bid. */
  lemma SellAtMostBestBid(book: Book, qty: int)
    requires NonNegative(book.bids) && Descending(book.bids) && book.bids != [] && book.bestBid == book.bids[0]
    ensures 0 <= Walk(book, Sell, qty).avgPrice <= book.bestBid.price
  {
    var w := Walk(book, Sell, qty);
    FillsExactly(book.bids, qty);
    if Quantity(w.fills) > 0 {
      forall f | f in w.fills
        ensures 0 <= f.price <= book.bestBid.price
      {
        var i :| 0 <= i < |w.fills| && w.fills[i] == f;
      }
      AveragePriceBounds(book, Sell, qty, 0, book.bestBid.price);
    }
  }

  /** Both sides sorted best first, with the best levels at the head. */
  predicate Sorted(ob: Book) {
    && NonNegative(ob.bids) && Descending(ob.bids) && ob.bids != [] && ob.bestBid == ob.bids[0]
    && NonNegative(ob.asks) && Ascending(ob.asks) && ob.asks != [] && ob.bestAsk == ob.asks[0]
  }

  /** The best prices are further apart than the rounding of a walk of this size can reach. */
  predicate RoomForRounding(ob: Book, qty: int) {
    qty > 0 && (ob.bestAsk.price - 1 - ob.bestBid.price) * qty >= |ob.asks| * PRICE_SCALE
  }

  lemma BuyAboveBestBid(ob: Book, qty: int)
    requires Sorted(ob) && RoomForRounding(ob, qty) && qty <= Depth(ob.asks)
    ensures Walk(ob, Buy, qty).avgPrice > ob.bestBid.price
  {
    var w := Walk(ob, Buy, qty);
    FillsExactly(ob.asks, qty);
    var low, high := ob.bestAsk.price, ob.asks[|ob.asks| - 1].price;
    forall f | f in w.fills
      ensures low <= f.price <= high
    {
      var i :| 0 <= i < |w.fills| && w.fills[i] == f;
    }
    AveragePriceBounds(ob, Buy, qty, low, high);
    if w.avgPrice <= ob.bestBid.price {
      MulMono(low - 1 - ob.bestBid.price, low - w.avgPrice - 1, qty);
    }
  }

  /** The roundings of the two averages cannot cross a book whose best prices leave room. */
  lemma AveragesDoNotCross(ob: Book, qty: int)
    requires Sorted(ob) && RoomForRounding(ob, qty) && Walk(ob, Buy, qty).fullyFilled
    ensures Walk(ob, Sell, qty).avgPrice <= Walk(ob, Buy, qty).avgPrice
  {
    FullyFilledIff(ob, Buy, qty);
    SellAtMostBestBid(ob, qty);
    BuyAboveBestBid(ob, qty);
  }

  // ----- depth near the best price -----

  /** A price is in range when it is worse than the best one by at most `bps` of every 10000 of it: a
      bid lies below the best bid, an ask above the best ask. */
  predicate InRange(side: Side, best: int, bps: int, price: int) {
    (if side.Sell? then best - price else price - best) * 10_000 <= best * bps
  }

  /** The quantity at all levels within range, wherever they stand. */
  function DepthInRange(levels: seq<Level>, side: Side, best: int, bps: int): int {
    if levels == [] then 0
    else (if InRange(side, best, bps, levels[0].price) then levels[0].qty else 0)
         + DepthInRange(levels[1..], side, best, bps)
  }

  lemma {:induction false} NothingInRange(levels: seq<Level>, side: Side, best: int, bps: int)
    requires forall i :: 0 <= i < |levels| ==> !InRange(side, best, bps, levels[i].price)
    ensures DepthInRange(levels, side, best, bps) == 0
  {
    if levels != [] { NothingInRange(levels[1..], side, best, bps); }
  }

  /** The levels in range are the first ones, those priced within the band around the best price. */
  lemma {:induction false} BandIsFront(levels: seq<Level>, side: Side, best: int, bps: int) returns (n: nat)
    requires if side.Buy? then Ascending(levels) else Descending(levels)
    ensures n <= |levels| && DepthInRange(levels, side, best, bps) == Depth(levels[..n])
    ensures forall i :: 0 <= i < |levels| ==>
              (i < n <==> if side.Sell? then levels[i].price * 10_000 >= best * (10_000 - bps)
                          else levels[i].price * 10_000 <= best * (10_000 + bps))
  {
    assert best * (10_000 - bps) == best * 10_000 - best * bps && best * (10_000 + bps) == best * 10_000 + best * bps;
    if levels == [] || !InRange(side, best, bps, levels[0].price) {
      NothingInRange(levels, side, best, bps);
      n := 0;
    } else {
      var m := BandIsFront(levels[1..], side, best, bps);
      n := m + 1;
      assert levels[..n][1..] == levels[1..][..m];
      assert forall i :: 1 <= i < |levels| ==> levels[i] == levels[1..][i - 1];
    }
  }

  /** Stopping at the first level out of range misses nothing, because levels are sorted.
      The bid side is walked as `Sell`, the ask side as `Buy`. */
  method DepthAtBps(book: Book, side: Side, bps: int) returns (total: int)
    requires if side.Buy? then Ascending(book.asks) else Descending(book.bids)
    ensures total == DepthInRange(Levels(book, side), side, BestPrice(book, side), bps)
  {
    var levels := if side == Sell then book.bids else book.asks;
    var best := if side == Sell then book.bestBid.price else book.bestAsk.price;
    total := 0;
    for i := 0 to |levels|
      invariant total + DepthInRange(levels[i..], side, best, bps) == DepthInRange(levels, side, best, bps)
    {
      var Level(price, qty) := levels[i];
      assert levels[i..][1..] == levels[i + 1..];
      var inRange := if side == Sell then price * BPS >= best * (BPS - bps) else price * BPS <= best * (BPS + bps);
      if !inRange {
        NothingInRange(levels[i..], side, best, bps);
        return;
      }
      total := total + qty;
    }
  }
}
