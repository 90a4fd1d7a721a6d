/** Balances per venue and asset, and how trades move them. */
module Inventory {
  import opened JsMath
  import opened Core

  datatype Venue = Binance | Wallet

  datatype Balance = Balance(free: int, locked: int)

  type Assets = map<string, Balance>

  function Holding(m: Assets, asset: string): int {
    if asset in m then m[asset].free + m[asset].locked else 0
  }

  function Adjusted(m: Assets, asset: string, delta: int): Assets {
    var current := if asset in m then m[asset] else Balance(0, 0);
    m[asset := Balance(current.free + delta, current.locked)]
  }

  /** One completed trade on one venue. */
  datatype Trade = Trade(side: Side, base: string, quote: string, baseAmount: int,
    quoteAmount: int, fee: int, feeAsset: string)

  function Traded(m: Assets, t: Trade): Assets {
    var sign := if t.side.Buy? then 1 else -1;
    Adjusted(Adjusted(Adjusted(m, t.base, sign * t.baseAmount), t.quote, -sign * t.quoteAmount), t.feeAsset, -t.fee)
  }

  /** What a trade adds to the holding of one asset, even when its assets coincide. */
  function Delta(t: Trade, asset: string): int {
    var sign := if t.side.Buy? then 1 else -1;
    (if asset == t.base then sign * t.baseAmount else 0)
    - (if asset == t.quote then sign * t.quoteAmount else 0)
    - (if asset == t.feeAsset then t.fee else 0)
  }

  lemma TradeMovesHolding(m: Assets, t: Trade, asset: string)
    ensures Holding(Traded(m, t), asset) == Holding(m, asset) + Delta(t, asset)
  {
    var sign := if t.side.Buy? then 1 else -1;
    var m1 := Adjusted(m, t.base, sign * t.baseAmount);
    var m2 := Adjusted(m1, t.quote, -sign * t.quoteAmount);
    AdjustMoves(m, t.base, sign * t.baseAmount, asset);
    AdjustMoves(m1, t.quote, -sign * t.quoteAmount, asset);
    AdjustMoves(m2, t.feeAsset, -t.fee, asset);
  }

  function Free(m: Assets, asset: string): int { if asset in m then m[asset].free else 0 }

  /** A trade moves only the free part of a holding. */
  lemma TradeMovesFree(m: Assets, t: Trade, asset: string)
    ensures Free(Traded(m, t), asset) == Free(m, asset) + Delta(t, asset)
  {
  }

  lemma AdjustMoves(m: Assets, a: string, delta: int, asset: string)
    ensures Holding(Adjusted(m, a, delta), asset) == Holding(m, asset) + if asset == a then delta else 0
  {
  }

  /** The total of an asset over the registered venues. */
  function Total(balances: map<Venue, Assets>, asset: string): int {
    (if Binance in balances then Holding(balances[Binance], asset) else 0)
    + (if Wallet in balances then Holding(balances[Wallet], asset) else 0)
  }

  function Available(balances: map<Venue, Assets>, venue: Venue, asset: string): int {
    if venue in balances && asset in balances[venue] then balances[venue][asset].free else 0
  }

  lemma OneFewer(balances: map<Venue, Assets>, venues: set<Venue>, venue: Venue)
    requires venue in venues && venue in balances
    ensures balances - (venues - {venue}) == (balances - venues)[venue := balances[venue]]
  {
  }

  predicate HeldSomewhere(balances: map<Venue, Assets>, asset: string) {
    exists v :: v in balances && asset in balances[v]
  }

  /** Taking an amount out of the free balance at one venue. */
  function Withdrawn(balances: map<Venue, Assets>, venue: Venue, asset: string, amount: int): map<Venue, Assets>
    requires venue in balances
  {
    balances[venue := Adjusted(balances[venue], asset, -amount)]
  }

  /** The answer of `CanExecute`. */
  predicate Covered(balances: map<Venue, Assets>, buyVenue: Venue, buyAsset: string, buyAmount: int,
                    sellVenue: Venue, sellAsset: string, sellAmount: int) {
    && Available(balances, buyVenue, buyAsset) >= buyAmount
    && Available(balances, sellVenue, sellAsset) >= sellAmount
  }

  /** Legs that draw on different balances are covered exactly when taking both amounts overdraws
      neither. Legs that draw on the same one are checked one by one, so that is not enough: they
      overdraw exactly when their sum does. */
  lemma CoveredIff(balances: map<Venue, Assets>, buyVenue: Venue, buyAsset: string, buyAmount: int,
                   sellVenue: Venue, sellAsset: string, sellAmount: int)
    requires buyVenue in balances && sellVenue in balances
    ensures var once := Withdrawn(balances, buyVenue, buyAsset, buyAmount);
            var after := Withdrawn(once, sellVenue, sellAsset, sellAmount);
            var left, right := Available(after, buyVenue, buyAsset), Available(after, sellVenue, sellAsset);
            if (buyVenue, buyAsset) != (sellVenue, sellAsset)
            then Covered(balances, buyVenue, buyAsset, buyAmount, sellVenue, sellAsset, sellAmount) <==>
                 left >= 0 && right >= 0
            else left >= 0 <==> Available(balances, buyVenue, buyAsset) >= buyAmount + sellAmount
  {
    var once := Withdrawn(balances, buyVenue, buyAsset, buyAmount);
    TakesOnly(balances, buyVenue, buyAsset, buyAmount, sellVenue, sellAsset);
    TakesOnly(balances, buyVenue, buyAsset, buyAmount, buyVenue, buyAsset);
    TakesOnly(once, sellVenue, sellAsset, sellAmount, sellVenue, sellAsset);
    TakesOnly(once, sellVenue, sellAsset, sellAmount, buyVenue, buyAsset);
  }

  lemma TakesOnly(balances: map<Venue, Assets>, venue: Venue, asset: string, amount: int, v: Venue, a: string)
    requires venue in balances
    ensures Available(Withdrawn(balances, venue, asset, amount), v, a) ==
            Available(balances, v, a) - if (v, a) == (venue, asset) then amount else 0
  {
  }

  /** One more venue holds what it holds, and adds it to the total. */
  lemma HeldWith(seen: map<Venue, Assets>, venue: Venue, m: Assets, a: string)
    requires venue !in seen
    ensures HeldSomewhere(seen[venue := m], a) <==> HeldSomewhere(seen, a) || a in m
    ensures Total(seen[venue := m], a) == Total(seen, a) + Holding(m, a)
    ensures !HeldSomewhere(seen, a) ==> Total(seen, a) == 0
  {
    var both := seen[venue := m];
    if HeldSomewhere(seen, a) {
      var v :| v in seen && a in seen[v];
      assert v in both && a in both[v];
    }
    if a in m { assert venue in both && a in both[venue]; }
  }

  class InventoryTracker {
    var balances: map<Venue, Assets>

    constructor (venues: set<Venue>)
      ensures balances.Keys == venues && forall v :: v in venues ==> balances[v] == map[]
    {
      balances := map v | v in venues :: map[];
    }

    /** False stands for the error thrown for a venue that was never registered. */
    method UpdateFromCex(venue: Venue, fetched: Assets) returns (ok: bool)
      modifies this
      ensures ok <==> venue in old(balances)
      ensures balances == if ok then old(balances)[venue := fetched] else old(balances)
    {
      if venue !in balances {
        return false;
      }
      balances := balances[venue := fetched];
      return true;
    }

    method UpdateFromWallet(venue: Venue, amounts: map<string, int>) returns (ok: bool)
      modifies this
      ensures ok <==> venue in old(balances)
      ensures !ok ==> balances == old(balances)
      ensures ok ==> balances.Keys == old(balances).Keys
                     && (forall v :: v in balances && v != venue ==> balances[v] == old(balances)[v])
                     && (forall a :: a in balances[venue] <==> a in amounts && amounts[a] != 0)
                     && forall a :: Holding(balances[venue], a) == if a in amounts then amounts[a] else 0
    {
      if venue !in balances {
        return false;
      }
      balances := balances[venue := map a | a in amounts && amounts[a] != 0 :: Balance(amounts[a], 0)];
      return true;
    }

    method RecordTrade(venue: Venue, t: Trade) returns (ok: bool)
      modifies this
      ensures ok <==> venue in old(balances)
      ensures balances == if ok then old(balances)[venue := Traded(old(balances)[venue], t)] else old(balances)
    {
      if venue !in balances {
        return false;
      }
      var m := balances[venue];
      if t.side == Buy {
        m := Adjusted(m, t.base, t.baseAmount);
        m := Adjusted(m, t.quote, -t.quoteAmount);
      } else {
        m := Adjusted(m, t.base, -t.baseAmount);
        m := Adjusted(m, t.quote, t.quoteAmount);
      }
      m := Adjusted(m, t.feeAsset, -t.fee);
      balances := balances[venue := m];
      return true;
    }

    method CanExecute(buyVenue: Venue, buyAsset: string, buyAmount: int,
                      sellVenue: Venue, sellAsset: string, sellAmount: int)
      returns (ok: bool)
      ensures ok <==> Covered(balances, buyVenue, buyAsset, buyAmount, sellVenue, sellAsset, sellAmount)
    {
      return Available(balances, buyVenue, buyAsset) >= buyAmount
             && Available(balances, sellVenue, sellAsset) >= sellAmount;
    }

    /** The cross-venue totals of a snapshot: every asset held anywhere, and nothing else. */
    method SnapshotTotals() returns (totals: map<string, int>)
      ensures forall a :: a in totals <==> HeldSomewhere(balances, a)
      ensures forall a :: a in totals ==> totals[a] == Total(balances, a)
    {
      totals := map[];
      var venues := balances.Keys;
      while venues != {}
        invariant venues <= balances.Keys
        invariant forall a :: a in totals <==> HeldSomewhere(balances - venues, a)
        invariant forall a :: a in totals ==> totals[a] == Total(balances - venues, a)
        decreases |venues|
      {
        var venue :| venue in venues;
        totals := AddVenue(totals, balances[venue], balances - venues, venue);
        OneFewer(balances, venues, venue);
        venues := venues - {venue};
      }
      assert balances - {} == balances;
    }

    /** Adds one venue's assets to the running totals. */
    static method AddVenue(totals0: map<string, int>, m: Assets, ghost seen: map<Venue, Assets>, ghost venue: Venue)
      returns (totals: map<string, int>)
      requires venue !in seen
      requires forall a :: a in totals0 ==> totals0[a] == Total(seen, a)
      requires forall a :: a in totals0 <==> HeldSomewhere(seen, a)
      ensures forall a :: a in totals <==> HeldSomewhere(seen[venue := m], a)
      ensures forall a :: a in totals ==> totals[a] == Total(seen[venue := m], a)
    {
      totals := totals0;
      var assets := m.Keys;
      while assets != {}
        invariant assets <= m.Keys
        invariant forall a :: a in totals <==> a in totals0 || (a in m && a !in assets)
        invariant forall a :: a in totals ==>
                    totals[a] == (if a in totals0 then totals0[a] else 0)
                      + if a in m && a !in assets then Holding(m, a) else 0
        decreases |assets|
      {
        var a :| a in assets;
        totals := totals[a := (if a in totals then totals[a] else 0) + m[a].free + m[a].locked];
        assets := assets - {a};
      }
      forall a {
        HeldWith(seen, venue, m, a);
      }
    }
  }
}
