/** What the pre-trade gate answers, and what the ledger behind it holds after any history. */
module RiskLaws {
  import opened JsMath
  import opened Core
  import opened RollingWindow
  import opened Risk

  // ----- the verdicts -----

  /** `value` is the worth of the trade in whole units, the rest dropped. */
  predicate IsValue(value: int, sig: Signal) {
    var scaled := sig.size * sig.cexPrice;
    if scaled >= 0 then value * 100_000_000 <= scaled < (value + 1) * 100_000_000
    else (value - 1) * 100_000_000 < scaled <= value * 100_000_000
  }

  lemma ValueIs(value: int, sig: Signal)
    requires IsValue(value, sig)
    ensures value == TruncDiv(sig.size * sig.cexPrice, PRICE_SCALE)
  {
  }

  /** The order in which the gates are tried. */
  function Rank(v: Verdict): nat {
    match v
    case OverMaxTrade => 0
    case OverMaxPct => 1
    case OverLossPerTrade => 2
    case DailyLossReached => 3
    case DrawdownReached => 4
    case ConsecutiveLossesReached => 5
    case HourlyLimitReached => 6
    case Allowed => 7
  }

  /** The limit that a verdict names is reached, by a trade of this value after all these trades. */
  predicate Reached(v: Verdict, l: Limits, s: State, sig: Signal, value: int, trades: seq<int>, now: int) {
    match v
    case OverMaxTrade => value > l.maxTradeUsd
    case OverMaxPct => value as real > s.current as real * l.maxTradePct
    case OverLossPerTrade => sig.expectedNetPnl < 0 && sig.expectedNetPnl + l.maxLossPerTrade < 0
    case DailyLossReached => s.dailyPnl + l.maxDailyLoss <= 0
    case DrawdownReached =>
      s.peak > 0 && (s.peak - s.current) * 10_000 >= Round(l.maxDrawdownPct * 10000.0) * s.peak
    case ConsecutiveLossesReached => s.consecutiveLosses >= l.consecutiveLossLimit
    case HourlyLimitReached => InWindow(trades, 3_600_000, now) >= l.maxTradesPerHour
    case Allowed => true
  }

  lemma PrunedIsLastHour(kept: seq<int>, trades: seq<int>, now: int)
    requires KeptInv(kept, trades, now)
    ensures |Prune(kept, now - HOUR_MS)| == InWindow(trades, HOUR_MS, now)
  {
    var pruned := Prune(kept, now - HOUR_MS);
    PruneKeeps(kept, trades, now);
    PruneStops(kept, now - HOUR_MS);
    var gone := |trades| - |pruned|;
    forall i | 0 <= i < |trades|
      ensures trades[i] > now - HOUR_MS <==> i >= gone
    {
      if i >= gone { assert trades[gone] == pruned[0]; }
    }
    RestIsInWindow(trades, gone, HOUR_MS, now);
  }

  lemma {:induction false} PruneStops(ts: seq<int>, cutoff: int)
    ensures Prune(ts, cutoff) != [] ==> Prune(ts, cutoff)[0] > cutoff
  {
    if ts != [] && ts[0] <= cutoff { PruneStops(ts[1..], cutoff); }
  }

  /** The gate names the first limit that is reached, and allows the trade exactly when none is. */
  lemma VerdictIff(l: Limits, s: State, sig: Signal, value: int, trades: seq<int>, now: int, v: Verdict)
    requires IsValue(value, sig) && s.peak >= s.current && KeptInv(s.timestamps, trades, now)
    ensures Check(l, s, sig, now).1 == v <==>
            && Reached(v, l, s, sig, value, trades, now)
            && forall w :: Rank(w) < Rank(v) ==> !Reached(w, l, s, sig, value, trades, now)
  {
    ValueIs(value, sig);
    if s.peak > 0 { FloorAtLeast((s.peak - s.current) * BPS, s.peak, DrawdownLimitBps(l)); }
    PrunedIsLastHour(s.timestamps, trades, now);
    var first := Check(l, s, sig, now).1;
    assert Rank(first) < Rank(v) ==> Reached(first, l, s, sig, value, trades, now);
  }

  // ----- the ledger -----

  /** The calls on a risk manager. */
  datatype Call = Checked(sig: Signal, now: int) | Traded(pnl: int, now: int) | NewDay | Seed(capital: int)

  function After(l: Limits, capital: int, calls: seq<Call>): State {
    if calls == [] then State(capital, capital, 0, 0, [])
    else
      var s := After(l, capital, calls[..|calls| - 1]);
      match calls[|calls| - 1]
      case Checked(sig, now) => Check(l, s, sig, now).0
      case Traded(pnl, now) => Record(s, pnl, now)
      case NewDay => Reset(s)
      case Seed(seeded) => Seeded(s, seeded)
  }

  /** The profits of the trades since the last reset, in order. */
  function Today(calls: seq<Call>): seq<int> {
    if calls == [] then []
    else
      var front := calls[..|calls| - 1];
      match calls[|calls| - 1]
      case Traded(pnl, _) => Today(front) + [pnl]
      case NewDay => []
      case _ => Today(front)
  }

  /** The capital last set, and the profits of the trades since then, in order. */
  function SinceSeed(capital: int, calls: seq<Call>): (int, seq<int>) {
    if calls == [] then (capital, [])
    else
      var (seed, profits) := SinceSeed(capital, calls[..|calls| - 1]);
      match calls[|calls| - 1]
      case Traded(pnl, _) => (seed, profits + [pnl])
      case Seed(seeded) => (seeded, [])
      case _ => (seed, profits)
  }

  /** From `start`, after the first `k` of these profits. */
  function Balance(start: int, xs: seq<int>, k: nat): int
    requires k <= |xs|
  {
    if k == 0 then start else Balance(start, xs, k - 1) + xs[k - 1]
  }

  lemma {:induction false} BalanceOfFront(start: int, xs: seq<int>, x: int, k: nat)
    requires k <= |xs|
    ensures Balance(start, xs + [x], k) == Balance(start, xs, k)
  {
    if k > 0 { BalanceOfFront(start, xs, x, k - 1); }
  }

  /** Exactly the last `n` are losses. */
  predicate Losing(profits: seq<int>, n: int) {
    && 0 <= n <= |profits|
    && (forall i :: |profits| - n <= i < |profits| ==> profits[i] < 0)
    && (n < |profits| ==> profits[|profits| - n - 1] >= 0)
  }

  /** The highest the capital has been. */
  ghost predicate Highest(peak: int, seed: int, profits: seq<int>) {
    && (forall k :: 0 <= k <= |profits| ==> Balance(seed, profits, k) <= peak)
    && exists k :: 0 <= k <= |profits| && Balance(seed, profits, k) == peak
  }

  lemma LosingOneMore(profits: seq<int>, n: int, pnl: int)
    requires Losing(profits, n)
    ensures Losing(profits + [pnl], if pnl < 0 then n + 1 else 0)
  {
  }

  lemma HighestOneMore(peak: int, seed: int, profits: seq<int>, pnl: int)
    requires Highest(peak, seed, profits)
    ensures var total := Balance(seed, profits, |profits|) + pnl;
            && Balance(seed, profits + [pnl], |profits| + 1) == total
            && Highest(Max(peak, total), seed, profits + [pnl])
  {
    var n, all := |profits|, profits + [pnl];
    forall k | 0 <= k <= n
      ensures Balance(seed, all, k) == Balance(seed, profits, k)
    {
      BalanceOfFront(seed, profits, pnl, k);
    }
    var k :| 0 <= k <= n && Balance(seed, profits, k) == peak;
    assert Balance(seed, all, if peak < Balance(seed, all, n + 1) then n + 1 else k)
        == Max(peak, Balance(seed, all, n + 1));
  }

  /** The books follow the profits since the last reset and since the capital was set. */
  ghost predicate Follows(s: State, today: seq<int>, seed: int, profits: seq<int>) {
    && s.dailyPnl == Balance(0, today, |today|) && Losing(today, s.consecutiveLosses)
    && s.current == Balance(seed, profits, |profits|) && Highest(s.peak, seed, profits)
    && s.peak >= s.current
  }

  lemma TradeFollows(s: State, today: seq<int>, seed: int, profits: seq<int>, pnl: int, now: int)
    requires Follows(s, today, seed, profits)
    ensures Follows(Record(s, pnl, now), today + [pnl], seed, profits + [pnl])
  {
    LosingOneMore(today, s.consecutiveLosses, pnl);
    HighestOneMore(s.peak, seed, profits, pnl);
    BalanceOfFront(0, today, pnl, |today|);
  }

  lemma SeedFollows(s: State, today: seq<int>, seed: int)
    requires s.dailyPnl == Balance(0, today, |today|) && Losing(today, s.consecutiveLosses)
    ensures Follows(Seeded(s, seed), today, seed, [])
  {
    assert Balance(seed, [], 0) == seed;
  }

  lemma CheckKeepsBooks(l: Limits, s: State, sig: Signal, now: int)
    ensures Check(l, s, sig, now).0 == s.(timestamps := Check(l, s, sig, now).0.timestamps)
  {
  }

  /** After any calls the daily profit is the sum since the last reset, the streak counts the losses
      since then that end it, and the capital and its peak follow the profits since it was last set. */
  lemma {:induction false} LedgerIs(l: Limits, capital: int, calls: seq<Call>)
    ensures var (seed, profits) := SinceSeed(capital, calls);
            Follows(After(l, capital, calls), Today(calls), seed, profits)
  {
    if calls == [] {
      SeedFollows(State(capital, capital, 0, 0, []), [], capital);
    } else {
      var front := calls[..|calls| - 1];
      LedgerIs(l, capital, front);
      var s, today := After(l, capital, front), Today(front);
      var (seed, profits) := SinceSeed(capital, front);
      match calls[|calls| - 1]
      case Traded(pnl, now) => TradeFollows(s, today, seed, profits, pnl, now);
      case Seed(seeded) => SeedFollows(s, today, seeded);
      case Checked(sig, now) => CheckKeepsBooks(l, s, sig, now);
      case NewDay =>
    }
  }
}
