/** The risk manager: its pre-trade gate, its ledger, and what the gate bounds. */
module Risk {
  import opened JsMath
  import opened Core
  import opened RollingWindow

  const HOUR_MS: int := 3_600_000

  datatype Limits = Limits(
    maxTradeUsd: int, maxTradePct: real, maxLossPerTrade: int, maxDailyLoss: int,
    maxDrawdownPct: real, maxTradesPerHour: int, consecutiveLossLimit: int)

  datatype Verdict =
    | Allowed
    | OverMaxTrade | OverMaxPct | OverLossPerTrade | DailyLossReached
    | DrawdownReached | ConsecutiveLossesReached | HourlyLimitReached

  datatype State = State(peak: int, current: int, dailyPnl: int, consecutiveLosses: int, timestamps: seq<int>)

  function DrawdownLimitBps(l: Limits): int { Round(l.maxDrawdownPct * 10000.0) }

  /** The timestamps left after dropping the leading ones at or before the cutoff. */
  function Prune(ts: seq<int>, cutoff: int): seq<int> {
    if ts != [] && ts[0] <= cutoff then Prune(ts[1..], cutoff) else ts
  }

  function DrawdownBps(s: State): int
    requires s.peak > 0
  {
    TruncDiv((s.peak - s.current) * BPS, s.peak)
  }

  /** The gate up to the hourly limit, which alone touches the state. */
  function Screen(l: Limits, s: State, sig: Signal): Verdict {
    var tradeValue := TruncDiv(sig.size * sig.cexPrice, PRICE_SCALE);
    if tradeValue > l.maxTradeUsd then OverMaxTrade
    else if tradeValue > (s.current as real * l.maxTradePct).Floor then OverMaxPct
    else if sig.expectedNetPnl < 0 && -sig.expectedNetPnl > l.maxLossPerTrade then OverLossPerTrade
    else if s.dailyPnl <= -l.maxDailyLoss then DailyLossReached
    else if s.peak > 0 && DrawdownBps(s) >= DrawdownLimitBps(l) then DrawdownReached
    else if s.consecutiveLosses >= l.consecutiveLossLimit then ConsecutiveLossesReached
    else Allowed
  }

  function Check(l: Limits, s: State, sig: Signal, now: int): (State, Verdict) {
    var v := Screen(l, s, sig);
    if v != Allowed then (s, v)
    else
      var s' := s.(timestamps := Prune(s.timestamps, now - HOUR_MS));
      (s', if |s'.timestamps| >= l.maxTradesPerHour then HourlyLimitReached else Allowed)
  }

  function Record(s: State, pnl: int, now: int): State {
    var current := s.current + pnl;
    State(Max(s.peak, current), current, s.dailyPnl + pnl, if pnl < 0 then s.consecutiveLosses + 1 else 0,
          s.timestamps + [now])
  }

  function Reset(s: State): State { s.(dailyPnl := 0, consecutiveLosses := 0) }

  function Seeded(s: State, capital: int): State { s.(current := capital, peak := capital) }

  class RiskManager {
    const limits: Limits
    var peakCapital: int
    var currentCapital: int
    var dailyPnl: int
    var consecutiveLosses: int
    var tradeTimestamps: seq<int>

    constructor (limits: Limits, initialCapital: int)
      ensures this.limits == limits && Abstract() == State(initialCapital, initialCapital, 0, 0, [])
    {
      this.limits := limits;
      peakCapital := initialCapital;
      currentCapital := initialCapital;
      dailyPnl := 0;
      consecutiveLosses := 0;
      tradeTimestamps := [];
    }

    ghost function Abstract(): State
      reads this
    {
      State(peakCapital, currentCapital, dailyPnl, consecutiveLosses, tradeTimestamps)
    }

    method CheckPreTrade(sig: Signal, now: int) returns (v: Verdict)
      modifies `tradeTimestamps
      ensures (Abstract(), v) == Check(limits, old(Abstract()), sig, now)
    {
      var tradeValue := TruncDiv(sig.size * sig.cexPrice, PRICE_SCALE);
      if tradeValue > limits.maxTradeUsd {
        return OverMaxTrade;
      }
      var maxByPct := (currentCapital as real * limits.maxTradePct).Floor;
      if tradeValue > maxByPct {
        return OverMaxPct;
      }
      if sig.expectedNetPnl < 0 && -sig.expectedNetPnl > limits.maxLossPerTrade {
        return OverLossPerTrade;
      }
      if dailyPnl <= -limits.maxDailyLoss {
        return DailyLossReached;
      }
      if peakCapital > 0 {
        var drawdownBps := TruncDiv((peakCapital - currentCapital) * BPS, peakCapital);
        if drawdownBps >= DrawdownLimitBps(limits) {
          return DrawdownReached;
        }
      }
      if consecutiveLosses >= limits.consecutiveLossLimit {
        return ConsecutiveLossesReached;
      }
      PruneTradeWindow(now);
      if |tradeTimestamps| >= limits.maxTradesPerHour {
        return HourlyLimitReached;
      }
      return Allowed;
    }

    method RecordTrade(pnl: int, now: int)
      modifies this
      ensures Abstract() == Record(old(Abstract()), pnl, now)
    {
      dailyPnl := dailyPnl + pnl;
      currentCapital := currentCapital + pnl;
      if currentCapital > peakCapital {
        peakCapital := currentCapital;
      }
      tradeTimestamps := tradeTimestamps + [now];
      if pnl < 0 {
        consecutiveLosses := consecutiveLosses + 1;
      } else {
        consecutiveLosses := 0;
      }
    }

    method ResetDaily()
      modifies this
      ensures Abstract() == Reset(old(Abstract()))
    {
      dailyPnl := 0;
      consecutiveLosses := 0;
    }

    method SetInitialCapital(capital: int)
      modifies this
      ensures Abstract() == Seeded(old(Abstract()), capital)
    {
      currentCapital := capital;
      peakCapital := capital;
    }

    method PruneTradeWindow(now: int)
      modifies `tradeTimestamps
      ensures tradeTimestamps == Prune(old(tradeTimestamps), now - HOUR_MS)
    {
      var cutoff := now - HOUR_MS;
      var i := 0;
      while i < |tradeTimestamps| && tradeTimestamps[i] <= cutoff
        invariant 0 <= i <= |tradeTimestamps|
        invariant tradeTimestamps == old(tradeTimestamps)
        invariant Prune(tradeTimestamps[i..], cutoff) == Prune(tradeTimestamps, cutoff)
      {
        assert tradeTimestamps[i..][1..] == tradeTimestamps[i + 1..];
        i := i + 1;
      }
      tradeTimestamps := tradeTimestamps[i..];
    }
  }

  // ----- what an allowed check licenses -----

  /** Limits under which a fresh day starts tradable; `maxLoss` bounds what one trade can lose. */
  predicate Sensible(l: Limits, maxLoss: int) {
    l.maxDailyLoss > 0 && DrawdownLimitBps(l) > 0 && l.consecutiveLossLimit >= 0 && maxLoss >= 0
  }

  /** Room for one more trade under the loss limits. */
  predicate Cleared(l: Limits, s: State) {
    && s.dailyPnl > -l.maxDailyLoss
    && (s.peak > 0 ==> (s.peak - s.current) * BPS < DrawdownLimitBps(l) * s.peak)
    && s.consecutiveLosses < l.consecutiveLossLimit
  }

  /** The bounds that hold at all times. */
  predicate Bounded(l: Limits, maxLoss: int, s: State) {
    && s.peak > 0 && s.peak >= s.current
    && s.dailyPnl > -(l.maxDailyLoss + maxLoss)
    && (s.peak - s.current) * BPS < DrawdownLimitBps(l) * s.peak + BPS * maxLoss
    && 0 <= s.consecutiveLosses <= l.consecutiveLossLimit
  }

  lemma AllowedIsCleared(l: Limits, s: State, sig: Signal, now: int)
    requires s.peak >= s.current && Check(l, s, sig, now).1 == Allowed
    ensures Cleared(l, s) && Cleared(l, Check(l, s, sig, now).0)
    ensures TruncDiv(sig.size * sig.cexPrice, PRICE_SCALE) <= l.maxTradeUsd
    ensures TruncDiv(sig.size * sig.cexPrice, PRICE_SCALE) as real <= s.current as real * l.maxTradePct
    ensures sig.expectedNetPnl >= -l.maxLossPerTrade || sig.expectedNetPnl >= 0
  {
    if s.peak > 0 {
      FloorAtLeast((s.peak - s.current) * BPS, s.peak, DrawdownLimitBps(l));
    }
  }

  /** A trade made while cleared keeps every bound, whatever it loses up to `maxLoss`. */
  lemma RecordKeepsBounds(l: Limits, maxLoss: int, s: State, pnl: int, now: int)
    requires Sensible(l, maxLoss) && Bounded(l, maxLoss, s) && Cleared(l, s) && pnl >= -maxLoss
    ensures Bounded(l, maxLoss, Record(s, pnl, now))
  {
    var s' := Record(s, pnl, now);
    MulMono(1, DrawdownLimitBps(l), s'.peak);
  }

  lemma ResetKeeps(l: Limits, maxLoss: int, s: State)
    requires Sensible(l, maxLoss) && Bounded(l, maxLoss, s)
    ensures Bounded(l, maxLoss, Reset(s))
    ensures Cleared(l, s) ==> Cleared(l, Reset(s))
  {
  }

  /** Seeding a positive capital starts without drawdown: it keeps every bound, and from then on
      only the daily loss and the streak can stand in the way of the next trade. */
  lemma SeededIsFresh(l: Limits, maxLoss: int, s: State, capital: int)
    requires Sensible(l, maxLoss) && capital > 0
    ensures Bounded(l, maxLoss, s) ==> Bounded(l, maxLoss, Seeded(s, capital))
    ensures Cleared(l, Seeded(s, capital)) <==>
            s.dailyPnl > -l.maxDailyLoss && s.consecutiveLosses < l.consecutiveLossLimit
  {
    MulMono(1, DrawdownLimitBps(l), capital);
  }

  // ----- the hourly limit -----

  /** The kept timestamps are the last ones of all trades; what was dropped is an hour old. */
  ghost predicate KeptInv(kept: seq<int>, trades: seq<int>, clock: int) {
    var gone := |trades| - |kept|;
    && Sorted(trades) && (forall i :: 0 <= i < |trades| ==> trades[i] <= clock)
    && gone >= 0 && kept == trades[gone..]
    && forall i :: 0 <= i < gone ==> trades[i] + HOUR_MS <= clock
  }

  lemma {:induction false} PruneIsSuffix(ts: seq<int>, cutoff: int)
    ensures |Prune(ts, cutoff)| <= |ts|
    ensures var gone := |ts| - |Prune(ts, cutoff)|;
            Prune(ts, cutoff) == ts[gone..] && forall i :: 0 <= i < gone ==> ts[i] <= cutoff
  {
    if ts != [] && ts[0] <= cutoff {
      PruneIsSuffix(ts[1..], cutoff);
    }
  }

  lemma PruneKeeps(kept: seq<int>, trades: seq<int>, now: int)
    requires KeptInv(kept, trades, now)
    ensures KeptInv(Prune(kept, now - HOUR_MS), trades, now)
  {
    PruneIsSuffix(kept, now - HOUR_MS);
    var gone, pruned := |trades| - |kept|, Prune(kept, now - HOUR_MS);
    forall i | 0 <= i < |trades| - |pruned|
      ensures trades[i] + HOUR_MS <= now
    {
      if i >= gone { assert trades[i] == kept[i - gone]; }
    }
  }

  /** Trade number n back from now is already an hour old. */
  ghost predicate RoomForTrade(trades: seq<int>, n: int, clock: int) {
    n > 0 && (|trades| >= n ==> trades[|trades| - n] + HOUR_MS <= clock)
  }

  lemma AllowedLeavesRoom(l: Limits, s: State, sig: Signal, trades: seq<int>, now: int)
    requires KeptInv(s.timestamps, trades, now) && Check(l, s, sig, now).1 == Allowed
    ensures RoomForTrade(trades, l.maxTradesPerHour, now)
    ensures KeptInv(Check(l, s, sig, now).0.timestamps, trades, now)
  {
    PruneKeeps(s.timestamps, trades, now);
  }
}
