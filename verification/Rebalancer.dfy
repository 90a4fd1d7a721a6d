/** The rebalance planner: a greedy match of surplus venues with deficit venues. */
module Rebalancer {
  import opened JsMath
  import Inventory

  type Venue = Inventory.Venue

  datatype FeeInfo = FeeInfo(withdrawalFee: int, minWithdrawal: int)

  /** The transfer rules for one asset, and the balances of the tracker that the loop reads. */
  datatype Rules = Rules(fee: Option<FeeInfo>, minOperating: int, balances: map<Venue, Inventory.Assets>, asset: string)

  /** A surplus or a deficit still to be matched. */
  datatype Entry = Entry(venue: Venue, amount: int)

  datatype TransferPlan = TransferPlan(from: Venue, to: Venue, amount: int, estimatedFee: int)

  function Free(r: Rules, v: Venue): int { Inventory.Available(r.balances, v, r.asset) }

  /** What a sender may give up in one transfer. */
  function Spare(r: Rules, v: Venue): int { Free(r, v) - r.minOperating }

  predicate BelowMinimum(r: Rules, amount: int) { r.fee.Some? && amount < r.fee.value.minWithdrawal }

  /** One round: the amount to transfer, or None when the sender is given up. */
  function Offer(r: Rules, s: Entry, d: Entry): Option<int> {
    var amount := Min(s.amount, d.amount);
    if BelowMinimum(r, amount) then None
    else if Free(r, s.venue) - amount < r.minOperating then
      var trimmed := Spare(r, s.venue);
      if BelowMinimum(r, trimmed) then None else Some(trimmed)
    else Some(amount)
  }

  function PlanFor(r: Rules, s: Entry, d: Entry, amount: int): TransferPlan {
    TransferPlan(s.venue, d.venue, amount, if r.fee.Some? then r.fee.value.withdrawalFee else 0)
  }

  function Less(e: Entry, amount: int): Entry { Entry(e.venue, e.amount - amount) }

  /** The list after its head has been used: a head used up is dropped. */
  function Used(list: seq<Entry>, amount: int): seq<Entry>
    requires list != []
  {
    var head := Less(list[0], amount);
    if head.amount <= 0 then list[1..] else [head] + list[1..]
  }

  /** The loop state: what is left to send, what is left to receive, and the plans so far. */
  datatype Loop = Loop(senders: seq<Entry>, receivers: seq<Entry>, plans: seq<TransferPlan>)

  predicate Running(l: Loop) { l.senders != [] && l.receivers != [] }

  function NextRound(r: Rules, l: Loop): Loop
    requires Running(l)
  {
    match Offer(r, l.senders[0], l.receivers[0])
    case None => l.(senders := l.senders[1..])
    case Some(amount) =>
      Loop(Used(l.senders, amount), Used(l.receivers, amount),
           l.plans + [PlanFor(r, l.senders[0], l.receivers[0], amount)])
  }

  function Rounds(r: Rules, l: Loop, n: nat): Loop
    decreases n
  {
    if n == 0 || !Running(l) then l else Rounds(r, NextRound(r, l), n - 1)
  }

  // ----- when the loop ends -----

  predicate Positive(list: seq<Entry>) { forall i :: 0 <= i < |list| ==> list[i].amount > 0 }

  function TotalOf(list: seq<Entry>): int { if list == [] then 0 else list[0].amount + TotalOf(list[1..]) }

  /** A sender with nothing to spare that the minimum withdrawal does not turn away: it would be
      made to transfer nothing, or less, again and again. */
  predicate Stuck(r: Rules, v: Venue) { Spare(r, v) <= 0 && !BelowMinimum(r, Spare(r, v)) }

  /** What the senders before number i give, when no minimum withdrawal holds them back. */
  function SentBefore(r: Rules, senders: seq<Entry>, i: nat): int
    requires i <= |senders|
  {
    if i == 0 then 0
    else (if Spare(r, senders[0].venue) > 0 then senders[0].amount else 0) + SentBefore(r, senders[1..], i - 1)
  }

  /** Some stuck sender's turn comes while there is still a deficit to fill. */
  predicate Diverges(r: Rules, senders: seq<Entry>, receivers: seq<Entry>) {
    exists i :: 0 <= i < |senders| && Stuck(r, senders[i].venue) && SentBefore(r, senders, i) < TotalOf(receivers)
  }

  /** The condition read head first. */
  lemma DivergesUnfold(r: Rules, senders: seq<Entry>, receivers: seq<Entry>)
    requires senders != []
    ensures Diverges(r, senders, receivers) <==>
            || (Stuck(r, senders[0].venue) && 0 < TotalOf(receivers))
            || DivergesAfter(r, senders[1..],
                             TotalOf(receivers) - if Spare(r, senders[0].venue) > 0 then senders[0].amount else 0)
  {
    var tail := senders[1..];
    var give := if Spare(r, senders[0].venue) > 0 then senders[0].amount else 0;
    if Diverges(r, senders, receivers) {
      var i :| 0 <= i < |senders| && Stuck(r, senders[i].venue) && SentBefore(r, senders, i) < TotalOf(receivers);
      if i > 0 { assert tail[i - 1] == senders[i] && SentBefore(r, senders, i) == give + SentBefore(r, tail, i - 1); }
    }
    if DivergesAfter(r, tail, TotalOf(receivers) - give) {
      var i :| 0 <= i < |tail| && Stuck(r, tail[i].venue) && SentBefore(r, tail, i) < TotalOf(receivers) - give;
      assert tail[i] == senders[i + 1] && SentBefore(r, senders, i + 1) == give + SentBefore(r, tail, i);
    }
  }

  predicate DivergesAfter(r: Rules, senders: seq<Entry>, need: int) {
    exists i :: 0 <= i < |senders| && Stuck(r, senders[i].venue) && SentBefore(r, senders, i) < need
  }

  lemma {:induction false} TotalPositive(list: seq<Entry>)
    requires Positive(list)
    ensures TotalOf(list) >= |list|
  {
    if list != [] { TotalPositive(list[1..]); }
  }

  lemma UsedTotal(list: seq<Entry>, amount: int)
    requires list != [] && Positive(list) && amount <= list[0].amount
    ensures Positive(Used(list, amount)) && TotalOf(Used(list, amount)) == TotalOf(list) - amount
    ensures |Used(list, amount)| <= |list|
  {
    if amount < list[0].amount { assert Used(list, amount)[1..] == list[1..]; }
  }

  lemma OfferBounds(r: Rules, s: Entry, d: Entry)
    requires s.amount > 0 && d.amount > 0
    ensures Offer(r, s, d).Some? ==>
              var a := Offer(r, s, d).value;
              && a <= s.amount && a <= d.amount && a <= Spare(r, s.venue) && !BelowMinimum(r, a)
              && (a > 0 <==> !Stuck(r, s.venue))
    ensures Offer(r, s, d).None? ==> !Stuck(r, s.venue) && r.fee.Some?
    ensures Offer(r, s, d).None? && Spare(r, s.venue) > 0 ==> r.fee.value.minWithdrawal > 0
  {
  }

  /** With a positive minimum withdrawal no sender is stuck. */
  lemma MinimumPreventsDivergence(r: Rules, senders: seq<Entry>, receivers: seq<Entry>)
    requires r.fee.Some? && r.fee.value.minWithdrawal > 0
    ensures !Diverges(r, senders, receivers)
  {
  }

  /** Whether the loop is doomed does not change from one round to the next. */
  lemma RoundKeepsFate(r: Rules, l: Loop)
    requires Running(l) && Positive(l.senders) && Positive(l.receivers)
    ensures var l' := NextRound(r, l);
            && Positive(l'.senders) && Positive(l'.receivers)
            && (Diverges(r, l'.senders, l'.receivers) <==> Diverges(r, l.senders, l.receivers))
  {
    var s, d := l.senders[0], l.receivers[0];
    OfferBounds(r, s, d);
    DivergesUnfold(r, l.senders, l.receivers);
    TotalPositive(l.receivers);
    match Offer(r, s, d)
    case None =>
      if r.fee.value.minWithdrawal > 0 {
        MinimumPreventsDivergence(r, l.senders, l.receivers);
        MinimumPreventsDivergence(r, l.senders[1..], l.receivers);
      }
    case Some(a) =>
      UsedTotal(l.senders, a);
      UsedTotal(l.receivers, a);
      var senders', receivers' := Used(l.senders, a), Used(l.receivers, a);
      if a < s.amount {
        DivergesUnfold(r, senders', receivers');
        assert senders'[1..] == l.senders[1..];
        TotalPositive(receivers');
      }
  }

  /** What a round uses up: an unstuck round always makes progress. */
  function Left(senders: seq<Entry>): int { TotalOf(senders) + |senders| }

  lemma RoundProgresses(r: Rules, l: Loop)
    requires Running(l) && Positive(l.senders) && Positive(l.receivers) && !Diverges(r, l.senders, l.receivers)
    ensures 0 <= Left(NextRound(r, l).senders) < Left(l.senders)
    ensures Offer(r, l.senders[0], l.receivers[0]).Some? ==> Offer(r, l.senders[0], l.receivers[0]).value > 0
  {
    OfferBounds(r, l.senders[0], l.receivers[0]);
    DivergesUnfold(r, l.senders, l.receivers);
    TotalPositive(l.receivers);
    RoundKeepsFate(r, l);
    TotalPositive(NextRound(r, l).senders);
    match Offer(r, l.senders[0], l.receivers[0])
    case None =>
    case Some(a) => UsedTotal(l.senders, a);
  }

  lemma {:induction false} EndsWithin(r: Rules, l: Loop, n: nat)
    requires Positive(l.senders) && Positive(l.receivers) && !Diverges(r, l.senders, l.receivers)
    requires n >= Left(l.senders)
    ensures !Running(Rounds(r, l, n))
    decreases n
  {
    if Running(l) {
      RoundProgresses(r, l);
      RoundKeepsFate(r, l);
      EndsWithin(r, NextRound(r, l), n - 1);
    }
  }

  lemma {:induction false} NeverEnds(r: Rules, l: Loop, n: nat)
    requires Positive(l.senders) && Positive(l.receivers) && Diverges(r, l.senders, l.receivers)
    requires l.receivers != []
    ensures Running(Rounds(r, l, n))
    decreases n
  {
    if n > 0 {
      RoundKeepsFate(r, l);
      var l' := NextRound(r, l);
      if l'.receivers == [] { NonNegativeSent(r, l'.senders); }
      NeverEnds(r, l', n - 1);
    }
  }

  lemma NonNegativeSent(r: Rules, senders: seq<Entry>)
    requires Positive(senders)
    ensures !Diverges(r, senders, [])
  {
    forall i | 0 <= i < |senders|
      ensures SentBefore(r, senders, i) >= 0
    {
      SentNonNegative(r, senders, i);
    }
  }

  lemma {:induction false} SentNonNegative(r: Rules, senders: seq<Entry>, i: nat)
    requires Positive(senders) && i <= |senders|
    ensures SentBefore(r, senders, i) >= 0
  {
    if i > 0 { SentNonNegative(r, senders[1..], i - 1); }
  }

  /** The loop ends exactly when no stuck sender's turn comes while a deficit remains. */
  lemma EndsIff(r: Rules, senders: seq<Entry>, receivers: seq<Entry>)
    requires Positive(senders) && Positive(receivers)
    ensures (exists n: nat :: !Running(Rounds(r, Loop(senders, receivers, []), n)))
            <==> !Diverges(r, senders, receivers)
  {
    var l := Loop(senders, receivers, []);
    if Diverges(r, senders, receivers) {
      if receivers == [] { NonNegativeSent(r, senders); }
      forall n: nat ensures Running(Rounds(r, l, n)) { NeverEnds(r, l, n); }
    } else {
      TotalPositive(senders);
      EndsWithin(r, l, Left(l.senders));
    }
  }

  /** An asset without a fee entry, all of whose surplus is locked, keeps the planner looping. */
  lemma LockedSurplusLoops(n: nat)
    ensures var r := Rules(None, 0, map[Inventory.Binance := map["ETH" := Inventory.Balance(0, 100)]], "ETH");
            Running(Rounds(r, Loop([Entry(Inventory.Binance, 50)], [Entry(Inventory.Wallet, 50)], []), n))
  {
    var r := Rules(None, 0, map[Inventory.Binance := map["ETH" := Inventory.Balance(0, 100)]], "ETH");
    var senders, receivers := [Entry(Inventory.Binance, 50)], [Entry(Inventory.Wallet, 50)];
    assert Stuck(r, senders[0].venue) && SentBefore(r, senders, 0) < TotalOf(receivers);
    NeverEnds(r, Loop(senders, receivers, []), n);
  }

  // ----- the plans -----

  /** The plans the loop goes on to make. */
  function Match(r: Rules, senders: seq<Entry>, receivers: seq<Entry>): seq<TransferPlan>
    requires Positive(senders) && Positive(receivers) && !Diverges(r, senders, receivers)
    decreases TotalOf(senders) + |senders|
  {
    if senders == [] || receivers == [] then []
    else
      var l := Loop(senders, receivers, []);
      RoundProgresses(r, l);
      RoundKeepsFate(r, l);
      TotalPositive(senders);
      var l' := NextRound(r, l);
      l'.plans + Match(r, l'.senders, l'.receivers)
  }

  /** One round of the matching, with all that keeps the next one defined. */
  lemma MatchRound(r: Rules, senders: seq<Entry>, receivers: seq<Entry>)
    requires Positive(senders) && Positive(receivers) && !Diverges(r, senders, receivers)
    requires senders != [] && receivers != []
    ensures var l' := NextRound(r, Loop(senders, receivers, []));
            && Positive(l'.senders) && Positive(l'.receivers) && !Diverges(r, l'.senders, l'.receivers)
            && Match(r, senders, receivers) == l'.plans + Match(r, l'.senders, l'.receivers)
            && 0 <= Left(l'.senders) < Left(senders)
  {
    RoundProgresses(r, Loop(senders, receivers, []));
    RoundKeepsFate(r, Loop(senders, receivers, []));
  }

  /** The plans so far and those still to come make up `all`. */
  ghost predicate Remaining(r: Rules, senders: seq<Entry>, receivers: seq<Entry>,
                            plans: seq<TransferPlan>, all: seq<TransferPlan>) {
    && Positive(senders) && Positive(receivers) && !Diverges(r, senders, receivers)
    && plans + Match(r, senders, receivers) == all
  }

  lemma SkipKeeps(r: Rules, senders: seq<Entry>, receivers: seq<Entry>,
                  plans: seq<TransferPlan>, all: seq<TransferPlan>)
    requires Remaining(r, senders, receivers, plans, all) && senders != [] && receivers != []
    requires Offer(r, senders[0], receivers[0]).None?
    ensures Remaining(r, senders[1..], receivers, plans, all) && 0 <= Left(senders[1..]) < Left(senders)
  {
    MatchRound(r, senders, receivers);
  }

  lemma SendKeeps(r: Rules, senders: seq<Entry>, receivers: seq<Entry>,
                  plans: seq<TransferPlan>, all: seq<TransferPlan>, a: int)
    requires Remaining(r, senders, receivers, plans, all) && senders != [] && receivers != []
    requires Offer(r, senders[0], receivers[0]) == Some(a)
    ensures Remaining(r, Used(senders, a), Used(receivers, a), plans + [PlanFor(r, senders[0], receivers[0], a)], all)
    ensures 0 <= Left(Used(senders, a)) < Left(senders)
  {
    MatchRound(r, senders, receivers);
    var p := [PlanFor(r, senders[0], receivers[0], a)];
    var rest := Match(r, Used(senders, a), Used(receivers, a));
    assert [] + p == p;
    assert (plans + p) + rest == plans + (p + rest);
  }

  /** Using up part of entry k of a list in place is using up the head of what starts there. */
  lemma UsedInPlace(list: seq<Entry>, k: nat, amount: int)
    requires k < |list|
    ensures var updated := list[k := Less(list[k], amount)];
            updated[(if updated[k].amount <= 0 then k + 1 else k)..] == Used(list[k..], amount)
  {
    assert list[k..][1..] == list[k + 1..];
  }

  /** The matching loop. Termination is what the precondition buys, and `EndsIff` shows it is
      the weakest one. */
  method MatchVenues(r: Rules, surpluses0: seq<Entry>, deficits0: seq<Entry>) returns (plans: seq<TransferPlan>)
    requires Positive(surpluses0) && Positive(deficits0) && !Diverges(r, surpluses0, deficits0)
    ensures plans == Match(r, surpluses0, deficits0)
  {
    ghost var all := Match(r, surpluses0, deficits0);
    var surpluses, deficits := surpluses0, deficits0;
    plans := [];
    var si, di := 0, 0;
    while si < |surpluses| && di < |deficits|
      invariant si <= |surpluses| && di <= |deficits|
      invariant Remaining(r, surpluses[si..], deficits[di..], plans, all)
      decreases Left(surpluses[si..])
    {
      ghost var senders, receivers := surpluses[si..], deficits[di..];
      var sender, receiver := surpluses[si], deficits[di];
      var amount := if sender.amount < receiver.amount then sender.amount else receiver.amount;
      if BelowMinimum(r, amount) {
        SkipKeeps(r, senders, receivers, plans, all);
        assert senders[1..] == surpluses[si + 1..];
        si := si + 1;
        continue;
      }
      var senderBalance := Free(r, sender.venue);
      var afterTransfer := senderBalance - amount;
      if afterTransfer < r.minOperating {
        amount := senderBalance - r.minOperating;
        if BelowMinimum(r, amount) {
          SkipKeeps(r, senders, receivers, plans, all);
          assert senders[1..] == surpluses[si + 1..];
          si := si + 1;
          continue;
        }
      }
      SendKeeps(r, senders, receivers, plans, all, amount);
      UsedInPlace(surpluses, si, amount);
      UsedInPlace(deficits, di, amount);
      plans := plans + [PlanFor(r, sender, receiver, amount)];
      surpluses := surpluses[si := Less(sender, amount)];
      deficits := deficits[di := Less(receiver, amount)];
      if surpluses[si].amount <= 0 {
        si := si + 1;
      }
      if deficits[di].amount <= 0 {
        di := di + 1;
      }
    }
  }

  // ----- what the plans keep -----

  /** A plan that the rules allow on its own. */
  predicate Sound(r: Rules, p: TransferPlan) {
    p.amount > 0 && !BelowMinimum(r, p.amount) && Free(r, p.from) - p.amount >= r.minOperating
  }

  function SumFor(list: seq<Entry>, v: Venue): int {
    if list == [] then 0 else (if list[0].venue == v then list[0].amount else 0) + SumFor(list[1..], v)
  }

  function Sent(plans: seq<TransferPlan>, v: Venue): int {
    if plans == [] then 0 else (if plans[0].from == v then plans[0].amount else 0) + Sent(plans[1..], v)
  }

  function Received(plans: seq<TransferPlan>, v: Venue): int {
    if plans == [] then 0 else (if plans[0].to == v then plans[0].amount else 0) + Received(plans[1..], v)
  }

  function Volume(plans: seq<TransferPlan>): int {
    if plans == [] then 0 else plans[0].amount + Volume(plans[1..])
  }

  lemma UsedSumFor(list: seq<Entry>, amount: int, v: Venue)
    requires list != [] && Positive(list) && amount <= list[0].amount
    ensures SumFor(Used(list, amount), v) == SumFor(list, v) - if list[0].venue == v then amount else 0
  {
    if amount < list[0].amount { assert Used(list, amount)[1..] == list[1..]; }
  }

  lemma {:induction false} SumForNonNegative(list: seq<Entry>, v: Venue)
    requires Positive(list)
    ensures SumFor(list, v) >= 0
  {
    if list != [] { SumForNonNegative(list[1..], v); }
  }

  /** Every plan is sound by itself, no sender gives more than its excess, and no receiver is
      promised more than it needs. */
  lemma {:induction false} MatchIsSafe(r: Rules, senders: seq<Entry>, receivers: seq<Entry>, v: Venue)
    requires Positive(senders) && Positive(receivers) && !Diverges(r, senders, receivers)
    ensures var plans := Match(r, senders, receivers);
            && (forall i :: 0 <= i < |plans| ==> Sound(r, plans[i]))
            && 0 <= Sent(plans, v) <= SumFor(senders, v)
            && 0 <= Received(plans, v) <= SumFor(receivers, v)
    decreases TotalOf(senders) + |senders|
  {
    SumForNonNegative(senders, v);
    SumForNonNegative(receivers, v);
    if senders != [] && receivers != [] {
      var l := Loop(senders, receivers, []);
      RoundProgresses(r, l);
      RoundKeepsFate(r, l);
      TotalPositive(senders);
      var l' := NextRound(r, l);
      MatchIsSafe(r, l'.senders, l'.receivers, v);
      OfferBounds(r, senders[0], receivers[0]);
      match Offer(r, senders[0], receivers[0])
      case None =>
        assert l'.plans == [];
        assert Match(r, senders, receivers) == Match(r, l'.senders, l'.receivers);
      case Some(a) =>
        UsedSumFor(senders, a, v);
        UsedSumFor(receivers, a, v);
        var plans := Match(r, senders, receivers);
        assert plans[1..] == Match(r, l'.senders, l'.receivers);
    }
  }

  /** Nothing is trimmed when every sender can spare its whole excess. */
  predicate Unconstrained(r: Rules, senders: seq<Entry>) {
    forall i :: 0 <= i < |senders| ==> senders[i].amount <= Spare(r, senders[i].venue)
  }

  /** Without trimming, every plan finishes a sender or a receiver. */
  lemma {:induction false} FewPlans(r: Rules, senders: seq<Entry>, receivers: seq<Entry>)
    requires Positive(senders) && Positive(receivers) && !Diverges(r, senders, receivers)
    requires Unconstrained(r, senders) && senders != [] && receivers != []
    ensures |Match(r, senders, receivers)| <= |senders| + |receivers| - 1
    decreases TotalOf(senders) + |senders|
  {
    var l := Loop(senders, receivers, []);
    RoundProgresses(r, l);
    RoundKeepsFate(r, l);
    TotalPositive(senders);
    var l' := NextRound(r, l);
    if l'.senders != [] && l'.receivers != [] {
      FewPlans(r, l'.senders, l'.receivers);
    }
  }

  /** No positive amount is turned away. */
  predicate NoMinimum(r: Rules) { r.fee.None? || r.fee.value.minWithdrawal <= 0 }

  // ----- the operating balance over several plans -----

  /** The rules promise that the source keeps its operating balance. Each plan is checked against
      the balance before any of them, so with one sender and one receiver the promise holds for
      the plans together exactly when one transfer settles the matter. */
  lemma FloorKeptIff(r: Rules, s: Entry, d: Entry)
    requires s.amount > 0 && d.amount > 0 && !Diverges(r, [s], [d])
    ensures Positive([s]) && Positive([d])
    ensures var plans, m, t := Match(r, [s], [d]), Min(s.amount, d.amount), Spare(r, s.venue);
            (plans == [] || Free(r, s.venue) - Volume(plans) >= r.minOperating)
            <==> m <= t || BelowMinimum(r, m) || BelowMinimum(r, t) || BelowMinimum(r, m - t)
  {
    var m, t := Min(s.amount, d.amount), Spare(r, s.venue);
    var l := Loop([s], [d], []);
    OneRound(r, s, d);
    if t < m && !BelowMinimum(r, m) && !BelowMinimum(r, t) {
      var s', d' := Less(s, t), Less(d, t);
      RoundProgresses(r, l);
      RoundKeepsFate(r, l);
      assert NextRound(r, l) == Loop([s'], [d'], [PlanFor(r, s, d, t)]);
      OneRound(r, s', d');
      var plans, rest := Match(r, [s], [d]), Match(r, [s'], [d']);
      assert plans == [PlanFor(r, s, d, t)] + rest;
      assert plans[1..] == rest;
      MatchIsSafe(r, [s'], [d'], s.venue);
      assert s'.venue == s.venue && Min(s'.amount, d'.amount) == m - t;
    }
  }

  predicate DistinctVenues(list: seq<Entry>) {
    forall i, j :: 0 <= i < j < |list| ==> list[i].venue != list[j].venue
  }

  lemma {:induction false} NoSumFor(list: seq<Entry>, v: Venue)
    requires forall i :: 0 <= i < |list| ==> list[i].venue != v
    ensures SumFor(list, v) == 0
  {
    if list != [] { NoSumFor(list[1..], v); }
  }

  /** What sender i may be asked for once the senders before it have given. */
  function Asked(r: Rules, senders: seq<Entry>, receivers: seq<Entry>, i: nat): int
    requires i < |senders|
  {
    if Spare(r, senders[i].venue) <= 0 then 0
    else Min(senders[i].amount, Max(0, TotalOf(receivers) - SentBefore(r, senders, i)))
  }

  lemma UsedSentBefore(r: Rules, senders: seq<Entry>, a: int, i: nat)
    requires senders != [] && Positive(senders) && i < |senders|
    requires 0 < a <= senders[0].amount && Spare(r, senders[0].venue) > 0
    requires DistinctVenues(senders)
    ensures DistinctVenues(Used(senders, a))
    ensures var j := if a == senders[0].amount then i - 1 else i;
            j >= 0 ==> j < |Used(senders, a)| && Used(senders, a)[j].venue == senders[i].venue
                       && SentBefore(r, Used(senders, a), j) == SentBefore(r, senders, i) - if i == 0 then 0 else a
  {
    var used := Used(senders, a);
    if a < senders[0].amount { assert used[1..] == senders[1..]; }
  }

  /** A round that gives up the head sender. */
  lemma SkipRound(r: Rules, senders: seq<Entry>, receivers: seq<Entry>)
    requires Positive(senders) && Positive(receivers) && !Diverges(r, senders, receivers)
    requires NoMinimum(r) && senders != [] && receivers != [] && Offer(r, senders[0], receivers[0]).None?
    ensures Positive(senders[1..]) && !Diverges(r, senders[1..], receivers) && Spare(r, senders[0].venue) <= 0
    ensures Match(r, senders, receivers) == Match(r, senders[1..], receivers)
  {
    MatchRound(r, senders, receivers);
    OfferBounds(r, senders[0], receivers[0]);
  }

  /** A round that sends. */
  lemma SendRound(r: Rules, senders: seq<Entry>, receivers: seq<Entry>, a: int, v: Venue)
    requires Positive(senders) && Positive(receivers) && !Diverges(r, senders, receivers)
    requires senders != [] && receivers != [] && Offer(r, senders[0], receivers[0]) == Some(a)
    ensures 0 < a <= senders[0].amount && a <= receivers[0].amount && 0 < Spare(r, senders[0].venue)
    ensures Positive(Used(senders, a)) && Positive(Used(receivers, a))
            && !Diverges(r, Used(senders, a), Used(receivers, a))
    ensures 0 <= Left(Used(senders, a)) < Left(senders)
    ensures Sent(Match(r, senders, receivers), v) ==
            Sent(Match(r, Used(senders, a), Used(receivers, a)), v) + if senders[0].venue == v then a else 0
  {
    MatchRound(r, senders, receivers);
    RoundProgresses(r, Loop(senders, receivers, []));
    OfferBounds(r, senders[0], receivers[0]);
    assert Match(r, senders, receivers)[1..] == Match(r, Used(senders, a), Used(receivers, a));
  }

  lemma SendVolume(r: Rules, senders: seq<Entry>, receivers: seq<Entry>, a: int)
    requires Positive(senders) && Positive(receivers) && !Diverges(r, senders, receivers)
    requires senders != [] && receivers != [] && Offer(r, senders[0], receivers[0]) == Some(a)
    ensures Positive(Used(senders, a)) && Positive(Used(receivers, a))
    ensures !Diverges(r, Used(senders, a), Used(receivers, a))
    ensures Volume(Match(r, senders, receivers)) == a + Volume(Match(r, Used(senders, a), Used(receivers, a)))
  {
    MatchRound(r, senders, receivers);
    assert Match(r, senders, receivers)[1..] == Match(r, Used(senders, a), Used(receivers, a));
  }

  lemma UsedUnconstrained(r: Rules, senders: seq<Entry>, a: int)
    requires senders != [] && Unconstrained(r, senders) && a > 0
    ensures Unconstrained(r, Used(senders, a))
  {
    var used := Used(senders, a);
    forall i | 0 <= i < |used|
      ensures used[i].amount <= Spare(r, used[i].venue)
    {
      if |used| < |senders| { assert used[i] == senders[i + 1]; } else if i > 0 { assert used[i] == senders[i]; }
    }
  }

  /** Without trimming and without a minimum, the plans move as much as can be moved. */
  lemma {:induction false} MatchIsComplete(r: Rules, senders: seq<Entry>, receivers: seq<Entry>)
    requires Positive(senders) && Positive(receivers) && !Diverges(r, senders, receivers)
    requires Unconstrained(r, senders) && NoMinimum(r)
    ensures Volume(Match(r, senders, receivers)) == Min(TotalOf(senders), TotalOf(receivers))
    decreases Left(senders)
  {
    TotalPositive(senders);
    TotalPositive(receivers);
    if senders != [] && receivers != [] {
      var a := Min(senders[0].amount, receivers[0].amount);
      assert Offer(r, senders[0], receivers[0]) == Some(a);
      SendRound(r, senders, receivers, a, senders[0].venue);
      SendVolume(r, senders, receivers, a);
      UsedUnconstrained(r, senders, a);
      UsedTotal(senders, a);
      UsedTotal(receivers, a);
      MatchIsComplete(r, Used(senders, a), Used(receivers, a));
    }
  }

  lemma AskedAfterSkip(r: Rules, senders: seq<Entry>, receivers: seq<Entry>, i: nat)
    requires i < |senders| && Spare(r, senders[0].venue) <= 0
    ensures Asked(r, senders, receivers, i) == if i == 0 then 0 else Asked(r, senders[1..], receivers, i - 1)
  {
  }

  /** Where sender i stands once the head has sent `a`; -1 when it was the head and is used up. */
  function Place(senders: seq<Entry>, a: int, i: nat): int
    requires senders != []
  {
    if a == senders[0].amount then i - 1 else i
  }

  lemma AskedAfterSend(r: Rules, senders: seq<Entry>, receivers: seq<Entry>, a: int, i: nat)
    requires Positive(senders) && i < |senders| && DistinctVenues(senders)
    requires receivers != [] && a <= receivers[0].amount && Positive(receivers)
    requires 0 < a <= senders[0].amount && Spare(r, senders[0].venue) > 0
    ensures DistinctVenues(Used(senders, a))
    ensures var j, own := Place(senders, a, i), if i == 0 then a else 0;
            if j < 0 then i == 0 && Asked(r, senders, receivers, i) == a
            else j < |Used(senders, a)| && Used(senders, a)[j].venue == senders[i].venue
                 && Asked(r, senders, receivers, i) == own + Asked(r, Used(senders, a), Used(receivers, a), j)
  {
    UsedSentBefore(r, senders, a, i);
    UsedTotal(receivers, a);
    TotalPositive(receivers);
    TotalPositive(Used(receivers, a));
  }

  /** Without a minimum every sender with anything to spare gives all it is asked for, trimmed
      or not: trimming only cuts it into more transfers. */
  lemma {:induction false} SentExactly(r: Rules, senders: seq<Entry>, receivers: seq<Entry>, i: nat)
    requires Positive(senders) && Positive(receivers) && !Diverges(r, senders, receivers)
    requires NoMinimum(r) && DistinctVenues(senders) && i < |senders|
    ensures Sent(Match(r, senders, receivers), senders[i].venue) == Asked(r, senders, receivers, i)
    decreases Left(senders)
  {
    if receivers == [] {
      SentNonNegative(r, senders, i);
    } else if Offer(r, senders[0], receivers[0]).None? {
      SentAfterSkip(r, senders, receivers, i);
    } else {
      SentAfterSend(r, senders, receivers, Offer(r, senders[0], receivers[0]).value, i);
    }
  }

  lemma {:induction false} SentAfterSkip(r: Rules, senders: seq<Entry>, receivers: seq<Entry>, i: nat)
    requires Positive(senders) && Positive(receivers) && !Diverges(r, senders, receivers)
    requires NoMinimum(r) && DistinctVenues(senders) && i < |senders|
    requires receivers != [] && Offer(r, senders[0], receivers[0]).None?
    ensures Sent(Match(r, senders, receivers), senders[i].venue) == Asked(r, senders, receivers, i)
    decreases Left(senders), 0
  {
    SkipRound(r, senders, receivers);
    TotalPositive(senders[1..]);
    AskedAfterSkip(r, senders, receivers, i);
    if i > 0 {
      SentExactly(r, senders[1..], receivers, i - 1);
    } else {
      NoneSent(r, senders[1..], receivers, senders[0].venue);
    }
  }

  lemma {:induction false} SentAfterSend(r: Rules, senders: seq<Entry>, receivers: seq<Entry>, a: int, i: nat)
    requires Positive(senders) && Positive(receivers) && !Diverges(r, senders, receivers)
    requires NoMinimum(r) && DistinctVenues(senders) && i < |senders|
    requires receivers != [] && Offer(r, senders[0], receivers[0]) == Some(a)
    ensures Sent(Match(r, senders, receivers), senders[i].venue) == Asked(r, senders, receivers, i)
    decreases Left(senders), 0
  {
    SendRound(r, senders, receivers, a, senders[i].venue);
    AskedAfterSend(r, senders, receivers, a, i);
    var j := Place(senders, a, i);
    if j >= 0 {
      SentExactly(r, Used(senders, a), Used(receivers, a), j);
    } else {
      NoneSent(r, Used(senders, a), Used(receivers, a), senders[0].venue);
    }
  }

  lemma NoneSent(r: Rules, senders: seq<Entry>, receivers: seq<Entry>, v: Venue)
    requires Positive(senders) && Positive(receivers) && !Diverges(r, senders, receivers)
    requires forall i :: 0 <= i < |senders| ==> senders[i].venue != v
    ensures Sent(Match(r, senders, receivers), v) == 0
  {
    MatchIsSafe(r, senders, receivers, v);
    NoSumFor(senders, v);
  }

  /** Without a minimum the plans together keep the operating balance of a sender exactly when it
      is not asked for more than it can spare. */
  lemma FloorKeptWithoutMinimumIff(r: Rules, senders: seq<Entry>, receivers: seq<Entry>, i: nat)
    requires Positive(senders) && Positive(receivers) && !Diverges(r, senders, receivers)
    requires NoMinimum(r) && DistinctVenues(senders) && i < |senders|
    ensures var v, plans := senders[i].venue, Match(r, senders, receivers);
            (Sent(plans, v) == 0 || Free(r, v) - Sent(plans, v) >= r.minOperating)
            <==> Spare(r, v) <= 0 || TotalOf(receivers) - SentBefore(r, senders, i) <= Spare(r, v)
                 || senders[i].amount <= Spare(r, v)
  {
    SentExactly(r, senders, receivers, i);
  }

  /** The first round between one sender and one receiver, and the volume it starts. */
  lemma OneRound(r: Rules, s: Entry, d: Entry)
    requires s.amount > 0 && d.amount > 0 && Positive([s]) && Positive([d]) && !Diverges(r, [s], [d])
    ensures var plans := Match(r, [s], [d]);
            match Offer(r, s, d)
            case None => plans == []
            case Some(a) => plans != [] && a > 0 && Volume(plans) >= a
                            && (a == Min(s.amount, d.amount) ==> Volume(plans) == a)
  {
    var l := Loop([s], [d], []);
    RoundProgresses(r, l);
    RoundKeepsFate(r, l);
    var l' := NextRound(r, l);
    var plans, rest := Match(r, [s], [d]), Match(r, l'.senders, l'.receivers);
    assert plans == l'.plans + rest;
    MatchIsSafe(r, l'.senders, l'.receivers, s.venue);
    VolumeNonNegative(r, rest);
    match Offer(r, s, d)
    case None =>
    case Some(a) =>
      assert plans[1..] == rest;
      OfferBounds(r, s, d);
  }

  lemma {:induction false} VolumeNonNegative(r: Rules, plans: seq<TransferPlan>)
    requires forall i :: 0 <= i < |plans| ==> Sound(r, plans[i])
    ensures Volume(plans) >= 0
  {
    if plans != [] { VolumeNonNegative(r, plans[1..]); }
  }

  /** Two plans of 40 leave 20 where 60 must stay. */
  lemma FloorCanBeBroken()
    ensures var balances := map[Inventory.Binance := map["ETH" := Inventory.Balance(100, 0)]];
            var r := Rules(Some(FeeInfo(1, 10)), 60, balances, "ETH");
            && !Diverges(r, [Entry(Inventory.Binance, 80)], [Entry(Inventory.Wallet, 80)])
            && Volume(Match(r, [Entry(Inventory.Binance, 80)], [Entry(Inventory.Wallet, 80)])) > 40
  {
    var r := Rules(Some(FeeInfo(1, 10)), 60, map[Inventory.Binance := map["ETH" := Inventory.Balance(100, 0)]], "ETH");
    MinimumPreventsDivergence(r, [Entry(Inventory.Binance, 80)], [Entry(Inventory.Wallet, 80)]);
    FloorKeptIff(r, Entry(Inventory.Binance, 80), Entry(Inventory.Wallet, 80));
  }

  // ----- planning one asset -----

  /** One venue's holding of the asset and its target. */
  datatype Holding = Holding(venue: Venue, amount: int, target: int)

  function Surpluses(hs: seq<Holding>): seq<Entry> {
    if hs == [] then []
    else (if hs[0].amount > hs[0].target then [Entry(hs[0].venue, hs[0].amount - hs[0].target)] else [])
         + Surpluses(hs[1..])
  }

  function Deficits(hs: seq<Holding>): seq<Entry> {
    if hs == [] then []
    else (if hs[0].amount < hs[0].target then [Entry(hs[0].venue, hs[0].target - hs[0].amount)] else [])
         + Deficits(hs[1..])
  }

  function Insert(e: Entry, list: seq<Entry>): seq<Entry> {
    if list == [] || e.amount > list[0].amount then [e] + list else [list[0]] + Insert(e, list[1..])
  }

  /** Largest first. How the program orders ties is up to the engine's sort. */
  function SortDescending(list: seq<Entry>): seq<Entry> {
    if list == [] then [] else Insert(list[0], SortDescending(list[1..]))
  }

  lemma {:induction false} InsertFacts(e: Entry, list: seq<Entry>, v: Venue)
    ensures SumFor(Insert(e, list), v) == SumFor([e] + list, v)
    ensures Positive(list) && e.amount > 0 ==> Positive(Insert(e, list))
  {
    assert ([e] + list)[1..] == list;
    if list != [] && e.amount <= list[0].amount {
      InsertFacts(e, list[1..], v);
      assert ([e] + list[1..])[1..] == list[1..];
      var r := Insert(e, list);
      assert r[1..] == Insert(e, list[1..]);
    }
  }

  lemma {:induction false} SortFacts(list: seq<Entry>, v: Venue)
    ensures SumFor(SortDescending(list), v) == SumFor(list, v)
    ensures Positive(list) ==> Positive(SortDescending(list))
  {
    if list != [] {
      SortFacts(list[1..], v);
      InsertFacts(list[0], SortDescending(list[1..]), v);
      assert ([list[0]] + SortDescending(list[1..]))[1..] == SortDescending(list[1..]);
    }
  }

  lemma PrependPositive(amount: int, v: Venue, list: seq<Entry>)
    requires Positive(list)
    ensures Positive((if amount > 0 then [Entry(v, amount)] else []) + list)
  {
  }

  lemma {:induction false} SurplusesPositive(hs: seq<Holding>)
    ensures Positive(Surpluses(hs))
  {
    if hs != [] {
      SurplusesPositive(hs[1..]);
      PrependPositive(hs[0].amount - hs[0].target, hs[0].venue, Surpluses(hs[1..]));
    }
  }

  lemma {:induction false} DeficitsPositive(hs: seq<Holding>)
    ensures Positive(Deficits(hs))
  {
    if hs != [] {
      DeficitsPositive(hs[1..]);
      PrependPositive(hs[0].target - hs[0].amount, hs[0].venue, Deficits(hs[1..]));
    }
  }

  predicate Distinct(hs: seq<Holding>) {
    forall i, j :: 0 <= i < j < |hs| ==> hs[i].venue != hs[j].venue
  }

  lemma {:induction false} NoEntry(hs: seq<Holding>, v: Venue)
    requires forall i :: 0 <= i < |hs| ==> hs[i].venue != v
    ensures SumFor(Surpluses(hs), v) == 0 && SumFor(Deficits(hs), v) == 0
  {
    if hs != [] {
      NoEntry(hs[1..], v);
      PrependSum(hs, v);
    }
  }

  lemma PrependSum(hs: seq<Holding>, v: Venue)
    requires hs != []
    ensures SumFor(Surpluses(hs), v) ==
            (if hs[0].venue == v then Max(0, hs[0].amount - hs[0].target) else 0) + SumFor(Surpluses(hs[1..]), v)
    ensures SumFor(Deficits(hs), v) ==
            (if hs[0].venue == v then Max(0, hs[0].target - hs[0].amount) else 0) + SumFor(Deficits(hs[1..]), v)
  {
    if hs[0].amount > hs[0].target { assert Surpluses(hs)[1..] == Surpluses(hs[1..]); }
    if hs[0].amount < hs[0].target { assert Deficits(hs)[1..] == Deficits(hs[1..]); }
    assert [] + Surpluses(hs[1..]) == Surpluses(hs[1..]) && [] + Deficits(hs[1..]) == Deficits(hs[1..]);
  }

  lemma {:induction false} EntriesSum(hs: seq<Holding>, i: nat)
    requires Distinct(hs) && i < |hs|
    ensures SumFor(Surpluses(hs), hs[i].venue) == Max(0, hs[i].amount - hs[i].target)
    ensures SumFor(Deficits(hs), hs[i].venue) == Max(0, hs[i].target - hs[i].amount)
  {
    PrependSum(hs, hs[i].venue);
    if i == 0 {
      NoEntry(hs[1..], hs[0].venue);
    } else {
      assert hs[1..][i - 1] == hs[i] && hs[0].venue != hs[i].venue;
      EntriesSum(hs[1..], i - 1);
    }
  }

  /** Percentage points between a venue's share and the even split. */
  function Deviation(h: Holding, total: int, venues: int): real {
    var ideal := if venues > 0 then 100.0 / venues as real else 0.0;
    var pct := if total > 0 then h.amount as real / total as real * 100.0 else 0.0;
    if pct >= ideal then pct - ideal else ideal - pct
  }

  function MaxDeviation(hs: seq<Holding>, total: int, venues: int): real {
    if hs == [] then 0.0
    else
      var rest, d := MaxDeviation(hs[1..], total, venues), Deviation(hs[0], total, venues);
      if d > rest then d else rest
  }

  function TotalHeld(hs: seq<Holding>): int { if hs == [] then 0 else hs[0].amount + TotalHeld(hs[1..]) }

  predicate NeedsRebalance(hs: seq<Holding>, thresholdPct: real) {
    MaxDeviation(hs, TotalHeld(hs), |hs|) >= thresholdPct
  }

  /** A venue's share of the total differs from an even split by at least this many percentage points.
      Of nothing, every share is zero. */
  predicate Skewed(h: Holding, total: int, venues: nat, thresholdPct: real)
    requires venues > 0
  {
    var n := venues as real;
    if total > 0 then
      var gap := n * h.amount as real - total as real;
      (if gap >= 0.0 then gap else -gap) * 100.0 >= thresholdPct * n * total as real
    else 100.0 >= thresholdPct * n
  }

  lemma DeviationIff(h: Holding, total: int, venues: int, thresholdPct: real)
    requires venues > 0
    ensures Deviation(h, total, venues) >= thresholdPct <==> Skewed(h, total, venues, thresholdPct)
  {
    var n, t, a := venues as real, total as real, h.amount as real;
    var ideal := 100.0 / n;
    assert ideal * n == 100.0;
    if total > 0 {
      var pct := a / t * 100.0;
      assert pct * t == a * 100.0;
      var d := Deviation(h, total, venues);
      assert d == if pct >= ideal then pct - ideal else ideal - pct;
      assert (pct - ideal) * (n * t) == (n * a - t) * 100.0 by {
        assert pct * (n * t) == (pct * t) * n && ideal * (n * t) == (ideal * n) * t;
      }
      ScaleUp(d, thresholdPct, n * t);
      ScaleUp(pct, ideal, n * t);
    } else {
      ScaleUp(ideal, thresholdPct, n);
    }
  }

  lemma ScaleUp(x: real, y: real, f: real)
    requires f > 0.0
    ensures x >= y <==> x * f >= y * f
  {
  }

  lemma {:induction false} MaxDeviationIff(hs: seq<Holding>, total: int, venues: int, thresholdPct: real)
    requires venues > 0 && thresholdPct > 0.0
    ensures MaxDeviation(hs, total, venues) >= thresholdPct <==>
            exists i :: 0 <= i < |hs| && Skewed(hs[i], total, venues, thresholdPct)
  {
    if hs != [] {
      MaxDeviationIff(hs[1..], total, venues, thresholdPct);
      DeviationIff(hs[0], total, venues, thresholdPct);
      if i :| 0 <= i < |hs[1..]| && Skewed(hs[1..][i], total, venues, thresholdPct) {
        assert Skewed(hs[i + 1], total, venues, thresholdPct);
      }
      if i :| 0 <= i < |hs| && Skewed(hs[i], total, venues, thresholdPct) {
        if i > 0 { assert Skewed(hs[1..][i - 1], total, venues, thresholdPct); }
      }
    }
  }

  ghost predicate OffBalance(hs: seq<Holding>, thresholdPct: real) {
    exists i :: 0 <= i < |hs| && Skewed(hs[i], TotalHeld(hs), |hs|, thresholdPct)
  }

  /** Planning is triggered exactly when some venue is skewed by the threshold. */
  lemma TriggerIff(hs: seq<Holding>, thresholdPct: real)
    requires hs != [] && thresholdPct > 0.0
    ensures NeedsRebalance(hs, thresholdPct) <==> OffBalance(hs, thresholdPct)
  {
    MaxDeviationIff(hs, TotalHeld(hs), |hs|, thresholdPct);
  }

  /** Some sender can give the first receiver something the rules allow: the lesser of its excess and
      the need, or when that would go below the operating balance what is left above it. */
  predicate CanSend(r: Rules, s: Entry, d: Entry) {
    var wanted := if s.amount < d.amount then s.amount else d.amount;
    var spare := Free(r, s.venue) - r.minOperating;
    var least := if r.fee.Some? then r.fee.value.minWithdrawal else wanted;
    wanted >= least && (wanted <= spare || r.fee.None? || spare >= least)
  }

  ghost predicate CanPlan(r: Rules, senders: seq<Entry>, receivers: seq<Entry>) {
    receivers != [] && exists i :: 0 <= i < |senders| && CanSend(r, senders[i], receivers[0])
  }

  /** The matching makes a plan exactly when there is a deficit and some sender can send. */
  lemma {:induction false} MatchMakesPlanIff(r: Rules, senders: seq<Entry>, receivers: seq<Entry>)
    requires Positive(senders) && Positive(receivers) && !Diverges(r, senders, receivers)
    ensures Match(r, senders, receivers) != [] <==> CanPlan(r, senders, receivers)
    decreases |senders|
  {
    if senders != [] && receivers != [] {
      MatchRound(r, senders, receivers);
      assert Offer(r, senders[0], receivers[0]).Some? <==> CanSend(r, senders[0], receivers[0]);
      if Offer(r, senders[0], receivers[0]).None? {
        MatchMakesPlanIff(r, senders[1..], receivers);
        if i :| 0 <= i < |senders| && CanSend(r, senders[i], receivers[0]) {
          assert senders[1..][i - 1] == senders[i];
        }
        if i :| 0 <= i < |senders[1..]| && CanSend(r, senders[1..][i], receivers[0]) {
          assert CanSend(r, senders[i + 1], receivers[0]);
        }
      }
    }
  }

  lemma TriggeredPlansIff(r: Rules, hs: seq<Holding>, thresholdPct: real, plans: seq<TransferPlan>)
    requires Planned(r, hs, thresholdPct, plans)
    ensures plans != [] <==>
            && NeedsRebalance(hs, thresholdPct)
            && CanPlan(r, SortDescending(Surpluses(hs)), SortDescending(Deficits(hs)))
  {
    if NeedsRebalance(hs, thresholdPct) {
      MatchMakesPlanIff(r, SortDescending(Surpluses(hs)), SortDescending(Deficits(hs)));
    }
  }

  /** Plans are made exactly when some venue is skewed by the threshold, a venue is below its target,
      and one above its own can send to the neediest. */
  lemma PlansAreMadeIff(r: Rules, hs: seq<Holding>, thresholdPct: real, plans: seq<TransferPlan>)
    requires Planned(r, hs, thresholdPct, plans) && hs != [] && thresholdPct > 0.0
    ensures plans != [] <==>
            && OffBalance(hs, thresholdPct)
            && CanPlan(r, SortDescending(Surpluses(hs)), SortDescending(Deficits(hs)))
  {
    TriggerIff(hs, thresholdPct);
    TriggeredPlansIff(r, hs, thresholdPct, plans);
  }

  /** Every plan goes from a sender to a receiver and names the withdrawal fee. */
  lemma {:induction false} PlansNameEntries(r: Rules, senders: seq<Entry>, receivers: seq<Entry>, p: TransferPlan)
    requires Positive(senders) && Positive(receivers) && !Diverges(r, senders, receivers)
    requires p in Match(r, senders, receivers)
    ensures exists i :: 0 <= i < |senders| && senders[i].venue == p.from
    ensures exists j :: 0 <= j < |receivers| && receivers[j].venue == p.to
    ensures p.estimatedFee == if r.fee.Some? then r.fee.value.withdrawalFee else 0
    decreases Left(senders)
  {
    MatchRound(r, senders, receivers);
    var l' := NextRound(r, Loop(senders, receivers, []));
    if p in l'.plans {
      assert senders[0].venue == p.from && receivers[0].venue == p.to;
    } else {
      PlansNameEntries(r, l'.senders, l'.receivers, p);
      var i :| 0 <= i < |l'.senders| && l'.senders[i].venue == p.from;
      var j :| 0 <= j < |l'.receivers| && l'.receivers[j].venue == p.to;
      match Offer(r, senders[0], receivers[0])
      case None => assert senders[i + 1].venue == p.from;
      case Some(a) =>
        UsedVenue(senders, a, i);
        UsedVenue(receivers, a, j);
    }
  }

  lemma UsedVenue(list: seq<Entry>, a: int, i: nat)
    requires list != [] && i < |Used(list, a)|
    ensures exists k :: 0 <= k < |list| && list[k].venue == Used(list, a)[i].venue
  {
    if |Used(list, a)| < |list| {
      assert list[i + 1].venue == Used(list, a)[i].venue;
    } else if i == 0 {
      assert list[0].venue == Used(list, a)[0].venue;
    } else {
      assert list[i].venue == Used(list, a)[i].venue;
    }
  }

  predicate Falling(list: seq<Entry>) { forall i, j :: 0 <= i < j < |list| ==> list[i].amount >= list[j].amount }

  lemma {:induction false} InsertFalls(e: Entry, list: seq<Entry>)
    requires Falling(list)
    ensures Falling(Insert(e, list)) && multiset(Insert(e, list)) == multiset(list) + multiset{e}
    ensures Insert(e, list) != []
    ensures var head := Insert(e, list)[0]; head == e || (list != [] && head == list[0])
  {
    if list == [] || e.amount > list[0].amount {
      PrependFalls(e, list);
    } else {
      InsertFalls(e, list[1..]);
      assert list == [list[0]] + list[1..];
      PrependFalls(list[0], Insert(e, list[1..]));
    }
  }

  lemma PrependFalls(e: Entry, list: seq<Entry>)
    requires Falling(list) && (list != [] ==> e.amount >= list[0].amount)
    ensures Falling([e] + list)
  {
  }

  /** The largest surplus meets the largest deficit: both lists are sorted, and only reordered. */
  lemma {:induction false} SortIsDescending(list: seq<Entry>)
    ensures Falling(SortDescending(list)) && multiset(SortDescending(list)) == multiset(list)
  {
    if list != [] {
      SortIsDescending(list[1..]);
      InsertFalls(list[0], SortDescending(list[1..]));
      assert list == [list[0]] + list[1..];
    }
  }

  /** Each venue above its target is a sender by the difference, each below it a receiver. */
  lemma SendersAndReceivers(hs: seq<Holding>, i: nat)
    requires Distinct(hs) && i < |hs|
    ensures var h := hs[i];
            var over, under := h.amount - h.target, h.target - h.amount;
            && SumFor(SortDescending(Surpluses(hs)), h.venue) == (if over > 0 then over else 0)
            && SumFor(SortDescending(Deficits(hs)), h.venue) == (if under > 0 then under else 0)
  {
    SortFacts(Surpluses(hs), hs[i].venue);
    SortFacts(Deficits(hs), hs[i].venue);
    EntriesSum(hs, i);
  }

  /** The fraction of the total that a venue should hold. */
  datatype Share = Share(venue: Venue, ratio: real)

  /** What the tracker holds at a venue, free and locked. */
  function Held(r: Rules, v: Venue): int {
    if v in r.balances then Inventory.Holding(r.balances[v], r.asset) else 0
  }

  function TotalShared(r: Rules, shares: seq<Share>): int {
    if shares == [] then 0 else Held(r, shares[0].venue) + TotalShared(r, shares[1..])
  }

  function Target(total: int, ratio: real): int { Round(total as real * ratio) }

  /** The holdings with their rounded targets, in the tracker's order of venues. */
  function Holdings(r: Rules, shares: seq<Share>, total: int): (hs: seq<Holding>)
    ensures |hs| == |shares|
    ensures forall i :: 0 <= i < |hs| ==>
              hs[i] == Holding(shares[i].venue, Held(r, shares[i].venue), Target(total, shares[i].ratio))
  {
    seq(|shares|, i requires 0 <= i < |shares| =>
      Holding(shares[i].venue, Held(r, shares[i].venue), Target(total, shares[i].ratio)))
  }

  /** What is planned on are the venues given, with all they hold and their fraction of the total, to the
      nearest unit. */
  lemma HoldingsAre(r: Rules, shares: seq<Share>, total: int, i: nat)
    requires i < |shares|
    ensures var h, v := Holdings(r, shares, total)[i], shares[i].venue;
            && h.venue == v
            && h.amount == (if v in r.balances && r.asset in r.balances[v]
                            then r.balances[v][r.asset].free + r.balances[v][r.asset].locked else 0)
            && h.target as real - 0.5 <= total as real * shares[i].ratio < h.target as real + 0.5
  {
    RoundIsNearest(total as real * shares[i].ratio);
  }

  lemma {:induction false} SameTotal(r: Rules, shares: seq<Share>, total: int)
    ensures TotalHeld(Holdings(r, shares, total)) == TotalShared(r, shares)
  {
    if shares != [] {
      SameTotal(r, shares[1..], total);
      assert Holdings(r, shares, total)[1..] == Holdings(r, shares[1..], total);
    }
  }

  method PlanAsset(r: Rules, shares: seq<Share>, thresholdPct: real) returns (plans: seq<TransferPlan>)
    requires var hs := Holdings(r, shares, TotalShared(r, shares));
             NeedsRebalance(hs, thresholdPct) ==>
               !Diverges(r, SortDescending(Surpluses(hs)), SortDescending(Deficits(hs)))
    ensures var hs := Holdings(r, shares, TotalShared(r, shares));
            Planned(r, hs, thresholdPct, plans) && TotalHeld(hs) == TotalShared(r, shares)
  {
    var total := TotalShared(r, shares);
    SameTotal(r, shares, total);
    plans := PlanHoldings(r, Holdings(r, shares, total), thresholdPct);
  }

  /** Nothing within the threshold; beyond it, the plans of the sorted surpluses and deficits. */
  ghost predicate Planned(r: Rules, hs: seq<Holding>, thresholdPct: real, plans: seq<TransferPlan>) {
    var senders, receivers := SortDescending(Surpluses(hs)), SortDescending(Deficits(hs));
    if !NeedsRebalance(hs, thresholdPct) then plans == []
    else Positive(senders) && Positive(receivers) && !Diverges(r, senders, receivers)
         && plans == Match(r, senders, receivers)
  }

  method PlanHoldings(r: Rules, hs: seq<Holding>, thresholdPct: real) returns (plans: seq<TransferPlan>)
    requires NeedsRebalance(hs, thresholdPct) ==>
               !Diverges(r, SortDescending(Surpluses(hs)), SortDescending(Deficits(hs)))
    ensures Planned(r, hs, thresholdPct, plans)
  {
    SurplusesPositive(hs);
    DeficitsPositive(hs);
    SortFacts(Surpluses(hs), Inventory.Binance);
    SortFacts(Deficits(hs), Inventory.Binance);
    if !NeedsRebalance(hs, thresholdPct) {
      return [];
    }
    var surpluses := SortDescending(Surpluses(hs));
    var deficits := SortDescending(Deficits(hs));
    plans := MatchVenues(r, surpluses, deficits);
  }

  /** Carrying out all plans moves no venue across its target: a venue above it only sends, and
      not below it; a venue below it only receives, and not above it even before fees. */
  lemma NoVenueCrossesTarget(r: Rules, hs: seq<Holding>, thresholdPct: real, plans: seq<TransferPlan>, i: nat)
    requires Planned(r, hs, thresholdPct, plans) && Distinct(hs) && i < |hs|
    ensures var h := hs[i];
            && (h.amount >= h.target ==> h.amount - Sent(plans, h.venue) >= h.target && Received(plans, h.venue) == 0)
            && (h.amount <= h.target ==> h.amount + Received(plans, h.venue) <= h.target && Sent(plans, h.venue) == 0)
  {
    var h := hs[i];
    if NeedsRebalance(hs, thresholdPct) {
      SortFacts(Surpluses(hs), h.venue);
      SortFacts(Deficits(hs), h.venue);
      EntriesSum(hs, i);
      MatchIsSafe(r, SortDescending(Surpluses(hs)), SortDescending(Deficits(hs)), h.venue);
    }
  }
}
