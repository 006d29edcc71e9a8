/**
 What the registry reports of an order and what the ledger has moved for it, over whole runs: both are
 the trades the order took part in, no more and no less.
 */
module ExchangeFills {
  import opened FixedPoint
  import opened Orders
  import opened Matching
  import opened Registry
  import opened Ledger
  import opened Exchange
  import opened ExchangeInv
  import opened ExchangeSteps
  import opened ExchangeHooks
  import opened ExchangeRuns
  import opened ExchangePrices

  // ----- the trades of a run --------------------------------------------------------------

  datatype Measure = Quantity | Quote

  /** A fill counted in base units, or in the truncated quote units it cost. */
  function Amount(m: Measure, volume: int, price: int): int {
    if m.Quantity? then volume else MulRaw(volume, price)
  }

  /** Order n's part of a trade, on either side of it. */
  function TradePart(m: Measure, t: Trade, n: nat): int {
    Part(t.buyId, n, Amount(m, t.volume, t.price)) + Part(t.sellId, n, Amount(m, t.volume, t.price))
  }

  function TradeSum(m: Measure, trades: seq<Trade>, n: nat): int {
    if trades == [] then 0 else TradePart(m, trades[0], n) + TradeSum(m, trades[1..], n)
  }

  /** The trades a step makes in its book. */
  function TradesBy(s: Sys, step: Step): seq<Trade>
    requires Enabled(s, step)
  {
    match step
    case Place(n) => AddLimit(s.books[s.recs[n].sym], EdgeOrder(s.recs[n], s.clock)).1
    case OutsideOrder(sym, ord) => AddLimit(s.books[sym], ord).1
    case OutsideIoc(sym, ord) => ExecuteIoc(s.books[sym], ord).1
    case _ => []
  }

  /** All trades of a run, in order. */
  ghost function TradesOf(s: Sys, steps: seq<Step>): seq<Trade>
    decreases |steps|
  {
    if steps == [] || !Enabled(s, steps[0]) then []
    else TradesBy(s, steps[0]) + TradesOf(Next(s, steps[0]), steps[1..])
  }

  lemma {:induction false} SumConcat(m: Measure, a: seq<Trade>, b: seq<Trade>, n: nat)
    ensures TradeSum(m, a + b, n) == TradeSum(m, a, n) + TradeSum(m, b, n)
    decreases |a|
  {
    hide TradePart;
    if a == [] {
      assert a + b == b;
    } else {
      assert (a + b)[1..] == a[1..] + b;
      SumConcat(m, a[1..], b, n);
    }
  }

  // ----- what the hooks still owe ---------------------------------------------------------

  function FoldAmount(m: Measure, e: Event, n: nat): int {
    if e.Fold? then TradePart(m, e.trade, n) else 0
  }

  function SettleAmount(m: Measure, e: Event, n: nat): int {
    if e.Settle? && e.num == n then Amount(m, e.qty, e.price) else 0
  }

  /** What the registry has still to fold for order n. */
  function OwedFold(m: Measure, events: seq<Event>, n: nat): int {
    if events == [] then 0 else FoldAmount(m, events[0], n) + OwedFold(m, events[1..], n)
  }

  /** What the ledger has still to settle for it. */
  function OwedSettle(m: Measure, events: seq<Event>, n: nat): int {
    if events == [] then 0 else SettleAmount(m, events[0], n) + OwedSettle(m, events[1..], n)
  }

  lemma {:induction false} OwedConcat(m: Measure, a: seq<Event>, b: seq<Event>, n: nat)
    ensures OwedFold(m, a + b, n) == OwedFold(m, a, n) + OwedFold(m, b, n)
    ensures OwedSettle(m, a + b, n) == OwedSettle(m, a, n) + OwedSettle(m, b, n)
    decreases |a|
  {
    hide FoldAmount, SettleAmount;
    if a == [] {
      assert a + b == b;
    } else {
      assert (a + b)[1..] == a[1..] + b;
      OwedConcat(m, a[1..], b, n);
    }
  }

  lemma OwedOne(m: Measure, e: Event, n: nat)
    ensures OwedFold(m, [e], n) == FoldAmount(m, e, n) && OwedSettle(m, [e], n) == SettleAmount(m, e, n)
  {
    assert [e][1..] == [];
  }

  lemma OwedByOne(m: Measure, id: OrderId, isBuy: bool, t: Trade, n: nat)
    ensures OwedFold(m, SettleEvent(id, isBuy, t), n) == 0
    ensures OwedSettle(m, SettleEvent(id, isBuy, t), n) == Part(id, n, Amount(m, t.volume, t.price))
  {
    if id.Edge? { OwedOne(m, Settle(id.num, isBuy, t.volume, t.price), n); }
  }

  /** The hooks of a book call owe the registry and the ledger exactly its trades. */
  lemma {:induction false} OwedTrades(m: Measure, trades: seq<Trade>, n: nat)
    ensures OwedFold(m, EventsOf(trades), n) == OwedSettle(m, EventsOf(trades), n) == TradeSum(m, trades, n)
    decreases |trades|
  {
    if trades != [] {
      var t := trades[0];
      OwedTrades(m, trades[1..], n);
      var a, b, c := [Fold(t)], SettleEvent(t.buyId, true, t), SettleEvent(t.sellId, t.sellId == t.buyId, t);
      OwedOne(m, Fold(t), n);
      OwedByOne(m, t.buyId, true, t, n);
      OwedByOne(m, t.sellId, t.sellId == t.buyId, t, n);
      hide Amount, SettleEvent;
      OwedConcat(m, a, b, n);
      OwedConcat(m, a + b, c, n);
      OwedConcat(m, a + b + c, EventsOf(trades[1..]), n);
    }
  }

  /** Nothing is owed to an order that has not been sent to the instrument's book. */
  lemma {:induction false} OwedNobody(s: Sys, sym: string, events: seq<Event>, m: Measure, n: nat)
    requires forall i :: 0 <= i < |events| ==> EventOk(s, sym, events[i])
    requires !OwnedBy(s, sym, n)
    ensures OwedFold(m, events, n) == OwedSettle(m, events, n) == 0
    decreases |events|
  {
    if events != [] {
      assert EventOk(s, sym, events[0]);
      OwedNobody(s, sym, events[1..], m, n);
    }
  }

  // ----- what the registry reports --------------------------------------------------------

  function ReportedFor(m: Measure, rec: Rec): int {
    if m.Quantity? then rec.executed else rec.cumQuote
  }

  /** Which of a trade's hooks is meant: the registry's, or the ledger's. */
  datatype Hook = Reporting | Settling

  function Entered(h: Hook, m: Measure, rec: Rec): int {
    if h.Reporting? then ReportedFor(m, rec) else 0
  }

  function Owed(h: Hook, m: Measure, events: seq<Event>, n: nat): int {
    if h.Reporting? then OwedFold(m, events, n) else OwedSettle(m, events, n)
  }

  /** What order n's record says, if that is meant, and what is still owed to it. */
  function Booked(h: Hook, m: Measure, s: Sys, n: nat): int {
    if n in s.recs then Entered(h, m, s.recs[n]) + Owed(h, m, Pend(s, s.recs[n].sym), n) else 0
  }

  /** What a step settles for order n; what it folds stays in the record. */
  function SettledBy(h: Hook, m: Measure, s: Sys, step: Step, n: nat): int {
    if h.Settling? && step.RunHook? && Pend(s, step.sym) != [] then SettleAmount(m, Pend(s, step.sym)[0], n) else 0
  }

  /** An order that has not been sent has cost nothing. */
  ghost predicate Unreported(s: Sys) {
    forall n :: n in s.recs && n in s.phase && !s.phase[n].Live? ==> s.recs[n].cumQuote == 0
  }

  lemma NotSentNotOwed(s: Sys, m: Measure, sym: string, n: nat)
    requires EventsOk(s) && !OwnedBy(s, sym, n)
    ensures OwedFold(m, Pend(s, sym), n) == OwedSettle(m, Pend(s, sym), n) == 0
  {
    OwedNobody(s, sym, Pend(s, sym), m, n);
  }

  lemma HooksInOrder(s: Sys)
    requires Inv(s)
    ensures EventsOk(s)
  {
  }

  /** A book call: its trades are now owed. */
  lemma CallBooks(s: Sys, s2: Sys, sym: string, trades: seq<Trade>, h: Hook, m: Measure, n: nat)
    requires Pend(s, sym) == [] && s2.recs == s.recs && s2.pend == s.pend[sym := EventsOf(trades)] && EventsOk(s2)
    ensures Booked(h, m, s2, n) == Booked(h, m, s, n) + TradeSum(m, trades, n)
  {
    OwedTrades(m, trades, n);
    assert OwedFold(m, [], n) == OwedSettle(m, [], n) == 0;
    hide EventsOk, EventsOf, OwedFold, OwedSettle, Entered;
    if n !in s.recs || s.recs[n].sym != sym { NotSentNotOwed(s2, m, sym, n); }
  }

  lemma FillAdds(m: Measure, rec: Rec, qty: int, price: int)
    requires qty > 0
    ensures ReportedFor(m, ApplyFill(rec, qty, price)) == ReportedFor(m, rec) + Amount(m, qty, price)
    ensures ApplyFill(rec, qty, price).sym == rec.sym
  {
    hide MulRaw;
  }

  lemma FoldAdds(m: Measure, recs: Recs, t: Trade, n: nat)
    requires n in recs && t.volume > 0
    ensures FoldTrade(recs, t).Keys == recs.Keys
    ensures ReportedFor(m, FoldTrade(recs, t)[n]) == ReportedFor(m, recs[n]) + TradePart(m, t, n)
    ensures FoldTrade(recs, t)[n].sym == recs[n].sym
  {
    hide ApplyFill, Amount, ReportedFor;
    var half := FoldFor(recs, t.buyId, t.volume, t.price);
    FillAdds(m, recs[n], t.volume, t.price);
    FillAdds(m, half[n], t.volume, t.price);
  }

  /** The head of a symbol's hooks, and what of it is order n's. */
  lemma HeadOwed(s: Sys, sym: string, m: Measure, n: nat)
    requires EventsOk(s) && Pend(s, sym) != []
    ensures Pend(s, sym)[0].Fold? ==> Pend(s, sym)[0].trade.volume > 0
    ensures !OwnedBy(s, sym, n) ==> FoldAmount(m, Pend(s, sym)[0], n) == SettleAmount(m, Pend(s, sym)[0], n) == 0
  {
    assert EventOk(s, sym, Pend(s, sym)[0]);
    hide Amount;
  }

  /** A hook takes what it owes off the list; the registry's enters it in the record. */
  lemma HookMoves(s: Sys, s2: Sys, sym: string, h: Hook, m: Measure, n: nat)
    requires EventsOk(s) && Pend(s, sym) != [] && s2.pend == s.pend[sym := Pend(s, sym)[1..]]
    requires s2.recs.Keys == s.recs.Keys
    requires n in s.recs ==>
      && s2.recs[n].sym == s.recs[n].sym
      && ReportedFor(m, s2.recs[n]) == ReportedFor(m, s.recs[n]) + FoldAmount(m, Pend(s, sym)[0], n)
    ensures Booked(h, m, s2, n) == Booked(h, m, s, n) - (if h.Settling? then SettleAmount(m, Pend(s, sym)[0], n) else 0)
  {
    HeadOwed(s, sym, m, n);
    hide EventsOk, ReportedFor, FoldAmount, SettleAmount;
  }

  /** What a hook does to a record: the trade hook adds its part of the trade, the others nothing. */
  lemma HookReports(s: Sys, sym: string, m: Measure, n: nat)
    requires EventsOk(s) && Pend(s, sym) != [] && n in s.recs && n in HookStep(s, sym).recs
    ensures HookStep(s, sym).recs[n].sym == s.recs[n].sym
    ensures ReportedFor(m, HookStep(s, sym).recs[n]) == ReportedFor(m, s.recs[n]) + FoldAmount(m, Pend(s, sym)[0], n)
  {
    HeadOwed(s, sym, m, n);
    hide EventsOk, FoldTrade, TradePart;
    if Pend(s, sym)[0].Fold? {
      FoldRecs(s, sym);
      hide HookStep;
      FoldAdds(m, s.recs, Pend(s, sym)[0].trade, n);
    } else {
      HookTerms(s, sym);
      hide HookStep;
    }
  }

  lemma HookBooks(s: Sys, sym: string, h: Hook, m: Measure, n: nat)
    requires Inv(s) && Pend(s, sym) != []
    ensures Booked(h, m, HookStep(s, sym), n) == Booked(h, m, s, n) - SettledBy(h, m, s, RunHook(sym), n)
  {
    HooksInOrder(s);
    HookStepFrame(s, sym);
    hide Inv, EventsOk, Booked, HookStep, FoldAmount, SettleAmount;
    HookRecKeys(s, sym);
    if n in s.recs { HookReports(s, sym, m, n); }
    HookMoves(s, HookStep(s, sym), sym, h, m, n);
  }

  lemma HookRecKeys(s: Sys, sym: string)
    requires Pend(s, sym) != []
    ensures HookStep(s, sym).recs.Keys == s.recs.Keys
  {
    hide SettleHook, UnlockHook, FoldTrade;
    var rest := s.(pend := s.pend[sym := Pend(s, sym)[1..]]);
    match Pend(s, sym)[0]
    case Fold(t) => FoldKeys(s.recs, t);
    case Settle(n, isBuy, qty, price) => SettleHookRecs(rest, n, isBuy, qty, price);
    case CancelFold(o) =>
    case CancelUnlock(o) => UnlockHookFrame(rest, o);
  }

  lemma SettleHookRecs(s: Sys, n: nat, isBuy: bool, qty: int, price: int)
    ensures SettleHook(s, n, isBuy, qty, price).recs == s.recs
  {
    hide SettleFill, QuoteOf, BaseOf;
  }

  lemma CancelBooks(s: Sys, sym: string, id: OrderId, h: Hook, m: Measure, n: nat)
    requires LockFree(s, sym)
    ensures Booked(h, m, CancelStep(s, sym, id), n) == Booked(h, m, s, n)
  {
    hide Cancel;
    var (book, removed) := Cancel(s.books[sym], id);
    if removed.Some? {
      var a, b := CancelFold(removed.value), CancelUnlock(removed.value);
      OwedOne(m, a, n);
      OwedOne(m, b, n);
      OwedConcat(m, [a], [b], n);
      assert [a] + [b] == [a, b];
      hide OwedFold, OwedSettle, Entered;
    }
  }

  /** A record that was there neither before nor after, or reports nothing and is owed nothing. */
  lemma EnteredBooks(s: Sys, s2: Sys, k: nat, h: Hook, m: Measure, n: nat)
    requires s2.pend == s.pend && k !in s.recs && k in s2.recs && s2.recs == s.recs[k := s2.recs[k]]
    requires Entered(h, m, s2.recs[k]) == 0 && Owed(h, m, Pend(s, s2.recs[k].sym), k) == 0
    ensures Booked(h, m, s2, n) == Booked(h, m, s, n)
  {
    hide Owed, Entered;
  }

  lemma ClaimBooks(s: Sys, k: nat, req: Request, h: Hook, m: Measure, n: nat)
    requires EventsOk(s) && k !in s.recs
    ensures Booked(h, m, ClaimStep(s, k, req), n) == Booked(h, m, s, n)
  {
    NotSentNotOwed(s, m, req.sym, k);
    hide EventsOk, OwedFold, OwedSettle, ClientFor, Booked;
    if ClientFor(req, k) !in s.clients {
      EnteredBooks(s, ClaimStep(s, k, req), k, h, m, n);
    } else {
      SteadyFrom(s, ClaimStep(s, k, req), h, m, n);
    }
  }

  lemma RollBackBooks(s: Sys, k: nat, h: Hook, m: Measure, n: nat)
    requires EventsOk(s) && k in s.recs && k in s.phase && !s.phase[k].Live? && ReportedFor(m, s.recs[k]) == 0
    ensures Booked(h, m, RollBackStep(s, k), n) == Booked(h, m, s, n)
  {
    NotSentNotOwed(s, m, s.recs[k].sym, k);
    hide EventsOk, OwedFold, OwedSettle, LockAsset, LockAmount, DropClient, Booked, ReportedFor;
    var s2 := RollBackStep(s, k);
    assert s2.recs[k := s.recs[k]] == s.recs && s2.pend == s.pend;
    EnteredBooks(s2, s, k, h, m, n);
  }

  lemma SteadyFrom(s: Sys, s2: Sys, h: Hook, m: Measure, n: nat)
    requires s2.pend == s.pend && s2.recs.Keys == s.recs.Keys && SameTerms(s.recs, s2.recs)
    ensures Booked(h, m, s2, n) == Booked(h, m, s, n)
  {
    hide Owed;
  }

  lemma ReserveSteady(s: Sys, k: nat)
    requires k in s.recs
    ensures ReserveStep(s, k).recs == s.recs && ReserveStep(s, k).pend == s.pend
  {
    hide LockFunds, LockAsset, LockAmount;
  }

  lemma SteadyBooks(s: Sys, step: Step, h: Hook, m: Measure, n: nat)
    requires Enabled(s, step)
    requires step.DrawId? || step.Reserve? || step.Refunded? || step.AckCancel?
      || step.Deposit? || step.Withdraw? || step.BurnUnits?
    ensures Booked(h, m, Next(s, step), n) == Booked(h, m, s, n)
  {
    if step.Reserve? { ReserveSteady(s, step.n); }
    hide ReserveStep, Unlock, Credit, Debit, Burn, Booked, SameTerms;
    SteadySame(s, step);
    SteadyFrom(s, Next(s, step), h, m, n);
  }

  lemma SteadySame(s: Sys, step: Step)
    requires Enabled(s, step)
    requires step.DrawId? || step.Reserve? || step.Refunded? || step.AckCancel?
      || step.Deposit? || step.Withdraw? || step.BurnUnits?
    ensures Next(s, step).pend == s.pend
    ensures Next(s, step).recs.Keys == s.recs.Keys && SameTerms(s.recs, Next(s, step).recs)
  {
    if step.Reserve? { ReserveSteady(s, step.n); }
    hide ReserveStep, Unlock, Credit, Debit, Burn;
  }

  lemma NotRecordedYet(s: Sys, k: nat)
    requires Inv(s) && k in s.phase && s.phase[k].Drawn?
    ensures k !in s.recs
  {
    assert PhaseOk(s, k);
  }

  lemma NothingReported(s: Sys, k: nat, m: Measure)
    requires Inv(s) && Unreported(s) && k in s.recs && k in s.phase && !s.phase[k].Live?
    ensures ReportedFor(m, s.recs[k]) == 0
  {
    assert RecOk(s, k);
    hide Resting, FoldQty, SettleQty, CancelQty, UnlockQty;
  }

  predicate Trading(step: Step) {
    step.Place? || step.OutsideOrder? || step.OutsideIoc?
  }

  lemma TradingStep(s: Sys, step: Step) returns (sym: string)
    requires Enabled(s, step) && Trading(step)
    ensures Pend(s, sym) == [] && Next(s, step).recs == s.recs
    ensures Next(s, step).pend == s.pend[sym := EventsOf(TradesBy(s, step))]
  {
    hide EventsOf, AddLimit, ExecuteIoc, Harmless;
    sym := if step.Place? then s.recs[step.n].sym else step.sym;
  }

  lemma NoTrades(s: Sys, step: Step)
    requires Enabled(s, step) && !Trading(step)
    ensures TradesBy(s, step) == []
  {
  }

  /** Steps that neither trade nor run a hook: records keep what they report, and come and go only while
      there is nothing to report. */
  lemma QuietBooks(s: Sys, step: Step, h: Hook, m: Measure, n: nat)
    requires Enabled(s, step) && Inv(s) && Unreported(s) && !Trading(step) && !step.RunHook?
    ensures Booked(h, m, Next(s, step), n) == Booked(h, m, s, n)
  {
    assert EventsOk(s);
    hide Inv, Unreported, EventsOk, Booked, ClaimStep, ReserveStep, RollBackStep, RefundStep, CancelStep, ReportedFor;
    if step.Claim? {
      NotRecordedYet(s, step.n);
      ClaimBooks(s, step.n, step.req, h, m, n);
    } else if step.RollBack? {
      NothingReported(s, step.n, m);
      RollBackBooks(s, step.n, h, m, n);
    } else if step.CancelResting? {
      CancelBooks(s, step.sym, step.id, h, m, n);
    } else {
      SteadyBooks(s, step, h, m, n);
    }
  }

  lemma StepBooks(s: Sys, step: Step, h: Hook, m: Measure, n: nat)
    requires Enabled(s, step) && Inv(s) && Inv(Next(s, step)) && Unreported(s)
    ensures Booked(h, m, Next(s, step), n) + SettledBy(h, m, s, step, n)
         == Booked(h, m, s, n) + TradeSum(m, TradesBy(s, step), n)
  {
    hide Inv, Booked, TradesBy, Next, Enabled, SettledBy, Unreported, Trading;
    if Trading(step) {
      TradingBooks(s, step, h, m, n);
    } else {
      NoTrades(s, step);
      NothingSettled(s, step, h, m, n);
      if step.RunHook? {
        HookIsNext(s, step);
        assert step == RunHook(step.sym);
        HookBooks(s, step.sym, h, m, n);
      } else {
        QuietBooks(s, step, h, m, n);
      }
    }
  }

  lemma TradingBooks(s: Sys, step: Step, h: Hook, m: Measure, n: nat)
    requires Enabled(s, step) && Inv(Next(s, step)) && Trading(step)
    ensures Booked(h, m, Next(s, step), n) + SettledBy(h, m, s, step, n)
         == Booked(h, m, s, n) + TradeSum(m, TradesBy(s, step), n)
  {
    var sym := TradingStep(s, step);
    NothingSettled(s, step, h, m, n);
    hide Inv, EventsOk, EventsOf, Booked, TradeSum, TradesBy, Next, Enabled, SettledBy;
    HooksInOrder(Next(s, step));
    CallBooks(s, Next(s, step), sym, TradesBy(s, step), h, m, n);
  }

  lemma NothingSettled(s: Sys, step: Step, h: Hook, m: Measure, n: nat)
    ensures !step.RunHook? ==> SettledBy(h, m, s, step, n) == 0
  {
  }

  lemma HookIsNext(s: Sys, step: Step)
    requires Enabled(s, step) && step.RunHook?
    ensures Pend(s, step.sym) != [] && Next(s, step) == HookStep(s, step.sym)
  {
    hide HookStep;
  }

  // ----- an order once sent ---------------------------------------------------------------

  lemma LivePhase(s: Sys, step: Step, n: nat)
    requires Enabled(s, step) && n in s.phase && s.phase[n].Live? && n <= s.next
    ensures n in Next(s, step).phase && Next(s, step).phase[n].Live?
  {
    hide AddLimit, ExecuteIoc, Cancel, LockFunds, Unlock, LockAsset, LockAmount, EventsOf, Harmless, DropClient,
        DropRec,
        ClientFor, CancelRec, Credit, Debit, Burn;
    if step.RunHook? { HookStepFrame(s, step.sym); }
    hide HookStep;
  }

  lemma LiveRecorded(s: Sys, n: nat)
    requires Inv(s)
    ensures n in s.recs ==> n in s.phase
    ensures n in s.phase ==> n <= s.next
    ensures n in s.phase && s.phase[n].Live? ==> n in s.recs
  {
    if n in s.phase { assert PhaseOk(s, n); }
  }

  lemma NotLiveNothing(s: Sys, m: Measure, n: nat)
    requires EventsOk(s) && n in s.recs && n in s.phase && !s.phase[n].Live?
    ensures Booked(Reporting, m, s, n) == ReportedFor(m, s.recs[n])
  {
    NotSentNotOwed(s, m, s.recs[n].sym, n);
    hide EventsOk;
  }

  /** Whoever is in a trade has been sent. */
  lemma NotLiveNotTraded(s: Sys, step: Step, m: Measure, n: nat)
    requires Enabled(s, step) && EventsOk(Next(s, step)) && n in Next(s, step).phase && !Next(s, step).phase[n].Live?
    ensures TradeSum(m, TradesBy(s, step), n) == 0
  {
    if Trading(step) {
      var sym := TradingStep(s, step);
      OwedTrades(m, TradesBy(s, step), n);
      NotSentNotOwed(Next(s, step), m, sym, n);
    } else {
      NoTrades(s, step);
    }
    hide EventsOk, Next, Enabled, TradesBy;
  }

  lemma UnreportedAt(s: Sys, n: nat)
    requires Unreported(s) && n in s.recs && n in s.phase && !s.phase[n].Live?
    ensures ReportedFor(Quote, s.recs[n]) == 0
  {
  }

  lemma OneUnreported(s: Sys, step: Step, n: nat)
    requires Enabled(s, step) && Inv(s) && Inv(Next(s, step)) && Unreported(s)
    requires n in Next(s, step).recs && n in Next(s, step).phase && !Next(s, step).phase[n].Live?
    ensures Next(s, step).recs[n].cumQuote == 0
  {
    hide Inv, EventsOk, Next, Enabled, TradesBy, TradeSum, Unreported, OwedFold;
    HooksInOrder(s);
    HooksInOrder(Next(s, step));
    StepBooks(s, step, Reporting, Quote, n);
    NotLiveNothing(Next(s, step), Quote, n);
    NotLiveNotTraded(s, step, Quote, n);
    LiveRecorded(s, n);
    if n in s.recs {
      if s.phase[n].Live? { LivePhase(s, step, n); }
      NotLiveNothing(s, Quote, n);
      UnreportedAt(s, n);
    }
  }

  lemma StepUnreported(s: Sys, step: Step)
    requires Enabled(s, step) && Inv(s) && Inv(Next(s, step)) && Unreported(s)
    ensures Unreported(Next(s, step))
  {
    hide Inv, Next, Enabled;
    forall n | n in Next(s, step).recs && n in Next(s, step).phase && !Next(s, step).phase[n].Live?
      ensures Next(s, step).recs[n].cumQuote == 0
    {
      OneUnreported(s, step, n);
    }
  }

  // ----- whole runs -----------------------------------------------------------------------

  /** What the ledger's hooks of a run settled for order n. */
  ghost function SettledOf(h: Hook, m: Measure, s: Sys, steps: seq<Step>, n: nat): int
    decreases |steps|
  {
    if steps == [] || !Enabled(s, steps[0]) then 0
    else SettledBy(h, m, s, steps[0], n) + SettledOf(h, m, Next(s, steps[0]), steps[1..], n)
  }

  lemma {:induction false} RunBooks(s: Sys, steps: seq<Step>, s': Sys, h: Hook, m: Measure, n: nat)
    requires Inv(s) && Run(s, steps, s') && Unreported(s)
    ensures Booked(h, m, s', n) + SettledOf(h, m, s, steps, n) == Booked(h, m, s, n)
        + TradeSum(m, TradesOf(s, steps), n)
    decreases |steps|
  {
    hide Inv, Enabled, Next, Unreported, Booked, TradesBy, SettledBy;
    if steps != [] {
      StepKeeps(s, steps[0]);
      StepBooks(s, steps[0], h, m, n);
      StepUnreported(s, steps[0]);
      RunBooks(Next(s, steps[0]), steps[1..], s', h, m, n);
      SumConcat(m, TradesBy(s, steps[0]), TradesOf(Next(s, steps[0]), steps[1..]), n);
    }
  }

  lemma {:induction false} ReportingSettlesNothing(m: Measure, s: Sys, steps: seq<Step>, n: nat)
    ensures SettledOf(Reporting, m, s, steps, n) == 0
    decreases |steps|
  {
    hide Enabled, Next;
    if steps != [] && Enabled(s, steps[0]) { ReportingSettlesNothing(m, Next(s, steps[0]), steps[1..], n); }
  }

  /** In every reachable state an order's executed quantity and reported quote are those of the trades of
      the run it took part in, less what its instrument's hooks have still to report. */
  lemma ReportIsItsTrades(s: Sys, steps: seq<Step>, s': Sys, n: nat)
    requires Init(s) && Run(s, steps, s') && n in s'.recs
    ensures var rec, owed := s'.recs[n], Pend(s', s'.recs[n].sym);
            && rec.executed + OwedFold(Quantity, owed, n) == TradeSum(Quantity, TradesOf(s, steps), n)
            && rec.cumQuote + OwedFold(Quote, owed, n) == TradeSum(Quote, TradesOf(s, steps), n)
  {
    InitInv(s);
    hide Run, Inv, TradesOf, OwedFold, TradeSum, SettledOf;
    RunBooks(s, steps, s', Reporting, Quantity, n);
    RunBooks(s, steps, s', Reporting, Quote, n);
    ReportingSettlesNothing(Quantity, s, steps, n);
    ReportingSettlesNothing(Quote, s, steps, n);
  }

  // ----- the ledger's side ----------------------------------------------------------------

  /** The ledger's hook for a fill of order n. */
  predicate Settles(s: Sys, step: Step, n: nat) {
    step.RunHook? && Pend(s, step.sym) != [] && Pend(s, step.sym)[0].Settle? && Pend(s, step.sym)[0].num == n
  }

  /** By how much the hooks of order n changed the account's holding of an asset, free and locked together:
      read off the balances before and after each of them. */
  ghost function LedgerMoved(s: Sys, steps: seq<Step>, n: nat, a: string): int
    decreases |steps|
  {
    if steps == [] || !Enabled(s, steps[0]) then 0
    else
      (if Settles(s, steps[0], n) then Total(Next(s, steps[0]).bal, a) - Total(s.bal, a) else 0)
      + LedgerMoved(Next(s, steps[0]), steps[1..], n, a)
  }

  /** A buy takes quote out and brings base in, a sell the reverse. */
  function Signed(side: Side, m: Measure, amount: int): int {
    if side.Buy? == m.Quantity? then amount else -amount
  }

  function AssetOf(m: Measure, sym: string): string {
    if m.Quantity? then BaseOf(sym) else QuoteOf(sym)
  }

  lemma FoldTerms(recs: Recs, t: Trade, n: nat)
    requires n in recs
    ensures var recs' := FoldTrade(recs, t);
            n in recs' && recs'[n].sym == recs[n].sym && recs'[n].typ == recs[n].typ && recs'[n].side == recs[n].side
  {
    hide MulRaw;
  }

  predicate SameOrder(rec: Rec, rec': Rec) {
    rec'.sym == rec.sym && rec'.typ == rec.typ && rec'.side == rec.side
  }

  lemma ClaimOthers(s: Sys, k: nat, req: Request, n: nat)
    requires n in s.recs && n != k
    ensures n in ClaimStep(s, k, req).recs && ClaimStep(s, k, req).recs[n] == s.recs[n]
  {
    hide ClientFor;
  }

  lemma StepTerms(s: Sys, step: Step, n: nat)
    requires Enabled(s, step) && n in s.recs && n in Next(s, step).recs && (step.Claim? ==> step.n != n)
    ensures SameOrder(s.recs[n], Next(s, step).recs[n])
  {
    if Folds(s, step) {
      FoldRecs(s, step.sym);
      HookIsNext(s, step);
      hide HookStep, Next, Enabled, FoldTrade;
      FoldTerms(s.recs, Pend(s, step.sym)[0].trade, n);
    } else if step.Claim? {
      hide ClaimStep;
      ClaimOthers(s, step.n, step.req, n);
    } else {
      hide Next, Enabled;
      TermsKept(s, step);
    }
  }

  lemma NotClaimed(s: Sys, step: Step, n: nat)
    requires Enabled(s, step) && n in s.phase && s.phase[n].Live?
    ensures step.Claim? ==> step.n != n
  {
  }

  /** Once sent, an order keeps its terms. */
  lemma LiveTerms(s: Sys, step: Step, n: nat)
    requires Enabled(s, step) && Inv(s) && Inv(Next(s, step)) && n in s.recs && n in s.phase && s.phase[n].Live?
    ensures n in Next(s, step).phase && Next(s, step).phase[n].Live? && n in Next(s, step).recs
    ensures SameOrder(s.recs[n], Next(s, step).recs[n])
  {
    hide Inv, Next, Enabled;
    LiveRecorded(s, n);
    LivePhase(s, step, n);
    LiveRecorded(Next(s, step), n);
    NotClaimed(s, step, n);
    StepTerms(s, step, n);
  }

  lemma {:induction false} LiveThroughout(s: Sys, steps: seq<Step>, s': Sys, n: nat)
    requires Inv(s) && Run(s, steps, s') && n in s.recs && n in s.phase && s.phase[n].Live?
    ensures n in s'.recs && SameOrder(s.recs[n], s'.recs[n])
    decreases |steps|
  {
    hide Inv, Enabled, Next;
    if steps != [] {
      StepKeeps(s, steps[0]);
      LiveTerms(s, steps[0], n);
      LiveThroughout(Next(s, steps[0]), steps[1..], s', n);
    }
  }

  /** One settlement of a limit order moves of either asset exactly the fill. */
  lemma SettlementMoves(s: Sys, step: Step, n: nat, m: Measure)
    requires Enabled(s, step) && Inv(s) && Settles(s, step, n) && !s.overdrawn
    requires n in s.recs && s.recs[n].typ.LimitType? && BaseOf(s.recs[n].sym) != QuoteOf(s.recs[n].sym)
    ensures var a := AssetOf(m, s.recs[n].sym);
            Total(Next(s, step).bal, a) - Total(s.bal, a) ==
                Signed(s.recs[n].side, m, SettledBy(Settling, m, s, step, n))
  {
    var Settle(k, isBuy, qty, price) := Pend(s, step.sym)[0];
    HookIsNext(s, step);
    hide Inv, HookStep, MulRaw, BaseOf, QuoteOf, At, Enabled, Next;
    NextFill(s, step.sym);
    NextFillMoves(s, step.sym, n, isBuy, qty, price, AssetOf(m, s.recs[n].sym));
  }

  lemma SettlesLive(s: Sys, step: Step, n: nat)
    requires Inv(s) && Settles(s, step, n)
    ensures n in s.recs && n in s.phase && s.phase[n].Live?
  {
    assert EventOk(s, step.sym, Pend(s, step.sym)[0]);
  }

  lemma {:induction false} RunLedger(s: Sys, steps: seq<Step>, s': Sys, n: nat, m: Measure)
    requires Inv(s) && Run(s, steps, s') && !s.overdrawn && !SoldBelowZero(s, steps)
    requires n in s'.recs && s'.recs[n].typ.LimitType? && BaseOf(s'.recs[n].sym) != QuoteOf(s'.recs[n].sym)
    ensures LedgerMoved(s, steps, n, AssetOf(m, s'.recs[n].sym))
         == Signed(s'.recs[n].side, m, SettledOf(Settling, m, s, steps, n))
    decreases |steps|
  {
    hide Inv, Enabled, Next, BaseOf, QuoteOf, SettledBy, SellsBelowZero, AssetOf, Total;
    if steps != [] {
      StepKeeps(s, steps[0]);
      StepOverdraws(s, steps[0]);
      RunLedger(Next(s, steps[0]), steps[1..], s', n, m);
      if Settles(s, steps[0], n) {
        SettlesLive(s, steps[0], n);
        LiveThroughout(s, steps, s', n);
        SettlementMoves(s, steps[0], n, m);
      } else {
        OthersSettle(s, steps[0], n, m);
      }
    }
  }

  lemma OthersSettle(s: Sys, step: Step, n: nat, m: Measure)
    requires !Settles(s, step, n)
    ensures SettledBy(Settling, m, s, step, n) == 0
  {
    hide Amount;
  }

  /** Ledger and registry tell the same story: in every run that overdraws nothing, once nothing is owed to
      its instrument, the hooks of a limit order have moved exactly its executed quantity of base and
      exactly its reported quote, and both are the trades of the run it took part in. */
  lemma LedgerMovedWhatIsReported(s: Sys, steps: seq<Step>, s': Sys, n: nat)
    requires Init(s) && Run(s, steps, s') && !SoldBelowZero(s, steps)
    requires n in s'.recs && s'.recs[n].typ.LimitType? && Pend(s', s'.recs[n].sym) == []
    requires BaseOf(s'.recs[n].sym) != QuoteOf(s'.recs[n].sym)
    ensures var rec, sign := s'.recs[n], if s'.recs[n].side.Buy? then 1 else -1;
            && LedgerMoved(s, steps, n, BaseOf(rec.sym)) == sign * rec.executed
            && LedgerMoved(s, steps, n, QuoteOf(rec.sym)) == -sign * rec.cumQuote
            && rec.executed == TradeSum(Quantity, TradesOf(s, steps), n)
            && rec.cumQuote == TradeSum(Quote, TradesOf(s, steps), n)
  {
    InitInv(s);
    ReportIsItsTrades(s, steps, s', n);
    hide Run, Inv, TradesOf, TradeSum, SettledOf, LedgerMoved, SoldBelowZero, BaseOf, QuoteOf;
    RunLedger(s, steps, s', n, Quantity);
    RunLedger(s, steps, s', n, Quote);
    RunBooks(s, steps, s', Settling, Quantity, n);
    RunBooks(s, steps, s', Settling, Quote, n);
  }
}
