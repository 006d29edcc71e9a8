/**
 When nobody names a negative limit price, nothing below zero ever trades: no order of this edge
 reports a negative quote and no market sell overdraws the account.
 */
module ExchangePriced {
  import opened FixedPoint
  import opened Orders
  import opened Registry
  import opened Exchange
  import opened ExchangeInv
  import opened ExchangeHooks
  import opened ExchangeRuns
  import opened ExchangePrices
  import Ledger

  predicate Priced(queue: seq<Order>) {
    forall i :: 0 <= i < |queue| ==> queue[i].price >= 0
  }

  predicate PricedTrades(trades: seq<Trade>) {
    forall i :: 0 <= i < |trades| ==> trades[i].price >= 0
  }

  predicate PricedBook(book: Book) {
    Priced(book.bids) && Priced(book.asks)
  }

  predicate PricedEvent(e: Event) {
    (e.Fold? ==> e.trade.price >= 0) && (e.Settle? ==> e.price >= 0)
  }

  predicate PricedEvents(events: seq<Event>) {
    forall i :: 0 <= i < |events| ==> PricedEvent(events[i])
  }

  /** A step by which nobody else brings a negative price into a book. */
  predicate PricedStep(step: Step) {
    step.OutsideOrder? ==> step.ord.isMarket || step.ord.price >= 0
  }

  ghost predicate AllPriced(s: Sys) {
    && (forall sym :: sym in s.books ==> PricedBook(s.books[sym]))
    && (forall sym :: sym in s.pend ==> PricedEvents(s.pend[sym]))
    && (forall n :: n in s.recs ==> 0 <= s.recs[n].cumQuote)
    && !s.overdrawn
  }

  // ----- book calls ----------------------------------------------------------------------

  lemma {:induction false} MatchPriced(incoming: Order, queue: seq<Order>)
    requires Priced(queue)
    ensures Priced(MatchQueue(incoming, queue).queue) && PricedTrades(MatchQueue(incoming, queue).trades)
    decreases |queue|
  {
    if !(incoming.volume <= 0 || queue == [] || !Crosses(incoming, queue[0])) {
      var traded := Min(incoming.volume, queue[0].volume);
      MatchPriced(incoming.(volume := incoming.volume - traded), queue[1..]);
    }
  }

  lemma {:induction false} InsertPriced(queue: seq<Order>, ord: Order, side: Side)
    requires Priced(queue) && ord.price >= 0
    ensures Priced(Insert(queue, ord, side))
    decreases |queue|
  {
    if queue != [] { InsertPriced(queue[..|queue| - 1], ord, side); }
  }

  lemma {:induction false} SortPriced(queue: seq<Order>, side: Side)
    requires Priced(queue)
    ensures Priced(StableSort(queue, side))
    decreases |queue|
  {
    if queue != [] {
      SortPriced(queue[..|queue| - 1], side);
      InsertPriced(StableSort(queue[..|queue| - 1], side), queue[|queue| - 1], side);
    }
  }

  lemma AfterMatchPriced(book: Book, ord: Order)
    requires PricedBook(book)
    ensures PricedBook(AfterMatch(book, ord).0) && PricedTrades(AfterMatch(book, ord).1.trades)
  {
    MatchPriced(ord, Opposite(book, ord.side));
    hide MatchQueue, Priced;
  }

  lemma AddLimitPriced(book: Book, ord: Order)
    requires PricedBook(book) && (ord.isMarket || ord.price >= 0)
    ensures PricedBook(AddLimit(book, ord).0) && PricedTrades(AddLimit(book, ord).1)
  {
    AfterMatchPriced(book, ord);
    var matched := AfterMatch(book, ord).0;
    if !ord.isMarket {
      var rest := ord.(volume := AfterMatch(book, ord).1.left);
      SortPriced(matched.bids, Buy);
      if ord.side.Buy? { SortPriced(matched.bids + [rest], Buy); } else { SortPriced(matched.asks + [rest], Sell); }
    }
    hide AfterMatch, StableSort, Priced, PricedTrades;
  }

  lemma CancelPriced(book: Book, id: OrderId)
    requires PricedBook(book)
    ensures PricedBook(Cancel(book, id).0)
  {
  }

  lemma {:induction false} EventsPriced(trades: seq<Trade>)
    requires PricedTrades(trades)
    ensures PricedEvents(EventsOf(trades))
    decreases |trades|
  {
    if trades != [] { EventsPriced(trades[1..]); }
  }

  // ----- steps ---------------------------------------------------------------------------

  lemma TradingPriced(s: Sys, sym: string, result: (Book, seq<Trade>))
    requires AllPriced(s) && PricedBook(result.0) && PricedTrades(result.1)
    ensures AllPriced(AfterTrading(s, sym, result))
  {
    EventsPriced(result.1);
    hide EventsOf, PricedBook, PricedTrades, PricedEvents;
  }

  /** What a fill at a non-negative price adds to a record is not negative. */
  lemma FoldPriced(s: Sys, sym: string, t: Trade)
    requires RecsOk(s) && EventsOk(s) && AllPriced(s) && Pend(s, sym) != [] && Pend(s, sym)[0] == Fold(t)
    ensures forall n :: n in FoldTrade(s.recs, t) ==> 0 <= FoldTrade(s.recs, t)[n].cumQuote
  {
    assert EventOk(s, sym, Fold(t)) && PricedEvent(s.pend[sym][0]);
    assert t.volume > 0 && t.price >= 0;
    hide RecsOk, EventsOk, TradeOk, PricedBook, PricedEvents;
    MulRawNonNeg(t.volume, t.price);
    FoldCum(s.recs, t);
  }

  lemma FoldCum(recs: Recs, t: Trade)
    requires 0 <= MulRaw(t.volume, t.price) && forall n :: n in recs ==> 0 <= recs[n].cumQuote
    ensures forall n :: n in FoldTrade(recs, t) ==> 0 <= FoldTrade(recs, t)[n].cumQuote
  {
    hide MulRaw;
  }

  lemma NotBelowZero(s: Sys, sym: string)
    requires RecsOk(s) && EventsOk(s) && AllPriced(s) && Pend(s, sym) != []
    ensures !SellsBelowZero(s, RunHook(sym))
  {
    if Pend(s, sym)[0].Settle? {
      var Settle(n, isBuy, qty, price) := Pend(s, sym)[0];
      assert EventOk(s, sym, Pend(s, sym)[0]) && PricedEvent(s.pend[sym][0]);
      MulRawNonNeg(qty, price);
      hide MulRaw;
    }
  }

  /** Books, pending work and the flag, in a hook. */
  lemma HookPriced(s: Sys, sym: string)
    requires RecsOk(s) && EventsOk(s) && AllPriced(s) && Pend(s, sym) != []
    ensures AllPriced(HookStep(s, sym))
  {
    NotBelowZero(s, sym);
    HookOverdraws(s, sym);
    HookStepFrame(s, sym);
    if Pend(s, sym)[0].Fold? {
      FoldPriced(s, sym, Pend(s, sym)[0].trade);
      FoldRecs(s, sym);
    } else {
      HookTerms(s, sym);
    }
    hide HookStep, FoldTrade, PricedBook, RecsOk, EventsOk, SellsBelowZero;
    assert PricedEvents(Pend(s, sym)[1..]);
    hide PricedEvents;
  }

  lemma StepPriced(s: Sys, step: Step)
    requires Inv(s) && Enabled(s, step) && AllPriced(s) && PricedStep(step)
    ensures AllPriced(Next(s, step))
  {
    if step.RunHook? {
      HookPriced(s, step.sym);
    } else if step.OutsideOrder? {
      AddLimitPriced(s.books[step.sym], step.ord);
      TradingPriced(s, step.sym, AddLimit(s.books[step.sym], step.ord));
    } else if step.OutsideIoc? {
      if step.ord.volume > 0 { AfterMatchPriced(s.books[step.sym], step.ord); }
      TradingPriced(s, step.sym, ExecuteIoc(s.books[step.sym], step.ord));
    } else if step.Place? {
      PlacePriced(s, step.n);
    } else {
      OtherPriced(s, step);
    }
  }

  lemma PlacePriced(s: Sys, n: nat)
    requires Inv(s) && Enabled(s, Place(n)) && AllPriced(s)
    ensures AllPriced(PlaceStep(s, n))
  {
    assert RecOk(s, n);
    var sym := s.recs[n].sym;
    var ord := EdgeOrder(s.recs[n], s.clock);
    AddLimitPriced(s.books[sym], ord);
    TradingPriced(s, sym, AddLimit(s.books[sym], ord));
    hide AddLimit, EventsOf, PricedBook, PricedEvents;
  }

  lemma OtherPriced(s: Sys, step: Step)
    requires Enabled(s, step) && AllPriced(s)
    requires !step.RunHook? && !step.OutsideOrder? && !step.OutsideIoc? && !step.Place?
    ensures AllPriced(Next(s, step))
  {
    hide PricedBook, PricedEvents, Cancel, Ledger.LockFunds, Ledger.Unlock, LockAsset, LockAmount, MulRaw, HookStep,
        PlaceStep, AfterTrading, DropClient;
    if step.CancelResting? {
      CancelPriced(s.books[step.sym], step.id);
      CancelEventsPriced(s, step.sym, step.id);
    } else {
      hide CancelStep;
    }
  }

  lemma CancelEventsPriced(s: Sys, sym: string, id: OrderId)
    requires sym in s.books
    ensures forall y ::
        y in CancelStep(s, sym, id).pend && (y !in s.pend || CancelStep(s, sym, id).pend[y] != s.pend[y]) ==>
          PricedEvents(CancelStep(s, sym, id).pend[y])
  {
    hide Cancel;
  }

  lemma {:induction false} RunPriced(s: Sys, steps: seq<Step>, s': Sys)
    requires Inv(s) && Run(s, steps, s') && AllPriced(s) && forall i :: 0 <= i < |steps| ==> PricedStep(steps[i])
    ensures AllPriced(s')
    decreases |steps|
  {
    hide Inv, Enabled, Next, AllPriced, PricedStep;
    if steps != [] {
      StepKeeps(s, steps[0]);
      StepPriced(s, steps[0]);
      assert forall i :: 0 <= i < |steps| - 1 ==> steps[1..][i] == steps[i + 1];
      RunPriced(Next(s, steps[0]), steps[1..], s');
    }
  }

  lemma InitPriced(s: Sys)
    requires Init(s)
    ensures AllPriced(s)
  {
  }

  /** If every limit order from outside names a non-negative price, no market sell is settled below
      zero, so no free balance is ever negative; and no record reports a negative quote. */
  lemma NonNegativePricesSuffice(s: Sys, steps: seq<Step>, s': Sys, asset: string)
    requires Init(s) && Run(s, steps, s') && forall i :: 0 <= i < |steps| ==> PricedStep(steps[i])
    ensures !SoldBelowZero(s, steps) && 0 <= Ledger.At(s'.bal, asset).free
    ensures forall n :: n in s'.recs ==> 0 <= s'.recs[n].cumQuote
  {
    InitInv(s);
    InitPriced(s);
    RunPriced(s, steps, s');
    OverdrawnExactly(s, steps, s');
    Solvency(s, steps, s', asset);
  }
}
