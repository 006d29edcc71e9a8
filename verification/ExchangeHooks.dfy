/** Running one book hook keeps the exchange invariant. */
module ExchangeHooks {
  import opened FixedPoint
  import opened Orders
  import opened Registry
  import opened Ledger
  import opened Exchange
  import opened ExchangeInv
  import opened ExchangeSteps
  import opened ExchangeTrading

  lemma UnlockHookFrame(s: Sys, o: Order)
    ensures UnlockHook(s, o) ==
            s.(bal := UnlockHook(s, o).bal, acks := if o.id.Edge? then s.acks + {o.id.num} else s.acks)
  {
    hide UnlockBal;
  }

  ghost predicate SameButMoney(s: Sys, s': Sys) {
    s' == s.(recs := s'.recs, bal := s'.bal, fills := s'.fills, acks := s'.acks, overdrawn := s'.overdrawn)
  }

  lemma SettleHookFrame(s: Sys, n: nat, isBuy: bool, qty: int, price: int)
    ensures SameButMoney(s, SettleHook(s, n, isBuy, qty, price))
  {
    hide SettleFill, QuoteOf, BaseOf;
  }

  lemma ProcessFrame(s: Sys, e: Event)
    ensures SameButMoney(s, Process(s, e))
  {
    hide SettleHook, UnlockHook, FoldTrade, CancelRec;
    match e
    case Fold(t) =>
    case Settle(n, isBuy, qty, price) => SettleHookFrame(s, n, isBuy, qty, price);
    case CancelFold(o) =>
    case CancelUnlock(o) => UnlockHookFrame(s, o);
  }

  /** A hook touches the books and the pending work no further than to take itself off. */
  lemma HookStepFrame(s: Sys, sym: string)
    requires Pend(s, sym) != []
    ensures SameButMoney(s.(pend := s.pend[sym := Pend(s, sym)[1..]]), HookStep(s, sym))
    ensures Pend(HookStep(s, sym), sym) == Pend(s, sym)[1..]
  {
    hide Process;
    ProcessFrame(s.(pend := s.pend[sym := Pend(s, sym)[1..]]), Pend(s, sym)[0]);
  }

  /** The hook at the head of a symbol's pending work is gone; everything else may have moved
      on, but no order's terms have changed. */
  ghost predicate HookDone(s: Sys, s2: Sys, sym: string) {
    && Pend(s, sym) != [] && s2.pend == s.pend[sym := Pend(s, sym)[1..]]
    && s2.books == s.books && s2.clock == s.clock && s2.next == s.next && s2.phase == s.phase
    && s2.clients == s.clients && s2.recs.Keys == s.recs.Keys
    && (forall m :: m in s.recs ==>
          && s2.recs[m].id == s.recs[m].id && s2.recs[m].client == s.recs[m].client
          && s2.recs[m].sym == s.recs[m].sym && s2.recs[m].typ == s.recs[m].typ
          && s2.recs[m].side == s.recs[m].side && s2.recs[m].price == s.recs[m].price
          && s2.recs[m].orig == s.recs[m].orig
          && (s.recs[m].status.Canceled? ==> s2.recs[m].status.Canceled?))
  }

  /** The head of the pending work of one symbol, and what the rest owes order m. */
  lemma HeadQty(s: Sys, s2: Sys, sym: string, m: nat)
    requires HookDone(s, s2, sym)
    ensures var e := Pend(s, sym)[0];
            && FoldQty(Pend(s, sym), m) == FoldPart(e, m) + FoldQty(Pend(s2, sym), m)
            && SettleQty(Pend(s, sym), m) == SettlePart(e, m) + SettleQty(Pend(s2, sym), m)
            && CancelQty(Pend(s, sym), m) == CancelPart(e, m) + CancelQty(Pend(s2, sym), m)
            && UnlockQty(Pend(s, sym), m) == UnlockPart(e, m) + UnlockQty(Pend(s2, sym), m)
    ensures forall y :: y != sym ==> Pend(s2, y) == Pend(s, y)
    ensures forall y :: BookOf(s2, y) == BookOf(s, y)
  {
  }

  lemma HookEvents(s: Sys, s2: Sys, sym: string)
    requires EventsOk(s) && HookDone(s, s2, sym) && PendShape(s2, Pend(s2, sym))
    ensures EventsOk(s2) && Extends(s, s2)
  {
    assert Extends(s, s2);
    hide HookDone, Extends;
    forall y | y in s2.pend
      ensures PendShape(s2, s2.pend[y]) && y in s2.books
      ensures forall i :: 0 <= i < |s2.pend[y]| ==> EventOk(s2, y, s2.pend[y][i])
    {
      HookSymbolEvents(s, s2, sym, y);
    }
  }

  lemma HookSymbolEvents(s: Sys, s2: Sys, sym: string, y: string)
    requires EventsOk(s) && HookDone(s, s2, sym) && PendShape(s2, Pend(s2, sym)) && Extends(s, s2) && y in s2.pend
    ensures PendShape(s2, s2.pend[y]) && y in s2.books
    ensures forall i :: 0 <= i < |s2.pend[y]| ==> EventOk(s2, y, s2.pend[y][i])
  {
    hide Extends;
    if y != sym { ShapeExtends(s, s2, y, s.pend[y]); }
    forall i | 0 <= i < |s2.pend[y]| ensures EventOk(s2, y, s2.pend[y][i]) {
      EventExtends(s, s2, y, s.pend[y][if y == sym then i + 1 else i]);
    }
  }

  /** What is left to show of a hook: the records and the money. */
  lemma HookKeeps(s: Sys, s2: Sys, sym: string)
    requires Inv(s) && HookDone(s, s2, sym) && PendShape(s2, Pend(s2, sym))
    requires forall m :: m in s2.recs && m in s2.phase ==> RecOk(s2, m)
    requires AcksOk(s2) && MoneyOk(s2)
    ensures Inv(s2)
  {
    hide BooksOk, EventsOk, MoneyOk, AcksOk, RecOk, Extends, ClientsOk, PendShape;
    HookEvents(s, s2, sym);
    BooksExtend(s, s2);
    HookClients(s, s2, sym);
    forall m | m in s2.phase ensures PhaseOk(s2, m) { assert PhaseOk(s, m); }
  }

  lemma HookClients(s: Sys, s2: Sys, sym: string)
    requires ClientsOk(s.recs, s.clients) && HookDone(s, s2, sym)
    ensures ClientsOk(s2.recs, s2.clients)
  {
    forall m | m in s2.recs ensures m in s.recs {}
  }

  // ----- the registry's trade hook -------------------------------------------------------

  lemma ApplyFillKeeps(rec: Rec, qty: int, price: int)
    requires qty > 0 && StatusOk(rec) && !rec.status.Canceled? && rec.executed + qty <= rec.orig
    ensures var rec' := ApplyFill(rec, qty, price);
            && StatusOk(rec') && !rec'.status.Canceled?
            && rec' == rec.(executed := rec.executed + qty, cumQuote := rec.cumQuote + MulRaw(qty, price),
                status := rec'.status)
  {
  }

  /** What a trade cost order m, on either side. */
  function QuotePart(t: Trade, m: nat): int {
    Part(t.buyId, m, MulRaw(t.volume, t.price)) + Part(t.sellId, m, MulRaw(t.volume, t.price))
  }

  /** The trade hook adds to an order's executed quantity and quote exactly its part of the trade. */
  lemma FoldTradeAt(recs: Recs, t: Trade, m: nat)
    requires m in recs && t.volume > 0
    requires FoldPart(Fold(t), m) > 0 ==>
      StatusOk(recs[m]) && !recs[m].status.Canceled? && recs[m].executed + FoldPart(Fold(t), m) <= recs[m].orig
    ensures FoldTrade(recs, t).Keys == recs.Keys
    ensures var rec' := FoldTrade(recs, t)[m];
            && rec' == recs[m].(executed := recs[m].executed + FoldPart(Fold(t), m),
                cumQuote := recs[m].cumQuote + QuotePart(t, m), status := rec'.status)
            && (FoldPart(Fold(t), m) == 0 ==> rec' == recs[m])
            && (FoldPart(Fold(t), m) > 0 ==> StatusOk(rec') && !rec'.status.Canceled?)
  {
    var half := FoldFor(recs, t.buyId, t.volume, t.price);
    if t.buyId == Edge(m) { ApplyFillKeeps(recs[m], t.volume, t.price); }
    if t.sellId == Edge(m) { ApplyFillKeeps(half[m], t.volume, t.price); }
  }

  /** What the pending work owes order m before and after the trade hook. */
  lemma FoldOwes(s: Sys, s2: Sys, sym: string, y: string, t: Trade, m: nat)
    requires EventsOk(s) && Pend(s, sym) != [] && Pend(s, sym)[0] == Fold(t)
    requires s2.pend == s.pend[sym := Pend(s, sym)[1..]]
    ensures var events, after := Pend(s, y), Pend(s2, y);
            && FoldQty(events, m) == (if y == sym then FoldPart(Fold(t), m) else 0) + FoldQty(after, m)
            && SettleQty(events, m) == SettleQty(after, m)
            && CancelQty(events, m) == CancelQty(after, m) && UnlockQty(events, m) == UnlockQty(after, m)
            && FoldQty(after, m) >= 0 && SettleQty(after, m) >= 0 && CancelQty(after, m) >= 0
            && UnlockQty(after, m) >= 0
  {
    var events, after := Pend(s, y), Pend(s2, y);
    hide EventsOk, FoldQty, SettleQty, CancelQty, UnlockQty;
    if y == sym {
      HeadQtyOf(events, m);
      TailNonNeg(s, sym, m);
    } else {
      assert after == events;
      PendNonNeg(s, y, m);
    }
  }

  lemma FoldRecOk(s: Sys, s2: Sys, sym: string, t: Trade, m: nat)
    requires RecsOk(s) && BooksOk(s) && EventsOk(s) && Pend(s, sym) != [] && Pend(s, sym)[0] == Fold(t) && m in s.recs
    requires s2 == s.(pend := s.pend[sym := Pend(s, sym)[1..]], recs := FoldTrade(s.recs, t))
    ensures m in s2.recs && m in s2.phase && RecOk(s2, m) && Held(s2, m) == Held(s, m)
    ensures var rec := s.recs[m];
            && s2.recs[m] == rec.(executed := s2.recs[m].executed, cumQuote := s2.recs[m].cumQuote,
                status := s2.recs[m].status)
            && (rec.status.Canceled? <==> s2.recs[m].status.Canceled?)
  {
    assert EventOk(s, sym, Fold(t)) && RecOk(s, m);
    var rec := s.recs[m];
    hide BooksOk, EventsOk, RecsOk, FoldQty, SettleQty, CancelQty, UnlockQty, RestQty, FoldTrade, QtyOk, StatusOk;
    var part := FoldPart(Fold(t), m);
    var after := Pend(s2, rec.sym);
    FoldOwes(s, s2, sym, rec.sym, t, m);
    BookNonNeg(s, rec.sym, m);
    assert rec.sym != sym ==> part == 0;
    var rest, fold := RestQty(BookOf(s, rec.sym), m), FoldQty(after, m);
    var settle, cancel, unlock := SettleQty(after, m), CancelQty(after, m), UnlockQty(after, m);
    QtyRoom(rec, s.phase[m], rest, part, fold, settle, cancel, unlock);
    FoldTradeAt(s.recs, t, m);
    QtyFold(rec, s2.recs[m], s.phase[m], rest, part, fold, settle, cancel, unlock);
  }

  lemma QtyRoom(rec: Rec, phase: Phase, rest: int, part: int, fold: int, settle: int, cancel: int, unlock: int)
    requires StatusOk(rec) && QtyOk(rec, phase, rest, part + fold, settle, cancel, unlock)
    requires 0 <= rest && 0 <= part && 0 <= fold && 0 <= settle && 0 <= cancel && 0 <= unlock
    ensures part > 0 ==> phase.Live? && !rec.status.Canceled? && rec.executed + part <= rec.orig
  {
  }

  lemma QtyFold(rec: Rec, rec': Rec, phase: Phase, rest: int, part: int, fold: int, settle: int, cancel: int,
      unlock: int)
    requires StatusOk(rec) && QtyOk(rec, phase, rest, part + fold, settle, cancel, unlock)
    requires 0 <= rest && 0 <= part && 0 <= fold && 0 <= settle && 0 <= cancel && 0 <= unlock
    requires rec' == rec.(executed := rec.executed + part, cumQuote := rec'.cumQuote, status := rec'.status)
    requires part == 0 ==> rec' == rec
    requires part > 0 ==> StatusOk(rec') && !rec'.status.Canceled?
    ensures StatusOk(rec') && QtyOk(rec', phase, rest, fold, settle, cancel, unlock)
    ensures rec.status.Canceled? <==> rec'.status.Canceled?
  {
  }

  lemma HeadQtyOf(events: seq<Event>, m: nat)
    requires events != []
    ensures FoldQty(events, m) == FoldPart(events[0], m) + FoldQty(events[1..], m)
    ensures SettleQty(events, m) == SettlePart(events[0], m) + SettleQty(events[1..], m)
    ensures CancelQty(events, m) == CancelPart(events[0], m) + CancelQty(events[1..], m)
    ensures UnlockQty(events, m) == UnlockPart(events[0], m) + UnlockQty(events[1..], m)
  {
  }

  lemma TailNonNeg(s: Sys, sym: string, m: nat)
    requires EventsOk(s) && Pend(s, sym) != []
    ensures var events := Pend(s, sym)[1..];
            FoldQty(events, m) >= 0 && SettleQty(events, m) >= 0 && CancelQty(events, m) >= 0
                && UnlockQty(events, m) >= 0
  {
    EventsNonNeg(s, sym, Pend(s, sym)[1..], m);
  }

  lemma TailShape(s: Sys, s2: Sys, sym: string)
    requires EventsOk(s) && HookDone(s, s2, sym)
    requires Pend(s, sym)[0].Fold? || Pend(s, sym)[0].Settle? || Pend(s, sym)[0].CancelUnlock?
    ensures PendShape(s2, Pend(s2, sym))
    ensures Pend(s, sym)[0].CancelUnlock? ==> Pend(s2, sym) == []
  {
    var events := Pend(s, sym);
    assert PendShape(s, events);
    if events[0].CancelUnlock? { assert Pend(s2, sym) == []; }
  }

  lemma FoldKeeps(s: Sys, s2: Sys, sym: string, t: Trade)
    requires Inv(s) && Pend(s, sym) != [] && Pend(s, sym)[0] == Fold(t)
    requires s2 == s.(pend := s.pend[sym := Pend(s, sym)[1..]], recs := FoldTrade(s.recs, t))
    ensures Inv(s2)
  {
    FoldKeys(s.recs, t);
    hide BooksOk, EventsOk, RecOk, FoldTrade, ClientsOk, Held, MoneyOk;
    forall m | m in s.recs
      ensures m in s2.recs && m in s2.phase && RecOk(s2, m) && Held(s2, m) == Held(s, m)
      ensures s2.recs[m] == s.recs[m].(executed := s2.recs[m].executed, cumQuote := s2.recs[m].cumQuote,
          status := s2.recs[m].status)
      ensures s.recs[m].status.Canceled? <==> s2.recs[m].status.Canceled?
    {
      FoldRecOk(s, s2, sym, t, m);
    }
    assert HookDone(s, s2, sym) && AcksOk(s2);
    TailShape(s, s2, sym);
    forall a ensures SumTo(s2, s2.next, a) == SumTo(s, s.next, a) {
      forall m | 1 <= m <= s.next ensures Reservation(s2, m, a) == Reservation(s, m, a) {}
      SumSame(s, s2, s.next, a);
    }
    SameBalances(s, s2);
    HookKeeps(s, s2, sym);
  }

  lemma FoldKeys(recs: Recs, t: Trade)
    ensures FoldTrade(recs, t).Keys == recs.Keys
  {
  }

  // ----- the ledger's trade hook ---------------------------------------------------------

  lemma SettleRecOk(s: Sys, s2: Sys, sym: string, m: nat)
    requires RecsOk(s) && EventsOk(s) && HookDone(s, s2, sym) && s2.recs == s.recs && Pend(s, sym)[0].Settle?
        && m in s.recs
    ensures m in s2.phase && RecOk(s2, m)
    ensures s.phase[m].Live? ==>
              Held(s, m) == Held(s2, m) + (if s.recs[m].sym == sym then SettlePart(Pend(s, sym)[0], m) else 0)
    ensures !s.phase[m].Live? ==> Held(s, m) == Held(s2, m)
  {
    assert RecOk(s, m);
    assert EventOk(s, sym, Pend(s, sym)[0]);
    HeadQty(s, s2, sym, m);
    TailNonNeg(s, sym, m);
    hide EventsOk, RecsOk, FoldQty, SettleQty, CancelQty, UnlockQty, RestQty, StatusOk;
  }

  /** What settling `qty` of a limit order's `held` units does to its reservation, and how much
      of the released amount truncation leaves behind. */
  lemma SettleReservation(rec: Rec, held: int, qty: int)
    requires 0 < qty <= held && rec.price > 0
    ensures var carry := if rec.side.Buy? then Carry(qty, held - qty, rec.price) else 0;
            && LockAmount(rec, held) == LockAmount(rec, qty) + LockAmount(rec, held - qty) + carry
            && 0 <= carry <= 1
    ensures 0 <= LockAmount(rec, qty) <= LockAmount(rec, held)
  {
    MulRawSplit(qty, held - qty, rec.price);
    MulRawNonNeg(qty, rec.price);
    MulRawNonNeg(held - qty, rec.price);
  }

  /** What one settled limit fill moves, asset by asset: exactly the reservation of the filled
      quantity out of locked and, unless the account has been overdrawn, exactly quantity and
      truncated cost between the assets, with no clamp engaging and no balance going negative. */
  lemma LimitFillMoves(s: Sys, n: nat, isBuy: bool, qty: int, price: int, a: string)
    requires RecsOk(s) && BooksOk(s) && EventsOk(s) && MoneyOk(s)
    requires n in s.recs && n in s.phase && s.recs[n].typ.LimitType? && s.recs[n].price > 0
    requires 0 < qty <= Held(s, n) && (isBuy <==> s.recs[n].side.Buy?)
    requires isBuy ==> price <= s.recs[n].price
    ensures var rec := s.recs[n];
            var base, quote := BaseOf(rec.sym), QuoteOf(rec.sym);
            var before := At(s.bal, a);
            var after := At(SettleFill(s.bal, isBuy, base, quote, qty, price, rec.price), a);
            && after.locked == before.locked - Delta(a, LockAsset(rec), LockAmount(rec, qty))
            && (s.overdrawn || after.free == before.free +
                  (if isBuy then Delta(a, quote, MulRaw(qty, rec.price) - MulRaw(qty, price)) + Delta(a, base, qty)
                   else Delta(a, quote, MulRaw(qty, price))))
            && (!s.overdrawn && (isBuy || 0 <= price) ==> 0 <= after.free)
  {
    var rec := s.recs[n];
    var asset := LockAsset(rec);
    assert PhaseOk(s, n);
    SumAtLeast(s, s.next, n, asset);
    FreeNonNeg(s, asset);
    FreeNonNeg(s, a);
    SettleReservation(rec, Held(s, n), qty);
    assert LockAmount(rec, qty) <= At(s.bal, asset).locked by { assert s.phase[n].Live? || s.phase[n].Reserved?; }
    hide RecsOk, BooksOk, EventsOk, MoneyOk, SumTo, Reservation, Held, At;
    LimitFillUnlocks(s.bal, isBuy, BaseOf(rec.sym), QuoteOf(rec.sym), qty, price, rec.price, a);
    if s.overdrawn {
    } else if isBuy {
      MulRawBelow(qty, price, rec.price);
      LimitBuyExact(s.bal, BaseOf(rec.sym), QuoteOf(rec.sym), qty, price, rec.price, a);
    } else {
      if 0 <= price { MulRawNonNeg(qty, price); }
      LimitSellExact(s.bal, BaseOf(rec.sym), QuoteOf(rec.sym), qty, price, rec.price, a);
    }
  }

  /** What the invariant says about the order whose fill is settled next. */
  lemma SettleFacts(s: Sys, s2: Sys, sym: string, n: nat, isBuy: bool, qty: int, price: int)
    requires RecsOk(s) && BooksOk(s) && EventsOk(s) && Pend(s, sym) != []
        && Pend(s, sym)[0] == Settle(n, isBuy, qty, price)
    requires HookDone(s, s2, sym) && s2.recs == s.recs
    ensures n in s.recs && n in s.phase && s.phase[n].Live? && 1 <= n <= s.next && 0 < qty
    ensures isBuy <==> s.recs[n].side.Buy?
    ensures s.recs[n].typ.LimitType? ==>
        s.recs[n].price > 0 && if isBuy then price <= s.recs[n].price else s.recs[n].price <= price
    ensures s.recs[n].typ.MarketType? ==> s.recs[n].price == 0
    ensures qty <= Held(s, n) && Held(s2, n) == Held(s, n) - qty
  {
    assert EventOk(s, sym, Pend(s, sym)[0]) && RecOk(s, n) && PhaseOk(s, n);
    SettleRecOk(s, s2, sym, n);
    BookNonNeg(s, sym, n);
    TailNonNeg(s, sym, n);
  }

  lemma SettleLimitAsset(s: Sys, s2: Sys, sym: string, n: nat, isBuy: bool, qty: int, price: int, a: string)
    requires RecsOk(s) && BooksOk(s) && EventsOk(s) && MoneyOk(s)
    requires Pend(s, sym) != [] && Pend(s, sym)[0] == Settle(n, isBuy, qty, price) && n in s.recs
        && s.recs[n].typ.LimitType?
    requires s2 == SettleHook(s.(pend := s.pend[sym := Pend(s, sym)[1..]]), n, isBuy, qty, price)
    requires HookDone(s, s2, sym)
    ensures (s2.overdrawn || 0 <= At(s2.bal, a).free)
    ensures SumTo(s2, s2.next, a) <= At(s2.bal, a).locked <= SumTo(s2, s2.next, a) + Fills(s2, a)
  {
    hide RecsOk, BooksOk, EventsOk, MoneyOk, SumTo, Held, At, SettleFill;
    SettleFacts(s, s2, sym, n, isBuy, qty, price);
    SettleReservation(s.recs[n], Held(s, n), qty);
    FreeNonNeg(s, a);
    LimitFillMoves(s, n, isBuy, qty, price, a);
    SettleSum(s, s2, sym, n, a);
  }

  lemma SettleDone(s: Sys, s2: Sys, sym: string, n: nat, isBuy: bool, qty: int, price: int)
    requires Pend(s, sym) != [] && s2 == SettleHook(s.(pend := s.pend[sym := Pend(s, sym)[1..]]), n, isBuy, qty, price)
    ensures HookDone(s, s2, sym) && s2.recs == s.recs
  {
    hide SettleFill, BaseOf, QuoteOf;
  }

  lemma SettleKeeps(s: Sys, s2: Sys, sym: string, n: nat, isBuy: bool, qty: int, price: int)
    requires Inv(s) && Pend(s, sym) != [] && Pend(s, sym)[0] == Settle(n, isBuy, qty, price)
    requires s2 == SettleHook(s.(pend := s.pend[sym := Pend(s, sym)[1..]]), n, isBuy, qty, price)
    ensures Inv(s2)
  {
    SettleDone(s, s2, sym, n, isBuy, qty, price);
    assert AcksOk(s2);
    hide BooksOk, EventsOk, MoneyOk, RecOk, ClientsOk, AcksOk, SumTo, HookDone, SettleHook, PendShape;
    SettleFacts(s, s2, sym, n, isBuy, qty, price);
    TailShape(s, s2, sym);
    SettleAllRecs(s, s2, sym);
    SettleMoney(s, s2, sym, n, isBuy, qty, price);
    HookKeeps(s, s2, sym);
  }

  lemma SettleMoney(s: Sys, s2: Sys, sym: string, n: nat, isBuy: bool, qty: int, price: int)
    requires RecsOk(s) && BooksOk(s) && EventsOk(s) && MoneyOk(s)
    requires Pend(s, sym) != [] && Pend(s, sym)[0] == Settle(n, isBuy, qty, price) && n in s.recs
    requires s2 == SettleHook(s.(pend := s.pend[sym := Pend(s, sym)[1..]]), n, isBuy, qty, price)
    requires HookDone(s, s2, sym)
    ensures MoneyOk(s2)
  {
    hide RecsOk, BooksOk, EventsOk, MoneyOk, SumTo, HookDone, SettleHook;
    forall a {:trigger At(s2.bal, a)}
      ensures (s2.overdrawn || 0 <= At(s2.bal, a).free)
      ensures SumTo(s2, s2.next, a) <= At(s2.bal, a).locked <= SumTo(s2, s2.next, a) + Fills(s2, a)
    {
      if s.recs[n].typ.LimitType? {
        SettleLimitAsset(s, s2, sym, n, isBuy, qty, price, a);
      } else {
        SettleMarketAsset(s, s2, sym, n, isBuy, qty, price, a);
      }
    }
    MoneyOkFrom(s2);
  }

  lemma MoneyOkFrom(s: Sys)
    requires forall a {:trigger At(s.bal, a)} ::
      (s.overdrawn || 0 <= At(s.bal, a).free) && SumTo(s, s.next, a) <= At(s.bal, a).locked <= SumTo(s, s.next, a)
          + Fills(s, a)
    ensures MoneyOk(s)
  {
  }

  lemma SettleMarketAsset(s: Sys, s2: Sys, sym: string, n: nat, isBuy: bool, qty: int, price: int, a: string)
    requires RecsOk(s) && BooksOk(s) && EventsOk(s) && MoneyOk(s)
    requires Pend(s, sym) != [] && Pend(s, sym)[0] == Settle(n, isBuy, qty, price) && n in s.recs
        && s.recs[n].typ.MarketType?
    requires s2 == SettleHook(s.(pend := s.pend[sym := Pend(s, sym)[1..]]), n, isBuy, qty, price)
    requires HookDone(s, s2, sym)
    ensures (s2.overdrawn || 0 <= At(s2.bal, a).free)
    ensures SumTo(s2, s2.next, a) <= At(s2.bal, a).locked <= SumTo(s2, s2.next, a) + Fills(s2, a)
  {
    hide RecsOk, BooksOk, EventsOk, SumTo, Held, At, SettleFill;
    SettleFacts(s, s2, sym, n, isBuy, qty, price);
    FreeNonNeg(s, a);
    var rec := s.recs[n];
    MarketKeepsFree(s.bal, isBuy, BaseOf(rec.sym), QuoteOf(rec.sym), qty, price, a);
    if !s2.overdrawn {
      forall b ensures 0 <= At(s.bal, b).free { FreeNonNeg(s, b); }
    }
    SettleSum(s, s2, sym, n, a);
  }

  lemma SettleAllRecs(s: Sys, s2: Sys, sym: string)
    requires RecsOk(s) && EventsOk(s) && HookDone(s, s2, sym) && s2.recs == s.recs && Pend(s, sym)[0].Settle?
    ensures RecsOk(s2) && Extends(s, s2)
  {
    forall m | m in s2.phase ensures PhaseOk(s2, m) { assert PhaseOk(s, m); }
    forall m | m in s2.recs ensures m in s2.phase && RecOk(s2, m) { SettleRecOk(s, s2, sym, m); }
  }

  /** Only the settled order's reservation changes. */
  lemma SettleSum(s: Sys, s2: Sys, sym: string, n: nat, a: string)
    requires RecsOk(s) && EventsOk(s) && HookDone(s, s2, sym) && s2.recs == s.recs
    requires Pend(s, sym)[0].Settle? && Pend(s, sym)[0].num == n && n in s.recs && 1 <= n <= s.next
    ensures SumTo(s2, s2.next, a) == SumTo(s, s.next, a) + Reservation(s2, n, a) - Reservation(s, n, a)
  {
    forall m | 1 <= m <= s.next && m != n ensures Reservation(s2, m, a) == Reservation(s, m, a) {
      if m in s.recs { SettleRecOk(s, s2, sym, m); }
    }
    SumChange(s, s2, s.next, n, a);
  }

  // ----- the cancel hooks ----------------------------------------------------------------

  /** A pending registry cancel hook is followed by exactly its ledger hook. */
  lemma CancelFacts(s: Sys, sym: string, o: Order, m: nat)
    requires EventsOk(s) && Pend(s, sym) != [] && Pend(s, sym)[0] == CancelFold(o)
    ensures Pend(s, sym) == [CancelFold(o), CancelUnlock(o)] && o.volume > 0
    ensures o.id == Edge(m) ==> OwnedBy(s, sym, m) && s.recs[m].typ.LimitType?
    ensures CancelQty(Pend(s, sym)[1..], m) == 0
  {
    assert EventOk(s, sym, Pend(s, sym)[0]) && PendShape(s, Pend(s, sym));
    assert Pend(s, sym)[1..] == [CancelUnlock(o)];
    OneEvent(CancelUnlock(o), m);
  }

  function CancelledBy(recs: Recs, o: Order): Recs {
    if o.id.Edge? then CancelRec(recs, o.id.num) else recs
  }

  lemma CancelledAt(recs: Recs, o: Order, m: nat)
    requires m in recs
    ensures CancelledBy(recs, o).Keys == recs.Keys
    ensures o.id != Edge(m) ==> CancelledBy(recs, o)[m] == recs[m]
    ensures o.id == Edge(m) && !recs[m].status.Filled? ==> CancelledBy(recs, o)[m] == recs[m].(status := Canceled)
  {
  }

  lemma CancelFoldRecOk(s: Sys, s2: Sys, sym: string, o: Order, m: nat)
    requires RecsOk(s) && BooksOk(s) && EventsOk(s) && Pend(s, sym) != [] && Pend(s, sym)[0] == CancelFold(o)
        && m in s.recs
    requires s2 == s.(pend := s.pend[sym := Pend(s, sym)[1..]], recs := CancelledBy(s.recs, o))
    ensures m in s2.recs && m in s2.phase && RecOk(s2, m) && Held(s2, m) == Held(s, m)
    ensures s2.recs[m] == s.recs[m].(status := s2.recs[m].status)
    ensures s.recs[m].status.Canceled? || o.id == Edge(m) ==> s2.recs[m].status.Canceled?
  {
    assert RecOk(s, m);
    CancelFacts(s, sym, o, m);
    var rec := s.recs[m];
    hide BooksOk, EventsOk, RecsOk, FoldQty, SettleQty, CancelQty, UnlockQty, RestQty, StatusOk, QtyOk, CancelledBy;
    CancelledAt(s.recs, o, m);
    if rec.sym == sym {
      var after := Pend(s, sym)[1..];
      BookNonNeg(s, sym, m);
      HeadQtyOf(Pend(s, sym), m);
      TailNonNeg(s, sym, m);
      QtyCancel(rec, s.phase[m], RestQty(BookOf(s, sym), m), FoldQty(after, m), SettleQty(after, m),
                CancelPart(CancelFold(o), m), CancelQty(after, m), UnlockQty(after, m));
      assert Pend(s2, sym) == after && BookOf(s2, sym) == BookOf(s, sym);
    } else {
      assert Pend(s2, rec.sym) == Pend(s, rec.sym) && BookOf(s2, rec.sym) == BookOf(s, rec.sym);
    }
  }

  lemma QtyCancel(rec: Rec, phase: Phase, rest: int, fold: int, settle: int, part: int, cancel: int, unlock: int)
    requires StatusOk(rec) && QtyOk(rec, phase, rest, fold, settle, part + cancel, unlock)
    requires 0 <= rest && 0 <= part && 0 <= fold && 0 <= settle && 0 <= cancel && 0 <= unlock
    requires part > 0 ==> cancel == 0 && rec.typ.LimitType?
    ensures part == 0 ==> QtyOk(rec, phase, rest, fold, settle, cancel, unlock)
    ensures part > 0 ==>
      var rec' := rec.(status := Canceled);
      !rec.status.Filled? && StatusOk(rec') && QtyOk(rec', phase, rest, fold, settle, cancel, unlock)
  {
  }

  lemma CancelFoldDone(s: Sys, s2: Sys, sym: string, o: Order)
    requires RecsOk(s) && BooksOk(s) && EventsOk(s) && AcksOk(s) && Pend(s, sym) != []
        && Pend(s, sym)[0] == CancelFold(o)
    requires s2 == s.(pend := s.pend[sym := Pend(s, sym)[1..]], recs := CancelledBy(s.recs, o))
    ensures HookDone(s, s2, sym) && AcksOk(s2) && PendShape(s2, Pend(s2, sym))
  {
    hide BooksOk, EventsOk, RecsOk, RecOk, CancelledBy, Held;
    CancelledKeys(s.recs, o);
    forall m | m in s.recs
      ensures m in s2.recs && s2.recs[m] == s.recs[m].(status := s2.recs[m].status)
      ensures s.recs[m].status.Canceled? || o.id == Edge(m) ==> s2.recs[m].status.Canceled?
    {
      CancelFoldRecOk(s, s2, sym, o, m);
    }
    CancelFacts(s, sym, o, if o.id.Edge? then o.id.num else 0);
    hide OwnedBy;
    assert Pend(s2, sym) == [CancelUnlock(o)];
  }

  lemma CancelFoldKeeps(s: Sys, s2: Sys, sym: string, o: Order)
    requires Inv(s) && Pend(s, sym) != [] && Pend(s, sym)[0] == CancelFold(o)
    requires s2 == s.(pend := s.pend[sym := Pend(s, sym)[1..]], recs := CancelledBy(s.recs, o))
    ensures Inv(s2)
  {
    hide BooksOk, EventsOk, RecOk, ClientsOk, Held, MoneyOk, CancelledBy, PendShape, HookDone, AcksOk;
    CancelFoldDone(s, s2, sym, o);
    forall m | m in s.recs ensures m in s2.recs && m in s2.phase && RecOk(s2, m) {
      CancelFoldRecOk(s, s2, sym, o, m);
    }
    CancelFoldMoney(s, s2, sym, o);
    assert s2.recs.Keys == s.recs.Keys by { CancelledKeys(s.recs, o); }
    HookKeeps(s, s2, sym);
  }

  lemma CancelledKeys(recs: Recs, o: Order)
    ensures CancelledBy(recs, o).Keys == recs.Keys
  {
  }

  lemma CancelFoldMoney(s: Sys, s2: Sys, sym: string, o: Order)
    requires RecsOk(s) && BooksOk(s) && EventsOk(s) && MoneyOk(s) && Pend(s, sym) != []
        && Pend(s, sym)[0] == CancelFold(o)
    requires s2 == s.(pend := s.pend[sym := Pend(s, sym)[1..]], recs := CancelledBy(s.recs, o))
    ensures MoneyOk(s2)
  {
    CancelledKeys(s.recs, o);
    hide BooksOk, EventsOk, RecOk, Held, MoneyOk, CancelledBy, SumTo;
    forall a ensures SumTo(s2, s2.next, a) == SumTo(s, s.next, a) {
      forall m | 1 <= m <= s.next ensures Reservation(s2, m, a) == Reservation(s, m, a) {
        if m in s.recs { CancelFoldRecOk(s, s2, sym, o, m); }
      }
      SumSame(s, s2, s.next, a);
    }
    SameBalances(s, s2);
  }

  /** What the invariant says about the order whose reservation is released next. */
  lemma UnlockFacts(s: Sys, s2: Sys, sym: string, o: Order)
    requires RecsOk(s) && BooksOk(s) && EventsOk(s) && Pend(s, sym) != [] && Pend(s, sym)[0] == CancelUnlock(o)
    requires HookDone(s, s2, sym) && s2.recs == s.recs
    ensures Pend(s, sym) == [CancelUnlock(o)]
    ensures o.id.Edge? ==>
      var n := o.id.num;
      && n in s.recs && n in s.phase && s.phase[n].Live? && 1 <= n <= s.next
      && s.recs[n].typ.LimitType? && s.recs[n].price > 0 && s.recs[n].status.Canceled?
      && s.recs[n].orig - s.recs[n].executed == o.volume > 0
      && Held(s, n) == o.volume && Held(s2, n) == 0
  {
    assert EventOk(s, sym, Pend(s, sym)[0]) && PendShape(s, Pend(s, sym));
    if o.id.Edge? {
      var n := o.id.num;
      assert RecOk(s, n) && PhaseOk(s, n);
      OneEvent(CancelUnlock(o), n);
    }
  }

  lemma UnlockRecOk(s: Sys, s2: Sys, sym: string, o: Order, m: nat)
    requires RecsOk(s) && BooksOk(s) && EventsOk(s) && Pend(s, sym) != [] && Pend(s, sym)[0] == CancelUnlock(o)
        && m in s.recs
    requires HookDone(s, s2, sym) && s2.recs == s.recs
    ensures m in s2.phase && RecOk(s2, m)
    ensures o.id != Edge(m) ==> Held(s2, m) == Held(s, m)
  {
    assert RecOk(s, m);
    HeadQty(s, s2, sym, m);
    UnlockFacts(s, s2, sym, o);
    OneEvent(CancelUnlock(o), m);
  }

  lemma UnlockRecs(s: Sys, s2: Sys, sym: string, o: Order)
    requires RecsOk(s) && BooksOk(s) && EventsOk(s) && Pend(s, sym) != [] && Pend(s, sym)[0] == CancelUnlock(o)
    requires HookDone(s, s2, sym) && s2.recs == s.recs
    ensures RecsOk(s2)
  {
    forall m | m in s2.phase ensures PhaseOk(s2, m) { assert PhaseOk(s, m); }
    forall m | m in s2.recs ensures m in s2.phase && RecOk(s2, m) { UnlockRecOk(s, s2, sym, o, m); }
  }

  lemma UnlockMoves(bal: Balances, asset: string, amt: int, a: string)
    requires 0 <= amt <= At(bal, asset).locked
    ensures At(Unlock(bal, asset, amt), a).locked == At(bal, a).locked - Delta(a, asset, amt)
    ensures At(Unlock(bal, asset, amt), a).free == At(bal, a).free + Delta(a, asset, amt)
  {
  }

  lemma UnlockAsset(s: Sys, s2: Sys, sym: string, o: Order, a: string)
    requires RecsOk(s) && BooksOk(s) && EventsOk(s) && MoneyOk(s) && Pend(s, sym) != []
        && Pend(s, sym)[0] == CancelUnlock(o)
    requires s2 == UnlockHook(s.(pend := s.pend[sym := Pend(s, sym)[1..]]), o) && HookDone(s, s2, sym)
    ensures (s2.overdrawn || 0 <= At(s2.bal, a).free)
    ensures SumTo(s2, s2.next, a) <= At(s2.bal, a).locked <= SumTo(s2, s2.next, a) + Fills(s2, a)
  {
    hide RecsOk, BooksOk, EventsOk, MoneyOk, SumTo, Held, At, Unlock, HookDone, RestQty, MulRaw;
    UnlockFacts(s, s2, sym, o);
    FreeNonNeg(s, a);
    UnlockSum(s, s2, sym, o, a);
    if o.id.Edge? {
      var n := o.id.num;
      var rec := s.recs[n];
      MulRawNonNeg(o.volume, rec.price);
      MulRawNonNeg(0, rec.price);
      SumAtLeast(s, s.next, n, LockAsset(rec));
      FreeNonNeg(s, LockAsset(rec));
      UnlockMoves(s.bal, LockAsset(rec), LockAmount(rec, o.volume), a);
    }
  }

  lemma UnlockSum(s: Sys, s2: Sys, sym: string, o: Order, a: string)
    requires RecsOk(s) && BooksOk(s) && EventsOk(s) && Pend(s, sym) != [] && Pend(s, sym)[0] == CancelUnlock(o)
    requires HookDone(s, s2, sym) && s2.recs == s.recs
    ensures if o.id.Edge?
            then SumTo(s2, s2.next, a) == SumTo(s, s.next, a)
                + Reservation(s2, o.id.num, a) - Reservation(s, o.id.num, a)
            else SumTo(s2, s2.next, a) == SumTo(s, s.next, a)
  {
    UnlockFacts(s, s2, sym, o);
    forall m | 1 <= m <= s.next && o.id != Edge(m) ensures Reservation(s2, m, a) == Reservation(s, m, a) {
      if m in s.recs { UnlockRecOk(s, s2, sym, o, m); }
    }
    if o.id.Edge? { SumChange(s, s2, s.next, o.id.num, a); } else { SumSame(s, s2, s.next, a); }
  }

  lemma UnlockMoney(s: Sys, s2: Sys, sym: string, o: Order)
    requires RecsOk(s) && BooksOk(s) && EventsOk(s) && MoneyOk(s) && Pend(s, sym) != []
        && Pend(s, sym)[0] == CancelUnlock(o)
    requires s2 == UnlockHook(s.(pend := s.pend[sym := Pend(s, sym)[1..]]), o) && HookDone(s, s2, sym)
    ensures MoneyOk(s2)
  {
    hide RecsOk, BooksOk, EventsOk, MoneyOk, SumTo, HookDone, UnlockHook;
    forall a {:trigger At(s2.bal, a)}
      ensures (s2.overdrawn || 0 <= At(s2.bal, a).free)
      ensures SumTo(s2, s2.next, a) <= At(s2.bal, a).locked <= SumTo(s2, s2.next, a) + Fills(s2, a)
    {
      UnlockAsset(s, s2, sym, o, a);
    }
    MoneyOkFrom(s2);
  }

  lemma UnlockDone(s: Sys, s2: Sys, sym: string, o: Order)
    requires RecsOk(s) && BooksOk(s) && EventsOk(s) && AcksOk(s) && Pend(s, sym) != []
        && Pend(s, sym)[0] == CancelUnlock(o)
    requires s2 == UnlockHook(s.(pend := s.pend[sym := Pend(s, sym)[1..]]), o)
    ensures HookDone(s, s2, sym) && AcksOk(s2) && s2.recs == s.recs
  {
    hide BooksOk, EventsOk, RecsOk, Held, UnlockHook;
    UnlockHookFrame(s.(pend := s.pend[sym := Pend(s, sym)[1..]]), o);
    assert HookDone(s, s2, sym);
    UnlockFacts(s, s2, sym, o);
  }

  lemma CancelUnlockKeeps(s: Sys, s2: Sys, sym: string, o: Order)
    requires Inv(s) && Pend(s, sym) != [] && Pend(s, sym)[0] == CancelUnlock(o)
    requires s2 == UnlockHook(s.(pend := s.pend[sym := Pend(s, sym)[1..]]), o)
    ensures Inv(s2)
  {
    hide BooksOk, EventsOk, MoneyOk, RecOk, ClientsOk, SumTo, HookDone, PendShape, UnlockHook, AcksOk;
    UnlockDone(s, s2, sym, o);
    TailShape(s, s2, sym);
    UnlockRecs(s, s2, sym, o);
    UnlockMoney(s, s2, sym, o);
    HookKeeps(s, s2, sym);
  }

  /** Every hook keeps the invariant. */
  lemma HookStepKeeps(s: Sys, sym: string)
    requires Inv(s) && Pend(s, sym) != []
    ensures Inv(HookStep(s, sym))
  {
    hide Inv, SettleHook, UnlockHook, FoldTrade;
    var s2 := HookStep(s, sym);
    match Pend(s, sym)[0] {
      case Fold(t) => FoldKeeps(s, s2, sym, t);
      case Settle(n, isBuy, qty, price) => SettleKeeps(s, s2, sym, n, isBuy, qty, price);
      case CancelFold(o) => CancelFoldKeeps(s, s2, sym, o);
      case CancelUnlock(o) => CancelUnlockKeeps(s, s2, sym, o);
    }
  }
}
