/**
 The place and cancel handlers and the book hooks, as they run when nobody else interferes:
 the objects of rest.go and server.go for one instrument. Each handler is proved to have the
 effect of a fixed sequence of steps of the exchange machine, so what holds of every run of
 the machine holds of the objects.
 */
module Server {
  import opened FixedPoint
  import opened Orders
  import opened Matching
  import opened Registry
  import opened Ledger
  import opened Exchange
  import opened OrderBook
  import opened ExchangeHooks
  import ExchangeRuns

  // ----- handlers as step sequences ------------------------------------------------------

  /** Run every hook the holder of the book's lock still owes. */
  function RunHooks(s: Sys, sym: string): Sys
    decreases |Pend(s, sym)|
  {
    if Pend(s, sym) == [] then s
    else
      HookStepFrame(s, sym);
      RunHooks(HookStep(s, sym), sym)
  }

  datatype Reply = Accepted | Duplicate | InsufficientBalance | Refused

  /** The rest of the place handler once funding has been tried: back out or place. */
  function FinishAlone(reserved: Sys, n: nat, refused: bool): (Sys, Reply)
    requires n in reserved.phase && n in reserved.recs && reserved.recs[n].sym in reserved.books
    requires reserved.phase[n].Unfunded? || reserved.phase[n].Reserved?
  {
    if reserved.phase[n].Unfunded? then (RollBackStep(reserved, n), InsufficientBalance)
    else if refused then (RefundStep(RollBackStep(reserved, n), n), Refused)
    else (RunHooks(PlaceStep(reserved, n), reserved.recs[n].sym), Accepted)
  }

  /** POST /api/v3/order run alone: claim, lock, place, with roll back. `refused` is the
      engine's verdict (margin validation). */
  function PlaceAlone(s: Sys, req: Request, refused: bool): (Sys, Reply)
    requires req.sym in s.books
  {
    var n := s.next + 1;
    var claimed := ClaimStep(s.(next := n, phase := s.phase[n := Drawn]), n, req);
    if ClientFor(req, n) in s.clients then (claimed, Duplicate)
    else FinishAlone(ReserveStep(claimed, n), n, refused)
  }

  datatype CancelReply = Cancelled | AlreadyDone | UnknownOrder

  /** DELETE /api/v3/order run alone: the book call with its hooks, then the handler's own
      MarkCanceled; when nothing rests, the record says whether the order is already done. */
  function CancelAlone(s: Sys, n: nat): (Sys, CancelReply)
    requires n in s.recs ==> s.recs[n].sym in s.books
  {
    if n !in s.recs then (s, UnknownOrder)
    else
      var sym := s.recs[n].sym;
      if Cancel(s.books[sym], Edge(n)).1.None? then
        (s, if s.recs[n].status.Filled? || s.recs[n].status.Canceled? then AlreadyDone else UnknownOrder)
      else
        var hooked := RunHooks(CancelStep(s, sym, Edge(n)), sym);
        (hooked.(recs := CancelRec(hooked.recs, n), acks := hooked.acks - {n}), Cancelled)
  }

  function Hooks(sym: string, k: nat): seq<Step> {
    if k == 0 then [] else [RunHook(sym)] + Hooks(sym, k - 1)
  }

  /** Steps of this edge: nobody else places an order. */
  predicate OwnSteps(steps: seq<Step>) {
    forall i :: 0 <= i < |steps| ==> !steps[i].OutsideOrder? && !steps[i].OutsideIoc?
  }

  lemma {:induction false} RunHooksIsRun(s: Sys, sym: string)
    ensures ExchangeRuns.Run(s, Hooks(sym, |Pend(s, sym)|), RunHooks(s, sym)) && OwnSteps(Hooks(sym, |Pend(s, sym)|))
    ensures Pend(RunHooks(s, sym), sym) == []
    decreases |Pend(s, sym)|
  {
    hide HookStep;
    var k := |Pend(s, sym)|;
    if k > 0 {
      HookStepFrame(s, sym);
      RunHooksIsRun(HookStep(s, sym), sym);
      assert Hooks(sym, k)[0] == RunHook(sym) && Hooks(sym, k)[1..] == Hooks(sym, k - 1);
    }
  }

  lemma {:induction false} RunThen(s: Sys, first: seq<Step>, mid: Sys, second: seq<Step>, s': Sys)
    requires ExchangeRuns.Run(s, first, mid) && ExchangeRuns.Run(mid, second, s')
    ensures ExchangeRuns.Run(s, first + second, s')
    decreases |first|
  {
    if first == [] {
      assert first + second == second;
    } else {
      RunThen(Next(s, first[0]), first[1..], mid, second, s');
      assert (first + second)[1..] == first[1..] + second;
    }
  }

  /** A place request handled alone is a run of the machine. */
  lemma PlaceAloneIsRun(s: Sys, req: Request, refused: bool) returns (steps: seq<Step>)
    requires req.Valid() && LockFree(s, req.sym) && s.next + 1 !in s.phase && s.next + 1 !in s.recs
    ensures ExchangeRuns.Run(s, steps, PlaceAlone(s, req, refused).0) && OwnSteps(steps)
  {
    hide RunHooks, ExchangeRuns.Run, AddLimit, LockFunds;
    var n := s.next + 1;
    var drawn := s.(next := n, phase := s.phase[n := Drawn]);
    OneStep(s, DrawId);
    OneStep(drawn, Claim(n, req));
    var claimed := ClaimStep(drawn, n, req);
    RunThen(s, [DrawId], drawn, [Claim(n, req)], claimed);
    steps := [DrawId] + [Claim(n, req)];
    if ClientFor(req, n) !in s.clients {
      var rest := AfterClaimIsRun(claimed, n, req, refused);
      RunThen(s, steps, claimed, rest, PlaceAlone(s, req, refused).0);
      steps := steps + rest;
    }
  }

  lemma OneStep(s: Sys, step: Step)
    requires Enabled(s, step)
    ensures ExchangeRuns.Run(s, [step], Next(s, step))
  {
    assert [step][1..] == [];
  }

  lemma AfterClaimIsRun(claimed: Sys, n: nat, req: Request, refused: bool) returns (steps: seq<Step>)
    requires n in claimed.phase && claimed.phase[n].Claimed? && n in claimed.recs && claimed.recs[n].sym == req.sym
        && LockFree(claimed, req.sym)
    ensures var reserved := ReserveStep(claimed, n);
            ExchangeRuns.Run(claimed, steps, FinishAlone(reserved, n, refused).0) && OwnSteps(steps)
  {
    var reserved := ReserveStep(claimed, n);
    OneStep(claimed, Reserve(n));
    assert reserved.books == claimed.books && reserved.pend == claimed.pend && reserved.recs == claimed.recs by {
      hide LockFunds, LockAsset, LockAmount;
    }
    hide ReserveStep, FinishAlone, ExchangeRuns.Run;
    var rest := ReservedIsRun(reserved, n, refused);
    RunThen(claimed, [Reserve(n)], reserved, rest, FinishAlone(reserved, n, refused).0);
    steps := [Reserve(n)] + rest;
  }

  /** From the moment funding has been tried, branch by branch. */
  lemma ReservedIsRun(reserved: Sys, n: nat, refused: bool) returns (steps: seq<Step>)
    requires n in reserved.phase && (reserved.phase[n].Unfunded? || reserved.phase[n].Reserved?)
    requires n in reserved.recs && LockFree(reserved, reserved.recs[n].sym)
    ensures ExchangeRuns.Run(reserved, steps, FinishAlone(reserved, n, refused).0) && OwnSteps(steps)
  {
    hide RunHooks, ExchangeRuns.Run, AddLimit, DropRec, DropClient, LockAsset, LockAmount, EventsOf;
    if reserved.phase[n].Unfunded? {
      OneStep(reserved, RollBack(n));
      steps := [RollBack(n)];
    } else if refused {
      steps := RefusedIsRun(reserved, n);
    } else {
      steps := PlacedIsRun(reserved, n);
    }
  }

  lemma RefusedIsRun(reserved: Sys, n: nat) returns (steps: seq<Step>)
    requires n in reserved.phase && reserved.phase[n].Reserved? && n in reserved.recs
    ensures n in RollBackStep(reserved, n).phase && RollBackStep(reserved, n).phase[n].Refund?
    ensures ExchangeRuns.Run(reserved, steps, RefundStep(RollBackStep(reserved, n), n)) && OwnSteps(steps)
  {
    hide DropRec, DropClient, LockAsset, LockAmount, Unlock;
    var back := RollBackStep(reserved, n);
    OneStep(reserved, RollBack(n));
    OneStep(back, Refunded(n));
    hide ExchangeRuns.Run;
    RunThen(reserved, [RollBack(n)], back, [Refunded(n)], RefundStep(back, n));
    steps := [RollBack(n)] + [Refunded(n)];
  }

  lemma PlacedIsRun(reserved: Sys, n: nat) returns (steps: seq<Step>)
    requires n in reserved.phase && reserved.phase[n].Reserved? && n in reserved.recs
        && LockFree(reserved, reserved.recs[n].sym)
    ensures ExchangeRuns.Run(reserved, steps, RunHooks(PlaceStep(reserved, n), reserved.recs[n].sym)) && OwnSteps(steps)
  {
    hide AddLimit, EventsOf, RunHooks;
    var sym := reserved.recs[n].sym;
    OneStep(reserved, Place(n));
    hide PlaceStep, ExchangeRuns.Run;
    var placed := PlaceStep(reserved, n);
    RunHooksIsRun(placed, sym);
    var hooks := Hooks(sym, |Pend(placed, sym)|);
    RunThen(reserved, [Place(n)], placed, hooks, RunHooks(placed, sym));
    steps := [Place(n)] + hooks;
  }

  /** A cancel request handled alone is a run of the machine. */
  lemma CancelAloneIsRun(s: Sys, n: nat) returns (steps: seq<Step>)
    requires n in s.recs ==> LockFree(s, s.recs[n].sym)
    ensures ExchangeRuns.Run(s, steps, CancelAlone(s, n).0) && OwnSteps(steps)
  {
    steps := [];
    if n in s.recs && Cancel(s.books[s.recs[n].sym], Edge(n)).1.Some? {
      var sym := s.recs[n].sym;
      var (book, removed) := Cancel(s.books[sym], Edge(n));
      var o := removed.value;
      CancelledId(s.books[sym], Edge(n));
      var cancelled := CancelStep(s, sym, Edge(n));
      OneStep(s, CancelResting(sym, Edge(n)));
      RunHooksIsRun(cancelled, sym);
      var hooked := RunHooks(cancelled, sym);
      CancelHooks(cancelled, sym, o, n);
      OneStep(hooked, AckCancel(n));
      hide RunHooks, CancelStep, Cancel, Next, ExchangeRuns.Run;
      steps := [CancelResting(sym, Edge(n))] + Hooks(sym, |Pend(cancelled, sym)|);
      RunThen(s, [CancelResting(sym, Edge(n))], cancelled, Hooks(sym, |Pend(cancelled, sym)|), hooked);
      RunThen(s, steps, hooked, [AckCancel(n)], hooked.(recs := CancelRec(hooked.recs, n), acks := hooked.acks - {n}));
      steps := steps + [AckCancel(n)];
    }
  }

  lemma CancelledId(book: Book, id: OrderId)
    ensures Cancel(book, id).1.Some? ==> Cancel(book, id).1.value.id == id
  {
  }

  /** The two hooks of a cancel acknowledge it to the handler that asked. */
  lemma CancelHooks(s: Sys, sym: string, o: Order, n: nat)
    requires Pend(s, sym) == [CancelFold(o), CancelUnlock(o)] && o.id == Edge(n)
    ensures n in RunHooks(s, sym).acks
  {
    hide Unlock, LockAsset, LockAmount, CancelRec;
    var one := HookStep(s, sym);
    HookStepFrame(s, sym);
    assert Pend(one, sym) == [CancelUnlock(o)];
    HookStepFrame(one, sym);
    var two := HookStep(one, sym);
    assert Pend(two, sym) == [];
    assert RunHooks(s, sym) == RunHooks(one, sym) == RunHooks(two, sym) == two;
  }

  // ----- hooks on records and balances ---------------------------------------------------

  function HookRecs(recs: Recs, e: Event): Recs {
    match e
    case Fold(t) => FoldTrade(recs, t)
    case CancelFold(o) => if o.id.Edge? then CancelRec(recs, o.id.num) else recs
    case _ => recs
  }

  function SettleBal(recs: Recs, bal: Balances, n: nat, isBuy: bool, qty: int, price: int): Balances {
    if n !in recs then bal
    else SettleFill(bal, isBuy, BaseOf(recs[n].sym), QuoteOf(recs[n].sym), qty, price, recs[n].price)
  }

  function HookBal(recs: Recs, bal: Balances, e: Event): Balances {
    match e
    case Settle(n, isBuy, qty, price) => SettleBal(recs, bal, n, isBuy, qty, price)
    case CancelUnlock(o) => UnlockBal(recs, bal, o)
    case _ => bal
  }

  function HookAll(recs: Recs, bal: Balances, events: seq<Event>): (Recs, Balances)
    decreases |events|
  {
    if events == [] then (recs, bal)
    else HookAll(HookRecs(recs, events[0]), HookBal(recs, bal, events[0]), events[1..])
  }

  lemma SettleMoney(s: Sys, n: nat, isBuy: bool, qty: int, price: int)
    ensures Process(s, Settle(n, isBuy, qty, price)).recs == HookRecs(s.recs, Settle(n, isBuy, qty, price))
    ensures Process(s, Settle(n, isBuy, qty, price)).bal == HookBal(s.recs, s.bal, Settle(n, isBuy, qty, price))
  {
    hide SettleFill, BaseOf, QuoteOf;
  }

  lemma UnlockMoney(s: Sys, o: Order)
    ensures UnlockHook(s, o).recs == s.recs && UnlockHook(s, o).bal == UnlockBal(s.recs, s.bal, o)
  {
    hide Unlock, LockAsset, LockAmount;
  }

  lemma ProcessMoney(s: Sys, e: Event)
    ensures Process(s, e).recs == HookRecs(s.recs, e) && Process(s, e).bal == HookBal(s.recs, s.bal, e)
  {
    match e
    case Settle(n, isBuy, qty, price) => SettleMoney(s, n, isBuy, qty, price);
    case CancelUnlock(o) =>
      hide UnlockHook, UnlockBal;
      UnlockMoney(s, o);
    case Fold(_) => hide FoldTrade;
    case CancelFold(_) => hide CancelRec;
  }

  lemma {:induction false} RunHooksMoney(s: Sys, sym: string)
    ensures (RunHooks(s, sym).recs, RunHooks(s, sym).bal) == HookAll(s.recs, s.bal, Pend(s, sym))
    ensures SameButMoney(s.(pend := RunHooks(s, sym).pend), RunHooks(s, sym))
    decreases |Pend(s, sym)|
  {
    hide Process, HookRecs, HookBal;
    if Pend(s, sym) != [] {
      HookStepFrame(s, sym);
      ProcessMoney(s.(pend := s.pend[sym := Pend(s, sym)[1..]]), Pend(s, sym)[0]);
      RunHooksMoney(HookStep(s, sym), sym);
    }
  }

  lemma {:induction false} HookAllConcat(recs: Recs, bal: Balances, a: seq<Event>, b: seq<Event>)
    ensures HookAll(recs, bal, a + b) == var (recs', bal') := HookAll(recs, bal, a); HookAll(recs', bal', b)
    decreases |a|
  {
    hide HookRecs, HookBal;
    if a == [] {
      assert a + b == b;
    } else {
      HookAllConcat(HookRecs(recs, a[0]), HookBal(recs, bal, a[0]), a[1..], b);
      assert (a + b)[1..] == a[1..] + b;
    }
  }

  // ----- the objects ---------------------------------------------------------------------

  class EdgeServer {
    const sym: string
    const registry: OrderRegistry
    const ledger: Account
    const book: InstrumentBook
    var clock: nat

    constructor (sym: string, registry: OrderRegistry, ledger: Account, book: InstrumentBook)
      ensures this.sym == sym && this.registry == registry && this.ledger == ledger && this.book == book && clock == 0
    {
      this.sym, this.registry, this.ledger, this.book, clock := sym, registry, ledger, book, 0;
    }

    ghost predicate Valid()
      reads this, registry, book
    {
      registry.Valid() && book.Valid() && forall n :: n in registry.byOrder ==>
          n <= registry.seqNo && registry.byOrder[n].sym == sym
    }

    /** The values the objects hold. */
    ghost function Now(): Desk
      reads this, registry, registry.byOrder.Values, ledger, book, book.bids, book.asks
    {
      Desk(registry.seqNo, registry.State(), registry.ClientState(), ledger.bal, book.State(), clock)
    }

    /** settleFill */
    method SettleHookFor(id: OrderId, isBuy: bool, qty: int, price: int)
      requires registry.Valid() && id.Edge?
      modifies ledger
      ensures registry.State() == old(registry.State())
      ensures ledger.bal == SettleBal(registry.State(), old(ledger.bal), id.num, isBuy, qty, price)
    {
      var rec := registry.GetByEngine(id);
      if rec.None? {
        return;
      }
      var base := BaseOf(rec.value.sym);
      var quote := QuoteOf(rec.value.sym);
      ledger.Settle(isBuy, base, quote, qty, price, rec.value.price);
    }

    /** The hooks of one trade in registration order: the registry's, then the ledger's for
        the buyer and for the seller. */
    method FireTrade(t: Trade)
      requires registry.Valid()
      modifies registry.byOrder.Values, ledger
      ensures registry.State() == HookAll(old(registry.State()), old(ledger.bal), EventsOf([t])).0
      ensures ledger.bal == HookAll(old(registry.State()), old(ledger.bal), EventsOf([t])).1
    {
      hide FoldTrade, SettleBal, HookAll, EventsOf;
      ghost var recs', bought, sold := TradeHooks(registry.State(), ledger.bal, t);
      registry.OnTrade(t);
      if t.buyId.Edge? {
        SettleHookFor(t.buyId, true, t.volume, t.price);
      }
      if t.sellId.Edge? {
        SettleHookFor(t.sellId, t.sellId == t.buyId, t.volume, t.price);
      }
    }

    method FireTrades(trades: seq<Trade>)
      requires registry.Valid()
      modifies registry.byOrder.Values, ledger
      ensures (registry.State(), ledger.bal) == HookAll(old(registry.State()), old(ledger.bal), EventsOf(trades))
    {
      hide HookAll, EventsOf;
      ghost var goal := HookAll(registry.State(), ledger.bal, EventsOf(trades));
      assert trades[0..] == trades;
      for i := 0 to |trades|
        invariant goal == HookAll(registry.State(), ledger.bal, EventsOf(trades[i..]))
      {
        EventsOfStep(trades, i);
        HookAllConcat(registry.State(), ledger.bal, EventsOf([trades[i]]), EventsOf(trades[i + 1..]));
        FireTrade(trades[i]);
      }
      NoEvents(registry.State(), ledger.bal, trades);
    }

    method SendToBook(ord: Order) returns (trades: seq<Trade>)
      requires book.Valid()
      modifies this`clock, book, book.bids, book.asks
      ensures book.Valid() && clock == old(clock) + 1
      ensures (book.State(), trades) == AddLimit(old(book.State()), ord)
      ensures fresh(book.Queued() - old(book.Queued()))
    {
      hide AddLimit, Vals, Distinct;
      var live := new LiveOrder(ord);
      clock := clock + 1;
      trades := book.AddLimitOrder(live);
    }

    /** The book call of a funded order, with its hooks. */
    method PlaceOnBook(rec: Rec)
      requires Valid()
      modifies this`clock, registry.byOrder.Values, ledger, book, book.bids, book.asks
      ensures Valid() && Now() == BookDesk(old(Now()), EdgeOrder(rec, old(clock)))
      ensures fresh(book.Queued() - old(book.Queued()))
    {
      TradeOnBook(EdgeOrder(rec, clock));
    }

    /** Send an order to the book and run the hooks of its trades; `ord` may be anybody's. */
    method TradeOnBook(ord: Order)
      requires Valid() && ord.arrival == clock
      modifies this`clock, registry.byOrder.Values, ledger, book, book.bids, book.asks
      ensures Valid() && Now() == BookDesk(old(Now()), ord)
      ensures fresh(book.Queued() - old(book.Queued()))
    {
      hide AddLimit, EventsOf, HookAll, IndexesAgree, RecsOf, Vals, Distinct;
      var trades := SendToBook(ord);
      assert registry.State() == old(registry.State());
      label sent:
      FireTrades(trades);
      assert book.State() == old@sent(book.State());
    }

    /** Lock what the order needs; a market order locks nothing. */
    method Fund(req: Request) returns (asset: string, amt: int, ok: bool)
      requires req.sym == sym
      modifies ledger
      ensures (asset, amt) == LockFor(req)
      ensures var (bal, locked) := LockFunds(old(ledger.bal), asset, amt);
              ok == locked && Now() == old(Now()).(bal := bal)
    {
      hide MulRaw, QuoteOf, BaseOf;
      asset, amt, ok := "", 0, true;
      if req.typ.LimitType? {
        if req.side.Buy? {
          MulRawCommutes(req.price, req.qty);
          asset, amt := QuoteOf(sym), MulRaw(req.price, req.qty);
        } else {
          asset, amt := BaseOf(sym), req.qty;
        }
        ok := ledger.Lock(asset, amt);
      }
    }

    /** Undo a claim: drop the record. */
    method Drop(n: nat)
      requires Valid()
      modifies registry`byOrder, registry`byEngine, registry`byClient
      ensures Valid() && Now() == DropDesk(old(Now()), n, ledger.bal)
      ensures registry.byOrder == old(registry.byOrder) - {n}
    {
      hide DropRec, DropClient, IndexesAgree, RecsOf, ClientsOf;
      registry.Remove(n);
    }

    /** Undo a funded claim: drop the record and give back the reservation. */
    method BackOut(n: nat, asset: string, amt: int)
      requires Valid()
      modifies registry`byOrder, registry`byEngine, registry`byClient, ledger
      ensures Valid() && Now() == DropDesk(old(Now()), n, Unlock(old(ledger.bal), asset, amt))
      ensures registry.byOrder == old(registry.byOrder) - {n}
    {
      hide DropRec, DropClient, Unlock, IndexesAgree, RecsOf, ClientsOf;
      Drop(n);
      ledger.UnlockUpTo(asset, amt);
    }

    /** Draw an id and claim the client id. */
    method ClaimId(req: Request) returns (n: nat, claimed: bool)
      requires Valid() && req.sym == sym
      modifies registry`seqNo, registry`byOrder, registry`byEngine, registry`byClient
      ensures Valid() && n == registry.seqNo == old(registry.seqNo) + 1
      ensures !claimed <==> ClientFor(req, n) in old(registry.ClientState())
      ensures Now() == if !claimed then old(Now()).(next := n)
                       else old(Now()).(next := n, recs := old(registry.State())[n := NewRec(n, req)],
                                        clients := old(registry.ClientState())[ClientFor(req, n) := n])
      ensures fresh(registry.byOrder.Values - old(registry.byOrder.Values))
    {
      hide IndexesAgree, RecsOf, ClientsOf, ClientFor;
      n := registry.NextId();
      var rec := registry.RecordUnique(n, req);
      claimed := rec.Some?;
      assert claimed ==> rec.value.sym == rec.value.Val().sym;
    }

    /** POST /api/v3/order. `refused` is the engine's verdict on the order. */
    method HandlePlaceOrder(req: Request, refused: bool) returns (reply: Reply)
      requires Valid() && req.Valid() && req.sym == sym
      modifies this`clock, registry, registry.byOrder.Values, ledger, book, book.bids, book.asks
      ensures Valid() && (Now(), reply) == PlaceDesk(old(Now()), req, refused)
      ensures fresh(registry.byOrder.Values - old(registry.byOrder.Values))
      ensures fresh(book.Queued() - old(book.Queued()))
    {
      hide BookDesk, DropDesk, IndexesAgree, RecsOf, ClientsOf, Vals, Distinct, LockFunds, Unlock, ClientFor, LockFor;
      var n, claimed := ClaimId(req);
      if !claimed {
        return Duplicate;
      }
      var asset, amt, ok := Fund(req);
      if !ok {
        Drop(n);
        return InsufficientBalance;
      }
      if refused {
        BackOut(n, asset, amt);
        return Refused;
      }
      PlaceOnBook(NewRec(n, req));
      return Accepted;
    }

    /** The ledger's cancel hook: release what the cancelled limit order still had reserved. */
    method UnlockRemainder(o: Order)
      requires registry.Valid()
      modifies ledger
      ensures ledger.bal == UnlockBal(registry.State(), old(ledger.bal), o)
    {
      hide Unlock, QuoteOf, BaseOf, MulRaw, IndexesAgree, RecsOf;
      var found := registry.GetByEngine(o.id);
      if found.None? || !found.value.typ.LimitType? {
        return;
      }
      var rec := found.value;
      var remaining := rec.orig - rec.executed;
      if remaining <= 0 {
        return;
      }
      if rec.side.Buy? {
        ledger.UnlockUpTo(QuoteOf(rec.sym), MulRaw(remaining, rec.price));
      } else {
        ledger.UnlockUpTo(BaseOf(rec.sym), remaining);
      }
    }

    /** The hooks of a cancelled order: the registry's, then the ledger's. */
    method FireCancel(o: Order)
      requires registry.Valid()
      modifies registry.byOrder.Values, ledger
      ensures (registry.State(), ledger.bal) ==
          HookAll(old(registry.State()), old(ledger.bal), [CancelFold(o), CancelUnlock(o)])
    {
      hide UnlockBal, IndexesAgree, RecsOf, CancelRec;
      CancelPair(registry.State(), ledger.bal, o);
      hide HookAll;
      registry.OnCancel(o);
      UnlockRemainder(o);
    }

    /** Take the order off the book and run the cancel hooks. */
    method CancelOnBook(n: nat) returns (found: bool)
      requires registry.Valid() && book.Valid()
      modifies registry.byOrder.Values, ledger, book
      ensures book.Valid()
      ensures book.Queued() <= old(book.Queued())
      ensures found == Cancel(old(book.State()), Edge(n)).1.Some?
      ensures Now() == if found then CancelDesk(old(Now()), n) else old(Now())
    {
      hide Cancel, HookAll, IndexesAgree, RecsOf, ClientsOf, Vals, Distinct;
      CancelNothing(book.State(), Edge(n));
      var removed := book.CancelOrder(Edge(n));
      found := removed.Some?;
      if found {
        label removed:
        FireCancel(removed.value.Val());
        assert book.State() == old@removed(book.State());
      }
    }

    /** DELETE /api/v3/order by order id. */
    method HandleCancelOrder(n: nat) returns (reply: CancelReply)
      requires Valid()
      modifies registry.byOrder.Values, ledger, book
      ensures Valid() && (Now(), reply) == CancelOutcome(old(Now()), n)
      ensures book.Queued() <= old(book.Queued())
    {
      hide Cancel, CancelDesk, CancelRec, IndexesAgree, RecsOf, ClientsOf, Vals, Distinct;
      KnownOrder(n);
      if n !in registry.byOrder {
        return UnknownOrder;
      }
      var found := CancelOnBook(n);
      if !found {
        reply := DoneReply(n);
      } else {
        MarkDone(n);
        reply := Cancelled;
      }
    }

    lemma KnownOrder(n: nat)
      ensures n in registry.byOrder <==> n in registry.State()
    {
    }

    /** Nothing rests: say whether the order is already over. */
    method DoneReply(n: nat) returns (reply: CancelReply)
      requires n in registry.State() && n in registry.byOrder
      ensures reply == var status := registry.State()[n].status; if status.Filled?
          || status.Canceled? then AlreadyDone else UnknownOrder
    {
      var status := registry.byOrder[n].status;
      return if status.Filled? || status.Canceled? then AlreadyDone else UnknownOrder;
    }

    method MarkDone(n: nat)
      requires Valid()
      modifies registry.byOrder.Values
      ensures Valid() && Now() == old(Now()).(recs := CancelRec(old(registry.State()), n))
    {
      hide IndexesAgree, RecsOf, ClientsOf, Vals, Distinct, CancelRec;
      registry.MarkCanceled(n);
      assert book.State() == old(book.State());
    }
  }

  /** Nothing resting under the id leaves the book alone. */
  lemma CancelNothing(book: Book, id: OrderId)
    ensures Cancel(book, id).1.None? ==> Cancel(book, id).0 == book
  {
  }

  lemma CancelPair(recs: Recs, bal: Balances, o: Order)
    ensures var recs' := if o.id.Edge? then CancelRec(recs, o.id.num) else recs;
            HookAll(recs, bal, [CancelFold(o), CancelUnlock(o)]) == (recs', UnlockBal(recs', bal, o))
  {
    hide UnlockBal, CancelRec;
    var a, b := [CancelFold(o)], [CancelUnlock(o)];
    assert a + b == [CancelFold(o), CancelUnlock(o)];
    assert a[1..] == [] && b[1..] == [];
    HookAllConcat(recs, bal, a, b);
  }

  /** The cancelled order's two hooks on the desk. */
  function CancelDesk(d: Desk, n: nat): Desk {
    var (book, removed) := Cancel(d.book, Edge(n));
    if removed.None? then d
    else
      var (recs, bal) := HookAll(d.recs, d.bal, [CancelFold(removed.value), CancelUnlock(removed.value)]);
      d.(recs := recs, bal := bal, book := book)
  }

  /** What the cancel handler makes of the desk. */
  function CancelOutcome(d: Desk, n: nat): (Desk, CancelReply) {
    if n !in d.recs then (d, UnknownOrder)
    else if Cancel(d.book, Edge(n)).1.None? then
      (d, if d.recs[n].status.Filled? || d.recs[n].status.Canceled? then AlreadyDone else UnknownOrder)
    else
      var hooked := CancelDesk(d, n);
      (hooked.(recs := CancelRec(hooked.recs, n)), Cancelled)
  }

  /** The cancel handler and the machine's step sequence agree on every value. */
  lemma CancelAloneDesk(s: Sys, n: nat)
    requires n in s.recs ==> LockFree(s, s.recs[n].sym)
    ensures n in s.recs ==>
      var sym := s.recs[n].sym;
      var (r, reply) := CancelAlone(s, n);
      (DeskOf(r, sym), reply) == CancelOutcome(DeskOf(s, sym), n)
  {
    if n in s.recs {
      var sym := s.recs[n].sym;
      hide Cancel, HookAll, RunHooks, CancelRec;
      RunHooksMoney(CancelStep(s, sym, Edge(n)), sym);
    }
  }

  /** Everything the place and cancel handlers of one instrument read and write. */
  datatype Desk = Desk(next: nat, recs: Recs, clients: Clients, bal: Balances, book: Book, clock: nat)

  function DeskOf(s: Sys, sym: string): Desk {
    Desk(s.next, s.recs, s.clients, s.bal, BookOf(s, sym), s.clock)
  }

  /** Funds to lock for a new order: none for a market order. */
  function LockFor(req: Request): (string, int) {
    if req.typ.MarketType? then ("", 0)
    else if req.side.Buy? then (QuoteOf(req.sym), MulRaw(req.qty, req.price)) else (BaseOf(req.sym), req.qty)
  }

  /** The book call for an order, and the hooks of its trades. */
  function BookDesk(d: Desk, ord: Order): Desk {
    var (book, trades) := AddLimit(d.book, ord);
    var (recs, bal) := HookAll(d.recs, d.bal, EventsOf(trades));
    d.(recs := recs, bal := bal, book := book, clock := d.clock + 1)
  }

  function DropDesk(d: Desk, n: nat, bal: Balances): Desk {
    d.(recs := DropRec(d.recs, n), clients := DropClient(d.recs, d.clients, n), bal := bal)
  }

  function FinishDesk(d: Desk, n: nat, req: Request, asset: string, amt: int, ok: bool, refused: bool): (Desk, Reply) {
    if !ok then (DropDesk(d, n, d.bal), InsufficientBalance)
    else if refused then (DropDesk(d, n, Unlock(d.bal, asset, amt)), Refused)
    else (BookDesk(d, EdgeOrder(NewRec(n, req), d.clock)), Accepted)
  }

  /** What the place handler makes of the desk. */
  function PlaceDesk(d: Desk, req: Request, refused: bool): (Desk, Reply) {
    var n := d.next + 1;
    if ClientFor(req, n) in d.clients then (d.(next := n), Duplicate)
    else
      var (asset, amt) := LockFor(req);
      var (bal, ok) := LockFunds(d.bal, asset, amt);
      FinishDesk(d.(next := n, recs := d.recs[n := NewRec(n, req)], clients := d.clients[ClientFor(req, n) := n],
          bal := bal),
                 n, req, asset, amt, ok, refused)
  }

  /** What the account must have free for a request: the cost of a limit buy, the quantity of a limit sell. */
  function Needed(req: Request): int {
    if req.typ.MarketType? then 0 else if req.side.Buy? then MulRaw(req.qty, req.price) else req.qty
  }

  function NeededAsset(req: Request): string {
    if req.side.Buy? then QuoteOf(req.sym) else BaseOf(req.sym)
  }

  /** Which answer the place handler gives, told from the state before: a client id in use, then funds that
      are not there, then the engine's refusal. */
  lemma PlaceReplies(d: Desk, req: Request, refused: bool)
    ensures var reply, n := PlaceDesk(d, req, refused).1, d.next + 1;
            var known := ClientFor(req, n) in d.clients;
            var poor := 0 < Needed(req) && At(d.bal, NeededAsset(req)).free < Needed(req);
            && (reply.Duplicate? <==> known)
            && (reply.InsufficientBalance? <==> !known && poor)
            && (reply.Refused? <==> !known && !poor && refused)
            && (reply.Accepted? <==> !known && !poor && !refused)
  {
    hide MulRaw, ClientFor, BaseOf, QuoteOf, BookDesk, DropDesk, Unlock;
  }

  /** Whatever the answer but acceptance, the request leaves no trace but its number: no record, no client id,
      no funds, nothing in the book. */
  lemma RejectedLeavesNoTrace(d: Desk, req: Request, refused: bool, a: string)
    requires d.next + 1 !in d.recs && 0 <= At(d.bal, NeededAsset(req)).locked
    requires !PlaceDesk(d, req, refused).1.Accepted?
    ensures var d' := PlaceDesk(d, req, refused).0;
            && d'.next == d.next + 1 && d'.recs == d.recs && d'.clients == d.clients
            && d'.book == d.book && d'.clock == d.clock && At(d'.bal, a) == At(d.bal, a)
  {
    var n := d.next + 1;
    var (asset, amt) := LockFor(req);
    LockExact(d.bal, asset, amt);
    TransferUndone(d.bal, NeededAsset(req), Needed(req), a);
    hide MulRaw, BaseOf, QuoteOf, BookDesk;
    assert d.recs[n := NewRec(n, req)] - {n} == d.recs;
    assert ClientFor(req, n) !in d.clients ==> d.clients[ClientFor(req, n) := n] - {ClientFor(req, n)} == d.clients;
    hide ClientFor;
  }

  /** An accepted order that meets nobody rests in the book under its number, on the side, at the price and with
      the quantity asked for, and its record says the same. */
  lemma AcceptedRests(d: Desk, req: Request)
    requires BookOk(d.book, d.clock) && req.typ.LimitType? && req.qty > 0
    requires PlaceDesk(d, req, false).1.Accepted?
    requires Crossing(Order(Edge(d.next + 1), req.side, req.price, req.qty, false, d.clock),
        Opposite(d.book, req.side)) == 0
    ensures var d', n := PlaceDesk(d, req, false).0, d.next + 1;
            && Order(Edge(n), req.side, req.price, req.qty, false, d.clock)
                 in (if req.side.Buy? then d'.book.bids else d'.book.asks)
            && n in d'.recs && d'.recs[n].Open() && d'.recs[n].executed == 0
            && (0 <= Needed(req) ==> Moves(d.bal, d'.bal, NeededAsset(req), -Needed(req), Needed(req)))
            && (d'.recs[n].sym, d'.recs[n].side, d'.recs[n].price, d'.recs[n].orig) ==
                (req.sym, req.side, req.price, req.qty)
  {
    var n := d.next + 1;
    var ord := Order(Edge(n), req.side, req.price, req.qty, false, d.clock);
    CallTakes(d.book, ord, d.clock);
    JustQueued(d.book, ord);
    LockExact(d.bal, NeededAsset(req), Needed(req));
    assert EventsOf([]) == [];
    hide MulRaw, BaseOf, QuoteOf, ClientFor, AddLimit, LockFunds, EventsOf;
  }

  /** A limit order that trades nothing is in its own queue. */
  lemma JustQueued(book: Book, ord: Order)
    requires BookOk(book, ord.arrival) && !ord.isMarket && ord.volume > 0 && AddLimit(book, ord).1 == []
    ensures ord in (if ord.side.Buy? then AddLimit(book, ord).0.bids else AddLimit(book, ord).0.asks)
  {
    var queue := Opposite(book, ord.side);
    MatchConsumesFront(ord, queue);
    assert MatchQueue(ord, queue).queue == queue && ord.(volume := MatchQueue(ord, queue).left) == ord;
    hide MatchQueue, StableSort;
    InsertKeepsQueueOk(if ord.side.Buy? then book.bids else book.asks, ord, ord.side);
  }

  /** Which answer the cancel handler gives, and that any but Cancelled changes nothing. */
  lemma CancelReplies(d: Desk, n: nat)
    ensures var (d', reply) := CancelOutcome(d, n);
            var rests := exists o :: (o in d.book.bids || o in d.book.asks) && o.id == Edge(n);
            && (reply.Cancelled? <==> n in d.recs && rests)
            && (reply.AlreadyDone? <==> n in d.recs && !rests && !d.recs[n].Open())
            && (reply.UnknownOrder? <==> n !in d.recs || (!rests && d.recs[n].Open()))
            && (!reply.Cancelled? ==> d' == d)
  {
    var i, j := FindId(d.book.bids, Edge(n)), FindId(d.book.asks, Edge(n));
    assert i < |d.book.bids| ==> d.book.bids[i] in d.book.bids;
    assert j < |d.book.asks| ==> d.book.asks[j] in d.book.asks;
    assert Cancel(d.book, Edge(n)).1.Some? <==> i < |d.book.bids| || j < |d.book.asks|;
    hide Cancel, CancelDesk, CancelRec;
  }

  /** A cancelled order is off the book and its record is closed. */
  lemma CancelCloses(d: Desk, n: nat)
    requires CancelOutcome(d, n).1.Cancelled?
    ensures var d' := CancelOutcome(d, n).0;
            && d'.book == Cancel(d.book, Edge(n)).0 && n in d'.recs && !d'.recs[n].Open()
            && d'.next == d.next && d'.clients == d.clients && d'.clock == d.clock
  {
    CancelPair(d.recs, d.bal, Cancel(d.book, Edge(n)).1.value);
    hide Cancel, HookAll, UnlockBal;
  }

  /** The place handler and the machine's step sequence agree on every value. */
  lemma PlaceAloneDesk(s: Sys, req: Request, refused: bool)
    requires req.Valid() && LockFree(s, req.sym)
    ensures var (r, reply) := PlaceAlone(s, req, refused);
            (DeskOf(r, req.sym), reply) == PlaceDesk(DeskOf(s, req.sym), req, refused)
  {
    var n := s.next + 1;
    hide FinishAlone, FinishDesk, LockFor, LockFunds, ClientFor, ReserveStep;
    if ClientFor(req, n) !in s.clients {
      ClaimedDesk(ClaimStep(s.(next := n, phase := s.phase[n := Drawn]), n, req), n, req, refused);
    }
  }

  lemma ClaimedDesk(claimed: Sys, n: nat, req: Request, refused: bool)
    requires req.Valid() && n in claimed.recs && claimed.recs[n] == NewRec(n, req) && req.sym in claimed.books
    ensures var (asset, amt) := LockFor(req);
            var (bal, ok) := LockFunds(claimed.bal, asset, amt);
            var r := ReserveStep(claimed, n);
            && n in r.phase && n in r.recs && r.recs[n].sym in r.books && (r.phase[n].Unfunded? || r.phase[n].Reserved?)
            && (DeskOf(FinishAlone(r, n, refused).0, req.sym), FinishAlone(r, n, refused).1)
               == FinishDesk(DeskOf(claimed, req.sym).(bal := bal), n, req, asset, amt, ok, refused)
  {
    FundedValues(claimed, n, req);
    hide FinishAlone, FinishDesk, LockFor, LockFunds, ReserveStep;
    var (asset, amt) := LockFor(req);
    FinishAgrees(ReserveStep(claimed, n), n, req, asset, amt, LockFunds(claimed.bal, asset, amt).1, refused);
  }

  lemma FinishAgrees(s: Sys, n: nat, req: Request, asset: string, amt: int, ok: bool, refused: bool)
    requires n in s.recs && n in s.phase && s.recs[n] == NewRec(n, req) && req.sym in s.books
    requires s.phase[n] == if ok then Reserved else Unfunded
    requires (asset, amt) == LockFor(req)
    requires req.typ.LimitType? ==> (asset, amt) == (LockAsset(s.recs[n]), LockAmount(s.recs[n], s.recs[n].orig))
    ensures var (r, reply) := FinishAlone(s, n, refused);
            (DeskOf(r, req.sym), reply) == FinishDesk(DeskOf(s, req.sym), n, req, asset, amt, ok, refused)
  {
    hide RollBackStep, RefundStep, DropDesk, BookDesk, PlaceStep, RunHooks, LockFor, LockAsset, LockAmount, Unlock;
    if !ok {
      UnfundedValues(s, n, req.sym);
    } else if refused {
      RefusedValues(s, n, req, asset, amt);
    } else {
      PlacedValues(s, n, req.sym);
    }
  }

  lemma UnfundedValues(s: Sys, n: nat, sym: string)
    requires n in s.recs && n in s.phase && s.phase[n].Unfunded?
    ensures DeskOf(RollBackStep(s, n), sym) == DropDesk(DeskOf(s, sym), n, s.bal)
  {
    hide DropRec, DropClient, LockAsset, LockAmount;
  }

  lemma RefusedValues(s: Sys, n: nat, req: Request, asset: string, amt: int)
    requires n in s.recs && n in s.phase && s.phase[n].Reserved? && s.recs[n] == NewRec(n, req)
        && (asset, amt) == LockFor(req)
    requires req.typ.LimitType? ==> (asset, amt) == (LockAsset(s.recs[n]), LockAmount(s.recs[n], s.recs[n].orig))
    ensures DeskOf(RefundStep(RollBackStep(s, n), n), req.sym) ==
        DropDesk(DeskOf(s, req.sym), n, Unlock(s.bal, asset, amt))
  {
    hide DropRec, DropClient, Unlock, QuoteOf, BaseOf, MulRaw, LockAsset, LockAmount;
  }

  lemma FundedValues(s: Sys, n: nat, req: Request)
    requires req.Valid() && n in s.recs && s.recs[n] == NewRec(n, req)
    ensures var (asset, amt) := LockFor(req);
            var (bal, ok) := LockFunds(s.bal, asset, amt);
            var r := ReserveStep(s, n);
            && r == s.(bal := bal, phase := s.phase[n := if ok then Reserved else Unfunded])
            && (req.typ.LimitType? ==> (asset, amt) == (LockAsset(s.recs[n]), LockAmount(s.recs[n], s.recs[n].orig)))
  {
    hide QuoteOf, BaseOf, MulRaw;
  }

  lemma MulRawCommutes(x: int, y: int)
    ensures MulRaw(x, y) == MulRaw(y, x)
  {
    assert x * y == y * x;
  }

  /** What the book call and its hooks do to the values the objects hold. */
  lemma PlacedValues(s: Sys, n: nat, sym: string)
    requires n in s.recs && s.recs[n].sym == sym && sym in s.books
    ensures DeskOf(RunHooks(PlaceStep(s, n), sym), sym) == BookDesk(DeskOf(s, sym), EdgeOrder(s.recs[n], s.clock))
  {
    hide AddLimit, EventsOf, HookAll, RunHooks;
    RunHooksMoney(PlaceStep(s, n), sym);
  }

  lemma NoEvents(recs: Recs, bal: Balances, trades: seq<Trade>)
    ensures HookAll(recs, bal, EventsOf(trades[|trades|..])) == (recs, bal)
  {
  }

  lemma EventsOfStep(trades: seq<Trade>, i: nat)
    requires i < |trades|
    ensures EventsOf(trades[i..]) == EventsOf([trades[i]]) + EventsOf(trades[i + 1..])
  {
    assert trades[i..][1..] == trades[i + 1..] && trades[i..][0] == trades[i];
    assert [trades[i]][1..] == [] && EventsOf([]) == [];
  }

  lemma TradeHooks(recs: Recs, bal: Balances, t: Trade) returns (recs': Recs, bought: Balances, sold: Balances)
    ensures recs' == FoldTrade(recs, t)
    ensures bought == if t.buyId.Edge? then SettleBal(recs', bal, t.buyId.num, true, t.volume, t.price) else bal
    ensures sold == if t.sellId.Edge?
        then SettleBal(recs', bought, t.sellId.num, t.sellId == t.buyId, t.volume, t.price) else bought
    ensures HookAll(recs, bal, EventsOf([t])) == (recs', sold)
  {
    recs' := FoldTrade(recs, t);
    bought := if t.buyId.Edge? then SettleBal(recs', bal, t.buyId.num, true, t.volume, t.price) else bal;
    sold := if t.sellId.Edge? then SettleBal(recs', bought, t.sellId.num, t.sellId == t.buyId, t.volume, t.price)
        else bought;
    hide FoldTrade, SettleBal;
    assert [t][1..] == [] && EventsOf([]) == [];
    var a, b, c := [Fold(t)], SettleEvent(t.buyId, true, t), SettleEvent(t.sellId, t.sellId == t.buyId, t);
    assert EventsOf([t]) == a + b + c;
    HookAllConcat(recs, bal, a + b, c);
    HookAllConcat(recs, bal, a, b);
  }
}
