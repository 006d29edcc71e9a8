/**
 Whole sessions on the objects: any sequence of place and cancel requests and of other people's
 orders, served one after the other, is one run of the exchange machine, so the objects are
 solvent and their registry agrees with their book after every call.
 */
module Sessions {
  import opened FixedPoint
  import opened Orders
  import opened Matching
  import opened OrderBook
  import opened Registry
  import opened Ledger
  import opened Exchange
  import opened ExchangeInv
  import opened ExchangeHooks
  import opened ExchangeRuns
  import opened ExchangePriced
  import opened Server

  datatype Call =
    | PlaceOrder(req: Request, refused: bool)
    | CancelOrder(n: nat)
    | OthersOrder(ord: Order)

  ghost predicate Admitted(call: Call, sym: string) {
    match call
    case PlaceOrder(req, _) => req.Valid() && req.sym == sym
    case CancelOrder(_) => true
    case OthersOrder(ord) => Outside(ord)
  }

  function CallDesk(d: Desk, call: Call): Desk {
    match call
    case PlaceOrder(req, refused) => PlaceDesk(d, req, refused).0
    case CancelOrder(n) => CancelOutcome(d, n).0
    case OthersOrder(ord) => BookDesk(d, ord.(arrival := d.clock))
  }

  function SessionDesk(d: Desk, calls: seq<Call>): Desk
    decreases |calls|
  {
    if calls == [] then d else CallDesk(SessionDesk(d, calls[..|calls| - 1]), calls[|calls| - 1])
  }

  /** Nobody else names a negative limit price. */
  predicate PricedCall(call: Call) {
    call.OthersOrder? ==> call.ord.isMarket || call.ord.price >= 0
  }

  predicate PricedCalls(calls: seq<Call>) {
    forall i :: 0 <= i < |calls| ==> PricedCall(calls[i])
  }

  predicate PricedSteps(steps: seq<Step>) {
    forall i :: 0 <= i < |steps| ==> PricedStep(steps[i])
  }

  predicate Single(recs: Recs, sym: string) {
    forall n :: n in recs ==> recs[n].sym == sym
  }

  /** Between two calls: nothing in flight, and one instrument. */
  ghost predicate Between(s: Sys, sym: string) {
    Quiescent(s) && sym in s.books && Single(s.recs, sym)
  }

  // ----- what hooks leave alone ----------------------------------------------------------

  lemma HookSingle(recs: Recs, e: Event, sym: string)
    requires Single(recs, sym)
    ensures Single(HookRecs(recs, e), sym)
  {
    hide MulRaw;
  }

  lemma {:induction false} HooksSingle(recs: Recs, bal: Balances, events: seq<Event>, sym: string)
    requires Single(recs, sym)
    ensures Single(HookAll(recs, bal, events).0, sym)
    decreases |events|
  {
    hide HookRecs, HookBal, Single;
    if events != [] {
      HookSingle(recs, events[0], sym);
      HooksSingle(HookRecs(recs, events[0]), HookBal(recs, bal, events[0]), events[1..], sym);
    }
  }

  ghost predicate OnlyPending(s: Sys, sym: string) {
    forall y :: y in s.pend && y != sym ==> s.pend[y] == []
  }

  lemma {:induction false} HooksDone(s: Sys, sym: string)
    requires OnlyPending(s, sym)
    ensures var r := RunHooks(s, sym);
            && (forall y :: y in r.pend ==> r.pend[y] == [])
            && r.phase == s.phase && r.books == s.books
    decreases |Pend(s, sym)|
  {
    hide HookStep;
    if Pend(s, sym) != [] {
      HookStepFrame(s, sym);
      HooksDone(HookStep(s, sym), sym);
    }
  }

  lemma HooksBetween(s: Sys, sym: string)
    requires OnlyPending(s, sym) && sym in s.books && Single(s.recs, sym)
    requires forall n :: n in s.phase ==> s.phase[n].Drawn? || s.phase[n].Live?
    ensures Between(RunHooks(s, sym), sym)
  {
    hide RunHooks, HookAll, Single;
    HooksDone(s, sym);
    RunHooksMoney(s, sym);
    HooksSingle(s.recs, s.bal, Pend(s, sym), sym);
  }

  // ----- one call ------------------------------------------------------------------------

  lemma NextUnused(s: Sys)
    requires RecsOk(s)
    ensures s.next + 1 !in s.phase && s.next + 1 !in s.recs
  {
    assert forall n :: n in s.phase ==> n <= s.next;
  }

  /** One place handler is under way, and nothing else. */
  ghost predicate Underway(s: Sys, sym: string, n: nat) {
    && n in s.phase && (forall m :: m in s.phase && m != n ==> s.phase[m].Drawn? || s.phase[m].Live?)
    && (forall y :: y in s.pend ==> s.pend[y] == [])
    && sym in s.books && Single(s.recs, sym)
  }

  lemma FinishBetween(s: Sys, sym: string, n: nat, refused: bool)
    requires Underway(s, sym, n) && n in s.recs && (s.phase[n].Unfunded? || s.phase[n].Reserved?)
    ensures Between(FinishAlone(s, n, refused).0, sym)
  {
    hide AddLimit, Unlock, LockAsset, LockAmount, RunHooks, EventsOf;
    if s.phase[n].Reserved? && !refused {
      HooksBetween(PlaceStep(s, n), sym);
    }
  }

  lemma ReserveUnderway(s: Sys, sym: string, n: nat)
    requires Underway(s, sym, n) && n in s.recs
    ensures var r := ReserveStep(s, n);
            Underway(r, sym, n) && r.recs == s.recs && (r.phase[n].Unfunded? || r.phase[n].Reserved?)
  {
    hide LockFunds, LockAsset, LockAmount;
  }

  lemma ClaimUnderway(s: Sys, req: Request)
    requires Between(s, req.sym) && s.next + 1 !in s.phase
    ensures var n := s.next + 1;
            var claimed := ClaimStep(s.(next := n, phase := s.phase[n := Drawn]), n, req);
            if ClientFor(req, n) in s.clients then Between(claimed, req.sym)
            else Underway(claimed, req.sym, n) && n in claimed.recs
  {
    hide ClientFor;
  }

  lemma PlaceReady(s: Sys, sym: string)
    requires Inv(s) && Between(s, sym)
    ensures LockFree(s, sym) && s.next + 1 !in s.phase && s.next + 1 !in s.recs
  {
    NextUnused(s);
  }

  lemma PlaceBetween(s: Sys, req: Request, refused: bool)
    requires Between(s, req.sym) && s.next + 1 !in s.phase
    ensures Between(PlaceAlone(s, req, refused).0, req.sym)
  {
    var n := s.next + 1;
    hide ClaimStep, ReserveStep, FinishAlone, ClientFor, Between, Underway;
    BookListed(s, req.sym);
    ClaimUnderway(s, req);
    if ClientFor(req, n) !in s.clients {
      FundedBetween(ClaimStep(s.(next := n, phase := s.phase[n := Drawn]), n, req), req.sym, n, refused);
    }
  }

  lemma FundedBetween(claimed: Sys, sym: string, n: nat, refused: bool)
    requires Underway(claimed, sym, n) && n in claimed.recs
    ensures var r := ReserveStep(claimed, n);
            && n in r.phase && n in r.recs && r.recs[n].sym in r.books && (r.phase[n].Unfunded? || r.phase[n].Reserved?)
            && Between(FinishAlone(r, n, refused).0, sym)
  {
    hide ReserveStep, FinishAlone, Between, Underway;
    ReserveUnderway(claimed, sym, n);
    UnderwayListed(ReserveStep(claimed, n), sym, n);
    FinishBetween(ReserveStep(claimed, n), sym, n, refused);
  }

  lemma UnderwayListed(s: Sys, sym: string, n: nat)
    requires Underway(s, sym, n)
    ensures sym in s.books && n in s.phase && (n in s.recs ==> s.recs[n].sym == sym)
  {
  }

  lemma CancelUnknown(s: Sys, sym: string, n: nat)
    ensures n !in s.recs ==> CancelAlone(s, n).0 == s && CancelOutcome(DeskOf(s, sym), n).0 == DeskOf(s, sym)
  {
  }

  lemma CancelBetween(s: Sys, sym: string, n: nat)
    requires Between(s, sym)
    ensures n in s.recs ==> LockFree(s, s.recs[n].sym) && s.recs[n].sym == sym
    ensures Between(CancelAlone(s, n).0, sym)
  {
    hide Cancel, RunHooks;
    if n in s.recs && Cancel(s.books[sym], Edge(n)).1.Some? {
      HooksBetween(CancelStep(s, sym, Edge(n)), sym);
    }
  }

  /** Somebody else's order, with its hooks. */
  function OthersAlone(s: Sys, sym: string, ord: Order): Sys
    requires sym in s.books
  {
    RunHooks(AfterTrading(s, sym, AddLimit(s.books[sym], ord)), sym)
  }

  lemma OthersBetween(s: Sys, sym: string, ord: Order)
    requires Between(s, sym)
    ensures Between(OthersAlone(s, sym, ord), sym)
    ensures DeskOf(OthersAlone(s, sym, ord), sym) == BookDesk(DeskOf(s, sym), ord)
  {
    var traded := AfterTrading(s, sym, AddLimit(s.books[sym], ord));
    hide AddLimit, EventsOf, HookAll, RunHooks;
    HooksBetween(traded, sym);
    RunHooksMoney(traded, sym);
  }

  lemma OthersIsRun(s: Sys, sym: string, ord: Order) returns (steps: seq<Step>)
    requires Between(s, sym) && Outside(ord) && ord.arrival == s.clock
    ensures Run(s, steps, OthersAlone(s, sym, ord)) && Between(OthersAlone(s, sym, ord), sym)
    ensures DeskOf(OthersAlone(s, sym, ord), sym) == BookDesk(DeskOf(s, sym), ord)
    ensures ord.isMarket || ord.price >= 0 ==> PricedSteps(steps)
  {
    var traded := AfterTrading(s, sym, AddLimit(s.books[sym], ord));
    OneStep(s, OutsideOrder(sym, ord));
    OthersBetween(s, sym, ord);
    hide AddLimit, RunHooks, Run, AfterTrading, Between, DeskOf, BookDesk;
    RunHooksIsRun(traded, sym);
    steps := [OutsideOrder(sym, ord)] + Hooks(sym, |Pend(traded, sym)|);
    RunThen(s, [OutsideOrder(sym, ord)], traded, Hooks(sym, |Pend(traded, sym)|), RunHooks(traded, sym));
  }

  /** Every call, from every state between calls, is a run that leaves the desk the handler leaves. */
  lemma CallIsRun(s: Sys, sym: string, call: Call) returns (steps: seq<Step>, s': Sys)
    requires Inv(s) && Between(s, sym) && Admitted(call, sym)
    ensures Run(s, steps, s') && Between(s', sym) && DeskOf(s', sym) == CallDesk(DeskOf(s, sym), call)
    ensures PricedCall(call) ==> PricedSteps(steps)
  {
    hide Run, Inv, Between, PlaceAlone, CancelAlone, PlaceDesk, CancelOutcome, BookDesk, AddLimit, RunHooks;
    match call {
      case PlaceOrder(req, refused) =>
        PlaceReady(s, sym);
        PlaceBetween(s, req, refused);
        PlaceAloneDesk(s, req, refused);
        steps := PlaceAloneIsRun(s, req, refused);
        s' := PlaceAlone(s, req, refused).0;
      case CancelOrder(n) =>
        CancelBetween(s, sym, n);
        CancelAloneDesk(s, n);
        CancelUnknown(s, sym, n);
        steps := CancelAloneIsRun(s, n);
        s' := CancelAlone(s, n).0;
      case OthersOrder(ord) =>
        assert sym in s.books by { BookListed(s, sym); }
        steps := OthersIsRun(s, sym, ord.(arrival := s.clock));
        s' := OthersAlone(s, sym, ord.(arrival := s.clock));
    }
  }

  lemma BookListed(s: Sys, sym: string)
    requires Between(s, sym)
    ensures sym in s.books
  {
  }

  // ----- sessions ------------------------------------------------------------------------

  /** The desk of the server is that of a state the machine reaches from a fresh start. */
  ghost predicate Reached(d: Desk, sym: string, init: Sys, steps: seq<Step>, s: Sys) {
    Init(init) && Run(init, steps, s) && Between(s, sym) && d == DeskOf(s, sym)
  }

  lemma CallReaches(d: Desk, sym: string, init: Sys, steps: seq<Step>, s: Sys, call: Call)
      returns (steps': seq<Step>, s': Sys)
    requires Reached(d, sym, init, steps, s) && Admitted(call, sym)
    ensures Reached(CallDesk(d, call), sym, init, steps + steps', s') && (PricedCall(call) ==> PricedSteps(steps'))
  {
    InitInv(init);
    RunKeeps(init, steps, s);
    hide Run, Inv, Between, CallDesk, Init;
    steps', s' := CallIsRun(s, sym, call);
    RunThen(init, steps, s, steps', s');
  }

  /** Any session from a reached desk is one longer run: what the handlers leave is a state of the
      machine after it. */
  lemma {:induction false} SessionIsRun(
    d: Desk, sym: string, init: Sys, steps: seq<Step>, s: Sys, calls: seq<Call>) returns (steps': seq<Step>, s': Sys)
    requires Reached(d, sym, init, steps, s) && forall i :: 0 <= i < |calls| ==> Admitted(calls[i], sym)
    ensures Reached(SessionDesk(d, calls), sym, init, steps + steps', s')
        && (PricedCalls(calls) ==> PricedSteps(steps'))
    decreases |calls|
  {
    hide Reached, CallDesk;
    if calls == [] {
      steps', s' := [], s;
      assert steps + [] == steps;
    } else {
      var n := |calls| - 1;
      var first, mid := SessionIsRun(d, sym, init, steps, s, calls[..n]);
      var last;
      last, s' := CallReaches(SessionDesk(d, calls[..n]), sym, init, steps + first, mid, calls[n]);
      steps' := first + last;
      assert steps + first + last == steps + steps';
    }
  }

  /** What the machine's theorems say of a reached desk. */
  ghost predicate Sound(d: Desk, dust: map<string, nat>, overdrawn: bool) {
    && (forall a {:trigger At(d.bal, a)} ::
          && (overdrawn || 0 <= At(d.bal, a).free) && 0 <= At(d.bal, a).locked
          && var released := OpenReleases(d.recs, d.next, a);
             released <= At(d.bal, a).locked <= released + (if a in dust then dust[a] else 0))
    && (forall n :: n in d.recs && d.recs[n].typ.LimitType? ==> RestsAsRecorded(d, n))
    && BookOk(d.book, d.clock)
  }

  predicate Rests(queue: seq<Order>, n: nat, rec: Rec) {
    exists i :: 0 <= i < |queue| && queue[i].id == Edge(n) && queue[i].volume == rec.orig - rec.executed
        && queue[i].price == rec.price
  }

  /** Open exactly when resting, and then once, at its price, with what is not executed. */
  ghost predicate RestsAsRecorded(d: Desk, n: nat)
    requires n in d.recs
  {
    var rec := d.recs[n];
    && (rec.Open() <==> RestQty(d.book, n) > 0)
    && (rec.Open() ==> RestQty(d.book, n) == rec.orig - rec.executed)
    && (rec.Open() ==> if rec.side.Buy? then Rests(d.book.bids, n, rec) else Rests(d.book.asks, n, rec))
  }

  lemma RecordRests(d: Desk, sym: string, init: Sys, steps: seq<Step>, s: Sys, n: nat)
    requires Reached(d, sym, init, steps, s) && n in d.recs && d.recs[n].typ.LimitType?
    ensures RestsAsRecorded(d, n)
  {
    assert s.recs[n].sym == sym && d.book == BookOf(s, sym) && Quiescent(s);
    hide Run, Init, RestQty, Quiescent, Between, BookOf;
    RegistryAgreesWithBook(init, steps, s, n);
    if s.recs[n].side.Buy? {
      assert s.recs[n].Open() ==> Rests(d.book.bids, n, d.recs[n]);
    } else {
      assert s.recs[n].Open() ==> Rests(d.book.asks, n, d.recs[n]);
    }
  }

  /** A reached desk is solvent, its registry agrees with its book, and the book is in order. */
  lemma ReachedIsSound(d: Desk, sym: string, init: Sys, steps: seq<Step>, s: Sys)
    requires Reached(d, sym, init, steps, s)
    ensures Sound(d, s.fills, s.overdrawn)
  {
    hide Run, Init, OpenReleases, BookOk, RestQty;
    forall a {:trigger At(d.bal, a)}
      ensures (s.overdrawn || 0 <= At(d.bal, a).free) && 0 <= At(d.bal, a).locked
      ensures var released := OpenReleases(d.recs, d.next, a);
              released <= At(d.bal, a).locked <= released + (if a in s.fills then s.fills[a] else 0)
    {
      Solvency(init, steps, s, a);
      OverdrawnExactly(init, steps, s);
    }
    forall n | n in d.recs && d.recs[n].typ.LimitType? ensures RestsAsRecorded(d, n) {
      RecordRests(d, sym, init, steps, s, n);
    }
    BooksStayOrdered(init, steps, s, sym);
  }

  /** A fresh server: no order yet, an empty book, nothing locked. */
  function Start(sym: string, bal: Balances): Sys {
    Sys(0, map[], map[], map[], bal, map[sym := EMPTY_BOOK], map[], {}, map[], 0, false)
  }

  lemma FreshIsReached(sym: string, bal: Balances)
    requires forall a {:trigger At(bal, a)} :: 0 <= At(bal, a).free && At(bal, a).locked == 0
    ensures Reached(Desk(0, map[], map[], bal, EMPTY_BOOK, 0), sym, Start(sym, bal), [], Start(sym, bal))
  {
  }

  /** Serve the calls one after the other on the objects. From a reached desk they end in the desk of
      a longer run, and there solvent, in agreement and in order. */
  method Serve(server: EdgeServer, calls: seq<Call>, ghost init: Sys, ghost past: seq<Step>, ghost s: Sys)
    returns (ghost steps: seq<Step>, ghost s': Sys)
    requires server.Valid() && Reached(server.Now(), server.sym, init, past, s)
    requires forall i :: 0 <= i < |calls| ==> Admitted(calls[i], server.sym)
    modifies server, server.registry, server.registry.byOrder.Values, server.ledger,
             server.book, server.book.bids, server.book.asks
    ensures server.Valid() && server.Now() == SessionDesk(old(server.Now()), calls)
    ensures Reached(server.Now(), server.sym, init, past + steps, s') && Sound(server.Now(), s'.fills, s'.overdrawn)
    ensures PricedSteps(past) && PricedCalls(calls) ==> !s'.overdrawn
  {
    hide Reached, Sound, CallDesk, Admitted, SessionDesk;
    ghost var d := server.Now();
    ServeAll(server, calls);
    steps, s' := SessionIsRun(d, server.sym, init, past, s, calls);
    ReachedIsSound(server.Now(), server.sym, init, past + steps, s');
    if PricedSteps(past) && PricedCalls(calls) { PricedIsFunded(server.Now(), server.sym, init, past + steps, s'); }
  }

  method ServeAll(server: EdgeServer, calls: seq<Call>)
    requires server.Valid() && forall i :: 0 <= i < |calls| ==> Admitted(calls[i], server.sym)
    modifies server, server.registry, server.registry.byOrder.Values, server.ledger,
             server.book, server.book.bids, server.book.asks
    ensures server.Valid() && server.Now() == SessionDesk(old(server.Now()), calls)
  {
    hide CallDesk, Admitted, PlaceDesk, CancelOutcome, BookDesk;
    ghost var d := server.Now();
    assert calls[..0] == [];
    for i := 0 to |calls|
      invariant server.Valid() && server.Now() == SessionDesk(d, calls[..i])
      invariant fresh(server.registry.byOrder.Values - old(server.registry.byOrder.Values))
      invariant fresh(server.book.Queued() - old(server.book.Queued()))
    {
      assert calls[..i + 1][..i] == calls[..i];
      ServeOne(server, calls[i]);
    }
    assert calls[..|calls|] == calls;
  }

  lemma PricedIsFunded(d: Desk, sym: string, init: Sys, steps: seq<Step>, s: Sys)
    requires Reached(d, sym, init, steps, s) && PricedSteps(steps)
    ensures !s.overdrawn
  {
    NonNegativePricesSuffice(init, steps, s, "");
    OverdrawnExactly(init, steps, s);
  }

  method ServeOne(server: EdgeServer, call: Call)
    requires server.Valid() && Admitted(call, server.sym)
    modifies server, server.registry, server.registry.byOrder.Values, server.ledger,
             server.book, server.book.bids, server.book.asks
    ensures server.Valid() && server.Now() == CallDesk(old(server.Now()), call)
    ensures fresh(server.registry.byOrder.Values - old(server.registry.byOrder.Values))
    ensures fresh(server.book.Queued() - old(server.book.Queued()))
  {
    hide PlaceDesk, CancelOutcome, BookDesk;
    match call {
      case PlaceOrder(req, refused) =>
        var reply := server.HandlePlaceOrder(req, refused);
      case CancelOrder(n) =>
        var reply := server.HandleCancelOrder(n);
      case OthersOrder(ord) =>
        server.TradeOnBook(ord.(arrival := server.clock));
    }
  }

  /** From nothing: a new server over a funded ledger serves any session soundly. */
  method FreshSession(sym: string, initial: map<string, int>, calls: seq<Call>)
    returns (server: EdgeServer, ghost init: Sys, ghost steps: seq<Step>, ghost s: Sys)
    requires forall a :: a in initial ==> initial[a] >= 0
    requires forall i :: 0 <= i < |calls| ==> Admitted(calls[i], sym)
    ensures fresh(server) && server.sym == sym && server.Valid()
    ensures Reached(server.Now(), sym, init, steps, s) && Sound(server.Now(), s.fills, s.overdrawn)
    ensures PricedCalls(calls) ==> !s.overdrawn
  {
    hide Reached, Sound, SessionDesk, Admitted, IndexesAgree, RecsOf, ClientsOf, Vals, Distinct, EdgeServer.Valid;
    server := NewServer(sym, initial);
    init := Start(sym, server.ledger.bal);
    FreshIsReached(sym, server.ledger.bal);
    steps, s := Serve(server, calls, init, [], init);
    assert [] + steps == steps;
  }

  method NewServer(sym: string, initial: map<string, int>) returns (server: EdgeServer)
    requires forall a :: a in initial ==> initial[a] >= 0
    ensures fresh(server) && fresh(server.registry) && fresh(server.ledger)
    ensures fresh(server.book) && fresh(server.book.bids) && fresh(server.book.asks)
    ensures server.sym == sym && server.Valid() && server.registry.byOrder.Values == {} && server.book.Queued() == {}
    ensures server.Now() == Desk(0, map[], map[], server.ledger.bal, EMPTY_BOOK, 0)
    ensures forall a {:trigger At(server.ledger.bal, a)} ::
        0 <= At(server.ledger.bal, a).free && At(server.ledger.bal, a).locked == 0
  {
    hide IndexesAgree, RecsOf, ClientsOf, Vals, Distinct;
    var registry := new OrderRegistry();
    var ledger := new Account(initial);
    var book := new InstrumentBook();
    server := new EdgeServer(sym, registry, ledger, book);
  }
}
