/** Placing, trading and cancelling keep the exchange invariant. */
module ExchangeTrading {
  import opened Common
  import opened Orders
  import opened Matching
  import opened Registry
  import opened Ledger
  import opened Exchange
  import opened ExchangeInv
  import opened ExchangeSteps

  // ----- traded quantity -----------------------------------------------------------------

  /** What the trades of one book call filled of order n, on either side. */
  function TradedQty(trades: seq<Trade>, n: nat): int {
    if trades == [] then 0
    else
      var t := trades[0];
      Part(t.buyId, n, t.volume) + Part(t.sellId, n, t.volume) + TradedQty(trades[1..], n)
  }

  lemma {:induction false} EventsConcat(a: seq<Event>, b: seq<Event>, n: nat)
    ensures FoldQty(a + b, n) == FoldQty(a, n) + FoldQty(b, n)
    ensures SettleQty(a + b, n) == SettleQty(a, n) + SettleQty(b, n)
    ensures CancelQty(a + b, n) == CancelQty(a, n) + CancelQty(b, n)
    ensures UnlockQty(a + b, n) == UnlockQty(a, n) + UnlockQty(b, n)
    decreases |a|
  {
    if a == [] {
      assert a + b == b;
    } else {
      EventsConcat(a[1..], b, n);
      assert (a + b)[1..] == a[1..] + b;
    }
  }

  lemma OneEvent(e: Event, n: nat)
    ensures FoldQty([e], n) == FoldPart(e, n) && SettleQty([e], n) == SettlePart(e, n)
    ensures CancelQty([e], n) == CancelPart(e, n) && UnlockQty([e], n) == UnlockPart(e, n)
  {
    assert [e][1..] == [];
  }

  lemma SettleEventQty(id: OrderId, isBuy: bool, t: Trade, n: nat)
    ensures var e := SettleEvent(id, isBuy, t);
            SettleQty(e, n) == Part(id, n, t.volume) && FoldQty(e, n) == CancelQty(e, n) == UnlockQty(e, n) == 0
  {
    if id.Edge? { OneEvent(Settle(id.num, isBuy, t.volume, t.price), n); }
  }

  /** The hooks of a book call fold and settle exactly what it traded. */
  lemma {:induction false} EventsOfQty(trades: seq<Trade>, n: nat)
    ensures var events := EventsOf(trades);
            && FoldQty(events, n) == TradedQty(trades, n)
            && SettleQty(events, n) == TradedQty(trades, n)
            && CancelQty(events, n) == 0 && UnlockQty(events, n) == 0
    decreases |trades|
  {
    if trades != [] {
      var t := trades[0];
      EventsOfQty(trades[1..], n);
      var a, b, c, d := [Fold(t)], SettleEvent(t.buyId, true, t), SettleEvent(t.sellId, t.sellId == t.buyId, t),
          EventsOf(trades[1..]);
      OneEvent(Fold(t), n);
      SettleEventQty(t.buyId, true, t, n);
      SettleEventQty(t.sellId, t.sellId == t.buyId, t, n);
      EventsConcat(a, b, n);
      EventsConcat(a + b, c, n);
      EventsConcat(a + b + c, d, n);
    }
  }

  lemma {:induction false} TradedSplit(trades: seq<Trade>, taker: OrderId, n: nat)
    requires forall i :: 0 <= i < |trades| ==> trades[i].Taker() == taker
    ensures TradedQty(trades, n) == MakerVolume(trades, Edge(n)) + (if taker == Edge(n) then Volume(trades) else 0)
    decreases |trades|
  {
    if trades != [] { TradedSplit(trades[1..], taker, n); }
  }

  lemma MatchTaker(incoming: Order, queue: seq<Order>)
    requires Positive(queue)
    ensures forall i :: 0 <= i < |MatchQueue(incoming, queue).trades| ==>
        MatchQueue(incoming, queue).trades[i].Taker() == incoming.id
  {
    forall i | 0 <= i < |MatchQueue(incoming, queue).trades|
      ensures MatchQueue(incoming, queue).trades[i].Taker() == incoming.id
    {
      TradeAt(incoming, queue, i);
    }
  }

  // ----- quantity across one book call ---------------------------------------------------

  lemma EnqueueQty(book: Book, ord: Order, n: nat)
    requires Sorted(book.bids, Buy) && Sorted(book.asks, Sell)
    ensures RestQty(Enqueue(book, ord), n) == RestQty(book, n) + Part(ord.id, n, ord.volume)
  {
    hide StableSort, Insert, Resting, Sorted;
    var own := if ord.side.Buy? then book.bids else book.asks;
    EnqueueInserts(own, ord, ord.side);
    RestingInsert(own, ord, ord.side, Edge(n));
  }

  lemma AfterMatchQty(book: Book, ord: Order, n: nat)
    requires Positive(book.bids) && Positive(book.asks)
    ensures var (matched, m) := AfterMatch(book, ord);
            RestQty(matched, n) + TradedQty(m.trades, n) == RestQty(book, n) + Part(ord.id, n, Volume(m.trades))
  {
    var queue := Opposite(book, ord.side);
    MatchTaker(ord, queue);
    TradedSplit(MatchQueue(ord, queue).trades, ord.id, n);
    MatchConservesMakers(ord, queue, Edge(n));
  }

  /** A resting order's volume goes to its trades; an incoming limit order's to its trades and its own
      place in the queue; an incoming market order's to its trades as far as there is somebody. */
  lemma AddLimitQty(book: Book, ord: Order, n: nat)
    requires BookOk(book, ord.arrival)
    ensures var (book', trades) := AddLimit(book, ord);
            RestQty(book', n) + TradedQty(trades, n) == RestQty(book, n) + Part(ord.id, n, Brought(book, ord))
  {
    if ord.volume <= 0 {
      NothingHappens(book, ord);
    } else {
      CallTakes(book, ord, ord.arrival);
      AfterMatchOk(book, ord, ord.arrival);
      AfterMatchQty(book, ord, n);
      var (matched, m) := AfterMatch(book, ord);
      if m.left > 0 && !ord.isMarket { EnqueueQty(matched, ord.(volume := m.left), n); }
    }
  }

  lemma NowhereAt(book: Book, n: nat)
    requires Positive(book.bids) && Positive(book.asks) && RestQty(book, n) == 0
    ensures forall i :: 0 <= i < |book.bids| ==> book.bids[i].id != Edge(n)
    ensures forall i :: 0 <= i < |book.asks| ==> book.asks[i].id != Edge(n)
  {
    RestingNonNeg(book.bids, Edge(n));
    RestingNonNeg(book.asks, Edge(n));
  }

  /** Under an id that rests nowhere a call trades only as taker. */
  lemma TakerOnly(book: Book, ord: Order, n: nat)
    requires BookOk(book, ord.arrival) && ord.volume > 0 && RestQty(book, n) == 0
    ensures TradedQty(AddLimit(book, ord).1, n) == Part(ord.id, n, Taken(book, ord))
  {
    var queue := Opposite(book, ord.side);
    NowhereAt(book, n);
    CallTakes(book, ord, ord.arrival);
    MatchTaker(ord, queue);
    TradedSplit(MatchQueue(ord, queue).trades, ord.id, n);
    MatchConservesMakers(ord, queue, Edge(n));
    MatchKeepsIds(ord, queue, Edge(n));
    RestingAbsent(queue, Edge(n));
    RestingAbsent(MatchQueue(ord, queue).queue, Edge(n));
  }

  lemma IocQty(book: Book, ord: Order, n: nat)
    requires Positive(book.bids) && Positive(book.asks) && ord.id != Edge(n)
    ensures var (book', trades) := ExecuteIoc(book, ord);
            RestQty(book', n) + TradedQty(trades, n) == RestQty(book, n)
  {
    if ord.volume > 0 { AfterMatchQty(book, ord, n); }
  }

  // ----- well-formed trades --------------------------------------------------------------

  lemma {:induction false} EventsOfOk(s: Sys, sym: string, trades: seq<Trade>)
    requires forall i :: 0 <= i < |trades| ==> TradeOk(s, sym, trades[i])
    ensures forall i :: 0 <= i < |EventsOf(trades)| ==> EventOk(s, sym, EventsOf(trades)[i])
    ensures forall i :: 0 <= i < |EventsOf(trades)| ==> EventsOf(trades)[i].Fold? || EventsOf(trades)[i].Settle?
    decreases |trades|
  {
    if trades != [] {
      var t := trades[0];
      assert TradeOk(s, sym, t);
      EventsOfOk(s, sym, trades[1..]);
    }
  }

  /** The incoming order agrees with its record, rests only if that is a limit order's, and is not
      resting already. */
  predicate TakerOk(s: Sys, sym: string, ord: Order, book: Book) {
    && (ord.id.Edge? ==>
          && OwnedBy(s, sym, ord.id.num)
          && s.recs[ord.id.num].side == ord.side
          && (if s.recs[ord.id.num].typ.MarketType? then Absorbed(book, ord)
              else s.recs[ord.id.num].price == ord.price && !ord.isMarket)
          && (forall i :: 0 <= i < |book.bids| ==> book.bids[i].id != ord.id)
          && (forall i :: 0 <= i < |book.asks| ==> book.asks[i].id != ord.id))
  }

  lemma PartiesOk(s: Sys, sym: string, ord: Order, book: Book, resting: Order, t: Trade)
    requires TakerOk(s, sym, ord, book) && RestOk(s, sym, if ord.side.Buy? then Sell else Buy, resting)
    requires t.volume > 0 && t == MakeTrade(ord, resting, t.volume) && Crosses(ord, resting)
    ensures TradeOk(s, sym, t)
  {
    hide Absorbed;
  }

  lemma MatchTradesOk(s: Sys, sym: string, ord: Order, book: Book)
    requires TakerOk(s, sym, ord, book)
    requires QueueRestOk(s, sym, Buy, book.bids) && QueueRestOk(s, sym, Sell, book.asks)
    ensures var trades := AfterMatch(book, ord).1.trades;
            forall i :: 0 <= i < |trades| ==> TradeOk(s, sym, trades[i])
  {
    var queue := Opposite(book, ord.side);
    var trades := MatchQueue(ord, queue).trades;
    MatchConsumesFront(ord, queue);
    forall i | 0 <= i < |trades| ensures TradeOk(s, sym, trades[i]) {
      TradeAt(ord, queue, i);
      assert RestOk(s, sym, if ord.side.Buy? then Sell else Buy, queue[i]);
      assert trades[i].volume > 0;
      hide MatchQueue, Absorbed, BetterPrice;
      PartiesOk(s, sym, ord, book, queue[i], trades[i]);
    }
  }

  lemma MatchRestOk(s: Sys, sym: string, ord: Order, queue: seq<Order>, side: Side)
    requires QueueRestOk(s, sym, side, queue)
    ensures QueueRestOk(s, sym, side, MatchQueue(ord, queue).queue)
  {
    var rest := MatchQueue(ord, queue).queue;
    forall i | 0 <= i < |rest| ensures RestOk(s, sym, side, rest[i]) {
      var k := LeftoverAt(ord, queue, i);
      assert RestOk(s, sym, side, queue[k]);
    }
    forall i, j | 0 <= i < j < |rest| && rest[i].id.Edge? ensures rest[i].id != rest[j].id {
      var k := LeftoverAt(ord, queue, i);
      var l := LeftoverAt(ord, queue, j);
    }
  }

  lemma InsertRestOk(s: Sys, sym: string, queue: seq<Order>, ord: Order, side: Side)
    requires QueueRestOk(s, sym, side, queue) && RestOk(s, sym, side, ord)
    requires ord.id.Edge? ==> forall i :: 0 <= i < |queue| ==> queue[i].id != ord.id
    ensures QueueRestOk(s, sym, side, Insert(queue, ord, side))
  {
    var j := InsertSplits(queue, ord, side);
    var longer := Insert(queue, ord, side);
    forall i | 0 <= i < |longer|
      ensures longer[i] == if i < j then queue[i] else if i == j then ord else queue[i - 1]
    {}
  }

  predicate BookRestOk(s: Sys, sym: string, book: Book) {
    QueueRestOk(s, sym, Buy, book.bids) && QueueRestOk(s, sym, Sell, book.asks)
  }

  lemma AfterMatchRestOk(s: Sys, sym: string, ord: Order, book: Book)
    requires BookRestOk(s, sym, book)
    ensures BookRestOk(s, sym, AfterMatch(book, ord).0)
  {
    if ord.side.Buy? { MatchRestOk(s, sym, ord, book.asks, Sell); } else { MatchRestOk(s, sym, ord, book.bids, Buy); }
  }

  lemma LeftMeansLimit(s: Sys, sym: string, ord: Order, book: Book)
    requires BookOk(book, ord.arrival) && TakerOk(s, sym, ord, book)
    requires AfterMatch(book, ord).1.left > 0 && !ord.isMarket
    ensures LimitOwned(s, sym, ord.id)
  {
    MatchConsumesFront(ord, Opposite(book, ord.side));
    if ord.volume >= 0 {
      CallTakes(book, ord, ord.arrival);
    } else {
      assert MatchQueue(ord, Opposite(book, ord.side)).left == ord.volume;
    }
  }

  lemma AddLimitRestOk(s: Sys, sym: string, ord: Order, book: Book)
    requires BookOk(book, ord.arrival) && BookRestOk(s, sym, book) && TakerOk(s, sym, ord, book)
    ensures BookRestOk(s, sym, AddLimit(book, ord).0)
    ensures forall i :: 0 <= i < |AddLimit(book, ord).1| ==> TradeOk(s, sym, AddLimit(book, ord).1[i])
  {
    if ord.volume != 0 {
      MatchTradesOk(s, sym, ord, book);
      AfterMatchRestOk(s, sym, ord, book);
      AfterMatchOk(book, ord, ord.arrival);
      var (matched, m) := AfterMatch(book, ord);
      if m.left > 0 && !ord.isMarket {
        LeftMeansLimit(s, sym, ord, book);
        var rest := ord.(volume := m.left);
        var own := if ord.side.Buy? then matched.bids else matched.asks;
        EnqueueInserts(own, rest, ord.side);
        assert own == if ord.side.Buy? then book.bids else book.asks;
        InsertRestOk(s, sym, own, rest, ord.side);
      }
    }
  }

  lemma IocRestOk(s: Sys, sym: string, ord: Order, book: Book)
    requires BookRestOk(s, sym, book) && TakerOk(s, sym, ord, book)
    ensures BookRestOk(s, sym, ExecuteIoc(book, ord).0)
    ensures forall i :: 0 <= i < |ExecuteIoc(book, ord).1| ==> TradeOk(s, sym, ExecuteIoc(book, ord).1[i])
  {
    if ord.volume > 0 {
      MatchTradesOk(s, sym, ord, book);
      AfterMatchRestOk(s, sym, ord, book);
    }
  }

  // ----- the three trading steps ---------------------------------------------------------

  /** The book call: an order that may rest, or one that is immediate-or-cancel. */
  predicate Trades(book: Book, ord: Order, rests: bool, result: (Book, seq<Trade>)) {
    if rests then result == AddLimit(book, ord) else result == ExecuteIoc(book, ord) && !ord.id.Edge?
  }

  /** Books and pending hooks stay well formed; `s1` already counts the incoming order as live. */
  lemma TradingShape(s1: Sys, sym: string, ord: Order, rests: bool, result: (Book, seq<Trade>))
    requires BooksOk(s1) && EventsOk(s1) && LockFree(s1, sym)
    requires TakerOk(s1, sym, ord, s1.books[sym]) && Trades(s1.books[sym], ord, rests, result)
    requires rests ==> ord.arrival == s1.clock
    ensures BooksOk(AfterTrading(s1, sym, result)) && EventsOk(AfterTrading(s1, sym, result))
  {
    var book := s1.books[sym];
    var s2 := AfterTrading(s1, sym, result);
    if rests {
      AddLimitRestOk(s1, sym, ord, book);
      AddLimitKeepsBookOk(book, ord);
    } else {
      IocRestOk(s1, sym, ord, book);
      ExecuteIocKeepsBookOk(book, ord, s1.clock);
      BookOkLater(result.0, s1.clock, s1.clock + 1);
    }
    EventsOfOk(s1, sym, result.1);
    assert Extends(s1, s2);
    forall y | y in s2.books
      ensures BookOk(s2.books[y], s2.clock) && BookRestOk(s2, y, s2.books[y])
    {
      if y != sym {
        BookOkLater(s1.books[y], s1.clock, s1.clock + 1);
      }
      QueueExtends(s1, s2, y, Buy, s2.books[y].bids);
      QueueExtends(s1, s2, y, Sell, s2.books[y].asks);
    }
    forall y | y in s2.pend
      ensures PendShape(s2, s2.pend[y])
      ensures forall i :: 0 <= i < |s2.pend[y]| ==> EventOk(s2, y, s2.pend[y][i])
    {
      if y != sym { ShapeExtends(s1, s2, y, s1.pend[y]); }
      forall i | 0 <= i < |s2.pend[y]| ensures EventOk(s2, y, s2.pend[y][i]) {
        EventExtends(s1, s2, y, s2.pend[y][i]);
      }
    }
  }

  lemma BookOkLater(book: Book, clock: nat, clock': nat)
    requires BookOk(book, clock) && clock <= clock'
    ensures BookOk(book, clock')
  {
    QueueOkLater(book.bids, Buy, clock, clock');
    QueueOkLater(book.asks, Sell, clock, clock');
  }

  /** How one book call moves order m's quantities: what left its resting volume is now in the hooks. */
  lemma TradingQty(s: Sys, s2: Sys, sym: string, ord: Order, rests: bool, result: (Book, seq<Trade>), m: nat)
    requires BooksOk(s) && LockFree(s, sym) && Trades(s.books[sym], ord, rests, result)
    requires rests ==> ord.arrival == s.clock
    requires s2.books == s.books[sym := result.0] && s2.pend == s.pend[sym := EventsOf(result.1)]
    requires ord.id != Edge(m)
    ensures forall y :: y != sym ==> BookOf(s2, y) == BookOf(s, y) && Pend(s2, y) == Pend(s, y)
    ensures var events := Pend(s2, sym);
            && RestQty(BookOf(s2, sym), m) + FoldQty(events, m) == RestQty(BookOf(s, sym), m)
            && SettleQty(events, m) == FoldQty(events, m) && CancelQty(events, m) == 0 && UnlockQty(events, m) == 0
  {
    var book := s.books[sym];
    EventsOfQty(result.1, m);
    if rests {
      AddLimitQty(book, ord, m);
    } else {
      IocQty(book, ord, m);
    }
  }

  lemma TradingOtherRec(s: Sys, s2: Sys, sym: string, ord: Order, rests: bool, result: (Book, seq<Trade>), m: nat)
    requires BooksOk(s) && LockFree(s, sym) && Trades(s.books[sym], ord, rests, result)
    requires rests ==> ord.arrival == s.clock
    requires s2.books == s.books[sym := result.0] && s2.pend == s.pend[sym := EventsOf(result.1)]
    requires BooksOk(s2) && EventsOk(s2) && ord.id != Edge(m)
    requires m in s.recs && m in s.phase && m in s2.recs && m in s2.phase
    requires s2.recs[m] == s.recs[m] && s2.phase[m] == s.phase[m] && RecOk(s, m)
    ensures RecOk(s2, m)
    ensures Held(s2, m) == Held(s, m)
  {
    hide BooksOk, EventsOk, Trades, EventsOf, Resting;
    var y := s.recs[m].sym;
    TradingQty(s, s2, sym, ord, rests, result, m);
    BookNonNeg(s2, y, m);
    PendNonNeg(s2, y, m);
  }

  /** Other people's orders, under their own ids or to no effect, keep the invariant. */
  lemma OutsideKeeps(s: Sys, sym: string, ord: Order, rests: bool, result: (Book, seq<Trade>))
    requires Inv(s) && LockFree(s, sym) && Harmless(s, sym, ord) && Trades(s.books[sym], ord, rests, result)
    requires rests ==> ord.arrival == s.clock
    ensures Inv(AfterTrading(s, sym, result))
  {
    hide Inv, AfterTrading, TopsUp, Absorbed, AddLimit, ExecuteIoc;
    if ord.id.Edge? && NoEffect(s.books[sym], ord) {
      var other := ord.(id := Other(""));
      NothingHappens(s.books[sym], ord);
      NothingHappens(s.books[sym], other);
      CallKeeps(s, sym, other, rests, result);
    } else {
      CallKeeps(s, sym, ord, rests, result);
    }
  }

  lemma CallKeeps(s: Sys, sym: string, ord: Order, rests: bool, result: (Book, seq<Trade>))
    requires Inv(s) && LockFree(s, sym) && (ord.id.Edge? ==> TopsUp(s, sym, ord))
        && Trades(s.books[sym], ord, rests, result)
    requires rests ==> ord.arrival == s.clock
    ensures Inv(AfterTrading(s, sym, result))
  {
    hide Trades, BooksOk, EventsOk, RecOk, ClientsOk;
    var s2 := AfterTrading(s, sym, result);
    CallTakerOk(s, sym, ord);
    TradingShape(s, sym, ord, rests, result);
    forall m | m in s2.phase ensures PhaseOk(s2, m) { assert PhaseOk(s, m); }
    forall m | m in s2.recs ensures m in s2.phase && RecOk(s2, m) {
      CallRec(s, s2, sym, ord, rests, result, m);
    }
    forall a ensures SumTo(s2, s2.next, a) == SumTo(s, s.next, a) {
      forall m | 1 <= m <= s.next ensures Reservation(s2, m, a) == Reservation(s, m, a) {
        if m in s.recs { CallRec(s, s2, sym, ord, rests, result, m); }
      }
      SumSame(s, s2, s.next, a);
    }
    SameBalances(s, s2);
  }

  lemma CallTakerOk(s: Sys, sym: string, ord: Order)
    requires RecsOk(s) && BooksOk(s) && LockFree(s, sym) && (ord.id.Edge? ==> TopsUp(s, sym, ord))
    ensures TakerOk(s, sym, ord, s.books[sym])
  {
    if ord.id.Edge? {
      assert RecOk(s, ord.id.num);
      NowhereAt(s.books[sym], ord.id.num);
    }
  }

  lemma CallRec(s: Sys, s2: Sys, sym: string, ord: Order, rests: bool, result: (Book, seq<Trade>), m: nat)
    requires RecsOk(s) && BooksOk(s) && LockFree(s, sym) && (ord.id.Edge? ==> TopsUp(s, sym, ord))
    requires Trades(s.books[sym], ord, rests, result) && (rests ==> ord.arrival == s.clock)
    requires s2 == AfterTrading(s, sym, result) && BooksOk(s2) && EventsOk(s2) && m in s.recs
    ensures m in s.phase && RecOk(s2, m)
    ensures s.recs[m].typ.MarketType? || Held(s2, m) == Held(s, m)
  {
    assert m in s.phase && RecOk(s, m);
    hide Trades, BooksOk, EventsOk, RecOk, RecsOk, Held;
    if ord.id == Edge(m) {
      TopsUpRec(s, s2, sym, ord, rests, result);
    } else {
      TradingOtherRec(s, s2, sym, ord, rests, result, m);
    }
  }

  /** The fills of the borrowed order count against what the market order had left. */
  lemma TopsUpRec(s: Sys, s2: Sys, sym: string, ord: Order, rests: bool, result: (Book, seq<Trade>))
    requires RecsOk(s) && BooksOk(s) && LockFree(s, sym) && ord.id.Edge? && TopsUp(s, sym, ord)
    requires Trades(s.books[sym], ord, rests, result) && (rests ==> ord.arrival == s.clock)
    requires s2 == AfterTrading(s, sym, result)
    ensures RecOk(s2, ord.id.num)
  {
    var n := ord.id.num;
    var book := s.books[sym];
    assert RecOk(s, n) && result == AddLimit(book, ord) && BookOk(book, s.clock);
    hide BooksOk, RecsOk, BookOk, AddLimit, EventsOf, Resting, FoldQty, SettleQty, CancelQty, UnlockQty;
    EventsOfQty(result.1, n);
    if ord.volume > 0 {
      AddLimitQty(book, ord, n);
      TakerOnly(book, ord, n);
    } else {
      NothingHappens(book, ord);
    }
  }

  lemma SameBalances(s: Sys, s2: Sys)
    requires MoneyOk(s) && s2.bal == s.bal && s2.fills == s.fills && s2.overdrawn == s.overdrawn
    requires forall a :: SumTo(s2, s2.next, a) == SumTo(s, s.next, a)
    ensures MoneyOk(s2)
  {
    forall a {:trigger At(s2.bal, a)}
      ensures (s2.overdrawn || 0 <= At(s2.bal, a).free)
      ensures SumTo(s2, s2.next, a) <= At(s2.bal, a).locked <= SumTo(s2, s2.next, a) + Fills(s2, a)
    {
      FreeNonNeg(s, a);
    }
  }

  /** The order being placed: its whole quantity is now resting or in the hooks. */
  lemma PlacedRec(s: Sys, s1: Sys, s2: Sys, n: nat)
    requires RecsOk(s) && BooksOk(s) && EventsOk(s)
    requires n in s.phase && s.phase[n].Reserved? && n in s.recs && s.recs[n].id == n && LockFree(s, s.recs[n].sym)
    requires s1 == s.(phase := s.phase[n := Live])
    requires s2 == AfterTrading(s1, s.recs[n].sym, AddLimit(s.books[s.recs[n].sym], EdgeOrder(s.recs[n], s.clock)))
    ensures RecOk(s2, n)
    ensures s.recs[n].typ.LimitType? ==> Held(s2, n) == Held(s, n)
  {
    var rec := s.recs[n];
    var book := s.books[rec.sym];
    assert PhaseOk(s, n) && RecOk(s, n);
    NotOwned(s, n, rec.sym);
    hide BooksOk, EventsOk, RecsOk, AddLimit, EventsOf, Resting, FoldQty, SettleQty, CancelQty, UnlockQty;
    AddLimitQty(book, EdgeOrder(rec, s.clock), n);
    TakerOnly(book, EdgeOrder(rec, s.clock), n);
    EventsOfQty(AddLimit(book, EdgeOrder(rec, s.clock)).1, n);
  }

  lemma NotResting(s: Sys, sym: string, n: nat)
    requires BooksOk(s) && sym in s.books && !OwnedBy(s, sym, n)
    ensures var book := s.books[sym];
            && (forall i :: 0 <= i < |book.bids| ==> book.bids[i].id != Edge(n))
            && (forall i :: 0 <= i < |book.asks| ==> book.asks[i].id != Edge(n))
  {
    var book := s.books[sym];
    forall i | 0 <= i < |book.bids| ensures book.bids[i].id != Edge(n) { assert RestOk(s, sym, Buy, book.bids[i]); }
    forall i | 0 <= i < |book.asks| ensures book.asks[i].id != Edge(n) { assert RestOk(s, sym, Sell, book.asks[i]); }
  }

  lemma PlaceKeeps(s: Sys, n: nat)
    requires Inv(s) && n in s.phase && s.phase[n].Reserved? && n in s.recs && LockFree(s, s.recs[n].sym)
    ensures Inv(PlaceStep(s, n))
  {
    var s1 := s.(phase := s.phase[n := Live]);
    var s2 := PlaceStep(s, n);
    assert s.recs[n].id == n && AcksOk(s2);
    PlaceShape(s, s1, s2, n);
    hide BooksOk, EventsOk, RecsOk, RecOk, ClientsOk, MoneyOk, AcksOk, AddLimit, EventsOf, Held;
    PlacedRec(s, s1, s2, n);
    PlaceRecs(s, s2, n);
    PlaceMoney(s, s2, n);
  }

  lemma PlaceTakerOk(s: Sys, s1: Sys, n: nat)
    requires RecsOk(s) && BooksOk(s)
    requires n in s.phase && s.phase[n].Reserved? && n in s.recs && s.recs[n].id == n && LockFree(s, s.recs[n].sym)
    requires s1 == s.(phase := s.phase[n := Live])
    ensures TakerOk(s1, s.recs[n].sym, EdgeOrder(s.recs[n], s.clock), s.books[s.recs[n].sym])
    ensures Extends(s, s1)
  {
    assert RecOk(s, n);
    NotResting(s, s.recs[n].sym, n);
  }

  lemma PlaceShape(s: Sys, s1: Sys, s2: Sys, n: nat)
    requires RecsOk(s) && BooksOk(s) && EventsOk(s)
    requires n in s.phase && s.phase[n].Reserved? && n in s.recs && s.recs[n].id == n && LockFree(s, s.recs[n].sym)
    requires s1 == s.(phase := s.phase[n := Live])
    requires s2 == AfterTrading(s1, s.recs[n].sym, AddLimit(s.books[s.recs[n].sym], EdgeOrder(s.recs[n], s.clock)))
    ensures BooksOk(s2) && EventsOk(s2)
  {
    hide BooksOk, EventsOk, RecsOk, RecOk, AddLimit, Extends, TakerOk;
    var sym := s.recs[n].sym;
    PlaceTakerOk(s, s1, n);
    BooksExtend(s, s1);
    EventsExtend(s, s1);
    TradingShape(s1, sym, EdgeOrder(s.recs[n], s.clock), true, AddLimit(s.books[sym], EdgeOrder(s.recs[n], s.clock)));
  }

  lemma PlaceRecs(s: Sys, s2: Sys, n: nat)
    requires RecsOk(s) && BooksOk(s) && BooksOk(s2) && EventsOk(s2)
    requires n in s.phase && s.phase[n].Reserved? && n in s.recs && s.recs[n].id == n && LockFree(s, s.recs[n].sym)
    requires s2 == PlaceStep(s, n) && RecOk(s2, n)
    ensures RecsOk(s2)
  {
    hide BooksOk, EventsOk, RecOk, AddLimit;
    var ord := EdgeOrder(s.recs[n], s.clock);
    var result := AddLimit(s.books[s.recs[n].sym], ord);
    forall m | m in s2.phase ensures PhaseOk(s2, m) { assert PhaseOk(s, m); }
    forall m | m in s2.recs ensures m in s2.phase && RecOk(s2, m) {
      if m != n { TradingOtherRec(s, s2, s.recs[n].sym, ord, true, result, m); }
    }
  }

  lemma PlaceMoney(s: Sys, s2: Sys, n: nat)
    requires RecsOk(s) && BooksOk(s) && BooksOk(s2) && EventsOk(s2) && MoneyOk(s)
    requires n in s.phase && s.phase[n].Reserved? && n in s.recs && s.recs[n].id == n && LockFree(s, s.recs[n].sym)
    requires s2 == PlaceStep(s, n)
    requires s.recs[n].typ.LimitType? ==> Held(s2, n) == Held(s, n)
    ensures MoneyOk(s2)
  {
    hide BooksOk, EventsOk, RecOk, AddLimit, Held;
    var ord := EdgeOrder(s.recs[n], s.clock);
    var result := AddLimit(s.books[s.recs[n].sym], ord);
    forall a ensures SumTo(s2, s2.next, a) == SumTo(s, s.next, a) {
      forall m | 1 <= m <= s.next ensures Reservation(s2, m, a) == Reservation(s, m, a) {
        if m in s.recs && m != n { TradingOtherRec(s, s2, s.recs[n].sym, ord, true, result, m); }
      }
      SumSame(s, s2, s.next, a);
    }
    SameBalances(s, s2);
  }

  // ----- cancelling ----------------------------------------------------------------------

  lemma WithoutRestOk(s: Sys, sym: string, queue: seq<Order>, i: nat, side: Side)
    requires QueueRestOk(s, sym, side, queue) && i < |queue|
    ensures QueueRestOk(s, sym, side, Without(queue, i))
  {
    var rest := Without(queue, i);
    forall k | 0 <= k < |rest| ensures rest[k] == queue[if k < i then k else k + 1] {}
  }

  /** A cancel moves the order's resting volume into its two hooks. */
  lemma CancelQtyMoves(s: Sys, sym: string, id: OrderId, m: nat)
    requires BooksOk(s) && sym in s.books && Cancel(s.books[sym], id).1.Some?
    ensures var (book, removed) := Cancel(s.books[sym], id);
            var o := removed.value;
            && o.id == id
            && RestOk(s, sym, o.side, o)
            && RestQty(book, m) + Part(id, m, o.volume) == RestQty(s.books[sym], m)
            && (id == Edge(m) ==> RestQty(book, m) == 0)
            && 0 <= RestQty(book, m)
            && BookRestOk(s, sym, book)
  {
    var book := s.books[sym];
    var i, j := FindId(book.bids, id), FindId(book.asks, id);
    if i < |book.bids| {
      assert RestOk(s, sym, Buy, book.bids[i]);
      RestingWithout(book.bids, i, Edge(m));
      WithoutRestOk(s, sym, book.bids, i, Buy);
      if id == Edge(m) {
        RestingOne(book.bids, i);
        forall k | 0 <= k < |book.asks| ensures book.asks[k].id != id { assert RestOk(s, sym, Sell, book.asks[k]); }
        RestingAbsent(book.asks, id);
      }
    } else {
      assert RestOk(s, sym, Sell, book.asks[j]);
      RestingWithout(book.asks, j, Edge(m));
      WithoutRestOk(s, sym, book.asks, j, Sell);
      if id == Edge(m) {
        RestingOne(book.asks, j);
        RestingAbsent(book.bids, id);
      }
    }
    var left := Cancel(book, id).0;
    RestingNonNeg(left.bids, Edge(m));
    RestingNonNeg(left.asks, Edge(m));
  }

  lemma CancelEventsQty(o: Order, n: nat)
    ensures var events := [CancelFold(o), CancelUnlock(o)];
            && FoldQty(events, n) == 0 && SettleQty(events, n) == 0
            && CancelQty(events, n) == Part(o.id, n, o.volume) && UnlockQty(events, n) == Part(o.id, n, o.volume)
  {
    EventsConcat([CancelFold(o)], [CancelUnlock(o)], n);
    assert [CancelFold(o)] + [CancelUnlock(o)] == [CancelFold(o), CancelUnlock(o)];
    OneEvent(CancelFold(o), n);
    OneEvent(CancelUnlock(o), n);
  }

  lemma CancelRecOk(s: Sys, s2: Sys, sym: string, book: Book, o: Order, m: nat)
    requires RecsOk(s) && BooksOk(s) && LockFree(s, sym) && m in s.recs
    requires Cancel(s.books[sym], o.id) == (book, Some(o))
    requires s2 == s.(books := s.books[sym := book], pend := s.pend[sym := [CancelFold(o), CancelUnlock(o)]])
    ensures m in s.phase && RecOk(s2, m) && Held(s2, m) == Held(s, m)
  {
    assert RecOk(s, m);
    hide Cancel, BooksOk, RecsOk, BookRestOk, Resting, QtyOk, StatusOk;
    CancelQtyMoves(s, sym, o.id, m);
    CancelEventsQty(o, m);
    var rec := s.recs[m];
    if rec.sym == sym {
      assert Pend(s, sym) == [] && BookOf(s2, sym) == book && Pend(s2, sym) == [CancelFold(o), CancelUnlock(o)];
      CancelQtyOk(rec, s.phase[m], RestQty(s.books[sym], m), RestQty(book, m), Part(o.id, m, o.volume));
    } else {
      assert BookOf(s2, rec.sym) == BookOf(s, rec.sym) && Pend(s2, rec.sym) == Pend(s, rec.sym);
    }
  }

  lemma CancelQtyOk(rec: Rec, phase: Phase, rest: int, rest': int, cancelled: int)
    requires QtyOk(rec, phase, rest, 0, 0, 0, 0)
    requires rest' + cancelled == rest && 0 <= rest' && 0 <= cancelled
    requires cancelled > 0 ==> phase.Live? && rec.typ.LimitType? && rest' == 0
    ensures QtyOk(rec, phase, rest', 0, 0, cancelled, cancelled)
  {
  }

  lemma CancelKeeps(s: Sys, sym: string, id: OrderId)
    requires Inv(s) && LockFree(s, sym)
    ensures Inv(CancelStep(s, sym, id))
  {
    var (book, removed) := Cancel(s.books[sym], id);
    if removed.Some? {
      CancelQtyMoves(s, sym, id, 0);
      CancelFoundKeeps(s, CancelStep(s, sym, id), sym, book, removed.value);
    }
  }

  lemma CancelFoundKeeps(s: Sys, s2: Sys, sym: string, book: Book, o: Order)
    requires Inv(s) && LockFree(s, sym) && Cancel(s.books[sym], o.id) == (book, Some(o))
    requires s2 == s.(books := s.books[sym := book], pend := s.pend[sym := [CancelFold(o), CancelUnlock(o)]])
    ensures Inv(s2)
  {
    hide Cancel, BooksOk, EventsOk, RecOk, ClientsOk, Held;
    CancelShape(s, s2, sym, book, o);
    forall m | m in s2.phase ensures PhaseOk(s2, m) { assert PhaseOk(s, m); }
    forall m | m in s2.recs ensures m in s2.phase && RecOk(s2, m) { CancelRecOk(s, s2, sym, book, o, m); }
    forall a ensures SumTo(s2, s2.next, a) == SumTo(s, s.next, a) {
      forall m | 1 <= m <= s.next ensures Reservation(s2, m, a) == Reservation(s, m, a) {
        if m in s.recs { CancelRecOk(s, s2, sym, book, o, m); }
      }
      SumSame(s, s2, s.next, a);
    }
    SameBalances(s, s2);
  }

  lemma CancelShape(s: Sys, s2: Sys, sym: string, book: Book, o: Order)
    requires BooksOk(s) && EventsOk(s) && LockFree(s, sym) && Cancel(s.books[sym], o.id) == (book, Some(o))
    requires s2 == s.(books := s.books[sym := book], pend := s.pend[sym := [CancelFold(o), CancelUnlock(o)]])
    ensures BooksOk(s2) && EventsOk(s2)
  {
    hide Cancel, RestQty, QueueRestOk, BookOk, EventsOk;
    CancelQtyMoves(s, sym, o.id, 0);
    assert BookOk(s.books[sym], s.clock);
    CancelKeepsBookOk(s.books[sym], o.id, s.clock);
    assert Extends(s, s2);
    hide BooksOk, BookRestOk, Extends;
    CancelBooks(s, s2, sym, book);
    CancelEvents(s, s2, sym, o);
  }

  lemma CancelEvents(s: Sys, s2: Sys, sym: string, o: Order)
    requires EventsOk(s) && Extends(s, s2) && s2.pend == s.pend[sym := [CancelFold(o), CancelUnlock(o)]]
    requires s2.books.Keys == s.books.Keys && sym in s.books
    requires PendShape(s2, s2.pend[sym]) && EventOk(s2, sym, CancelFold(o)) && EventOk(s2, sym, CancelUnlock(o))
    ensures EventsOk(s2)
  {
    hide Extends, PendShape, EventOk;
    forall y | y in s2.pend
      ensures PendShape(s2, s2.pend[y])
      ensures forall i :: 0 <= i < |s2.pend[y]| ==> EventOk(s2, y, s2.pend[y][i])
    {
      if y != sym {
        ShapeExtends(s, s2, y, s.pend[y]);
        forall i | 0 <= i < |s2.pend[y]| ensures EventOk(s2, y, s2.pend[y][i]) {
          EventExtends(s, s2, y, s2.pend[y][i]);
        }
      }
    }
  }

  lemma CancelBooks(s: Sys, s2: Sys, sym: string, book: Book)
    requires BooksOk(s) && BookOk(book, s.clock) && BookRestOk(s, sym, book) && Extends(s, s2)
    requires s2.books == s.books[sym := book] && s2.clock == s.clock
    ensures BooksOk(s2)
  {
    hide BookOk, QueueRestOk;
    forall y | y in s2.books
      ensures BookOk(s2.books[y], s2.clock) && BookRestOk(s2, y, s2.books[y])
    {
      QueueExtends(s, s2, y, Buy, s2.books[y].bids);
      QueueExtends(s, s2, y, Sell, s2.books[y].asks);
    }
  }
}
