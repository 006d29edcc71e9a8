/**
 What other edges can do to this one. They take any float as a price and their client's own string
 as the engine id (httpserver/server.go, grpcserver/server.go), so an outsider can bid below zero
 and can borrow an id of this edge or of the seeder. The two lemmas named Exactly say of every such
 order, from every state, whether it keeps the machine's invariant; the others are runs in which one
 that does not keep it does its harm.
 */
module Outsiders {
  import opened Common
  import opened FixedPoint
  import opened Orders
  import opened Matching
  import opened Registry
  import opened Ledger
  import opened Exchange
  import opened ExchangeInv
  import opened ExchangeRuns
  import opened Server
  import opened Sessions
  import ExchangeTrading
  import Seeding
  import SeedingInv
  import SeedingBook
  import SeedingDust

  // ----- an order under an id of this edge ------------------------------------------------

  /** Every limit record is open exactly when its order rests, with what is not executed. */
  ghost predicate Agrees(d: Desk) {
    forall n :: n in d.recs && d.recs[n].typ.LimitType? ==> RestsAsRecorded(d, n)
  }

  /** From every state of the invariant, whatever its id, side, price, volume and kind, an order from
      outside keeps the invariant if and only if it is harmless: a condition on the state before it. */
  lemma BorrowedEdgeIdExactly(s: Sys, sym: string, ord: Order)
    requires Inv(s) && LockFree(s, sym) && ord.arrival == s.clock
    ensures Inv(AfterTrading(s, sym, AddLimit(s.books[sym], ord))) <==> Harmless(s, sym, ord)
  {
    hide Inv, AfterTrading, Harmless, AddLimit;
    var result := AddLimit(s.books[sym], ord);
    if Harmless(s, sym, ord) {
      ExchangeTrading.OutsideKeeps(s, sym, ord, true, result);
    } else if Inv(AfterTrading(s, sym, result)) {
      KeptIsHarmless(s, sym, ord, AfterTrading(s, sym, result));
      assert false;
    }
  }

  lemma KeptIsHarmless(s: Sys, sym: string, ord: Order, s': Sys)
    requires Inv(s) && LockFree(s, sym) && ord.arrival == s.clock
    requires s' == AfterTrading(s, sym, AddLimit(s.books[sym], ord)) && Inv(s')
    ensures Harmless(s, sym, ord)
  {
    if ord.id.Edge? && !NoEffect(s.books[sym], ord) {
      var book := s.books[sym];
      assert BookOk(book, ord.arrival);
      hide RecsOk, BooksOk, EventsOk, MoneyOk, AcksOk, ClientsOk, AddLimit, EventsOf, RecOk, BookOk, OwnedBy;
      CallTakes(book, ord, ord.arrival);
      if AddLimit(book, ord).1 != [] {
        TraderOwned(s, sym, ord, s');
      } else {
        RestingOwned(s, sym, ord, s');
      }
      OwnedQty(s, sym, ord, s');
    }
  }

  /** A trade in the hooks under an id of this edge is that of its live order, on its side. */
  lemma TraderOwned(s: Sys, sym: string, ord: Order, s': Sys)
    requires BooksOk(s) && LockFree(s, sym) && ord.id.Edge? && AddLimit(s.books[sym], ord).1 != []
    requires s' == AfterTrading(s, sym, AddLimit(s.books[sym], ord)) && EventsOk(s')
    ensures OwnedBy(s, sym, ord.id.num) && s.recs[ord.id.num].side == ord.side
  {
    var t := AddLimit(s.books[sym], ord).1[0];
    assert BookOk(s.books[sym], s.clock);
    TradeAt(ord, Opposite(s.books[sym], ord.side), 0);
    assert s'.pend[sym][0] == Fold(t);
    assert EventOk(s', sym, s'.pend[sym][0]);
  }

  /** An order in the queue under an id of this edge is that of its live order, on its side. */
  lemma RestingOwned(s: Sys, sym: string, ord: Order, s': Sys)
    requires BooksOk(s) && LockFree(s, sym) && ord.id.Edge? && ord.arrival == s.clock
        && AddLimit(s.books[sym], ord).1 == []
    requires !NoEffect(s.books[sym], ord)
    requires s' == AfterTrading(s, sym, AddLimit(s.books[sym], ord)) && BooksOk(s')
    ensures OwnedBy(s, sym, ord.id.num) && s.recs[ord.id.num].side == ord.side
  {
    var book := s.books[sym];
    assert BookOk(book, ord.arrival)
        && QueueRestOk(s', sym, ord.side, if ord.side.Buy? then s'.books[sym].bids else s'.books[sym].asks);
    CallTakes(book, ord, ord.arrival);
    CrossingNonNeg(ord, Opposite(book, ord.side));
    hide BooksOk, QueueRestOk, BookOk, AddLimit;
    JustQueued(book, ord);
    QueuedIsOwned(s', sym, ord);
  }

  lemma QueuedIsOwned(s: Sys, sym: string, ord: Order)
    requires BooksOk(s) && sym in s.books && ord.id.Edge? && ord in SeedingBook.OwnQueue(s.books[sym], ord.side)
    ensures OwnedBy(s, sym, ord.id.num) && s.recs[ord.id.num].side == ord.side
  {
    var queue := SeedingBook.OwnQueue(s.books[sym], ord.side);
    var i :| 0 <= i < |queue| && queue[i] == ord;
    assert RestOk(s, sym, ord.side, queue[i]);
  }

  /** The call brings volume in under the id, so only a market order's record can take it, and only if
      nothing of it rests. */
  lemma OwnedQty(s: Sys, sym: string, ord: Order, s': Sys)
    requires RecsOk(s) && BooksOk(s) && LockFree(s, sym) && ord.id.Edge? && ord.arrival == s.clock
        && !NoEffect(s.books[sym], ord)
    requires s' == AfterTrading(s, sym, AddLimit(s.books[sym], ord)) && RecsOk(s')
    requires OwnedBy(s, sym, ord.id.num) && s.recs[ord.id.num].side == ord.side
    ensures TopsUp(s, sym, ord)
  {
    var n, book := ord.id.num, s.books[sym];
    assert RecOk(s, n) && RecOk(s', n) && BookOk(book, ord.arrival);
    CrossingNonNeg(ord, Opposite(book, ord.side));
    hide RecsOk, BooksOk, BookOk, AddLimit, EventsOf, Resting, FoldQty, SettleQty, CancelQty, UnlockQty, Crossing;
    ExchangeTrading.AddLimitQty(book, ord, n);
    ExchangeTrading.EventsOfQty(AddLimit(book, ord).1, n);
    if s.recs[n].typ.MarketType? { ExchangeTrading.TakerOnly(book, ord, n); }
  }

  // ----- what goes wrong when it is not harmless ------------------------------------------

  /** A bid on an empty book trades nothing and rests. */
  lemma LoneBid(book: Book, ord: Order)
    requires book.bids == [] && book.asks == [] && ord.side.Buy? && !ord.isMarket && ord.volume > 0
    ensures AddLimit(book, ord) == (book.(bids := [ord]), [])
  {
    assert MatchQueue(ord, []) == Match([], [], ord.volume);
    EnqueueInserts([], ord, Buy);
    assert [] + [ord] == [ord] && ord.(volume := ord.volume) == ord;
  }

  lemma SecondBid(first: Order, ord: Order)
    requires ord.side.Buy? && !ord.isMarket && ord.volume > 0 && ord.price <= first.price
    ensures AddLimit(Book([first], [], None), ord) == (Book([first, ord], [], None), [])
  {
    assert MatchQueue(ord, []) == Match([], [], ord.volume);
    EnqueueInserts([first], ord, Buy);
    assert [first] + [ord] == [first, ord];
    assert ord.(volume := ord.volume) == ord;
  }

  /** A fresh server funded for one bid. */
  function Funded(sym: string, price: int, qty: int): Balances {
    map[QuoteOf(sym) := Holding(MulRaw(qty, price), 0)]
  }

  /** Its desk after that bid. */
  function OneBid(sym: string, price: int, qty: int, client: string): Desk {
    var req := Request(sym, Buy, LimitType, price, qty, client);
    Desk(1, map[1 := NewRec(1, req)], map[ClientFor(req, 1) := 1],
         map[QuoteOf(sym) := Holding(0, MulRaw(qty, price))], Book([EdgeOrder(NewRec(1, req), 0)], [], None), 1)
  }

  /** Its desk after somebody else's bid, and after both. */
  function OthersBid(sym: string, price: int, qty: int, first: Order): Desk {
    Desk(0, map[], map[], Funded(sym, price, qty), Book([first], [], None), 1)
  }

  function BehindBid(sym: string, price: int, qty: int, client: string, first: Order): Desk {
    var req := Request(sym, Buy, LimitType, price, qty, client);
    Desk(1, map[1 := NewRec(1, req)], map[ClientFor(req, 1) := 1],
         map[QuoteOf(sym) := Holding(0, MulRaw(qty, price))], Book([first, EdgeOrder(NewRec(1, req), 1)], [], None), 2)
  }

  lemma BidPlaced(sym: string, price: int, qty: int, client: string)
    requires qty > 0 && price > 0 && MulRaw(qty, price) > 0
    ensures var d := Desk(0, map[], map[], Funded(sym, price, qty), EMPTY_BOOK, 0);
            PlaceDesk(d, Request(sym, Buy, LimitType, price, qty, client), false).0 == OneBid(sym, price, qty, client)
  {
    var req := Request(sym, Buy, LimitType, price, qty, client);
    LoneBid(EMPTY_BOOK, EdgeOrder(NewRec(1, req), 0));
    hide MulRaw, QuoteOf, ClientFor, AddLimit;
    assert EventsOf([]) == [];
  }

  lemma BidPlacedBehind(sym: string, price: int, qty: int, client: string, first: Order)
    requires qty > 0 && price > 0 && MulRaw(qty, price) > 0 && price <= first.price
    ensures PlaceDesk(OthersBid(sym, price, qty, first), Request(sym, Buy, LimitType, price, qty, client), false).0
            == BehindBid(sym, price, qty, client, first)
  {
    var req := Request(sym, Buy, LimitType, price, qty, client);
    SecondBid(first, EdgeOrder(NewRec(1, req), 1));
    hide MulRaw, QuoteOf, ClientFor, AddLimit;
    assert EventsOf([]) == [];
  }

  lemma BidTaken(sym: string, price: int, qty: int, first: Order)
    requires first.side.Buy? && !first.isMarket && first.volume > 0
    ensures BookDesk(Desk(0, map[], map[], Funded(sym, price, qty), EMPTY_BOOK, 0), first) ==
        OthersBid(sym, price, qty, first)
  {
    LoneBid(EMPTY_BOOK, first);
    hide Funded, AddLimit;
    assert EventsOf([]) == [];
  }

  /** Two resting bids under one id are more than its record leaves open. */
  lemma TwoUnderOne(d: Desk, a: Order, b: Order)
    requires d.book == Book([a, b], [], None) && a.id == b.id == Edge(1) && a.volume > 0 && b.volume > 0
    requires 1 in d.recs && d.recs[1].typ.LimitType? && d.recs[1].orig - d.recs[1].executed <= a.volume
    ensures !Agrees(d)
  {
    assert [a, b][1..] == [b] && [b][1..] == [];
    assert Resting([b], Edge(1)) == b.volume + Resting([], Edge(1));
    assert Resting([a, b], Edge(1)) == a.volume + Resting([b], Edge(1));
    assert RestQty(d.book, 1) == a.volume + b.volume;
    assert !RestsAsRecorded(d, 1);
  }

  /** An input that breaks the agreement at once: one bid of this edge resting, and an outsider's bid
      under its id, "binance:1". */
  lemma BorrowedEdgeIdHappens(sym: string, price: int, qty: int, client: string)
      returns (init: Sys, steps: seq<Step>, s: Sys)
    requires qty > 0 && price > 0 && MulRaw(qty, price) > 0
    ensures var d := OneBid(sym, price, qty, client);
            && Reached(d, sym, init, steps, s) && Agrees(d)
            && !Agrees(BookDesk(d, Order(Edge(1), Buy, price, qty, false, 1)))
  {
    var req := Request(sym, Buy, LimitType, price, qty, client);
    init := Start(sym, Funded(sym, price, qty));
    hide MulRaw, QuoteOf, ClientFor, PlaceDesk, Agrees, Reached, AddLimit;
    FreshIsReached(sym, Funded(sym, price, qty));
    BidPlaced(sym, price, qty, client);
    var more;
    more, s := CallReaches(Desk(0, map[], map[], Funded(sym, price, qty), EMPTY_BOOK, 0), sym, init, [], init,
        PlaceOrder(req, false));
    steps := [] + more;
    var d := OneBid(sym, price, qty, client);
    ReachedIsSound(d, sym, init, steps, s);
    SoundAgrees(d, s.fills, s.overdrawn);
    var first, ord := EdgeOrder(NewRec(1, req), 0), Order(Edge(1), Buy, price, qty, false, 1);
    SecondBid(first, ord);
    assert EventsOf([]) == [];
    TwoUnderOne(BookDesk(d, ord), first, ord);
  }

  lemma SoundAgrees(d: Desk, dust: map<string, nat>, overdrawn: bool)
    requires Sound(d, dust, overdrawn)
    ensures Agrees(d)
  {
    hide RestsAsRecorded;
  }

  /** One that breaks it later: on a fresh server an outsider bids under "binance:1" and everything still
      agrees; the first order this edge places draws that number. */
  lemma FutureEdgeId(sym: string, price: int, qty: int, client: string)
    requires qty > 0 && price > 0 && MulRaw(qty, price) > 0
    ensures var d := Desk(0, map[], map[], Funded(sym, price, qty), EMPTY_BOOK, 0);
            var d1 := BookDesk(d, Order(Edge(1), Buy, price, qty, false, 0));
            var init := Start(sym, Funded(sym, price, qty));
            && Reached(d, sym, init, [], init) && Agrees(d1)
            && !Agrees(PlaceDesk(d1, Request(sym, Buy, LimitType, price, qty, client), false).0)
  {
    var first := Order(Edge(1), Buy, price, qty, false, 0);
    var req := Request(sym, Buy, LimitType, price, qty, client);
    hide MulRaw, QuoteOf, ClientFor, BookDesk, PlaceDesk, Agrees, Reached;
    FreshIsReached(sym, Funded(sym, price, qty));
    BidTaken(sym, price, qty, first);
    BidPlacedBehind(sym, price, qty, client, first);
    assert Agrees(OthersBid(sym, price, qty, first)) by { NoRecordsAgree(OthersBid(sym, price, qty, first)); }
    TwoUnderOne(BehindBid(sym, price, qty, client, first), first, EdgeOrder(NewRec(1, req), 1));
  }

  lemma NoRecordsAgree(d: Desk)
    requires d.recs == map[]
    ensures Agrees(d)
  {
  }

  /** One that trades: this edge's bid rests behind an outsider's, and a sell under its id, "binance:1",
      meets the outsider's. The record counts as filled, its bid still rests, what was locked for it
      stays locked with no order open, and the account is paid for a sale it never made. */
  lemma BorrowedTradeMints(sym: string, price: int, qty: int, client: string)
      returns (init: Sys, steps: seq<Step>, s: Sys)
    requires qty > 0 && price > 0 && MulRaw(qty, price) > 0 && BaseOf(sym) != QuoteOf(sym)
    ensures var d := BehindBid(sym, price, qty, client, Order(Other("maker"), Buy, price, qty, false, 0));
            var d' := BookDesk(d, Order(Edge(1), Sell, price, qty, false, 2));
            && Reached(d, sym, init, steps, s)
            && At(d.bal, QuoteOf(sym)) == Holding(0, MulRaw(qty, price))
            && At(d'.bal, QuoteOf(sym)) == Holding(MulRaw(qty, price), MulRaw(qty, price))
            && OpenReleases(d'.recs, d'.next, QuoteOf(sym)) == 0
            && !Sound(d', map[], false)
  {
    PaidForNothing(sym, price, qty, client);
    hide MulRaw, BaseOf, QuoteOf, BookDesk, Reached, Sound, OpenReleases;
    init, steps, s := BothBid(sym, price, qty, client);
  }

  /** Somebody bids, then this edge at the same price. */
  lemma BothBid(sym: string, price: int, qty: int, client: string) returns (init: Sys, steps: seq<Step>, s: Sys)
    requires qty > 0 && price > 0 && MulRaw(qty, price) > 0
    ensures var bid := Order(Other("maker"), Buy, price, qty, false, 0);
            Reached(BehindBid(sym, price, qty, client, bid), sym, init, steps, s)
  {
    var bid := Order(Other("maker"), Buy, price, qty, false, 0);
    var req := Request(sym, Buy, LimitType, price, qty, client);
    init := Start(sym, Funded(sym, price, qty));
    var d0 := Desk(0, map[], map[], Funded(sym, price, qty), EMPTY_BOOK, 0);
    BidTaken(sym, price, qty, bid);
    FreshIsReached(sym, Funded(sym, price, qty));
    hide MulRaw, QuoteOf, ClientFor, BookDesk, PlaceDesk, Reached, Funded, OthersBid, BehindBid;
    assert CallDesk(d0, OthersOrder(bid)) == OthersBid(sym, price, qty, bid);
    BidPlacedBehind(sym, price, qty, client, bid);
    var first, s1, second;
    first, s1 := CallReaches(d0, sym, init, [], init, OthersOrder(bid));
    second, s := CallReaches(OthersBid(sym, price, qty, bid), sym, init, [] + first, s1, PlaceOrder(req, false));
    steps := [] + first + second;
  }

  lemma PaidForNothing(sym: string, price: int, qty: int, client: string)
    requires qty > 0 && price > 0 && MulRaw(qty, price) > 0 && BaseOf(sym) != QuoteOf(sym)
    ensures var d := BehindBid(sym, price, qty, client, Order(Other("maker"), Buy, price, qty, false, 0));
            var d' := BookDesk(d, Order(Edge(1), Sell, price, qty, false, 2));
            && At(d'.bal, QuoteOf(sym)) == Holding(MulRaw(qty, price), MulRaw(qty, price))
            && OpenReleases(d'.recs, d'.next, QuoteOf(sym)) == 0 && !Sound(d', map[], false)
  {
    var bid := Order(Other("maker"), Buy, price, qty, false, 0);
    var ord := Order(Edge(1), Sell, price, qty, false, 2);
    var d := BehindBid(sym, price, qty, client, bid);
    var d' := BookDesk(d, ord);
    MakerHit(d, ord, bid);
    UnreservedSell(BaseOf(sym), QuoteOf(sym), qty, price);
    hide MulRaw, BaseOf, QuoteOf, ClientFor, BookDesk, SettleFill;
    assert d'.recs[1].status.Filled?;
    assert OpenReleases(d'.recs, 1, QuoteOf(sym)) == OpenReleases(d'.recs, 0, QuoteOf(sym)) == 0;
    NotCovered(d', QuoteOf(sym));
  }

  lemma NotCovered(d: Desk, asset: string)
    requires At(d.bal, asset).locked > OpenReleases(d.recs, d.next, asset)
    ensures !Sound(d, map[], false)
  {
    hide BookOk, RestsAsRecorded;
  }

  /** The sell takes the bid at the front whole; its two hooks find the record of the bid. */
  lemma MakerHit(d: Desk, ord: Order, bid: Order)
    requires ord.id == Edge(1) && ord.side.Sell? && !bid.id.Edge? && bid.side.Buy? && Crosses(ord, bid)
    requires 0 < ord.volume == bid.volume && |d.book.bids| > 0 && d.book.bids[0] == bid && 1 in d.recs
    ensures var rec := ApplyFill(d.recs[1], bid.volume, bid.price);
            var d' := BookDesk(d, ord);
            && d'.recs == d.recs[1 := rec] && d'.next == d.next
            && d'.bal == SettleFill(d.bal, false, BaseOf(rec.sym), QuoteOf(rec.sym), bid.volume, bid.price, rec.price)
  {
    var t := Trade(bid.id, Edge(1), bid.price, bid.volume, Sell);
    SellMeetsBid(ord, bid, d.book.bids[1..], d.book.asks, d.book.lastTrade);
    assert d.book.bids == [bid] + d.book.bids[1..];
    var recs', bought, sold := TradeHooks(d.recs, d.bal, t);
    hide ApplyFill, SettleFill, BaseOf, QuoteOf, AddLimit, HookAll, EventsOf;
  }

  /** Settled as a limit sell with no base locked or free: nothing is given up, the proceeds come in. */
  lemma UnreservedSell(base: string, quote: string, qty: int, price: int)
    requires qty > 0 && price > 0 && MulRaw(qty, price) > 0 && base != quote
    ensures var l := MulRaw(qty, price);
            At(SettleFill(map[quote := Holding(0, l)], false, base, quote, qty, price, price), quote) == Holding(l, l)
  {
    hide MulRaw;
  }

  // ----- an order under an id of the seeder -------------------------------------------------

  /** From every state of the seeder's invariant, whatever its id, side, price, volume and kind, an order
      from outside keeps the invariant if and only if it is harmless: a condition on the state before it. */
  lemma BorrowedSynthIdExactly(s: Seeding.Sys, ord: Order)
    requires Seeding.Inv(s) && s.pend == [] && ord.arrival == s.clock
    ensures Seeding.Inv(Seeding.EngineLimit(s, ord)) <==> Seeding.Harmless(s, ord)
  {
    hide Seeding.Inv, Seeding.EngineLimit, Seeding.Harmless;
    if Seeding.Harmless(s, ord) {
      SeedingInv.OutsideLimitKeeps(s, ord);
    } else if Seeding.Inv(Seeding.EngineLimit(s, ord)) {
      AccountedIsHarmless(s, ord);
      assert false;
    }
  }

  lemma AccountedIsHarmless(s: Seeding.Sys, ord: Order)
    requires Seeding.Inv(s) && s.pend == [] && ord.arrival == s.clock && Seeding.Inv(Seeding.EngineLimit(s, ord))
    ensures Seeding.Harmless(s, ord)
  {
    if ord.id.Synth? && !NoEffect(s.book, ord) {
      NotOwed(s, ord);
      MustBeMinted(s, ord);
      if !Absorbed(s.book, ord) { LeftoverRests(s.book, ord); }
    }
  }

  /** Record and book part at once if and only if the id is owed something or part of the order rests;
      an order bought out under an id still to be minted does its harm later. */
  lemma BorrowedSynthIdAtOnce(s: Seeding.Sys, ord: Order)
    requires Seeding.Inv(s) && s.pend == [] && ord.arrival == s.clock && ord.id.Synth? && !NoEffect(s.book, ord)
    ensures Seeding.Accounted(Seeding.EngineLimit(s, ord)) <==>
            !(Seeding.IsCurrent(Seeding.TrackedNow(s), ord.id) && ord.id !in s.revoked) && Absorbed(s.book, ord)
  {
    var s' := Seeding.EngineLimit(s, ord);
    hide Seeding.Inv, Seeding.EngineLimit, Seeding.Accounted, Absorbed, NoEffect, Seeding.IsCurrent, Seeding.TrackedNow;
    if Seeding.Accounted(s') {
      NotOwed(s, ord);
      if !Absorbed(s.book, ord) { UnabsorbedRests(s, ord); }
    } else if !(Seeding.IsCurrent(Seeding.TrackedNow(s), ord.id) && ord.id !in s.revoked) && Absorbed(s.book, ord) {
      StaysAccounted(s, ord);
      assert false;
    }
  }

  lemma UnabsorbedRests(s: Seeding.Sys, ord: Order)
    requires Seeding.Inv(s) && ord.arrival == s.clock && !NoEffect(s.book, ord) && !Absorbed(s.book, ord)
    ensures Seeding.InBook(Seeding.EngineLimit(s, ord).book, ord.id) > 0
  {
    LeftoverRests(s.book, ord);
    hide AddLimit;
  }

  lemma StaysAccounted(s: Seeding.Sys, ord: Order)
    requires Seeding.Inv(s) && s.pend == [] && ord.arrival == s.clock && ord.id.Synth? && !NoEffect(s.book, ord)
    requires !(Seeding.IsCurrent(Seeding.TrackedNow(s), ord.id) && ord.id !in s.revoked) && Absorbed(s.book, ord)
    ensures Seeding.Accounted(Seeding.EngineLimit(s, ord))
  {
    var s' := Seeding.EngineLimit(s, ord);
    SeedingInv.OwnNothing(s, ord);
    forall id: OrderId | id.Synth? ensures Seeding.InBook(s'.book, id) == Seeding.Due(s', id) {
      AccountAfter(s, ord, id);
      assert Seeding.InBook(s.book, id) == Seeding.Due(s, id);
      hide Seeding.Inv, AddLimit, Seeding.InBook, Seeding.Unfolded, Seeding.TrackedNow, Absorbed, NoEffect, Brought;
    }
  }

  /** Both sides of the account after the engine call. */
  lemma AccountAfter(s: Seeding.Sys, ord: Order, id: OrderId)
    requires Seeding.Inv(s) && s.pend == [] && ord.arrival == s.clock
    ensures var s' := Seeding.EngineLimit(s, ord);
            && Seeding.InBook(s'.book, id) + Seeding.Filled(s'.pend, id)
               == Seeding.InBook(s.book, id) + (if id == ord.id then Brought(s.book, ord) else 0)
            && Seeding.InBook(s'.book, id) >= 0 && Seeding.Filled(s'.pend, id) >= 0
            && Seeding.TrackedNow(s') == Seeding.TrackedNow(s)
            && Seeding.Unfolded(s', id) == Seeding.Unfolded(s, id) + Seeding.Filled(s'.pend, id)
  {
    var s' := Seeding.EngineLimit(s, ord);
    var nonce := if ord.id.Synth? && ord.id.generation > s.nonce then ord.id.generation else s.nonce;
    CallAccount(s.book, ord, id);
    AddLimitKeepsBookOk(s.book, ord);
    SeedingInv.AddLimitTradesOk(s, ord, nonce);
    SeedingInv.FilledNonNegative(s'.pend, nonce, id);
    hide Seeding.Inv, AddLimit, Seeding.InBook, Sorted;
    SeedingBook.InBookZero(s'.book, id);
  }

  lemma CallAccount(book: Book, ord: Order, id: OrderId)
    requires BookOk(book, ord.arrival)
    ensures var (book', trades) := AddLimit(book, ord);
            Seeding.InBook(book', id) + Seeding.Filled(trades, id) == Seeding.InBook(book, id)
                + (if id == ord.id then Brought(book, ord) else 0)
  {
    if ord.volume <= 0 {
      NothingHappens(book, ord);
      SeedingBook.NothingFilled(id);
    } else if ord.isMarket {
      CallTakes(book, ord, ord.arrival);
      SeedingBook.AfterMatchAccount(book, ord, id);
    } else {
      SeedingBook.AddLimitAccount(book, ord, ord.arrival, id);
    }
  }

  /** Whatever comes in under an id that the book owes something is too much. */
  lemma NotOwed(s: Seeding.Sys, ord: Order)
    requires Seeding.Inv(s) && s.pend == [] && ord.arrival == s.clock && Seeding.Accounted(Seeding.EngineLimit(s, ord))
    requires ord.id.Synth? && !NoEffect(s.book, ord)
    ensures !(Seeding.IsCurrent(Seeding.TrackedNow(s), ord.id) && ord.id !in s.revoked)
    ensures Seeding.InBook(Seeding.EngineLimit(s, ord).book, ord.id) == 0
  {
    var s' := Seeding.EngineLimit(s, ord);
    AccountAfter(s, ord, ord.id);
    BroughtPositive(s.book, ord);
    assert Seeding.InBook(s.book, ord.id) == Seeding.Due(s, ord.id);
    assert Seeding.InBook(s'.book, ord.id) == Seeding.Due(s', ord.id);
    hide Seeding.Inv, AddLimit, Seeding.InBook, Seeding.Unfolded, NoEffect, Brought;
  }

  /** What came in has traded, and the hooks are owed fills of minted ids only. */
  lemma MustBeMinted(s: Seeding.Sys, ord: Order)
    requires Seeding.Inv(s) && s.pend == [] && ord.arrival == s.clock && Seeding.Inv(Seeding.EngineLimit(s, ord))
    requires ord.id.Synth? && !NoEffect(s.book, ord)
    requires Seeding.InBook(Seeding.EngineLimit(s, ord).book, ord.id) == 0
    ensures Seeding.Minted(ord.id, s.nonce)
  {
    var s' := Seeding.EngineLimit(s, ord);
    AccountAfter(s, ord, ord.id);
    BroughtPositive(s.book, ord);
    SeedingBook.InBookZero(s.book, ord.id);
    assert Seeding.TradesOk(s'.pend, s.nonce);
    hide Seeding.Inv, AddLimit, Seeding.InBook, NoEffect, Brought;
    if !Seeding.Minted(ord.id, s.nonce) { UnmintedUnfilled(s'.pend, s.nonce, ord.id); }
  }

  lemma {:induction false} UnmintedUnfilled(trades: seq<Trade>, nonce: nat, id: OrderId)
    requires Seeding.TradesOk(trades, nonce) && !Seeding.Minted(id, nonce)
    ensures Seeding.Filled(trades, id) == 0
    decreases |trades|
  {
    if trades != [] { UnmintedUnfilled(trades[1..], nonce, id); }
  }

  lemma LeftoverRests(book: Book, ord: Order)
    requires BookOk(book, ord.arrival) && ord.volume > 0 && !Absorbed(book, ord)
    ensures Seeding.InBook(AddLimit(book, ord).0, ord.id) > 0
  {
    CallTakes(book, ord, ord.arrival);
    AfterMatchOk(book, ord, ord.arrival);
    var (matched, m) := AfterMatch(book, ord);
    SeedingBook.EnqueueAccount(matched, ord.(volume := m.left), ord.arrival, ord.id);
    SeedingBook.InBookZero(matched, ord.id);
  }

  /** An order that breaks it: anything resting under an id the seeder never minted is an orphan. */
  lemma BorrowedSynthIdOrphans(s: Seeding.Sys, ord: Order)
    requires Seeding.Inv(s) && s.pend == [] && ord.arrival == s.clock
    requires ord.id.Synth? && ord.id.generation > s.nonce && ord.volume > 0 && !Absorbed(s.book, ord)
    ensures var s' := Seeding.EngineLimit(s, ord);
            exists o :: (o in s'.book.bids || o in s'.book.asks) && o.id == ord.id
                && !Seeding.IsCurrent(Seeding.TrackedNow(s'), o.id)
  {
    var s' := Seeding.EngineLimit(s, ord);
    AccountAfter(s, ord, ord.id);
    LeftoverRests(s.book, ord);
    AddLimitKeepsBookOk(s.book, ord);
    SeedingBook.InBookZero(s'.book, ord.id);
  }

  /** A pass about to place its first bid, at a level where somebody offers `v`. */
  function AboutToBid(price: int, volume: int, v: int): Seeding.Sys {
    SeedingDust.Begun(Book([], [Order(Other("maker"), Sell, price, v, false, 0)], None), 1,
                      Seeding.Placing(Seeding.Job(SeedingDust.OnePlan(Seeding.Level(Buy, price), volume),
                          Seeding.CONVERGE_EPS, {}, {Seeding.Level(Buy, price)})))
  }

  /** The book once that offer has been bought under `id`, before the hooks. */
  function Bought(price: int, volume: int, v: int, id: OrderId): Seeding.Sys {
    AboutToBid(price, volume, v).(
      book := Book([], [], Some(Trade(id, Other("maker"), price, v, Buy))), clock := 2,
          pend := [Trade(id, Other("maker"), price, v, Buy)])
  }

  /** One that does harm later: an outsider buys the offer under the id the seeder mints next. Nothing
      rests under it and the book still holds what the record says, after the hooks too; but the fill is
      buffered under that id, and the placement that mints it is short by it. */
  lemma FutureSynthId(price: int, volume: int, v: int) returns (init: Seeding.Sys, steps: seq<Seeding.Step>)
    requires volume > 0 && v > 0
    ensures var id := Synth(Buy, price, 1);
            var s := AboutToBid(price, volume, v);
            var s1 := Seeding.EngineLimit(s, Order(id, Buy, price, v, false, 1));
            var s2 := Seeding.HookStep(s1);
            var k := Seeding.Level(Buy, price);
            && SeedingInv.Init(init) && SeedingInv.Run(init, steps, s)
            && Seeding.Accounted(s1) && s1.pend != [] && Seeding.Accounted(s2)
            && Seeding.Enabled(s2, Seeding.PlaceLevel(k))
            && !Seeding.Accounted(Seeding.PlaceStep(s2, k))
  {
    var id, k := Synth(Buy, price, 1), Seeding.Level(Buy, price);
    var ask := Order(Other("maker"), Sell, price, v, false, 0);
    init := SeedingDust.Begun(Book([], [ask], None), 1, Seeding.Idle);
    steps := SeedingDust.DecideOne(k, volume);
    SeedingDust.DecidedOne(init.book, 1, k, volume);
    OfferBought(price, volume, v, id);
    hide SeedingInv.Run;
    EmptyAccounted(Bought(price, volume, v, id));
    FilledBefore(price, volume, v);
  }

  lemma OfferBought(price: int, volume: int, v: int, id: OrderId)
    requires v > 0
    ensures Seeding.EngineLimit(AboutToBid(price, volume, v), Order(id, Buy, price, v, false, 1)) ==
        Bought(price, volume, v, id)
  {
    var ord, ask := Order(id, Buy, price, v, false, 1), Order(Other("maker"), Sell, price, v, false, 0);
    var trade := StepPastFront(ord, [ask], v);
    assert ord.(volume := v) == ord && [ask][1..] == [];
    assert MatchQueue(ord.(volume := 0), []) == Match([], [], 0);
    assert [trade] + [] == [trade];
  }

  /** With nothing resting and nothing recorded, nothing is due. */
  lemma EmptyAccounted(s: Seeding.Sys)
    requires s.book.bids == [] && s.book.asks == [] && s.placed == map[] && s.pc.Placing?
    ensures Seeding.Accounted(s)
  {
  }

  /** The bid rests whole, but the fill buffered before it is counted against it. */
  lemma FilledBefore(price: int, volume: int, v: int)
    requires volume > 0 && v > 0
    ensures var s2 := Seeding.HookStep(Bought(price, volume, v, Synth(Buy, price, 1)));
            && Seeding.Accounted(s2) && Seeding.Enabled(s2, Seeding.PlaceLevel(Seeding.Level(Buy, price)))
            && !Seeding.Accounted(Seeding.PlaceStep(s2, Seeding.Level(Buy, price)))
  {
    var id, k := Synth(Buy, price, 1), Seeding.Level(Buy, price);
    var s2 := Seeding.HookStep(Bought(price, volume, v, id));
    EmptyAccounted(s2);
    assert s2.fills == map[id := v] && s2.pend == [];
    var ord := Order(id, Buy, price, volume, false, 2);
    var s3 := Seeding.PlaceStep(s2, k);
    LoneBid(s2.book, ord);
    assert Seeding.InBook(s3.book, id) == volume by { assert [ord][1..] == []; }
    assert s3.pend == [] && Seeding.Unfolded(s3, id) == v;
    assert Seeding.Due(s3, id) == volume - v;
  }

  // ----- a bid below zero ------------------------------------------------------------------

  /** The desk of a fresh server with `qty` of base, after an outsider's bid. */
  function BidBelowZero(sym: string, price: int, qty: int): Desk {
    Desk(0, map[], map[], map[BaseOf(sym) := Holding(qty, 0)],
        Book([Order(Other("client"), Buy, price, qty, false, 0)], [], None), 1)
  }

  /** A market sell that meets a bid far enough below zero overdraws the account, in two calls from a
      fresh server: the run is one of the machine's. */
  lemma NegativeBidOverdraws(sym: string, price: int, qty: int) returns (init: Sys, steps: seq<Step>, s: Sys)
    requires 0 < qty && MulRaw(qty, price) < 0
    ensures Init(init) && Run(init, steps, s) && At(s.bal, QuoteOf(sym)).free == MulRaw(qty, price) < 0
  {
    var bal: Balances := map[BaseOf(sym) := Holding(qty, 0)];
    var bid := Order(Other("client"), Buy, price, qty, false, 0);
    var d0 := Desk(0, map[], map[], bal, EMPTY_BOOK, 0);
    var sell := Request(sym, Sell, MarketType, 0, qty, "");
    init := Start(sym, bal);
    FreshIsReached(sym, bal);
    LoneBid(EMPTY_BOOK, bid);
    assert EventsOf([]) == [] && HookAll(d0.recs, d0.bal, []) == (d0.recs, d0.bal);
    assert CallDesk(d0, OthersOrder(bid)) == BidBelowZero(sym, price, qty);
    hide MulRaw, BaseOf, QuoteOf, ClientFor, CallDesk, AddLimit, Reached, BookDesk, PlaceDesk;
    var first, s1, second;
    first, s1 := CallReaches(d0, sym, init, [], init, OthersOrder(bid));
    second, s := CallReaches(BidBelowZero(sym, price, qty), sym, init, [] + first, s1, PlaceOrder(sell, false));
    steps := [] + first + second;
    SoldBelow(sym, price, qty);
    ReachedMeans(CallDesk(BidBelowZero(sym, price, qty), PlaceOrder(sell, false)), sym, init, steps, s);
  }

  lemma ReachedMeans(d: Desk, sym: string, init: Sys, steps: seq<Step>, s: Sys)
    requires Reached(d, sym, init, steps, s)
    ensures Init(init) && Run(init, steps, s) && s.bal == d.bal
  {
  }

  lemma SoldBelow(sym: string, price: int, qty: int)
    requires 0 < qty
    ensures var d := CallDesk(BidBelowZero(sym, price, qty),
        PlaceOrder(Request(sym, Sell, MarketType, 0, qty, ""), false));
            At(d.bal, QuoteOf(sym)).free == MulRaw(qty, price)
  {
    var req := Request(sym, Sell, MarketType, 0, qty, "");
    var bid := Order(Other("client"), Buy, price, qty, false, 0);
    var ord := EdgeOrder(NewRec(1, req), 1);
    var t := Trade(Other("client"), Edge(1), price, qty, Sell);
    SellMeetsBid(ord, bid, [], [], None);
    assert [bid] + [] == [bid];
    var recs: Recs := map[1 := NewRec(1, req)];
    var bal: Balances := map[BaseOf(sym) := Holding(qty, 0)];
    var recs', bought, sold := TradeHooks(recs, bal, t);
    assert recs'[1].sym == sym && recs'[1].price == 0 by { hide MulRaw; }
    hide MulRaw, BaseOf, QuoteOf, ClientFor, AddLimit, HookAll, EventsOf, FoldTrade;
  }

  lemma SellMeetsBid(ord: Order, bid: Order, behind: seq<Order>, asks: seq<Order>, last: Option<Trade>)
    requires ord.side.Sell? && bid.side.Buy? && 0 < ord.volume == bid.volume && Crosses(ord, bid)
    ensures AddLimit(Book([bid] + behind, asks, last), ord).1 == [Trade(bid.id, ord.id, bid.price, bid.volume, Sell)]
  {
    var queue := [bid] + behind;
    assert queue[1..] == behind;
    var trade := StepPastFront(ord, queue, ord.volume);
    assert ord.(volume := ord.volume) == ord;
    assert MatchQueue(ord.(volume := 0), behind).trades == [];
  }
}
