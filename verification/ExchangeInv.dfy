/**
 The invariant of the exchange machine and the quantity bookkeeping behind it: every unit of
 an order is executed, resting, or in a hook that has still to run.
 */
module ExchangeInv {
  import opened Orders
  import opened Matching
  import opened Registry
  import opened Ledger
  import opened Exchange

  // ----- what holds of every record ------------------------------------------------------

  predicate StatusOk(rec: Rec) {
    && rec.orig > 0 && 0 <= rec.executed <= rec.orig
    && (if rec.typ.LimitType? then rec.price > 0 else rec.price == 0)
    && (rec.status.Canceled? ==> rec.executed < rec.orig && rec.typ.LimitType?)
    && (!rec.status.Canceled? ==>
        (rec.status.New? <==> rec.executed == 0) && (rec.status.Filled? <==> rec.executed == rec.orig))
  }

  /** Resting, unfolded, unsettled, uncancelled and unreleased quantity against the record. */
  predicate QtyOk(rec: Rec, phase: Phase, rest: int, fold: int, settle: int, cancel: int, unlock: int) {
    if phase.Live? then
      if rec.typ.MarketType? then rest == 0 && cancel == 0 && unlock == 0 && rec.executed + fold <= rec.orig
      else if rec.status.Canceled? then
        rest == 0 && fold == 0 && settle == 0 && cancel == 0 && (unlock == 0 || unlock == rec.orig - rec.executed)
      else
        && rec.orig == rec.executed + fold + rest + cancel && unlock == cancel
        && (cancel > 0 ==> rest == 0 && fold == 0 && settle == 0)
    else
      && rec.executed == 0 && rec.status.New?
      && rest == 0 && fold == 0 && settle == 0 && cancel == 0 && unlock == 0
  }

  predicate RecOk(s: Sys, n: nat)
    requires n in s.recs && n in s.phase
  {
    var rec := s.recs[n];
    var events := Pend(s, rec.sym);
    && StatusOk(rec)
    && QtyOk(rec, s.phase[n], RestQty(BookOf(s, rec.sym), n),
             FoldQty(events, n), SettleQty(events, n), CancelQty(events, n), UnlockQty(events, n))
  }

  predicate PhaseOk(s: Sys, n: nat)
    requires n in s.phase
  {
    && 1 <= n <= s.next
    && (match s.phase[n]
        case Drawn => n !in s.recs
        case Refund(asset, amt) => n !in s.recs && amt >= 0
        case _ => n in s.recs)
  }

  predicate RecsOk(s: Sys) {
    && (forall n :: n in s.phase ==> PhaseOk(s, n))
    && (forall n :: n in s.recs ==> n in s.phase && RecOk(s, n))
  }

  // ----- what holds of every resting order and every pending hook ------------------------

  predicate LimitOwned(s: Sys, sym: string, id: OrderId) {
    id.Edge? ==> OwnedBy(s, sym, id.num) && s.recs[id.num].typ.LimitType?
  }

  predicate RestOk(s: Sys, sym: string, side: Side, o: Order) {
    && o.volume > 0 && o.side == side
    && LimitOwned(s, sym, o.id)
    && (o.id.Edge? ==> s.recs[o.id.num].side == side && s.recs[o.id.num].price == o.price)
  }

  predicate UniqueIds(queue: seq<Order>) {
    forall i, j :: 0 <= i < j < |queue| && queue[i].id.Edge? ==> queue[i].id != queue[j].id
  }

  predicate QueueRestOk(s: Sys, sym: string, side: Side, queue: seq<Order>) {
    UniqueIds(queue) && forall i :: 0 <= i < |queue| ==> RestOk(s, sym, side, queue[i])
  }

  predicate BooksOk(s: Sys) {
    forall sym :: sym in s.books ==>
      && BookOk(s.books[sym], s.clock)
      && QueueRestOk(s, sym, Buy, s.books[sym].bids) && QueueRestOk(s, sym, Sell, s.books[sym].asks)
  }

  /** A limit buyer pays at most its own price, a limit seller gets at least its own. */
  predicate BuyerOk(s: Sys, sym: string, id: OrderId, price: int) {
    id.Edge? ==>
      && OwnedBy(s, sym, id.num) && s.recs[id.num].side.Buy?
      && (s.recs[id.num].typ.LimitType? ==> price <= s.recs[id.num].price)
  }

  predicate SellerOk(s: Sys, sym: string, id: OrderId, price: int) {
    id.Edge? ==>
      && OwnedBy(s, sym, id.num) && s.recs[id.num].side.Sell?
      && (s.recs[id.num].typ.LimitType? ==> s.recs[id.num].price <= price)
  }

  predicate TradeOk(s: Sys, sym: string, t: Trade) {
    t.volume > 0 && BuyerOk(s, sym, t.buyId, t.price) && SellerOk(s, sym, t.sellId, t.price)
  }

  predicate EventOk(s: Sys, sym: string, e: Event) {
    match e
    case Fold(t) => TradeOk(s, sym, t)
    case Settle(n, isBuy, qty, price) =>
      && qty > 0
      && if isBuy then BuyerOk(s, sym, Edge(n), price) else SellerOk(s, sym, Edge(n), price)
    case CancelFold(o) => o.volume > 0 && LimitOwned(s, sym, o.id)
    case CancelUnlock(o) =>
      o.volume > 0 && LimitOwned(s, sym, o.id)
  }

  /** A cancel's two hooks run alone; the second only after the first. */
  predicate PendShape(s: Sys, events: seq<Event>) {
    || (forall i :: 0 <= i < |events| ==> events[i].Fold? || events[i].Settle?)
    || (|events| == 2 && events[0].CancelFold? && events[1] == CancelUnlock(events[0].ord))
    || (|events| == 1 && events[0].CancelUnlock?
        && (events[0].ord.id.Edge? ==> events[0].ord.id.num in s.recs && s.recs[events[0].ord.id.num].status.Canceled?))
  }

  predicate EventsOk(s: Sys) {
    forall sym :: sym in s.pend ==>
      && sym in s.books
      && PendShape(s, s.pend[sym])
      && forall i :: 0 <= i < |s.pend[sym]| ==> EventOk(s, sym, s.pend[sym][i])
  }

  predicate AcksOk(s: Sys) {
    forall n :: n in s.acks ==> n in s.recs && s.recs[n].status.Canceled?
  }

  // ----- solvency ------------------------------------------------------------------------

  /** Unless a market sell has overdrawn the account no balance is negative, and the locked balance of
      every asset is what the open limit orders (and refunds in flight) account for, plus at most one
      unit per limit-buy fill. */
  ghost predicate MoneyOk(s: Sys) {
    forall a {:trigger At(s.bal, a)} ::
      && (s.overdrawn || 0 <= At(s.bal, a).free)
      && SumTo(s, s.next, a) <= At(s.bal, a).locked <= SumTo(s, s.next, a) + Fills(s, a)
  }

  ghost predicate Inv(s: Sys) {
    RecsOk(s) && BooksOk(s) && EventsOk(s) && AcksOk(s) && ClientsOk(s.recs, s.clients) && MoneyOk(s)
  }

  // ----- sums ----------------------------------------------------------------------------

  /** With unique ids, the resting volume under an id is that of its one order. */
  lemma RestingOne(queue: seq<Order>, i: nat)
    requires i < |queue| && UniqueIds(queue) && queue[i].id.Edge?
    ensures Resting(queue, queue[i].id) == queue[i].volume
    ensures Resting(Without(queue, i), queue[i].id) == 0
    ensures forall id :: id != queue[i].id ==> Resting(Without(queue, i), id) == Resting(queue, id)
  {
    var id := queue[i].id;
    var front, back := queue[..i], queue[i + 1..];
    assert forall j :: 0 <= j < |front| ==> front[j].id != id;
    assert forall j :: 0 <= j < |back| ==> back[j] == queue[i + 1 + j] && back[j].id != id;
    hide Resting, Without, UniqueIds;
    RestingAbsent(front, id);
    RestingAbsent(back, id);
    RestingWithout(queue, i, id);
    forall id' | id' != id ensures Resting(Without(queue, i), id') == Resting(queue, id') {
      RestingWithout(queue, i, id');
    }
  }

  lemma {:induction false} EventsNonNeg(s: Sys, sym: string, events: seq<Event>, n: nat)
    requires forall i :: 0 <= i < |events| ==> EventOk(s, sym, events[i])
    ensures FoldQty(events, n) >= 0 && SettleQty(events, n) >= 0 && CancelQty(events, n) >= 0
        && UnlockQty(events, n) >= 0
    ensures !OwnedBy(s, sym, n) ==>
              FoldQty(events, n) == SettleQty(events, n) == CancelQty(events, n) == UnlockQty(events, n) == 0
    decreases |events|
  {
    if events != [] { EventsNonNeg(s, sym, events[1..], n); }
  }

  lemma PendNonNeg(s: Sys, sym: string, n: nat)
    requires EventsOk(s)
    ensures var events := Pend(s, sym);
            FoldQty(events, n) >= 0 && SettleQty(events, n) >= 0 && CancelQty(events, n) >= 0
                && UnlockQty(events, n) >= 0
  {
    EventsNonNeg(s, sym, Pend(s, sym), n);
  }

  lemma BookNonNeg(s: Sys, sym: string, n: nat)
    requires BooksOk(s)
    ensures RestQty(BookOf(s, sym), n) >= 0
    ensures !OwnedBy(s, sym, n) ==> RestQty(BookOf(s, sym), n) == 0
  {
    if sym in s.books {
      var book := s.books[sym];
      RestingNonNeg(book.bids, Edge(n));
      RestingNonNeg(book.asks, Edge(n));
      if !OwnedBy(s, sym, n) {
        RestingAbsent(book.bids, Edge(n));
        RestingAbsent(book.asks, Edge(n));
      }
    }
  }

  lemma HeldNonNeg(s: Sys, n: nat)
    requires RecsOk(s) && BooksOk(s) && EventsOk(s) && n in s.recs
    ensures 0 <= Held(s, n)
  {
    var sym := s.recs[n].sym;
    BookNonNeg(s, sym, n);
    EventsNonNeg(s, sym, Pend(s, sym), n);
    assert RecOk(s, n);
  }
}
