/** What the book's operations do to one order id: the ledger of resting and traded volume. */
module SeedingBook {
  import opened Orders
  import opened Matching
  import opened Seeding

  lemma {:induction false} FilledSplit(incoming: Order, queue: seq<Order>, id: OrderId)
    requires Positive(queue)
    ensures var trades := MatchQueue(incoming, queue).trades;
            Filled(trades, id) == MakerVolume(trades, id) + (if id == incoming.id then Volume(trades) else 0)
  {
    MatchConsumesFront(incoming, queue);
    TakerOfAll(MatchQueue(incoming, queue).trades, incoming, queue, id);
  }

  lemma {:induction false} TakerOfAll(trades: seq<Trade>, incoming: Order, queue: seq<Order>, id: OrderId)
    requires |trades| <= |queue|
    requires forall i :: 0 <= i < |trades| ==> trades[i] == MakeTrade(incoming, queue[i], trades[i].volume)
    ensures Filled(trades, id) == MakerVolume(trades, id) + (if id == incoming.id then Volume(trades) else 0)
  {
    if trades != [] { TakerOfAll(trades[1..], incoming, queue[1..], id); }
  }

  /** No order, no volume; and in a queue of positive orders, no volume, no order. */
  lemma RestingZero(queue: seq<Order>, id: OrderId)
    requires Positive(queue)
    ensures Resting(queue, id) >= 0
    ensures Resting(queue, id) == 0 <==> forall o :: o in queue ==> o.id != id
  {
    RestingNonNeg(queue, id);
    if forall o :: o in queue ==> o.id != id { RestingAbsent(queue, id); }
  }

  lemma InBookZero(book: Book, id: OrderId)
    requires Positive(book.bids) && Positive(book.asks)
    ensures InBook(book, id) >= 0
    ensures InBook(book, id) == 0 <==> Fresh(book, id)
  {
    RestingZero(book.bids, id);
    RestingZero(book.asks, id);
  }

  /** Matching moves volume from the book to the trades, id by id. */
  lemma AfterMatchAccount(book: Book, ord: Order, id: OrderId)
    requires Positive(book.bids) && Positive(book.asks)
    ensures var (after, m) := AfterMatch(book, ord);
            && InBook(after, id) + Filled(m.trades, id)
               == InBook(book, id) + (if id == ord.id then Volume(m.trades) else 0)
            && m.left + Volume(m.trades) == ord.volume
  {
    var queue := Opposite(book, ord.side);
    FilledSplit(ord, queue, id);
    MatchConservesMakers(ord, queue, id);
    MatchConsumesFront(ord, queue);
  }

  lemma EnqueueAccount(book: Book, ord: Order, clock: nat, id: OrderId)
    requires QueueOk(book.bids, Buy, clock) && QueueOk(book.asks, Sell, clock)
    ensures InBook(Enqueue(book, ord), id) == InBook(book, id) + (if id == ord.id then ord.volume else 0)
  {
    hide Insert, StableSort, Resting, Positive, SynthQueue;
    var own := if ord.side.Buy? then book.bids else book.asks;
    EnqueueInserts(own, ord, ord.side);
    RestingInsert(own, ord, ord.side, id);
  }

  /** A limit order adds its volume under its own id and nothing under any other. */
  lemma AddLimitAccount(book: Book, ord: Order, clock: nat, id: OrderId)
    requires BookOk(book, clock)
    requires id == ord.id ==> !ord.isMarket && ord.volume >= 0
    ensures var (after, trades) := AddLimit(book, ord);
            InBook(after, id) + Filled(trades, id) == InBook(book, id) + (if id == ord.id then ord.volume else 0)
  {
    AfterMatchAccount(book, ord, id);
    AfterMatchOk(book, ord, clock);
    LeftNonNegative(book, ord);
    hide AfterMatch, Enqueue, InBook, Filled, MatchQueue;
    var (matched, m) := AfterMatch(book, ord);
    EnqueueAccount(matched, ord.(volume := m.left), clock, id);
    NothingFilled(id);
  }

  lemma NothingFilled(id: OrderId)
    ensures Filled([], id) == 0
  {
  }

  lemma LeftNonNegative(book: Book, ord: Order)
    requires Positive(book.bids) && Positive(book.asks)
    ensures ord.volume >= 0 ==> AfterMatch(book, ord).1.left >= 0
  {
    MatchConsumesFront(ord, Opposite(book, ord.side));
  }

  lemma IocAccount(book: Book, ord: Order, id: OrderId)
    requires Positive(book.bids) && Positive(book.asks) && id != ord.id
    ensures var (after, trades) := ExecuteIoc(book, ord);
            InBook(after, id) + Filled(trades, id) == InBook(book, id)
  {
    AfterMatchAccount(book, ord, id);
  }

  /** An id that rests once is gone once cancelled. */
  lemma OnceThenGone(queue: seq<Order>, i: nat, id: OrderId)
    requires Positive(queue) && i < |queue| && queue[i].id == id
    requires forall j, k :: 0 <= j < k < |queue| && queue[j].id == id ==> queue[k].id != id
    ensures Resting(Without(queue, i), id) == 0
  {
    var q := Without(queue, i);
    forall j | 0 <= j < |q| ensures q[j].volume > 0 && q[j].id != id {
      assert q[j] == queue[if j < i then j else j + 1];
    }
    RestingZero(q, id);
  }

  /** Cancelling a synthetic id removes all of it and nothing else. */
  lemma CancelAccount(book: Book, clock: nat, gone: OrderId, id: OrderId)
    requires BookOk(book, clock) && SynthBook(book)
    ensures id == gone && id.Synth? ==> InBook(Cancel(book, gone).0, id) == 0
    ensures id != gone ==> InBook(Cancel(book, gone).0, id) == InBook(book, id)
  {
    var i, j := FindId(book.bids, gone), FindId(book.asks, gone);
    if i < |book.bids| {
      RestingWithout(book.bids, i, id);
      if id == gone && id.Synth? {
        OnceThenGone(book.bids, i, id);
        OtherSideEmpty(book.asks, Sell, id);
      }
    } else if j < |book.asks| {
      RestingWithout(book.asks, j, id);
      if id == gone && id.Synth? {
        OnceThenGone(book.asks, j, id);
        RestingZero(book.bids, id);
      }
    } else {
      RestingZero(book.bids, id);
      RestingZero(book.asks, id);
    }
  }

  lemma OtherSideEmpty(queue: seq<Order>, side: Side, id: OrderId)
    requires Positive(queue) && SynthQueue(queue, side) && id.Synth? && id.level != side
    ensures Resting(queue, id) == 0
  {
    RestingZero(queue, id);
  }

  // ----- where synthetic orders rest -----------------------------------------------------

  lemma MatchKeepsSynth(incoming: Order, queue: seq<Order>, side: Side)
    requires Positive(queue) && SynthQueue(queue, side)
    ensures SynthQueue(MatchQueue(incoming, queue).queue, side)
  {
    var rest := MatchQueue(incoming, queue).queue;
    forall i | 0 <= i < |rest| && rest[i].id.Synth?
      ensures rest[i].id.level == side && rest[i].id.at == rest[i].price
    {
      var k := LeftoverAt(incoming, queue, i);
    }
    forall i, j | 0 <= i < j < |rest| && rest[i].id.Synth? ensures rest[i].id != rest[j].id {
      var k := LeftoverAt(incoming, queue, i);
      var l := LeftoverAt(incoming, queue, j);
    }
  }

  lemma InsertHas(queue: seq<Order>, ord: Order, side: Side)
    ensures forall o :: o in Insert(queue, ord, side) ==> o in queue || o == ord
  {
    InsertMembers(queue, ord, side);
    forall o | o in Insert(queue, ord, side) ensures o in queue || o == ord {
      assert o in multiset(Insert(queue, ord, side));
    }
  }

  lemma SynthAppend(front: seq<Order>, last: Order, side: Side)
    requires SynthQueue(front, side)
    requires last.id.Synth? ==> last.id.level == side && last.id.at == last.price
    requires forall o :: o in front ==> o.id != last.id || !o.id.Synth?
    ensures SynthQueue(front + [last], side)
  {
    forall i | 0 <= i < |front| && front[i].id.Synth? ensures front[i].id != last.id {
      assert front[i] in front;
    }
  }

  lemma SynthPrefix(queue: seq<Order>, n: nat, side: Side)
    requires SynthQueue(queue, side) && n < |queue|
    ensures SynthQueue(queue[..n], side)
    ensures queue[n].id.Synth? ==> queue[n].id.level == side && queue[n].id.at == queue[n].price
    ensures forall o :: o in queue[..n] ==> o in queue && (o.id != queue[n].id || !o.id.Synth?)
  {
  }

  lemma {:induction false} InsertKeepsSynth(queue: seq<Order>, ord: Order, side: Side)
    requires SynthQueue(queue, side)
    requires ord.id.Synth? ==> ord.id.level == side && ord.id.at == ord.price
    requires forall o :: o in queue ==> o.id != ord.id || !o.id.Synth?
    ensures SynthQueue(Insert(queue, ord, side), side)
    decreases |queue|
  {
    hide SynthQueue;
    if queue != [] && BetterPrice(side, ord.price, queue[|queue| - 1].price) {
      var n := |queue| - 1;
      SynthPrefix(queue, n, side);
      InsertKeepsSynth(queue[..n], ord, side);
      InsertHas(queue[..n], ord, side);
      assert queue[n] in queue;
      SynthAppend(Insert(queue[..n], ord, side), queue[n], side);
    } else {
      SynthAppend(queue, ord, side);
      assert queue == [] ==> [] + [ord] == [ord];
    }
  }

  lemma AfterMatchKeepsSynth(book: Book, ord: Order)
    requires Positive(book.bids) && Positive(book.asks) && SynthBook(book)
    ensures SynthBook(AfterMatch(book, ord).0)
  {
    MatchKeepsSynth(ord, Opposite(book, ord.side), if ord.side.Buy? then Sell else Buy);
  }

  lemma EnqueueKeepsSynth(book: Book, ord: Order, clock: nat)
    requires QueueOk(book.bids, Buy, clock) && QueueOk(book.asks, Sell, clock) && SynthBook(book)
    requires ord.id.Synth? ==> ord.id.level == ord.side && ord.id.at == ord.price
    requires ord.id.Synth? ==> forall o :: o in OwnQueue(book, ord.side) ==> o.id != ord.id
    ensures SynthBook(Enqueue(book, ord))
  {
    hide Insert, StableSort, Resting, Positive;
    EnqueueInserts(OwnQueue(book, ord.side), ord, ord.side);
    InsertKeepsSynth(OwnQueue(book, ord.side), ord, ord.side);
  }

  function OwnQueue(book: Book, side: Side): seq<Order> {
    if side.Buy? then book.bids else book.asks
  }

  lemma OwnUntouched(book: Book, ord: Order)
    ensures OwnQueue(AfterMatch(book, ord).0, ord.side) == OwnQueue(book, ord.side)
  {
  }

  lemma AddLimitKeepsSynth(book: Book, ord: Order, clock: nat)
    requires BookOk(book, clock) && SynthBook(book)
    requires ord.id.Synth? ==> Fresh(book, ord.id) && ord.id.level == ord.side && ord.id.at == ord.price
    ensures SynthBook(AddLimit(book, ord).0)
  {
    AfterMatchKeepsSynth(book, ord);
    AfterMatchOk(book, ord, clock);
    OwnUntouched(book, ord);
    assert ord.id.Synth? ==> forall o :: o in OwnQueue(book, ord.side) ==> o.id != ord.id;
    hide AfterMatch, Enqueue, SynthBook, MatchQueue, OwnQueue;
    var (matched, m) := AfterMatch(book, ord);
    EnqueueKeepsSynth(matched, ord.(volume := m.left), clock);
  }

  lemma IocKeepsSynth(book: Book, ord: Order)
    requires Positive(book.bids) && Positive(book.asks) && SynthBook(book)
    ensures SynthBook(ExecuteIoc(book, ord).0)
  {
    var side := if ord.side.Buy? then Sell else Buy;
    MatchKeepsSynth(ord, Opposite(book, ord.side), side);
  }

  lemma WithoutKeepsSynth(queue: seq<Order>, i: nat, side: Side)
    requires SynthQueue(queue, side) && i < |queue|
    ensures SynthQueue(Without(queue, i), side)
  {
    var q := Without(queue, i);
    assert forall j :: 0 <= j < |q| ==> q[j] == queue[if j < i then j else j + 1];
  }

  lemma CancelKeepsSynth(book: Book, id: OrderId)
    requires SynthBook(book)
    ensures SynthBook(Cancel(book, id).0)
  {
    var i, j := FindId(book.bids, id), FindId(book.asks, id);
    if i < |book.bids| {
      WithoutKeepsSynth(book.bids, i, Buy);
    } else if j < |book.asks| {
      WithoutKeepsSynth(book.asks, j, Sell);
    }
  }

  /** Every trade's maker was resting, and its taker is the incoming order. */
  lemma TradeParties(incoming: Order, queue: seq<Order>, i: nat)
    requires Positive(queue) && i < |MatchQueue(incoming, queue).trades|
    ensures var t := MatchQueue(incoming, queue).trades[i];
            && i < |queue| && t.volume > 0 && t.Taker() == incoming.id && t.Maker() == queue[i].id
            && {t.buyId, t.sellId} == {incoming.id, queue[i].id}
            && Crosses(incoming, queue[i])
  {
    MatchConsumesFront(incoming, queue);
  }
}
