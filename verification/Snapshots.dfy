/**
 The book as the feeds publish it: one level per price with the volume resting there
 (Snapshot and aggregateLevels), and why nothing that matters to a match is lost: what an order
 would cost and leave can be worked out on the levels alone.
 */
module Snapshots {
  import opened Common
  import opened Orders
  import opened Matching

  datatype PriceLevel = PriceLevel(price: int, volume: int)

  function VolumeAt(queue: seq<Order>, price: int): int {
    if queue == [] then 0
    else (if queue[0].price == price then queue[0].volume else 0) + VolumeAt(queue[1..], price)
  }

  predicate BestFirst(levels: seq<PriceLevel>, side: Side) {
    forall i, j :: 0 <= i < j < |levels| ==> BetterPrice(side, levels[i].price, levels[j].price)
  }

  predicate AtPrice(queue: seq<Order>, price: int) {
    exists i :: 0 <= i < |queue| && queue[i].price == price
  }

  predicate Quoted(levels: seq<PriceLevel>, price: int) {
    exists j :: 0 <= j < |levels| && levels[j].price == price
  }

  /** One level per price in use, best first, each with all the volume at its price. */
  ghost predicate Aggregates(queue: seq<Order>, side: Side, levels: seq<PriceLevel>) {
    && BestFirst(levels, side)
    && (forall j :: 0 <= j < |levels| ==> levels[j].volume == VolumeAt(queue, levels[j].price))
    && (forall p :: Quoted(levels, p) <==> AtPrice(queue, p))
  }

  function LevelTotal(levels: seq<PriceLevel>): int {
    if levels == [] then 0 else levels[0].volume + LevelTotal(levels[1..])
  }

  function QueueTotal(queue: seq<Order>): int {
    if queue == [] then 0 else queue[0].volume + QueueTotal(queue[1..])
  }

  // ----- matching on levels --------------------------------------------------------------

  datatype Swept = Swept(levels: seq<PriceLevel>, left: int, notional: int)

  predicate Reaches(incoming: Order, price: int) {
    incoming.isMarket || (if incoming.side.Buy? then price <= incoming.price else incoming.price <= price)
  }

  /** Taking `volume` out of the levels, as a reader of the feed would reckon it. */
  function Sweep(incoming: Order, volume: int, levels: seq<PriceLevel>): Swept
    decreases |levels|
  {
    if volume <= 0 || levels == [] || !Reaches(incoming, levels[0].price) then Swept(levels, volume, 0)
    else if levels[0].volume <= volume then
      var rest := Sweep(incoming, volume - levels[0].volume, levels[1..]);
      rest.(notional := levels[0].price * levels[0].volume + rest.notional)
    else
      Swept(TakeFront(levels, volume), 0, levels[0].price * volume)
  }

  /** The levels once `taken` units have left the best one. */
  function TakeFront(levels: seq<PriceLevel>, taken: int): seq<PriceLevel>
    requires levels != []
  {
    if levels[0].volume <= taken then levels[1..]
    else [levels[0].(volume := levels[0].volume - taken)] + levels[1..]
  }

  // ----- levels and volumes --------------------------------------------------------------

  /** For a queue of positive volumes the levels are the support of its volume per price. */
  ghost predicate Profile(queue: seq<Order>, side: Side, levels: seq<PriceLevel>) {
    && BestFirst(levels, side)
    && (forall j :: 0 <= j < |levels| ==> 0 < levels[j].volume == VolumeAt(queue, levels[j].price))
    && (forall p :: VolumeAt(queue, p) != 0 ==> Quoted(levels, p))
  }

  lemma {:induction false} VolumePositive(queue: seq<Order>, price: int)
    requires Positive(queue)
    ensures VolumeAt(queue, price) >= 0
    ensures AtPrice(queue, price) <==> VolumeAt(queue, price) > 0
    decreases |queue|
  {
    if queue != [] {
      VolumePositive(queue[1..], price);
      AtPriceCons(queue, price);
    }
  }

  lemma AtPriceCons(queue: seq<Order>, price: int)
    requires queue != []
    ensures AtPrice(queue, price) <==> queue[0].price == price || AtPrice(queue[1..], price)
  {
    if AtPrice(queue, price) && queue[0].price != price {
      var i :| 0 <= i < |queue| && queue[i].price == price;
      assert queue[1..][i - 1].price == price;
    }
    if AtPrice(queue[1..], price) {
      var i :| 0 <= i < |queue[1..]| && queue[1..][i].price == price;
      assert queue[i + 1].price == price;
    }
  }

  lemma ProfileExactly(queue: seq<Order>, side: Side, levels: seq<PriceLevel>)
    requires Positive(queue)
    ensures Aggregates(queue, side, levels) <==> Profile(queue, side, levels)
  {
    forall p ensures VolumeAt(queue, p) >= 0 && (AtPrice(queue, p) <==> VolumeAt(queue, p) > 0) {
      VolumePositive(queue, p);
    }
    hide AtPrice, VolumeAt, BestFirst, Positive;
    if Aggregates(queue, side, levels) {
      forall j | 0 <= j < |levels| ensures 0 < levels[j].volume { assert Quoted(levels, levels[j].price); }
    }
  }

  /** The best level is at the price of the order at the front. */
  lemma FrontLevel(queue: seq<Order>, side: Side, levels: seq<PriceLevel>)
    requires Sorted(queue, side) && Aggregates(queue, side, levels)
    ensures queue == [] <==> levels == []
    ensures queue != [] ==> levels[0].price == queue[0].price
  {
    if levels != [] {
      assert Quoted(levels, levels[0].price);
      var i :| 0 <= i < |queue| && queue[i].price == levels[0].price;
      assert AtPrice(queue, queue[0].price);
      var j :| 0 <= j < |levels| && levels[j].price == queue[0].price;
      assert i > 0 ==> Ahead(side, queue[0], queue[i]);
      assert j > 0 ==> BetterPrice(side, levels[0].price, levels[j].price);
    }
    if queue != [] { assert AtPrice(queue, queue[0].price); }
  }

  /** Taking volume from the best price takes it from the best level. */
  lemma TakeProfile(queue: seq<Order>, queue': seq<Order>, side: Side, levels: seq<PriceLevel>, taken: int)
    requires Profile(queue, side, levels) && levels != [] && 0 < taken <= levels[0].volume
    requires forall p :: VolumeAt(queue', p) == VolumeAt(queue, p) - (if p == levels[0].price then taken else 0)
    ensures Profile(queue', side, TakeFront(levels, taken))
  {
    if taken == levels[0].volume { DropProfile(queue, queue', side, levels); } else {
      ReduceProfile(queue, queue', side, levels, taken);
    }
  }

  lemma DropProfile(queue: seq<Order>, queue': seq<Order>, side: Side, levels: seq<PriceLevel>)
    requires Profile(queue, side, levels) && levels != []
    requires forall p ::
        VolumeAt(queue', p) == VolumeAt(queue, p) - (if p == levels[0].price then levels[0].volume else 0)
    ensures Profile(queue', side, levels[1..])
  {
    hide VolumeAt, Quoted;
    var next := levels[1..];
    forall j | 0 <= j < |next| ensures 0 < next[j].volume == VolumeAt(queue', next[j].price) {
      assert next[j] == levels[j + 1] && BetterPrice(side, levels[0].price, levels[j + 1].price);
    }
    forall p | VolumeAt(queue', p) != 0 ensures Quoted(next, p) {
      assert Quoted(levels, p) && p != levels[0].price;
      QuotedRest(levels, side);
    }
  }

  lemma ReduceProfile(queue: seq<Order>, queue': seq<Order>, side: Side, levels: seq<PriceLevel>, taken: int)
    requires Profile(queue, side, levels) && levels != [] && 0 < taken < levels[0].volume
    requires forall p :: VolumeAt(queue', p) == VolumeAt(queue, p) - (if p == levels[0].price then taken else 0)
    ensures Profile(queue', side, TakeFront(levels, taken))
  {
    hide VolumeAt, Quoted;
    var next := TakeFront(levels, taken);
    assert |next| == |levels| && next[0] == levels[0].(volume := levels[0].volume - taken);
    assert forall j :: 0 < j < |next| ==> next[j] == levels[j];
    assert BestFirst(next, side);
    assert forall j :: 0 < j < |levels| ==> levels[j].price != levels[0].price;
    hide BestFirst, BetterPrice;
    forall p | VolumeAt(queue', p) != 0 ensures Quoted(next, p) {
      assert Quoted(levels, p);
      StillQuoted(levels, next, p);
    }
  }

  lemma StillQuoted(levels: seq<PriceLevel>, next: seq<PriceLevel>, p: int)
    requires |next| == |levels| && (forall j :: 0 <= j < |levels| ==> next[j].price == levels[j].price)
    ensures Quoted(levels, p) <==> Quoted(next, p)
  {
    if Quoted(levels, p) {
      var j :| 0 <= j < |levels| && levels[j].price == p;
      assert next[j].price == p;
    }
  }

  lemma VolumeTail(queue: seq<Order>)
    requires queue != []
    ensures forall p ::
        VolumeAt(queue[1..], p) == VolumeAt(queue, p) - (if p == queue[0].price then queue[0].volume else 0)
  {
  }

  lemma FrontAtMostLevel(queue: seq<Order>, side: Side, levels: seq<PriceLevel>)
    requires queue != [] && Positive(queue) && Profile(queue, side, levels) && levels != []
        && levels[0].price == queue[0].price
    ensures 0 < queue[0].volume <= levels[0].volume
  {
    VolumePositive(queue[1..], queue[0].price);
  }

  // ----- a match on the queue is a sweep of the levels -----------------------------------

  /** The level view after the front maker is exhausted. */
  lemma SweepPastFront(incoming: Order, volume: int, levels: seq<PriceLevel>, taken: int)
    requires levels != [] && Reaches(incoming, levels[0].price) && 0 < taken <= levels[0].volume && taken <= volume
    ensures var whole, rest := Sweep(incoming, volume, levels),
        Sweep(incoming, volume - taken, TakeFront(levels, taken));
            whole == rest.(notional := levels[0].price * taken + rest.notional)
  {
    if taken < levels[0].volume {
      var next := TakeFront(levels, taken);
      assert next[1..] == levels[1..];
      Split(levels[0].price, levels[0].volume, taken);
      Split(levels[0].price, volume, taken);
    }
  }

  lemma Split(price: int, volume: int, taken: int)
    ensures price * volume == price * taken + price * (volume - taken)
  {
  }

  /** Sweeping `levels` does to them what matching does to the queue. */
  ghost predicate Agrees(incoming: Order, queue: seq<Order>, side: Side, levels: seq<PriceLevel>) {
    var m, sweep := MatchQueue(incoming, queue), Sweep(incoming, incoming.volume, levels);
    Aggregates(m.queue, side, sweep.levels) && m.left == sweep.left && Notional(m.trades) == sweep.notional
  }

  /** Aggregation and matching commute: matching an order against the queue and sweeping it out
      of the published levels leave the same levels and the same remainder, at the same cost. */
  lemma {:induction false} SnapshotPredictsMatch(incoming: Order, queue: seq<Order>, side: Side,
      levels: seq<PriceLevel>)
    requires Positive(queue) && Sorted(queue, side) && Aggregates(queue, side, levels)
    ensures Agrees(incoming, queue, side, levels)
    decreases |queue|
  {
    FrontLevel(queue, side, levels);
    if incoming.volume <= 0 || queue == [] || !Crosses(incoming, queue[0]) {
    } else {
      ProfileExactly(queue, side, levels);
      FrontAtMostLevel(queue, side, levels);
      if queue[0].volume <= incoming.volume {
        var taken := queue[0].volume;
        LaterLevels(queue, side, levels);
        SnapshotPredictsMatch(incoming.(volume := incoming.volume - taken), queue[1..], side, TakeFront(levels, taken));
        PastFront(incoming, queue, side, levels);
      } else {
        InsideFront(incoming, queue, side, levels);
      }
    }
  }

  lemma LaterLevels(queue: seq<Order>, side: Side, levels: seq<PriceLevel>)
    requires Positive(queue) && Sorted(queue, side) && Profile(queue, side, levels) && queue != [] && levels != []
    requires levels[0].price == queue[0].price && 0 < queue[0].volume <= levels[0].volume
    ensures Positive(queue[1..]) && Sorted(queue[1..], side)
        && Aggregates(queue[1..], side, TakeFront(levels, queue[0].volume))
  {
    hide Aggregates, Profile, TakeFront, VolumeAt;
    VolumeTail(queue);
    TakeProfile(queue, queue[1..], side, levels, queue[0].volume);
    ProfileExactly(queue[1..], side, TakeFront(levels, queue[0].volume));
  }

  lemma {:induction false} PastFront(incoming: Order, queue: seq<Order>, side: Side, levels: seq<PriceLevel>)
    requires queue != [] && levels != [] && levels[0].price == queue[0].price && 0 < queue[0].volume <= levels[0].volume
    requires queue[0].volume <= incoming.volume && Crosses(incoming, queue[0])
    requires Agrees(incoming.(volume := incoming.volume - queue[0].volume), queue[1..], side,
        TakeFront(levels, queue[0].volume))
    ensures Agrees(incoming, queue, side, levels)
  {
    hide MatchQueue, Sweep, Aggregates, Notional, TakeFront;
    var taken := queue[0].volume;
    var incoming' := incoming.(volume := incoming.volume - taken);
    SweepPastFront(incoming, incoming.volume, levels, taken);
    SameSweep(incoming, incoming', incoming.volume - taken, TakeFront(levels, taken));
    var trade := StepPastFront(incoming, queue, incoming.volume);
    TradesCons(trade, MatchQueue(incoming', queue[1..]).trades, trade.Maker());
  }

  /** A sweep looks only at the limit, not at the volume field. */
  lemma {:induction false} SameSweep(incoming: Order, incoming': Order, volume: int, levels: seq<PriceLevel>)
    requires incoming' == incoming.(volume := incoming'.volume)
    ensures Sweep(incoming, volume, levels) == Sweep(incoming', volume, levels)
    decreases |levels|
  {
    if levels != [] { SameSweep(incoming, incoming', volume - levels[0].volume, levels[1..]); }
  }

  lemma {:induction false} InsideFront(incoming: Order, queue: seq<Order>, side: Side, levels: seq<PriceLevel>)
    requires Positive(queue) && Profile(queue, side, levels) && queue != [] && levels != []
    requires levels[0].price == queue[0].price && 0 < incoming.volume < queue[0].volume <= levels[0].volume
    requires Crosses(incoming, queue[0])
    ensures Agrees(incoming, queue, side, levels)
  {
    var trade := StopInsideFront(incoming, queue, incoming.volume);
    TradesCons(trade, [], trade.Maker());
    var after := [queue[0].(volume := queue[0].volume - incoming.volume)] + queue[1..];
    assert after[1..] == queue[1..];
    TakeProfile(queue, after, side, levels, incoming.volume);
    ProfileExactly(after, side, TakeFront(levels, incoming.volume));
  }

  // ----- the published list --------------------------------------------------------------

  /** There is only one such list, however the map of prices is walked. */
  lemma {:induction false} LevelsUnique(queue: seq<Order>, side: Side, a: seq<PriceLevel>, b: seq<PriceLevel>)
    requires Aggregates(queue, side, a) && Aggregates(queue, side, b)
    ensures a == b
  {
    hide VolumeAt, AtPrice;
    forall p ensures Quoted(a, p) <==> Quoted(b, p) { }
    SamePrices(a, b, side);
    assert forall j :: 0 <= j < |a| ==> a[j] == b[j];
  }

  lemma {:induction false} SamePrices(a: seq<PriceLevel>, b: seq<PriceLevel>, side: Side)
    requires BestFirst(a, side) && BestFirst(b, side) && forall p :: Quoted(a, p) <==> Quoted(b, p)
    ensures |a| == |b| && forall j :: 0 <= j < |a| ==> a[j].price == b[j].price
    decreases |a|
  {
    if a == [] {
      FirstQuoted(b);
    } else {
      SameFirst(a, b, side);
      QuotedRest(a, side);
      QuotedRest(b, side);
      assert BestFirst(a[1..], side) && BestFirst(b[1..], side);
      hide Quoted, BestFirst;
      SamePrices(a[1..], b[1..], side);
      assert forall j :: 0 < j < |a| ==> a[j] == a[1..][j - 1] && b[j] == b[1..][j - 1];
    }
  }

  lemma FirstQuoted(b: seq<PriceLevel>)
    ensures b != [] ==> Quoted(b, b[0].price)
  {
  }

  lemma SameFirst(a: seq<PriceLevel>, b: seq<PriceLevel>, side: Side)
    requires a != [] && BestFirst(a, side) && BestFirst(b, side) && forall p :: Quoted(a, p) <==> Quoted(b, p)
    ensures b != [] && a[0].price == b[0].price
  {
    assert Quoted(a, a[0].price);
    var j :| 0 <= j < |b| && b[j].price == a[0].price;
    assert Quoted(b, b[0].price);
    var i :| 0 <= i < |a| && a[i].price == b[0].price;
    assert i > 0 ==> BetterPrice(side, a[0].price, a[i].price);
    assert j > 0 ==> BetterPrice(side, b[0].price, b[j].price);
  }

  lemma QuotedRest(a: seq<PriceLevel>, side: Side)
    requires a != [] && BestFirst(a, side)
    ensures forall p :: Quoted(a[1..], p) <==> Quoted(a, p) && p != a[0].price
  {
    forall p ensures Quoted(a[1..], p) <==> Quoted(a, p) && p != a[0].price {
      if Quoted(a[1..], p) {
        var j :| 0 <= j < |a[1..]| && a[1..][j].price == p;
        assert a[j + 1].price == p && BetterPrice(side, a[0].price, a[j + 1].price);
      }
      if Quoted(a, p) && p != a[0].price {
        var j :| 0 <= j < |a| && a[j].price == p;
        assert a[1..][j - 1].price == p;
      }
    }
  }

  /** No resting volume is hidden or shown twice. */
  lemma {:induction false} TotalsAgree(queue: seq<Order>, side: Side, levels: seq<PriceLevel>)
    requires Positive(queue) && Sorted(queue, side) && Aggregates(queue, side, levels)
    ensures LevelTotal(levels) == QueueTotal(queue)
    decreases |queue|
  {
    FrontLevel(queue, side, levels);
    if queue != [] {
      ProfileExactly(queue, side, levels);
      FrontAtMostLevel(queue, side, levels);
      LaterLevels(queue, side, levels);
      TotalsAgree(queue[1..], side, TakeFront(levels, queue[0].volume));
      TotalTaken(levels, queue[0].volume);
    }
  }

  lemma TotalTaken(levels: seq<PriceLevel>, taken: int)
    requires levels != [] && 0 < taken <= levels[0].volume
    ensures LevelTotal(levels) == taken + LevelTotal(TakeFront(levels, taken))
  {
    if taken < levels[0].volume { assert TakeFront(levels, taken)[1..] == levels[1..]; }
  }

  /** The published sides never meet: the best bid shown is below the best ask shown, and both are
      prices an order really rests at. */
  lemma PublishedUncrossed(book: Book, clock: nat, bids: seq<PriceLevel>, asks: seq<PriceLevel>)
    requires BookOk(book, clock) && Aggregates(book.bids, Buy, bids) && Aggregates(book.asks, Sell, asks)
    ensures forall i, j :: 0 <= i < |bids| && 0 <= j < |asks| ==> bids[i].price < asks[j].price
    ensures forall i :: 0 <= i < |bids| ==> bids[i].volume > 0
    ensures forall j :: 0 <= j < |asks| ==> asks[j].volume > 0
    ensures bids != [] ==> bids[0].price == book.bids[0].price
    ensures asks != [] ==> asks[0].price == book.asks[0].price
  {
    FrontLevel(book.bids, Buy, bids);
    FrontLevel(book.asks, Sell, asks);
    ProfileExactly(book.bids, Buy, bids);
    ProfileExactly(book.asks, Sell, asks);
    assert bids != [] && asks != [] ==> bids[0].price < asks[0].price;
    assert forall i :: 0 < i < |bids| ==> BetterPrice(Buy, bids[0].price, bids[i].price);
    assert forall j :: 0 < j < |asks| ==> BetterPrice(Sell, asks[0].price, asks[j].price);
  }

  // ----- building the list ---------------------------------------------------------------

  /** The map of the first loop: the volume seen so far at each price. */
  ghost predicate Tally(queue: seq<Order>, volumes: map<int, int>) {
    forall p :: (p in volumes <==> AtPrice(queue, p)) && (p in volumes ==> volumes[p] == VolumeAt(queue, p))
  }

  lemma TallyNothing()
    ensures Tally([], map[])
  {
  }

  lemma {:induction false} VolumeAppend(queue: seq<Order>, o: Order, p: int)
    ensures VolumeAt(queue + [o], p) == VolumeAt(queue, p) + (if o.price == p then o.volume else 0)
    decreases |queue|
  {
    if queue == [] {
      assert [] + [o] == [o];
    } else {
      VolumeAppend(queue[1..], o, p);
      assert (queue + [o])[1..] == queue[1..] + [o];
    }
  }

  lemma AtPriceAppend(queue: seq<Order>, o: Order, p: int)
    ensures AtPrice(queue + [o], p) <==> AtPrice(queue, p) || o.price == p
  {
    var longer := queue + [o];
    if AtPrice(queue, p) {
      var i :| 0 <= i < |queue| && queue[i].price == p;
      assert longer[i].price == p;
    }
    assert longer[|queue|].price == o.price;
  }

  lemma {:induction false} NothingAt(queue: seq<Order>, p: int)
    requires !AtPrice(queue, p)
    ensures VolumeAt(queue, p) == 0
    decreases |queue|
  {
    if queue != [] {
      AtPriceCons(queue, p);
      NothingAt(queue[1..], p);
    }
  }

  lemma TallyOne(queue: seq<Order>, volumes: map<int, int>, o: Order)
    requires Tally(queue, volumes)
    ensures Tally(queue + [o], volumes[o.price := (if o.price in volumes then volumes[o.price] else 0) + o.volume])
  {
    forall p ensures VolumeAt(queue + [o], p) == VolumeAt(queue, p)
        + (if o.price == p then o.volume else 0) { VolumeAppend(queue, o, p); }
    forall p ensures AtPrice(queue + [o], p) <==> AtPrice(queue, p) || o.price == p { AtPriceAppend(queue, o, p); }
    if o.price !in volumes { NothingAt(queue, o.price); }
    hide AtPrice, VolumeAt;
  }

  predicate Descending(prices: seq<int>, side: Side) {
    forall i, j :: 0 <= i < j < |prices| ==> BetterPrice(side, prices[i], prices[j])
  }

  /** Stands for the library sort: the prices are distinct, so any sort gives this list. */
  method SortPrices(prices: seq<int>, side: Side) returns (out: seq<int>)
    requires forall i, j :: 0 <= i < j < |prices| ==> prices[i] != prices[j]
    ensures Descending(out, side) && forall p :: p in out <==> p in prices
  {
    out := [];
    for k := 0 to |prices|
      invariant Descending(out, side) && forall p :: p in out <==> p in prices[..k]
    {
      var at := |out|;
      while at > 0 && BetterPrice(side, prices[k], out[at - 1])
        invariant 0 <= at <= |out|
        invariant forall i :: at <= i < |out| ==> BetterPrice(side, prices[k], out[i])
      {
        at := at - 1;
      }
      assert forall i :: 0 <= i < |out| ==> out[i] != prices[k] by {
        forall i | 0 <= i < |out| ensures out[i] != prices[k] { assert out[i] in prices[..k]; }
      }
      PriceInserted(out, prices[k], at, side);
      assert prices[..k + 1] == prices[..k] + [prices[k]];
      out := out[..at] + [prices[k]] + out[at..];
    }
    assert prices[..|prices|] == prices;
  }

  lemma PriceInserted(out: seq<int>, p: int, at: nat, side: Side)
    requires at <= |out| && Descending(out, side) && forall i :: 0 <= i < |out| ==> out[i] != p
    requires forall i :: at <= i < |out| ==> BetterPrice(side, p, out[i])
    requires at > 0 ==> !BetterPrice(side, p, out[at - 1])
    ensures Descending(out[..at] + [p] + out[at..], side)
    ensures forall q :: q in out[..at] + [p] + out[at..] <==> q in out || q == p
  {
    hide BetterPrice;
    InsertedInOrder(out, p, at, side);
    InsertedMembers(out, p, at);
  }

  lemma InsertedInOrder(out: seq<int>, p: int, at: nat, side: Side)
    requires at <= |out| && Descending(out, side) && forall i :: 0 <= i < |out| ==> out[i] != p
    requires forall i :: at <= i < |out| ==> BetterPrice(side, p, out[i])
    requires at > 0 ==> !BetterPrice(side, p, out[at - 1])
    ensures Descending(out[..at] + [p] + out[at..], side)
  {
    assert forall i :: 0 <= i < at ==> BetterPrice(side, out[i], p);
    var next := out[..at] + [p] + out[at..];
    assert forall i :: 0 <= i < |next| ==> next[i] == if i < at then out[i] else if i == at then p else out[i - 1];
  }

  lemma InsertedMembers(out: seq<int>, p: int, at: nat)
    requires at <= |out|
    ensures forall q :: q in out[..at] + [p] + out[at..] <==> q in out || q == p
  {
    assert out == out[..at] + out[at..];
  }

  /** The last two loops: every price once, in order, with its volume. */
  method ListLevels(volumes: map<int, int>, side: Side) returns (result: seq<PriceLevel>)
    ensures BestFirst(result, side)
    ensures forall j :: 0 <= j < |result| ==> result[j].price in volumes && result[j].volume == volumes[result[j].price]
    ensures forall p :: p in volumes ==> Quoted(result, p)
  {
    var prices: seq<int> := [];
    var left := volumes.Keys;
    while left != {}
      invariant left <= volumes.Keys && (forall p :: p in prices <==> p in volumes && p !in left)
      invariant forall i, j :: 0 <= i < j < |prices| ==> prices[i] != prices[j]
      decreases left
    {
      var p := NextKey(left);
      assert forall i :: 0 <= i < |prices| ==> prices[i] in prices;
      prices := prices + [p];
      left := left - {p};
    }
    var sorted := SortPrices(prices, side);
    result := [];
    for i := 0 to |sorted|
      invariant |result| == i
      invariant forall j :: 0 <= j < i ==>
          sorted[j] in volumes && result[j] == PriceLevel(sorted[j], volumes[sorted[j]])
    {
      assert sorted[i] in sorted;
      result := result + [PriceLevel(sorted[i], volumes[sorted[i]])];
    }
    forall p | p in volumes ensures Quoted(result, p) {
      assert p in sorted;
      var j :| 0 <= j < |sorted| && sorted[j] == p;
      assert result[j].price == p;
    }
  }

  lemma TallyAggregates(queue: seq<Order>, volumes: map<int, int>, side: Side, result: seq<PriceLevel>)
    requires Tally(queue, volumes) && BestFirst(result, side)
    requires forall j :: 0 <= j < |result| ==>
        result[j].price in volumes && result[j].volume == volumes[result[j].price]
    requires forall p :: p in volumes ==> Quoted(result, p)
    ensures Aggregates(queue, side, result)
  {
    hide VolumeAt, AtPrice;
  }
}
