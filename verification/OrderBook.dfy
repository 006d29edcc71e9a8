/**
 One instrument's mutable book: two queues of pointers to orders whose volumes are reduced
 in place. Every method is proved to compute the function of the same name in Orders.dfy on
 the values behind the pointers.
 */
module OrderBook {
  import opened Common
  import opened FixedPoint
  import opened Orders
  import opened Matching
  import opened Snapshots

  class LiveOrder {
    const id: OrderId
    const side: Side
    const price: int
    const isMarket: bool
    const arrival: nat
    var volume: int

    constructor (ord: Order)
      ensures Val() == ord
    {
      id, side, price, isMarket, arrival := ord.id, ord.side, ord.price, ord.isMarket, ord.arrival;
      volume := ord.volume;
    }

    function Val(): Order
      reads this
    {
      Order(id, side, price, volume, isMarket, arrival)
    }
  }

  ghost function Vals(queue: seq<LiveOrder>): (s: seq<Order>)
    reads queue
    ensures |s| == |queue|
    ensures forall i :: 0 <= i < |queue| ==> s[i] == queue[i].Val()
  {
    seq(|queue|, i requires 0 <= i < |queue| reads queue => queue[i].Val())
  }

  ghost predicate Distinct(queue: seq<LiveOrder>) {
    forall i, j :: 0 <= i < j < |queue| ==> queue[i] != queue[j]
  }

  /** How far from the back a stable insertion has to go. */
  lemma {:induction false} InsertAt(queue: seq<Order>, ord: Order, side: Side, j: nat)
    requires j <= |queue|
    requires forall k :: j <= k < |queue| ==> BetterPrice(side, ord.price, queue[k].price)
    requires j > 0 ==> !BetterPrice(side, ord.price, queue[j - 1].price)
    ensures Insert(queue, ord, side) == queue[..j] + [ord] + queue[j..]
    decreases |queue|
  {
    if j < |queue| {
      var n := |queue| - 1;
      InsertAt(queue[..n], ord, side, j);
      assert queue[..n][..j] == queue[..j];
      assert queue[..n][j..] + [queue[n]] == queue[j..];
    }
  }

  method InsertByPrice(queue: seq<LiveOrder>, ord: LiveOrder, side: Side) returns (longer: seq<LiveOrder>)
    ensures multiset(longer) == multiset(queue) + multiset{ord}
    ensures Vals(longer) == Insert(Vals(queue), ord.Val(), side)
  {
    hide Vals, Insert;
    hide StableSort, MatchQueue;
    var j := |queue|;
    while j > 0 && BetterPrice(side, ord.price, queue[j - 1].price)
      invariant 0 <= j <= |queue|
      invariant forall k :: j <= k < |queue| ==> BetterPrice(side, ord.price, queue[k].price)
    {
      j := j - 1;
    }
    longer := queue[..j] + [ord] + queue[j..];
    InsertAt(Vals(queue), ord.Val(), side, j);
    InsertedAt(queue, ord, j);
  }

  lemma InsertedAt(queue: seq<LiveOrder>, ord: LiveOrder, j: nat)
    requires j <= |queue|
    ensures multiset(queue[..j] + [ord] + queue[j..]) == multiset(queue) + multiset{ord}
    ensures Vals(queue[..j] + [ord] + queue[j..]) == Vals(queue)[..j] + [ord.Val()] + Vals(queue)[j..]
  {
    assert queue == queue[..j] + queue[j..];
  }

  /** Stands for the library's stable sort by price: any stable sort returns this sequence. */
  method SortByPrice(queue: seq<LiveOrder>, side: Side) returns (sorted: seq<LiveOrder>)
    ensures multiset(sorted) == multiset(queue)
    ensures Vals(sorted) == StableSort(Vals(queue), side)
  {
    hide Vals, Insert;
    sorted := [];
    for i := 0 to |queue|
      invariant multiset(sorted) == multiset(queue[..i])
      invariant Vals(sorted) == StableSort(Vals(queue)[..i], side)
    {
      sorted := InsertByPrice(sorted, queue[i], side);
      assert queue[..i + 1] == queue[..i] + [queue[i]];
      assert Vals(queue)[..i + 1][..i] == Vals(queue)[..i];
    }
    assert queue[..|queue|] == queue && Vals(queue)[..|queue|] == Vals(queue);
  }

  /** A match whose first trades are already known. */
  ghost function Extend(sofar: seq<Trade>, m: Match): Match {
    Match(sofar + m.trades, m.queue, m.left)
  }

  /** What one iteration of the matching loop leaves to be done. */
  lemma LoopStep(taker: Order, resting: Order, later: seq<Order>, sofar: seq<Trade>, taker': Order, resting': Order,
      trade: Trade)
    requires taker.volume > 0 && Crosses(taker, resting)
    requires trade == MakeTrade(taker, resting, Min(taker.volume, resting.volume))
    requires taker' == taker.(volume := taker.volume - trade.volume)
    requires resting' == resting.(volume := resting.volume - trade.volume)
    ensures Extend(sofar, MatchQueue(taker, [resting] + later)) ==
            Extend(sofar + [trade], MatchQueue(taker', if resting'.volume == 0 then later else [resting'] + later))
  {
    var queue := [resting] + later;
    assert queue[1..] == later;
    if resting'.volume == 0 {
      var rest := MatchQueue(taker', later);
      assert sofar + ([trade] + rest.trades) == sofar + [trade] + rest.trades;
    } else {
      assert sofar + [trade] == sofar + [trade] + [];
    }
  }

  /** Why the loop may stop. */
  lemma LoopDone(taker: Order, queue: seq<Order>, sofar: seq<Trade>)
    requires taker.volume <= 0 || queue == [] || !Crosses(taker, queue[0])
    ensures Extend(sofar, MatchQueue(taker, queue)) == Match(sofar, queue, taker.volume)
  {
  }

  class InstrumentBook {
    var bids: seq<LiveOrder>
    var asks: seq<LiveOrder>
    var lastTrade: Option<Trade>

    constructor ()
      ensures Valid() && State() == EMPTY_BOOK && Queued() == {}
    {
      bids, asks, lastTrade := [], [], None;
    }

    ghost predicate Valid()
      reads this
    {
      && Distinct(bids) && Distinct(asks)
      && forall o :: o in bids ==> o !in asks
    }

    /** The orders in either queue. */
    ghost function Queued(): set<LiveOrder>
      reads this
    {
      (set o | o in bids) + (set o | o in asks)
    }

    ghost function State(): Book
      reads this, bids, asks
    {
      Book(Vals(bids), Vals(asks), lastTrade)
    }

    /** Trade the smaller of the two volumes, at the resting order's price. */
    method TradeWith(incoming: LiveOrder, resting: LiveOrder) returns (trade: Trade)
      requires incoming != resting
      modifies this`lastTrade, incoming`volume, resting`volume
      ensures trade == MakeTrade(old(incoming.Val()), old(resting.Val()), old(Min(incoming.volume, resting.volume)))
      ensures incoming.volume == old(incoming.volume) - trade.volume
      ensures resting.volume == old(resting.volume) - trade.volume
      ensures lastTrade == Some(trade)
    {
      var traded := Min(incoming.volume, resting.volume);
      incoming.volume := incoming.volume - traded;
      resting.volume := resting.volume - traded;
      trade := if incoming.side.Buy?
        then Trade(incoming.id, resting.id, resting.price, traded, incoming.side)
        else Trade(resting.id, incoming.id, resting.price, traded, incoming.side);
      lastTrade := Some(trade);
    }

    /** The matching loop over the opposite queue: volumes are reduced in place, and the
        first `i` makers end up exhausted. */
    method ConsumeFront(incoming: LiveOrder, queue: seq<LiveOrder>) returns (trades: seq<Trade>, i: nat)
      requires Distinct(queue) && incoming !in queue
      modifies this`lastTrade, incoming`volume, queue
      ensures i <= |queue|
      ensures Match(trades, Vals(queue[i..]), incoming.volume) == old(MatchQueue(incoming.Val(), Vals(queue)))
      ensures lastTrade == LastOf(trades, old(lastTrade))
    {
      hide MatchQueue, Vals;
      trades, i := [], 0;
      ghost var tail := Vals(queue);
      ghost var goal := MatchQueue(incoming.Val(), tail);
      while incoming.volume > 0 && i < |queue|
        invariant 0 <= i <= |queue|
        invariant lastTrade == LastOf(trades, old(lastTrade))
        invariant Vals(queue[i..]) == tail
        invariant goal == Extend(trades, MatchQueue(incoming.Val(), tail))
        decreases |queue| - i
      {
        var resting := queue[i];
        if !incoming.isMarket {
          if incoming.side.Buy? && incoming.price < resting.price { break; }
          if incoming.side.Sell? && incoming.price > resting.price { break; }
        }
        ghost var taker, maker, later := incoming.Val(), resting.Val(), Vals(queue[i + 1..]);
        assert tail == [maker] + later;
        var trade := TradeWith(incoming, resting);
        assert Vals(queue[i + 1..]) == later;
        LoopStep(taker, maker, later, trades, incoming.Val(), resting.Val(), trade);
        trades := trades + [trade];
        if resting.volume == 0 {
          tail := later;
          i := i + 1;
        } else {
          tail := [resting.Val()] + later;
          break;
        }
      }
      LoopDone(incoming.Val(), tail, trades);
    }

    /** Match against the opposite queue and drop the exhausted makers. */
    method MatchLocked(incoming: LiveOrder) returns (trades: seq<Trade>)
      requires Valid() && incoming !in bids && incoming !in asks
      modifies this, incoming`volume, if incoming.side.Buy? then asks else bids
      ensures Valid() && |bids| <= |old(bids)| && |asks| <= |old(asks)|
      ensures bids == old(bids)[|old(bids)| - |bids|..] && asks == old(asks)[|old(asks)| - |asks|..]
      ensures var (book, m) := AfterMatch(old(State()), old(incoming.Val()));
              State() == book && trades == m.trades && incoming.volume == m.left
    {
      hide MatchQueue, Vals;
      var i;
      if incoming.side.Buy? {
        trades, i := ConsumeFront(incoming, asks);
        assert forall k :: 0 <= k < |bids| ==> bids[k] !in asks;
        assert Vals(bids) == old(Vals(bids));
        asks := asks[i..];
      } else {
        trades, i := ConsumeFront(incoming, bids);
        assert forall k :: 0 <= k < |asks| ==> asks[k] !in bids;
        assert Vals(asks) == old(Vals(asks));
        bids := bids[i..];
      }
    }

    /** Append, then stable-sort by price. */
    method EnqueueLocked(ord: LiveOrder)
      requires Valid() && ord !in bids && ord !in asks
      modifies this
      ensures Valid() && State() == Enqueue(old(State()), ord.Val())
      ensures forall o :: o in bids || o in asks <==> o in old(bids) || o in old(asks) || o == ord
    {
      hide StableSort, Vals;
      if ord.side.Buy? {
        assert Vals(bids + [ord]) == Vals(bids) + [ord.Val()];
        var sorted := SortByPrice(bids + [ord], Buy);
        DistinctPermutation(bids + [ord], sorted);
        bids := sorted;
        assert Vals(asks) == old(Vals(asks));
      } else {
        assert Vals(asks + [ord]) == Vals(asks) + [ord.Val()];
        var sorted := SortByPrice(asks + [ord], Sell);
        DistinctPermutation(asks + [ord], sorted);
        asks := sorted;
        assert Vals(bids) == old(Vals(bids));
      }
    }

    method AddLimitOrder(ord: LiveOrder) returns (trades: seq<Trade>)
      requires Valid() && ord !in bids && ord !in asks
      modifies this, ord`volume, if ord.side.Buy? then asks else bids
      ensures Valid()
      ensures (State(), trades) == AddLimit(old(State()), old(ord.Val()))
      ensures Queued() <= old(Queued()) + {ord}
    {
      if ord.volume == 0 {
        return [];
      }
      trades := MatchLocked(ord);
      if ord.volume > 0 && !ord.isMarket {
        EnqueueLocked(ord);
      }
    }

    method ExecuteLimitIoc(ord: LiveOrder) returns (trades: seq<Trade>)
      requires Valid() && ord !in bids && ord !in asks
      modifies this, ord`volume, if ord.side.Buy? then asks else bids
      ensures Valid()
      ensures (State(), trades) == ExecuteIoc(old(State()), old(ord.Val()))
    {
      if ord.volume <= 0 {
        return [];
      }
      trades := MatchLocked(ord);
    }

    /** Remove the first order with this id, bids before asks. */
    method CancelOrder(id: OrderId) returns (removed: Option<LiveOrder>)
      requires Valid()
      modifies this
      ensures Valid()
      ensures var (book, found) := Cancel(old(State()), id);
              State() == book && found == (if removed.None? then None else Some(removed.value.Val()))
      ensures Queued() <= old(Queued())
    {
      hide Vals, FindId, Without;
      removed := None;
      var i, rest := RemoveOrder(bids, id);
      if i < |bids| {
        removed, bids := Some(bids[i]), rest;
        return;
      }
      i, rest := RemoveOrder(asks, id);
      if i < |asks| {
        removed, asks := Some(asks[i]), rest;
      }
    }

    /** The published view: both sides by price, the best prices (0 for an empty side) and the
        last trade. */
    method Snapshot() returns (bidLevels: seq<PriceLevel>, askLevels: seq<PriceLevel>, bestBid: int, bestAsk: int,
        last: Option<Trade>)
      ensures Aggregates(State().bids, Buy, bidLevels) && Aggregates(State().asks, Sell, askLevels)
      ensures bestBid == if bidLevels == [] then 0 else bidLevels[0].price
      ensures bestAsk == if askLevels == [] then 0 else askLevels[0].price
      ensures last == State().lastTrade
    {
      hide Aggregates;
      bidLevels := AggregateLevels(bids, Buy);
      askLevels := AggregateLevels(asks, Sell);
      last := lastTrade;
      bestBid, bestAsk := 0, 0;
      if |bidLevels| > 0 {
        bestBid := bidLevels[0].price;
      }
      if |askLevels| > 0 {
        bestAsk := askLevels[0].price;
      }
    }
  }

  method AggregateLevels(orders: seq<LiveOrder>, side: Side) returns (result: seq<PriceLevel>)
    ensures Aggregates(Vals(orders), side, result)
  {
    hide Aggregates, Tally;
    var volumes: map<int, int> := map[];
    TallyNothing();
    for i := 0 to |orders|
      invariant Tally(Vals(orders)[..i], volumes)
    {
      var o := orders[i];
      TallyOne(Vals(orders)[..i], volumes, o.Val());
      assert Vals(orders)[..i + 1] == Vals(orders)[..i] + [o.Val()];
      volumes := volumes[o.price := (if o.price in volumes then volumes[o.price] else 0) + o.volume];
    }
    assert Vals(orders)[..|orders|] == Vals(orders);
    result := ListLevels(volumes, side);
    TallyAggregates(Vals(orders), volumes, side, result);
  }

  /** Index of the first order with the id, or |queue|, and the queue without it. */
  method RemoveOrder(queue: seq<LiveOrder>, id: OrderId) returns (i: nat, rest: seq<LiveOrder>)
    ensures i == FindId(Vals(queue), id) <= |queue|
    ensures i == |queue| ==> rest == queue
    ensures i < |queue| ==> Vals(rest) == Without(Vals(queue), i)
    ensures Distinct(queue) ==> Distinct(rest)
    ensures forall o :: o in rest ==> o in queue
  {
    i := 0;
    rest := queue;
    while i < |queue| && queue[i].id != id
      invariant i <= |queue|
      invariant forall j :: 0 <= j < i ==> queue[j].id != id
    {
      i := i + 1;
    }
    if i < |queue| {
      FindUnique(Vals(queue), id, i);
      rest := queue[..i] + queue[i + 1..];
      assert Vals(rest) == Vals(queue)[..i] + Vals(queue)[i + 1..];
    } else {
      forall o | o in Vals(queue) ensures o.id != id {
        var j :| 0 <= j < |queue| && Vals(queue)[j] == o;
        assert queue[j].id == o.id;
      }
      FindMissing(Vals(queue), id);
    }
  }

  lemma DistinctPermutation(queue: seq<LiveOrder>, sorted: seq<LiveOrder>)
    requires Distinct(queue) && multiset(sorted) == multiset(queue)
    ensures Distinct(sorted)
    ensures forall o :: o in sorted <==> o in queue
  {
    forall i, j | 0 <= i < j < |sorted| ensures sorted[i] != sorted[j] {
      if sorted[i] == sorted[j] {
        Twice(sorted, i, j);
        Once(queue, sorted[i]);
      }
    }
    forall o ensures o in sorted <==> o in queue {
      assert o in multiset(sorted) <==> o in multiset(queue);
    }
  }

  lemma Twice(queue: seq<LiveOrder>, i: nat, j: nat)
    requires i < j < |queue| && queue[i] == queue[j]
    ensures multiset(queue)[queue[i]] >= 2
  {
    assert queue == queue[..i] + [queue[i]] + queue[i + 1..j] + [queue[j]] + queue[j + 1..];
  }

  lemma Once(queue: seq<LiveOrder>, o: LiveOrder)
    requires Distinct(queue)
    ensures multiset(queue)[o] <= 1
  {
    if queue != [] {
      assert queue == [queue[0]] + queue[1..];
      if queue[0] == o {
        assert o !in queue[1..];
      } else {
        Once(queue[1..], o);
      }
    }
  }
}
