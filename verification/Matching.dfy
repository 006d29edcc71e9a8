/**
 Price-time priority: what one match leaves behind, what every run of book operations
 keeps, and how matching composes.
 */
module Matching {
  import opened Common
  import opened FixedPoint
  import opened Orders

  // ----- one match -----------------------------------------------------------------------

  predicate Positive(queue: seq<Order>) {
    forall i :: 0 <= i < |queue| ==> queue[i].volume > 0
  }

  function Volume(trades: seq<Trade>): int {
    if trades == [] then 0 else trades[0].volume + Volume(trades[1..])
  }

  /** Total notional, exact (before any rescaling). */
  function Notional(trades: seq<Trade>): int {
    if trades == [] then 0 else trades[0].price * trades[0].volume + Notional(trades[1..])
  }

  /** Volume bought from (or sold to) the resting order `id`. */
  function MakerVolume(trades: seq<Trade>, id: OrderId): int {
    if trades == [] then 0
    else (if trades[0].Maker() == id then trades[0].volume else 0) + MakerVolume(trades[1..], id)
  }

  /** Resting volume under `id`. */
  function Resting(queue: seq<Order>, id: OrderId): int {
    if queue == [] then 0
    else (if queue[0].id == id then queue[0].volume else 0) + Resting(queue[1..], id)
  }

  /** A match consumes the queue strictly from the front: the i-th trade is with the i-th
      resting order at that order's price, every maker but the last is exhausted, the rest of
      the queue is untouched, and volume is conserved. It stops only when the incoming order
      is exhausted, the queue is empty, or the next price is beyond the limit. */
  ghost predicate FrontConsumed(incoming: Order, queue: seq<Order>, m: Match) {
    var n := |m.trades|;
    && n <= |queue|
    && (forall i :: 0 <= i < n ==>
          && m.trades[i] == MakeTrade(incoming, queue[i], m.trades[i].volume)
          && 0 < m.trades[i].volume <= queue[i].volume
          && Crosses(incoming, queue[i]))
    && (forall i :: 0 <= i < n - 1 ==> m.trades[i].volume == queue[i].volume)
    && (|| (m.queue == queue[n..] && (n > 0 ==> m.trades[n - 1].volume == queue[n - 1].volume))
        || (&& n > 0 && m.left == 0 && m.trades[n - 1].volume < queue[n - 1].volume
            && m.queue == [queue[n - 1].(volume := queue[n - 1].volume - m.trades[n - 1].volume)] + queue[n..]))
    && m.left + Volume(m.trades) == incoming.volume
    && (incoming.volume >= 0 ==> m.left >= 0)
    && (m.left > 0 ==> m.queue == [] || !Crosses(incoming, m.queue[0]))
  }

  lemma {:induction false} MatchConsumesFront(incoming: Order, queue: seq<Order>)
    requires Positive(queue)
    ensures FrontConsumed(incoming, queue, MatchQueue(incoming, queue))
    decreases |queue|
  {
    if incoming.volume <= 0 || queue == [] || !Crosses(incoming, queue[0]) {
      FrontUntouched(incoming, queue);
    } else if queue[0].volume <= incoming.volume {
      var incoming' := incoming.(volume := incoming.volume - queue[0].volume);
      MatchConsumesFront(incoming', queue[1..]);
      FrontConsumedStep(incoming, queue);
    } else {
      FrontConsumedInside(incoming, queue);
    }
  }

  lemma {:induction false} FrontUntouched(incoming: Order, queue: seq<Order>)
    requires incoming.volume <= 0 || queue == [] || !Crosses(incoming, queue[0])
    ensures FrontConsumed(incoming, queue, MatchQueue(incoming, queue))
  {
    assert queue[0..] == queue;
  }

  /** The j-th order left after a match is a resting order with at most its old volume. */
  lemma {:induction false} LeftoverAt(incoming: Order, queue: seq<Order>, j: nat) returns (k: nat)
    requires Positive(queue) && j < |MatchQueue(incoming, queue).queue|
    ensures var m := MatchQueue(incoming, queue);
            && k == |queue| - |m.queue| + j < |queue| && |m.trades| <= k + 1
            && m.queue[j] == queue[k].(volume := m.queue[j].volume)
            && 0 < m.queue[j].volume <= queue[k].volume
  {
    MatchConsumesFront(incoming, queue);
    var m := MatchQueue(incoming, queue);
    hide MatchQueue, Volume, Crosses;
    k := |queue| - |m.queue| + j;
    if m.queue == queue[|m.trades|..] {
    } else if j > 0 {
      assert m.queue[j] == queue[|m.trades|..][j - 1];
    }
  }

  lemma {:induction false} FrontConsumedInside(incoming: Order, queue: seq<Order>)
    requires queue != [] && Crosses(incoming, queue[0]) && 0 < incoming.volume < queue[0].volume
    ensures FrontConsumed(incoming, queue, MatchQueue(incoming, queue))
  {
    var trade := MakeTrade(incoming, queue[0], incoming.volume);
    TradesCons(trade, [], trade.buyId);
    assert [trade] + [] == [trade];
  }

  lemma {:induction false} FrontConsumedStep(incoming: Order, queue: seq<Order>)
    requires queue != [] && Crosses(incoming, queue[0]) && 0 < queue[0].volume <= incoming.volume
    requires var incoming' := incoming.(volume := incoming.volume - queue[0].volume);
             FrontConsumed(incoming', queue[1..], MatchQueue(incoming', queue[1..]))
    ensures FrontConsumed(incoming, queue, MatchQueue(incoming, queue))
  {
    var incoming' := incoming.(volume := incoming.volume - queue[0].volume);
    var trade := StepPastFront(incoming, queue, incoming.volume);
    FrontConsumedPrepend(incoming, queue, MatchQueue(incoming', queue[1..]), trade);
  }

  lemma {:induction false} FrontConsumedPrepend(incoming: Order, queue: seq<Order>, rest: Match, trade: Trade)
    requires queue != [] && Crosses(incoming, queue[0]) && 0 < queue[0].volume <= incoming.volume
    requires FrontConsumed(incoming.(volume := incoming.volume - queue[0].volume), queue[1..], rest)
    requires trade == MakeTrade(incoming, queue[0], queue[0].volume)
    ensures FrontConsumed(incoming, queue, Match([trade] + rest.trades, rest.queue, rest.left))
  {
    var incoming' := incoming.(volume := incoming.volume - queue[0].volume);
    var tail := queue[1..];
    var n := |rest.trades|;
    var trades := [trade] + rest.trades;
    assert trades[1..] == rest.trades;
    forall i | 0 < i < n + 1
      ensures trades[i] == MakeTrade(incoming, queue[i], trades[i].volume)
      ensures 0 < trades[i].volume <= queue[i].volume && Crosses(incoming, queue[i])
      ensures i < n ==> trades[i].volume == queue[i].volume
    {
      assert trades[i] == rest.trades[i - 1] && queue[i] == tail[i - 1];
      assert rest.trades[i - 1] == MakeTrade(incoming', tail[i - 1], rest.trades[i - 1].volume);
    }
    assert tail[n..] == queue[n + 1..];
    if n > 0 { assert tail[n - 1] == queue[n]; }
  }

  /** No match mints or loses volume on any resting order. */
  lemma {:induction false} MatchConservesMakers(incoming: Order, queue: seq<Order>, id: OrderId)
    ensures var m := MatchQueue(incoming, queue);
            Resting(m.queue, id) + MakerVolume(m.trades, id) == Resting(queue, id)
    decreases |queue|
  {
    if incoming.volume <= 0 || queue == [] || !Crosses(incoming, queue[0]) {
    } else if queue[0].volume <= incoming.volume {
      var incoming' := incoming.(volume := incoming.volume - queue[0].volume);
      MatchConservesMakers(incoming', queue[1..], id);
      var trade := StepPastFront(incoming, queue, incoming.volume);
      TradesCons(trade, MatchQueue(incoming', queue[1..]).trades, id);
    } else {
      MakersInsideFront(incoming, queue, id);
    }
  }

  lemma {:induction false} MakersInsideFront(incoming: Order, queue: seq<Order>, id: OrderId)
    requires queue != [] && Crosses(incoming, queue[0]) && 0 < incoming.volume < queue[0].volume
    ensures var m := MatchQueue(incoming, queue);
            Resting(m.queue, id) + MakerVolume(m.trades, id) == Resting(queue, id)
  {
    var trade := StopInsideFront(incoming, queue, incoming.volume);
    TradesCons(trade, [], id);
    var m := MatchQueue(incoming, queue);
    assert m.queue[1..] == queue[1..];
  }

  // ----- composing matches ---------------------------------------------------------------

  lemma TradesConcat(s: seq<Trade>, t: seq<Trade>, id: OrderId)
    ensures Volume(s + t) == Volume(s) + Volume(t)
    ensures Notional(s + t) == Notional(s) + Notional(t)
    ensures MakerVolume(s + t, id) == MakerVolume(s, id) + MakerVolume(t, id)
  {
    if s == [] {
      assert s + t == t;
    } else {
      TradesConcat(s[1..], t, id);
      assert (s + t)[1..] == s[1..] + t;
    }
  }

  /** `whole` did to the queue, in one go, what `first` and then `second` did. */
  ghost predicate SameEffect(whole: Match, first: Match, second: Match, id: OrderId) {
    && whole.queue == second.queue
    && whole.left == first.left + second.left
    && Volume(whole.trades) == Volume(first.trades) + Volume(second.trades)
    && Notional(whole.trades) == Notional(first.trades) + Notional(second.trades)
    && MakerVolume(whole.trades, id) == MakerVolume(first.trades, id) + MakerVolume(second.trades, id)
  }

  /** Matching is additive in the incoming size. */
  lemma {:induction false} MatchAdditive(incoming: Order, queue: seq<Order>, a: int, b: int, id: OrderId)
    requires 0 <= a && 0 <= b && Positive(queue)
    ensures var whole := MatchQueue(incoming.(volume := a + b), queue);
            var first := MatchQueue(incoming.(volume := a), queue);
            var second := MatchQueue(incoming.(volume := b), first.queue);
            SameEffect(whole, first, second, id)
    decreases |queue|
  {
    if a == 0 || queue == [] || !Crosses(incoming, queue[0]) {
      NothingFirst(incoming, queue, a, b, id);
    } else if queue[0].volume <= a {
      assert Positive(queue[1..]);
      hide MatchQueue, SameEffect;
      MatchAdditive(incoming, queue[1..], a - queue[0].volume, b, id);
      AdditivePastFront(incoming, queue, a, b, id);
    } else {
      AdditiveInsideFront(incoming, queue, a, b, id);
    }
  }

  lemma {:induction false} NothingFirst(incoming: Order, queue: seq<Order>, a: int, b: int, id: OrderId)
    requires 0 <= a && 0 <= b
    requires a == 0 || queue == [] || !Crosses(incoming, queue[0])
    ensures var whole := MatchQueue(incoming.(volume := a + b), queue);
            var first := MatchQueue(incoming.(volume := a), queue);
            var second := MatchQueue(incoming.(volume := b), first.queue);
            SameEffect(whole, first, second, id)
  {
  }

  lemma {:induction false} AdditivePastFront(incoming: Order, queue: seq<Order>, a: int, b: int, id: OrderId)
    requires queue != [] && 0 < queue[0].volume <= a && 0 <= b && Crosses(incoming, queue[0])
    requires var a' := a - queue[0].volume;
             var whole := MatchQueue(incoming.(volume := a' + b), queue[1..]);
             var first := MatchQueue(incoming.(volume := a'), queue[1..]);
             var second := MatchQueue(incoming.(volume := b), first.queue);
             SameEffect(whole, first, second, id)
    ensures var whole := MatchQueue(incoming.(volume := a + b), queue);
            var first := MatchQueue(incoming.(volume := a), queue);
            var second := MatchQueue(incoming.(volume := b), first.queue);
            SameEffect(whole, first, second, id)
  {
    hide MatchQueue, Volume, Notional, MakerVolume;
    var trade := StepPastFront(incoming, queue, a + b);
    var trade' := StepPastFront(incoming, queue, a);
    var a' := a - queue[0].volume;
    assert a + b - queue[0].volume == a' + b;
    TradesCons(trade, MatchQueue(incoming.(volume := a' + b), queue[1..]).trades, id);
    TradesCons(trade, MatchQueue(incoming.(volume := a'), queue[1..]).trades, id);
  }

  /** The case where the first part ends inside the front maker. */
  lemma {:induction false} AdditiveInsideFront(incoming: Order, queue: seq<Order>, a: int, b: int, id: OrderId)
    requires queue != [] && Positive(queue) && 0 < a < queue[0].volume && 0 <= b
    requires Crosses(incoming, queue[0])
    ensures var whole := MatchQueue(incoming.(volume := a + b), queue);
            var first := MatchQueue(incoming.(volume := a), queue);
            var second := MatchQueue(incoming.(volume := b), first.queue);
            SameEffect(whole, first, second, id)
  {
    var t := StopInsideFront(incoming, queue, a);
    TradesCons(t, [], id);
    var reduced := queue[0].(volume := queue[0].volume - a);
    var middle := [reduced] + queue[1..];
    assert middle[0] == reduced && middle[1..] == queue[1..];
    if b == 0 {
    } else if b < reduced.volume {
      BothInsideFront(incoming, queue, middle, a, b, id);
    } else {
      SecondPastFront(incoming, queue, middle, a, b, id);
    }
  }

  lemma {:induction false} BothInsideFront(
    incoming: Order, queue: seq<Order>, middle: seq<Order>, a: int, b: int, id: OrderId)
    requires queue != [] && 0 < a && 0 < b && a + b < queue[0].volume && Crosses(incoming, queue[0])
    requires middle == [queue[0].(volume := queue[0].volume - a)] + queue[1..]
    ensures var whole := MatchQueue(incoming.(volume := a + b), queue);
            var second := MatchQueue(incoming.(volume := b), middle);
            && whole.queue == second.queue && whole.left == second.left == 0
            && Volume(whole.trades) == a + Volume(second.trades)
            && Notional(whole.trades) == queue[0].price * a + Notional(second.trades)
            && MakerVolume(whole.trades, id) == (if queue[0].id == id then a else 0) + MakerVolume(second.trades, id)
  {
    assert middle[1..] == queue[1..];
    var t1 := StopInsideFront(incoming, middle, b);
    var t2 := StopInsideFront(incoming, queue, a + b);
    TradesCons(t1, [], id);
    TradesCons(t2, [], id);
    Distribute(queue[0].price, a, b);
  }

  lemma {:induction false} SecondPastFront(
    incoming: Order, queue: seq<Order>, middle: seq<Order>, a: int, b: int, id: OrderId)
    requires queue != [] && 0 < a < queue[0].volume <= a + b && Crosses(incoming, queue[0])
    requires middle == [queue[0].(volume := queue[0].volume - a)] + queue[1..]
    ensures var whole := MatchQueue(incoming.(volume := a + b), queue);
            var second := MatchQueue(incoming.(volume := b), middle);
            && whole.queue == second.queue && whole.left == second.left
            && Volume(whole.trades) == a + Volume(second.trades)
            && Notional(whole.trades) == queue[0].price * a + Notional(second.trades)
            && MakerVolume(whole.trades, id) == (if queue[0].id == id then a else 0) + MakerVolume(second.trades, id)
  {
    assert middle[1..] == queue[1..];
    hide MatchQueue, Volume, Notional, MakerVolume;
    var v := queue[0].volume - a;
    var rest := MatchQueue(incoming.(volume := b - v), queue[1..]);
    var t1 := StepPastFront(incoming, middle, b);
    assert MatchQueue(incoming.(volume := b), middle) == Match([t1] + rest.trades, rest.queue, rest.left);
    var t2 := StepPastFront(incoming, queue, a + b);
    assert b - v == a + b - queue[0].volume;
    assert MatchQueue(incoming.(volume := a + b), queue) == Match([t2] + rest.trades, rest.queue, rest.left);
    assert t1.volume == v && t2.volume == a + v && t1.price == t2.price == queue[0].price;
    hide Crosses, MakeTrade;
    TradesCons(t1, rest.trades, id);
    TradesCons(t2, rest.trades, id);
    Distribute(queue[0].price, a, v);
  }

  lemma Distribute(p: int, a: int, b: int)
    ensures p * (a + b) == p * a + p * b
  {
  }

  lemma TradesCons(t: Trade, ts: seq<Trade>, id: OrderId)
    ensures Volume([t] + ts) == t.volume + Volume(ts)
    ensures Notional([t] + ts) == t.price * t.volume + Notional(ts)
    ensures MakerVolume([t] + ts, id) == (if t.Maker() == id then t.volume else 0) + MakerVolume(ts, id)
  {
    assert ([t] + ts)[1..] == ts;
  }

  /** One iteration that exhausts the front maker. */
  lemma {:induction false} StepPastFront(incoming: Order, queue: seq<Order>, v: int) returns (trade: Trade)
    requires queue != [] && Crosses(incoming, queue[0]) && 0 < v && queue[0].volume <= v
    ensures trade == MakeTrade(incoming, queue[0], queue[0].volume) && trade.Maker() == queue[0].id
    ensures var rest := MatchQueue(incoming.(volume := v - queue[0].volume), queue[1..]);
            MatchQueue(incoming.(volume := v), queue) == Match([trade] + rest.trades, rest.queue, rest.left)
  {
    trade := MakeTrade(incoming, queue[0], queue[0].volume);
  }

  /** One iteration that exhausts the incoming order inside the front maker. */
  lemma {:induction false} StopInsideFront(incoming: Order, queue: seq<Order>, v: int) returns (trade: Trade)
    requires queue != [] && Crosses(incoming, queue[0]) && 0 < v < queue[0].volume
    ensures trade == MakeTrade(incoming, queue[0], v) && trade.Maker() == queue[0].id
    ensures MatchQueue(incoming.(volume := v), queue) ==
            Match([trade] + [], [queue[0].(volume := queue[0].volume - v)] + queue[1..], 0)
  {
    trade := MakeTrade(incoming, queue[0], v);
    assert [trade] + [] == [trade];
  }

  // ----- volume under an id --------------------------------------------------------------

  lemma {:induction false} RestingConcat(a: seq<Order>, b: seq<Order>, id: OrderId)
    ensures Resting(a + b, id) == Resting(a, id) + Resting(b, id)
    decreases |a|
  {
    if a == [] {
      assert a + b == b;
    } else {
      RestingConcat(a[1..], b, id);
      assert (a + b)[1..] == a[1..] + b;
    }
  }

  lemma {:induction false} RestingAbsent(queue: seq<Order>, id: OrderId)
    requires forall i :: 0 <= i < |queue| ==> queue[i].id != id
    ensures Resting(queue, id) == 0
    decreases |queue|
  {
    if queue != [] { RestingAbsent(queue[1..], id); }
  }

  lemma {:induction false} RestingNonNeg(queue: seq<Order>, id: OrderId)
    requires Positive(queue)
    ensures Resting(queue, id) >= 0
    ensures (exists i :: 0 <= i < |queue| && queue[i].id == id) ==> Resting(queue, id) > 0
    decreases |queue|
  {
    if queue != [] {
      RestingNonNeg(queue[1..], id);
      if i :| 0 <= i < |queue| && queue[i].id == id {
        if i > 0 { assert queue[1..][i - 1].id == id; }
      }
    }
  }

  lemma RestingWithout(queue: seq<Order>, i: nat, id: OrderId)
    requires i < |queue|
    ensures Resting(Without(queue, i), id) == Resting(queue, id) - (if queue[i].id == id then queue[i].volume else 0)
    ensures Resting(Without(queue, i), id) == Resting(queue[..i], id) + Resting(queue[i + 1..], id)
  {
    var front, back := queue[..i], queue[i + 1..];
    assert queue == front + ([queue[i]] + back);
    RestingConcat(front, back, id);
    RestingConcat(front, [queue[i]] + back, id);
    assert ([queue[i]] + back)[1..] == back;
  }

  lemma {:induction false} InsertSplits(queue: seq<Order>, ord: Order, side: Side) returns (j: nat)
    ensures j <= |queue| && Insert(queue, ord, side) == queue[..j] + [ord] + queue[j..]
    decreases |queue|
  {
    if queue != [] && BetterPrice(side, ord.price, queue[|queue| - 1].price) {
      var n := |queue| - 1;
      j := InsertSplits(queue[..n], ord, side);
      assert queue[..n][..j] == queue[..j];
      assert queue[..n][j..] + [queue[n]] == queue[j..];
    } else {
      j := |queue|;
    }
  }

  lemma RestingInsert(queue: seq<Order>, ord: Order, side: Side, id: OrderId)
    ensures Resting(Insert(queue, ord, side), id) == Resting(queue, id) + (if ord.id == id then ord.volume else 0)
  {
    var j := InsertSplits(queue, ord, side);
    assert queue == queue[..j] + queue[j..];
    assert queue[..j] + [ord] + queue[j..] == queue[..j] + ([ord] + queue[j..]);
    RestingConcat(queue[..j], queue[j..], id);
    RestingConcat(queue[..j], [ord] + queue[j..], id);
    assert ([ord] + queue[j..])[1..] == queue[j..];
  }

  // ----- price-time order ----------------------------------------------------------------

  /** Strict price-then-arrival priority. */
  predicate Ahead(side: Side, a: Order, b: Order) {
    BetterPrice(side, a.price, b.price) || (a.price == b.price && a.arrival < b.arrival)
  }

  predicate Sorted(queue: seq<Order>, side: Side) {
    forall i, j :: 0 <= i < j < |queue| ==> Ahead(side, queue[i], queue[j])
  }

  predicate QueueOk(queue: seq<Order>, side: Side, clock: nat) {
    && Positive(queue)
    && Sorted(queue, side)
    && forall i :: 0 <= i < |queue| ==> queue[i].side == side && !queue[i].isMarket && queue[i].arrival < clock
  }

  /** Every bid strictly below every ask. */
  predicate Uncrossed(book: Book) {
    forall i, j :: 0 <= i < |book.bids| && 0 <= j < |book.asks| ==> book.bids[i].price < book.asks[j].price
  }

  predicate BookOk(book: Book, clock: nat) {
    QueueOk(book.bids, Buy, clock) && QueueOk(book.asks, Sell, clock) && Uncrossed(book)
  }

  lemma {:induction false} InsertMembers(queue: seq<Order>, ord: Order, side: Side)
    ensures |Insert(queue, ord, side)| == |queue| + 1
    ensures multiset(Insert(queue, ord, side)) == multiset(queue) + multiset{ord}
    decreases |queue|
  {
    if queue != [] {
      var n := |queue| - 1;
      assert queue == queue[..n] + [queue[n]];
      if BetterPrice(side, ord.price, queue[n].price) { InsertMembers(queue[..n], ord, side); }
    }
  }

  /** The last trade a book publishes is the one with the last maker taken, at its price; a call that
      trades with nobody leaves it as it was. */
  lemma LastTradeExact(book: Book, ord: Order)
    requires Positive(Opposite(book, ord.side))
    ensures var (after, m) := AfterMatch(book, ord);
            var queue, n := Opposite(book, ord.side), |m.trades|;
            && (n == 0 ==> after.lastTrade == book.lastTrade)
            && (n > 0 ==>
                  && n <= |queue| && after.lastTrade.Some?
                  && after.lastTrade.value.Maker() == queue[n - 1].id && after.lastTrade.value.Taker() == ord.id
                  && after.lastTrade.value.price == queue[n - 1].price)
            && (n > 0 ==>
                  || m.queue == queue[n..]
                  || (m.queue != [] && m.queue[1..] == queue[n..]
                      && m.queue[0] == queue[n - 1].(volume := m.queue[0].volume)))
  {
    MatchConsumesFront(ord, Opposite(book, ord.side));
  }

  /** A later arrival is inserted behind every order of its own price. */
  lemma {:induction false} InsertSorted(queue: seq<Order>, ord: Order, side: Side)
    requires Sorted(queue, side)
    requires forall i :: 0 <= i < |queue| ==> queue[i].arrival < ord.arrival
    ensures Sorted(Insert(queue, ord, side), side)
    decreases |queue|
  {
    if queue != [] {
      var n := |queue| - 1;
      var last := queue[n];
      if BetterPrice(side, ord.price, last.price) {
        InsertSorted(queue[..n], ord, side);
        InsertMembers(queue[..n], ord, side);
        var front := Insert(queue[..n], ord, side);
        forall o | o in front ensures Ahead(side, o, last) {
          assert o in multiset(front);
          assert o in multiset(queue[..n]) + multiset{ord};
          if o != ord { assert o in queue[..n]; }
        }
        assert Insert(queue, ord, side) == front + [last];
      }
    }
  }

  /** Sorting a queue that is already in order only has to place the new tail. */
  lemma {:induction false} StableSortSorted(queue: seq<Order>, side: Side)
    requires Sorted(queue, side)
    ensures StableSort(queue, side) == queue
    decreases |queue|
  {
    if queue != [] {
      var n := |queue| - 1;
      StableSortSorted(queue[..n], side);
      if n > 0 { assert Ahead(side, queue[n - 1], queue[n]); }
    }
  }

  lemma EnqueueInserts(queue: seq<Order>, ord: Order, side: Side)
    requires Sorted(queue, side)
    ensures StableSort(queue + [ord], side) == Insert(queue, ord, side)
  {
    StableSortSorted(queue, side);
    assert (queue + [ord])[..|queue|] == queue;
  }

  /** The queue after a match is still in order. */
  lemma MatchKeepsQueueOk(incoming: Order, queue: seq<Order>, side: Side, clock: nat)
    requires QueueOk(queue, side, clock)
    ensures QueueOk(MatchQueue(incoming, queue).queue, side, clock)
    ensures forall o :: o in MatchQueue(incoming, queue).queue ==> exists p :: p in queue && p.price == o.price
  {
    var rest := MatchQueue(incoming, queue).queue;
    forall i | 0 <= i < |rest|
      ensures rest[i].volume > 0 && rest[i].side == side && !rest[i].isMarket && rest[i].arrival < clock
      ensures exists p :: p in queue && p.price == rest[i].price
    {
      var k := LeftoverAt(incoming, queue, i);
      assert queue[k] in queue;
    }
    forall i, j | 0 <= i < j < |rest| ensures Ahead(side, rest[i], rest[j]) {
      var k := LeftoverAt(incoming, queue, i);
      var l := LeftoverAt(incoming, queue, j);
      assert Ahead(side, queue[k], queue[l]);
    }
  }

  lemma StopsAtLimit(incoming: Order, queue: seq<Order>)
    requires Positive(queue) && MatchQueue(incoming, queue).left > 0
    ensures var rest := MatchQueue(incoming, queue).queue; rest == [] || !Crosses(incoming, rest[0])
  {
    MatchConsumesFront(incoming, queue);
    hide MatchQueue;
  }

  /** After a limit order's match, its remainder no longer crosses the opposite queue. */
  lemma RemainderUncrossed(incoming: Order, queue: seq<Order>, side: Side, clock: nat)
    requires QueueOk(queue, side, clock) && side != incoming.side && !incoming.isMarket
    requires MatchQueue(incoming, queue).left > 0
    ensures forall o :: o in MatchQueue(incoming, queue).queue ==> !Crosses(incoming, o)
  {
    StopsAtLimit(incoming, queue);
    MatchKeepsQueueOk(incoming, queue, side, clock);
    hide MatchQueue, QueueOk, Crosses;
    BehindTheFirst(incoming, MatchQueue(incoming, queue).queue, side, clock);
  }

  lemma BehindTheFirst(incoming: Order, rest: seq<Order>, side: Side, clock: nat)
    requires QueueOk(rest, side, clock) && side != incoming.side && !incoming.isMarket
    requires rest == [] || !Crosses(incoming, rest[0])
    ensures forall o :: o in rest ==> !Crosses(incoming, o)
  {
    forall i | 0 <= i < |rest| ensures !Crosses(incoming, rest[i]) {
      assert i > 0 ==> Ahead(side, rest[0], rest[i]);
    }
  }

  // ----- how much an order meets ---------------------------------------------------------

  /** The resting volume within the order's limit, wherever it stands in the queue. */
  function Crossing(incoming: Order, queue: seq<Order>): int {
    if queue == [] then 0
    else (if Crosses(incoming, queue[0]) then queue[0].volume else 0) + Crossing(incoming, queue[1..])
  }

  /** Sending the order does nothing: it has no volume, or it is a market order and nobody is there. */
  predicate NoEffect(book: Book, ord: Order) {
    ord.volume <= 0 || (ord.isMarket && Opposite(book, ord.side) == [])
  }

  /** Nothing of the order is left to rest. */
  predicate Absorbed(book: Book, ord: Order) {
    ord.isMarket || ord.volume <= Crossing(ord, Opposite(book, ord.side))
  }

  /** What the order trades at once. */
  function Taken(book: Book, ord: Order): int {
    Min(ord.volume, Crossing(ord, Opposite(book, ord.side)))
  }

  /** What it brings in under its own id, to trade or to rest. */
  function Brought(book: Book, ord: Order): int {
    if ord.volume <= 0 then 0 else if ord.isMarket then Taken(book, ord) else ord.volume
  }

  lemma {:induction false} CrossingNonNeg(incoming: Order, queue: seq<Order>)
    requires Positive(queue)
    ensures Crossing(incoming, queue) >= 0
    ensures incoming.isMarket && queue != [] ==> Crossing(incoming, queue) > 0
    decreases |queue|
  {
    if queue != [] { CrossingNonNeg(incoming, queue[1..]); }
  }

  lemma {:induction false} CrossingNone(incoming: Order, queue: seq<Order>)
    requires forall i :: 0 <= i < |queue| ==> !Crosses(incoming, queue[i])
    ensures Crossing(incoming, queue) == 0
    decreases |queue|
  {
    if queue != [] { CrossingNone(incoming, queue[1..]); }
  }

  lemma CrossingBehind(incoming: Order, queue: seq<Order>, side: Side, clock: nat)
    requires QueueOk(queue, side, clock) && side != incoming.side && queue != [] && !Crosses(incoming, queue[0])
    ensures Crossing(incoming, queue) == 0
  {
    BehindTheFirst(incoming, queue, side, clock);
    CrossingNone(incoming, queue);
  }

  lemma QueueTail(queue: seq<Order>, side: Side, clock: nat)
    requires QueueOk(queue, side, clock) && queue != []
    ensures queue[0].volume > 0 && QueueOk(queue[1..], side, clock)
  {
  }

  /** A match takes all there is within the limit, up to the order's volume. */
  lemma {:induction false} MatchTakesCrossing(incoming: Order, v: int, queue: seq<Order>, side: Side, clock: nat)
    requires QueueOk(queue, side, clock) && side != incoming.side && v >= 0
    ensures MatchQueue(incoming.(volume := v), queue).left == v - Min(v, Crossing(incoming, queue))
    decreases |queue|
  {
    CrossingNonNeg(incoming, queue);
    if v != 0 && queue != [] {
      QueueTail(queue, side, clock);
      if !Crosses(incoming, queue[0]) {
        CrossingBehind(incoming, queue, side, clock);
        hide QueueOk;
      } else if queue[0].volume <= v {
        var trade := StepPastFront(incoming, queue, v);
        MatchTakesCrossing(incoming, v - queue[0].volume, queue[1..], side, clock);
        hide QueueOk, MatchQueue;
      } else {
        CrossingNonNeg(incoming, queue[1..]);
        hide QueueOk;
      }
    }
  }

  /** What a call trades, and what it leaves to rest, reckoned beforehand. */
  lemma CallTakes(book: Book, ord: Order, clock: nat)
    requires BookOk(book, clock) && ord.volume >= 0
    ensures var m := AfterMatch(book, ord).1;
            0 <= Volume(m.trades) == Taken(book, ord) && m.left == ord.volume - Taken(book, ord)
    ensures Taken(book, ord) == 0 <==> AddLimit(book, ord).1 == []
  {
    var queue := Opposite(book, ord.side);
    var side := if ord.side.Buy? then Sell else Buy;
    assert ord.(volume := ord.volume) == ord;
    MatchTakesCrossing(ord, ord.volume, queue, side, clock);
    CrossingNonNeg(ord, queue);
    MatchConsumesFront(ord, queue);
    VolumeZero(MatchQueue(ord, queue).trades);
  }

  lemma {:induction false} VolumeZero(trades: seq<Trade>)
    requires forall i :: 0 <= i < |trades| ==> trades[i].volume > 0
    ensures 0 <= Volume(trades) && (Volume(trades) == 0 <==> trades == [])
    decreases |trades|
  {
    if trades != [] { VolumeZero(trades[1..]); }
  }

  lemma BroughtPositive(book: Book, ord: Order)
    requires Positive(Opposite(book, ord.side))
    ensures Brought(book, ord) >= 0 && (Brought(book, ord) == 0 <==> NoEffect(book, ord))
  {
    CrossingNonNeg(ord, Opposite(book, ord.side));
  }

  lemma NothingHappens(book: Book, ord: Order)
    requires NoEffect(book, ord)
    ensures AddLimit(book, ord) == (book, [])
  {
  }

  lemma QueueOkLater(queue: seq<Order>, side: Side, clock: nat, clock': nat)
    requires QueueOk(queue, side, clock) && clock <= clock'
    ensures QueueOk(queue, side, clock')
  {
  }

  lemma InsertKeepsQueueOk(queue: seq<Order>, ord: Order, side: Side)
    requires QueueOk(queue, side, ord.arrival) && ord.side == side && !ord.isMarket && ord.volume > 0
    ensures QueueOk(StableSort(queue + [ord], side), side, ord.arrival + 1)
    ensures forall o :: o in StableSort(queue + [ord], side) <==> o in queue || o == ord
  {
    EnqueueInserts(queue, ord, side);
    InsertMembers(queue, ord, side);
    InsertSorted(queue, ord, side);
    var q := Insert(queue, ord, side);
    forall o ensures o in q <==> o in queue || o == ord {
      assert o in q <==> o in multiset(q);
    }
    forall i | 0 <= i < |q| ensures q[i].volume > 0 && q[i].side == side && !q[i].isMarket
        && q[i].arrival < ord.arrival + 1 {
      assert q[i] in q;
    }
  }

  /** The book after matching, before the remainder is queued, is still ordered and uncrossed. */
  lemma AfterMatchOk(book: Book, ord: Order, clock: nat)
    requires BookOk(book, clock)
    ensures BookOk(AfterMatch(book, ord).0, clock)
  {
    var opposite := Opposite(book, ord.side);
    var side := if ord.side.Buy? then Sell else Buy;
    MatchKeepsQueueOk(ord, opposite, side, clock);
    var queue := MatchQueue(ord, opposite).queue;
    forall i | 0 <= i < |queue| ensures exists p :: p in opposite && p.price == queue[i].price {
      assert queue[i] in queue;
    }
  }

  lemma AddLimitKeepsBookOk(book: Book, ord: Order)
    requires BookOk(book, ord.arrival)
    ensures BookOk(AddLimit(book, ord).0, ord.arrival + 1)
  {
    AfterMatchOk(book, ord, ord.arrival);
    var (matched, m) := AfterMatch(book, ord);
    QueueOkLater(matched.bids, Buy, ord.arrival, ord.arrival + 1);
    QueueOkLater(matched.asks, Sell, ord.arrival, ord.arrival + 1);
    QueueOkLater(book.bids, Buy, ord.arrival, ord.arrival + 1);
    QueueOkLater(book.asks, Sell, ord.arrival, ord.arrival + 1);
    if ord.volume != 0 && m.left > 0 && !ord.isMarket {
      var side := if ord.side.Buy? then Sell else Buy;
      RemainderUncrossed(ord, Opposite(book, ord.side), side, ord.arrival);
      var rest := ord.(volume := m.left);
      var own := if ord.side.Buy? then matched.bids else matched.asks;
      InsertKeepsQueueOk(own, rest, ord.side);
      EnqueuedUncrossed(matched, rest);
    }
  }

  lemma EnqueuedUncrossed(book: Book, ord: Order)
    requires Uncrossed(book) && !ord.isMarket
    requires QueueOk(book.bids, Buy, ord.arrival) && QueueOk(book.asks, Sell, ord.arrival) && ord.volume > 0
    requires forall o :: o in Opposite(book, ord.side) ==> !Crosses(ord, o)
    ensures Uncrossed(Enqueue(book, ord))
  {
    var book' := Enqueue(book, ord);
    if ord.side.Buy? {
      InsertKeepsQueueOk(book.bids, ord, Buy);
      assert Opposite(book, ord.side) == book.asks;
    } else {
      InsertKeepsQueueOk(book.asks, ord, Sell);
      assert Opposite(book, ord.side) == book.bids;
    }
    forall bid, ask | bid in book'.bids && ask in book'.asks
      ensures bid.price < ask.price
    {
      if bid in book.bids && ask in book.asks {
        var i :| 0 <= i < |book.bids| && book.bids[i] == bid;
        var j :| 0 <= j < |book.asks| && book.asks[j] == ask;
      }
    }
  }

  lemma ExecuteIocKeepsBookOk(book: Book, ord: Order, clock: nat)
    requires BookOk(book, clock)
    ensures BookOk(ExecuteIoc(book, ord).0, clock)
  {
    AfterMatchOk(book, ord, clock);
  }

  lemma WithoutKeepsQueueOk(queue: seq<Order>, i: nat, side: Side, clock: nat)
    requires QueueOk(queue, side, clock) && i < |queue|
    ensures QueueOk(Without(queue, i), side, clock)
    ensures forall o :: o in Without(queue, i) ==> o in queue
  {
    var q := Without(queue, i);
    forall k | 0 <= k < |q| ensures q[k] == queue[if k < i then k else k + 1] {
    }
  }

  lemma CancelKeepsBookOk(book: Book, id: OrderId, clock: nat)
    requires BookOk(book, clock)
    ensures BookOk(Cancel(book, id).0, clock)
  {
    var i, j := FindId(book.bids, id), FindId(book.asks, id);
    var book' := Cancel(book, id).0;
    if i < |book.bids| {
      WithoutKeepsQueueOk(book.bids, i, Buy, clock);
      forall k | 0 <= k < |book'.bids| ensures book'.bids[k] in book.bids {
      }
    } else if j < |book.asks| {
      WithoutKeepsQueueOk(book.asks, j, Sell, clock);
      forall k | 0 <= k < |book'.asks| ensures book'.asks[k] in book.asks {
      }
    }
  }

  // ----- runs ----------------------------------------------------------------------------

  datatype Op = Limit(ord: Order) | Ioc(taker: Order) | CancelOp(id: OrderId)

  function Apply(book: Book, op: Op): (Book, seq<Trade>) {
    match op
    case Limit(ord) => AddLimit(book, ord)
    case Ioc(taker) => ExecuteIoc(book, taker)
    case CancelOp(id) => (Cancel(book, id).0, [])
  }

  function RunBook(book: Book, ops: seq<Op>): Book
    decreases |ops|
  {
    if ops == [] then book else RunBook(Apply(book, ops[0]).0, ops[1..])
  }

  /** Orders are stamped with their place in the run. */
  predicate Stamped(ops: seq<Op>, clock: nat) {
    forall i :: 0 <= i < |ops| && ops[i].Limit? ==> ops[i].ord.arrival == clock + i
  }

  lemma ApplyKeepsBookOk(book: Book, op: Op, clock: nat)
    requires BookOk(book, clock) && (op.Limit? ==> op.ord.arrival == clock)
    ensures BookOk(Apply(book, op).0, clock + 1)
  {
    match op
    case Limit(ord) => AddLimitKeepsBookOk(book, ord);
    case Ioc(taker) =>
      ExecuteIocKeepsBookOk(book, taker, clock);
      var b := ExecuteIoc(book, taker).0;
      QueueOkLater(b.bids, Buy, clock, clock + 1);
      QueueOkLater(b.asks, Sell, clock, clock + 1);
    case CancelOp(id) =>
      CancelKeepsBookOk(book, id, clock);
      var b := Cancel(book, id).0;
      QueueOkLater(b.bids, Buy, clock, clock + 1);
      QueueOkLater(b.asks, Sell, clock, clock + 1);
  }

  /** In every run the book stays uncrossed, positive and in price-then-arrival order. */
  lemma {:induction false} RunKeepsBookOk(book: Book, ops: seq<Op>, clock: nat)
    requires BookOk(book, clock) && Stamped(ops, clock)
    ensures BookOk(RunBook(book, ops), clock + |ops|)
    decreases |ops|
  {
    if ops != [] {
      ApplyKeepsBookOk(book, ops[0], clock);
      RunKeepsBookOk(Apply(book, ops[0]).0, ops[1..], clock + 1);
    }
  }

  /** Whoever is left on the maker's side after a match is not ahead of a maker that traded. */
  lemma {:induction false} MatchRespectsPriority(
    taker: Order, queue: seq<Order>, side: Side, clock: nat, i: nat, waiting: Order)
    requires QueueOk(queue, side, clock) && side != taker.side
    requires i < |MatchQueue(taker, queue).trades| && i < |queue|
    requires waiting in MatchQueue(taker, queue).queue
    ensures MatchQueue(taker, queue).trades[i] == MakeTrade(taker, queue[i], MatchQueue(taker, queue).trades[i].volume)
    ensures !Ahead(side, waiting, queue[i])
  {
    var m := MatchQueue(taker, queue);
    var j :| 0 <= j < |m.queue| && m.queue[j] == waiting;
    var k := LeftoverAt(taker, queue, j);
    if i < k { assert Ahead(side, queue[i], queue[k]); }
    TradeAt(taker, queue, i);
  }

  lemma {:induction false} TradeAt(taker: Order, queue: seq<Order>, i: nat)
    requires Positive(queue) && i < |MatchQueue(taker, queue).trades|
    ensures var trade := MatchQueue(taker, queue).trades[i];
            i < |queue| && trade == MakeTrade(taker, queue[i], trade.volume) && Crosses(taker, queue[i])
  {
    MatchConsumesFront(taker, queue);
  }

  /** No trade-through: after any operation of any run, an order still resting on the maker's
      side is never ahead of a maker that traded, in price-then-arrival order. */
  lemma NoTradeThrough(ops: seq<Op>, taker: Order, i: nat, waiting: Order)
    requires Stamped(ops, 0)
    requires var book := RunBook(EMPTY_BOOK, ops);
             var (after, m) := AfterMatch(book, taker);
             i < |m.trades| && waiting in Opposite(after, taker.side)
    ensures var book := RunBook(EMPTY_BOOK, ops);
            var queue := Opposite(book, taker.side);
            var trade := AfterMatch(book, taker).1.trades[i];
            && i < |queue|
            && trade.Maker() == queue[i].id && trade.price == queue[i].price
            && !Ahead(if taker.side.Buy? then Sell else Buy, waiting, queue[i])
  {
    RunKeepsBookOk(EMPTY_BOOK, ops, 0);
    var queue := Opposite(RunBook(EMPTY_BOOK, ops), taker.side);
    TradeAt(taker, queue, i);
    MatchRespectsPriority(taker, queue, if taker.side.Buy? then Sell else Buy, |ops|, i, waiting);
  }

  // ----- immediate-or-cancel -------------------------------------------------------------

  /** Executing a+b at once or a then b leaves the same book queues, the same volume traded
      with every maker and the same total notional. */
  lemma IocAdditive(book: Book, ord: Order, a: int, b: int, id: OrderId)
    requires 0 < a && 0 < b
    requires Positive(book.bids) && Positive(book.asks)
    ensures var (whole, wt) := ExecuteIoc(book, ord.(volume := a + b));
            var (half, ht) := ExecuteIoc(book, ord.(volume := a));
            var (both, bt) := ExecuteIoc(half, ord.(volume := b));
            && whole.bids == both.bids && whole.asks == both.asks
            && Notional(wt) == Notional(ht + bt)
            && MakerVolume(wt, id) == MakerVolume(ht + bt, id)
  {
    var half := ExecuteIoc(book, ord.(volume := a));
    MatchAdditive(ord, Opposite(book, ord.side), a, b, id);
    TradesConcat(half.1, ExecuteIoc(half.0, ord.(volume := b)).1, id);
  }

  ghost predicate Fresh(book: Book, id: OrderId) {
    forall o :: o in book.bids || o in book.asks ==> o.id != id
  }

  lemma {:induction false} FindInserted(queue: seq<Order>, ord: Order, side: Side)
    requires forall o :: o in queue ==> o.id != ord.id
    ensures var q := Insert(queue, ord, side);
            var i := FindId(q, ord.id);
            i < |q| && q[i] == ord && Without(q, i) == queue
    decreases |queue|
  {
    hide FindId;
    if queue != [] && BetterPrice(side, ord.price, queue[|queue| - 1].price) {
      var n := |queue| - 1;
      FindInserted(queue[..n], ord, side);
      var q := Insert(queue[..n], ord, side);
      assert Insert(queue, ord, side) == q + [queue[n]];
      hide Insert, BetterPrice;
      FindExtended(q, queue[n], ord.id);
      FrontAndLast(queue);
    } else {
      assert Insert(queue, ord, side) == queue + [ord];
      hide Insert, BetterPrice;
      FindLast(queue, ord);
    }
  }

  lemma FrontAndLast(queue: seq<Order>)
    requires queue != []
    ensures queue[..|queue| - 1] + [queue[|queue| - 1]] == queue
  {
  }

  lemma FindLast(queue: seq<Order>, ord: Order)
    requires forall o :: o in queue ==> o.id != ord.id
    ensures FindId(queue + [ord], ord.id) == |queue| && Without(queue + [ord], |queue|) == queue
  {
    hide FindId;
    FindUnique(queue + [ord], ord.id, |queue|);
  }

  lemma {:induction false} FindExtended(queue: seq<Order>, last: Order, id: OrderId)
    requires FindId(queue, id) < |queue|
    ensures FindId(queue + [last], id) == FindId(queue, id)
    ensures Without(queue + [last], FindId(queue, id)) == Without(queue, FindId(queue, id)) + [last]
  {
    FindUnique(queue + [last], id, FindId(queue, id));
  }

  lemma FindUnique(queue: seq<Order>, id: OrderId, i: nat)
    requires i < |queue| && queue[i].id == id && forall j :: 0 <= j < i ==> queue[j].id != id
    ensures FindId(queue, id) == i
  {
    var k := FindId(queue, id);
    assert k <= i;
  }

  lemma {:induction false} FindMissing(queue: seq<Order>, id: OrderId)
    requires forall o :: o in queue ==> o.id != id
    ensures FindId(queue, id) == |queue|
    decreases |queue|
  {
    if queue != [] { FindMissing(queue[1..], id); }
  }

  /** Matching only ever removes ids from a queue. */
  lemma MatchKeepsIds(incoming: Order, queue: seq<Order>, id: OrderId)
    requires Positive(queue) && forall o :: o in queue ==> o.id != id
    ensures forall o :: o in MatchQueue(incoming, queue).queue ==> o.id != id
  {
    var rest := MatchQueue(incoming, queue).queue;
    forall o | o in rest ensures o.id != id {
      var j :| 0 <= j < |rest| && rest[j] == o;
      var k := LeftoverAt(incoming, queue, j);
      assert queue[k] in queue;
    }
  }

  /** An immediate-or-cancel order is a placement under a fresh id followed by the
      cancellation of whatever is left of it. */
  lemma IocIsPlaceThenCancel(book: Book, ord: Order, clock: nat)
    requires BookOk(book, clock) && Fresh(book, ord.id)
    ensures var (placed, pt) := AddLimit(book, ord);
            var (ioc, it) := ExecuteIoc(book, ord);
            pt == it && Cancel(placed, ord.id).0 == ioc
  {
    AfterMatchOk(book, ord, clock);
    var (matched, m) := AfterMatch(book, ord);
    MatchKeepsIds(ord, Opposite(book, ord.side), ord.id);
    CancelMissing(book, ord.id);
    CancelMissing(matched, ord.id);
    if ord.volume != 0 && m.left > 0 && !ord.isMarket {
      CancelEnqueued(matched, ord.(volume := m.left), clock);
    }
  }

  lemma CancelMissing(book: Book, id: OrderId)
    requires Fresh(book, id)
    ensures Cancel(book, id) == (book, None)
  {
    FindMissing(book.bids, id);
    FindMissing(book.asks, id);
  }

  lemma CancelEnqueued(book: Book, ord: Order, clock: nat)
    requires Sorted(book.bids, Buy) && Sorted(book.asks, Sell) && Fresh(book, ord.id)
    ensures Cancel(Enqueue(book, ord), ord.id) == (book, Some(ord))
  {
    var own := if ord.side.Buy? then book.bids else book.asks;
    EnqueueInserts(own, ord, ord.side);
    FindInserted(own, ord, ord.side);
    FindMissing(book.bids, ord.id);
    FindMissing(book.asks, ord.id);
  }
}
