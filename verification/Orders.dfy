/**
 The vocabulary of internal/orderbook on values: orders, trades, one instrument's book, and
 what matching, queueing and cancelling do to it. OrderBook.dfy holds the mutable book and
 proves that it computes these functions.
 */
module Orders {
  import opened Common
  import opened FixedPoint

  datatype Side = Buy | Sell

  /** Engine order ids by origin: "binance:<n>" from the Binance edge, the seeder's
      "synth:<instrument>:<side>:<price>#<generation>", and everybody else's. */
  datatype OrderId =
    | Edge(num: nat)
    | Synth(level: Side, at: int, generation: nat)
    | Other(tag: string)

  /** `arrival` is the order's place in the sequence of orders sent to the book. The Go
      struct has no such field and nothing here branches on it: it is what price-then-time
      order is stated with. */
  datatype Order = Order(id: OrderId, side: Side, price: int, volume: int, isMarket: bool, arrival: nat)

  datatype Trade = Trade(buyId: OrderId, sellId: OrderId, price: int, volume: int, taker: Side) {
    function Maker(): OrderId {
      if taker.Buy? then sellId else buyId
    }

    function Taker(): OrderId {
      if taker.Buy? then buyId else sellId
    }
  }

  datatype Book = Book(bids: seq<Order>, asks: seq<Order>, lastTrade: Option<Trade>)

  const EMPTY_BOOK := Book([], [], None)

  // ----- matching ------------------------------------------------------------------------

  /** The price rule: a limit order takes a resting order only at its own price or better. */
  predicate Crosses(incoming: Order, resting: Order) {
    || incoming.isMarket
    || if incoming.side.Buy? then incoming.price >= resting.price else incoming.price <= resting.price
  }

  function MakeTrade(incoming: Order, resting: Order, traded: int): Trade {
    if incoming.side.Buy?
    then Trade(incoming.id, resting.id, resting.price, traded, Buy)
    else Trade(resting.id, incoming.id, resting.price, traded, Sell)
  }

  datatype Match = Match(trades: seq<Trade>, queue: seq<Order>, left: int)

  /** What matchLocked does to the opposite queue: walk it from the front while volume is
      left and the price allows, removing exhausted makers. */
  function MatchQueue(incoming: Order, queue: seq<Order>): Match
    decreases |queue|
  {
    if incoming.volume <= 0 || queue == [] || !Crosses(incoming, queue[0]) then
      Match([], queue, incoming.volume)
    else
      var resting := queue[0];
      var traded := Min(incoming.volume, resting.volume);
      var trade := MakeTrade(incoming, resting, traded);
      var incoming' := incoming.(volume := incoming.volume - traded);
      if resting.volume == traded then
        var rest := MatchQueue(incoming', queue[1..]);
        Match([trade] + rest.trades, rest.queue, rest.left)
      else
        Match([trade], [resting.(volume := resting.volume - traded)] + queue[1..], incoming'.volume)
  }

  function Opposite(book: Book, side: Side): seq<Order> {
    if side.Buy? then book.asks else book.bids
  }

  function WithOpposite(book: Book, side: Side, queue: seq<Order>): Book {
    if side.Buy? then book.(asks := queue) else book.(bids := queue)
  }

  function LastOf(trades: seq<Trade>, before: Option<Trade>): Option<Trade> {
    if trades == [] then before else Some(trades[|trades| - 1])
  }

  /** The book after matching, before the remainder is queued. */
  function AfterMatch(book: Book, incoming: Order): (Book, Match) {
    var m := MatchQueue(incoming, Opposite(book, incoming.side));
    (WithOpposite(book, incoming.side, m.queue).(lastTrade := LastOf(m.trades, book.lastTrade)), m)
  }

  // ----- queueing ------------------------------------------------------------------------

  /** Strictly better price for the given side of the book (the sort's comparison). */
  predicate BetterPrice(side: Side, p: int, q: int) {
    if side.Buy? then p > q else p < q
  }

  /** Place `ord` behind every order that it does not beat on price. */
  function Insert(queue: seq<Order>, ord: Order, side: Side): seq<Order> {
    if queue == [] then [ord]
    else if BetterPrice(side, ord.price, queue[|queue| - 1].price) then
      Insert(queue[..|queue| - 1], ord, side) + [queue[|queue| - 1]]
    else queue + [ord]
  }

  /** The stable sort by price, best first. */
  function StableSort(queue: seq<Order>, side: Side): seq<Order> {
    if queue == [] then []
    else Insert(StableSort(queue[..|queue| - 1], side), queue[|queue| - 1], side)
  }

  function Enqueue(book: Book, ord: Order): Book {
    if ord.side.Buy?
    then book.(bids := StableSort(book.bids + [ord], Buy))
    else book.(asks := StableSort(book.asks + [ord], Sell))
  }

  // ----- the book's operations -----------------------------------------------------------

  function AddLimit(book: Book, ord: Order): (Book, seq<Trade>) {
    if ord.volume == 0 then (book, [])
    else
      var (matched, m) := AfterMatch(book, ord);
      if m.left > 0 && !ord.isMarket
      then (Enqueue(matched, ord.(volume := m.left)), m.trades)
      else (matched, m.trades)
  }

  function ExecuteIoc(book: Book, ord: Order): (Book, seq<Trade>) {
    if ord.volume <= 0 then (book, [])
    else
      var (matched, m) := AfterMatch(book, ord);
      (matched, m.trades)
  }

  /** Index of the first order with this id, or |queue|. */
  function FindId(queue: seq<Order>, id: OrderId): (i: nat)
    ensures i <= |queue|
    ensures i < |queue| ==> queue[i].id == id
    ensures forall j :: 0 <= j < i ==> queue[j].id != id
  {
    if queue == [] then 0
    else if queue[0].id == id then 0
    else
      var i := FindId(queue[1..], id);
      assert forall j :: 0 < j < i + 1 ==> queue[j] == queue[1..][j - 1];
      i + 1
  }

  function Without(queue: seq<Order>, i: nat): seq<Order>
    requires i < |queue|
  {
    queue[..i] + queue[i + 1..]
  }

  /** Bids are searched before asks; only the first order with the id goes. */
  function Cancel(book: Book, id: OrderId): (Book, Option<Order>) {
    var i := FindId(book.bids, id);
    var j := FindId(book.asks, id);
    if i < |book.bids| then (book.(bids := Without(book.bids, i)), Some(book.bids[i]))
    else if j < |book.asks| then (book.(asks := Without(book.asks, j)), Some(book.asks[j]))
    else (book, None)
  }
}
