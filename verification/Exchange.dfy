/**
 The Binance edge as a concurrent state machine: registry, ledger, one book per instrument,
 and the handlers and book hooks that glue them (rest.go, server.go). Every region that
 runs under one lock is one step, so handlers of different clients and hooks of different
 instruments interleave freely; the hooks of one instrument run under its book's lock, which
 is held until the last of them has run.
 */
module Exchange {
  import opened FixedPoint
  import opened Orders
  import opened Matching
  import opened Registry
  import opened Ledger

  // ----- state ---------------------------------------------------------------------------

  /** Hook work still owed by the holder of one book's lock. For a trade: the registry hook,
      then the ledger hook for each edge side. For a cancel: the registry hook, then the ledger's. */
  datatype Event =
    | Fold(trade: Trade)
    | Settle(num: nat, isBuy: bool, qty: int, price: int)
    | CancelFold(ord: Order)
    | CancelUnlock(ord: Order)

  /** Where the handler placing order n has got to. Live: the book call has been made. */
  datatype Phase = Drawn | Claimed | Unfunded | Reserved | Refund(asset: string, amt: int) | Live

  /** `fills` counts the limit-buy fills settled so far per quote asset, `clock` the orders sent to the
      books, and `overdrawn` says whether a market sell has been settled at a negative cost; nothing
      branches on any of them. */
  datatype Sys = Sys(
    next: nat, recs: Recs, clients: Clients, phase: map<nat, Phase>, bal: Balances,
    books: map<string, Book>, pend: map<string, seq<Event>>, acks: set<nat>, fills: map<string, nat>, clock: nat,
    overdrawn: bool)

  function Pend(s: Sys, sym: string): seq<Event> {
    if sym in s.pend then s.pend[sym] else []
  }

  function BookOf(s: Sys, sym: string): Book {
    if sym in s.books then s.books[sym] else EMPTY_BOOK
  }

  function Fills(s: Sys, asset: string): nat {
    if asset in s.fills then s.fills[asset] else 0
  }

  // ----- symbols and reservations --------------------------------------------------------

  function FindHyphen(sym: string): (i: nat)
    ensures i <= |sym|
  {
    if sym == "" then 0 else if sym[0] == '-' then 0 else 1 + FindHyphen(sym[1..])
  }

  /** "BTC-USD" has base "BTC" and quote "USD"; without a hyphen the quote is empty. */
  function BaseOf(sym: string): string {
    sym[..FindHyphen(sym)]
  }

  function QuoteOf(sym: string): string {
    var i := FindHyphen(sym);
    if i < |sym| then sym[i + 1..] else ""
  }

  /** What the two parts are: a symbol is its base, a hyphen and its quote, the base without a hyphen; one
      without a hyphen is its own base. */
  lemma {:induction false} SymbolSplits(sym: string, base: string, quote: string)
    requires '-' !in base
    ensures BaseOf(base + "-" + quote) == base && QuoteOf(base + "-" + quote) == quote
    ensures '-' !in sym ==> BaseOf(sym) == sym && QuoteOf(sym) == ""
  {
    HyphenAt(base, quote);
    NoHyphen(sym);
    hide FindHyphen;
    assert base + "-" + quote == base + ("-" + quote);
  }

  lemma {:induction false} HyphenAt(base: string, quote: string)
    requires '-' !in base
    ensures FindHyphen(base + "-" + quote) == |base|
    decreases |base|
  {
    if base != "" {
      assert (base + "-" + quote)[1..] == base[1..] + "-" + quote;
      HyphenAt(base[1..], quote);
    }
  }

  lemma {:induction false} NoHyphen(sym: string)
    ensures '-' !in sym ==> FindHyphen(sym) == |sym|
    decreases |sym|
  {
    if sym != "" { NoHyphen(sym[1..]); }
  }

  function LockAsset(rec: Rec): string {
    if rec.side.Buy? then QuoteOf(rec.sym) else BaseOf(rec.sym)
  }

  /** What is reserved for (and what cancelling releases of) `qty` units of a limit order. */
  function LockAmount(rec: Rec, qty: int): int {
    if rec.side.Buy? then MulRaw(qty, rec.price) else qty
  }

  // ----- steps ---------------------------------------------------------------------------

  datatype Step =
    | DrawId
    | Claim(n: nat, req: Request)
    | Reserve(n: nat)
    | RollBack(n: nat)
    | Refunded(n: nat)
    | Place(n: nat)
    | OutsideOrder(sym: string, ord: Order)
    | OutsideIoc(sym: string, ord: Order)
    | CancelResting(sym: string, id: OrderId)
    | RunHook(sym: string)
    | AckCancel(n: nat)
    | Deposit(asset: string, amt: int)
    | Withdraw(asset: string, amt: int)
    | BurnUnits(asset: string, amt: int)

  predicate LockFree(s: Sys, sym: string) {
    sym in s.books && Pend(s, sym) == []
  }

  /** Orders under an id that is not of this edge's kind. */
  predicate Outside(ord: Order) {
    !ord.id.Edge?
  }

  /** n is the number of an order of this edge that has gone to the instrument's book. */
  predicate OwnedBy(s: Sys, sym: string, n: nat) {
    n in s.recs && n in s.phase && s.phase[n].Live? && s.recs[n].sym == sym
  }

  /** The order is under the id of a live market order of this edge, on its side, trades no more than
      that one has left, and nothing of it is left to rest. */
  predicate TopsUp(s: Sys, sym: string, ord: Order)
    requires sym in s.books && ord.id.Edge?
  {
    var n := ord.id.num;
    && OwnedBy(s, sym, n) && s.recs[n].typ.MarketType? && s.recs[n].side == ord.side
    && Absorbed(s.books[sym], ord) && Taken(s.books[sym], ord) <= s.recs[n].orig - s.recs[n].executed
  }

  /** Orders not sent by this edge, at whatever price: under an id that is not of its kind, or such that
      the id makes no difference. */
  predicate Harmless(s: Sys, sym: string, ord: Order)
    requires sym in s.books
  {
    Outside(ord) || NoEffect(s.books[sym], ord) || TopsUp(s, sym, ord)
  }

  ghost predicate Enabled(s: Sys, step: Step) {
    match step
    case DrawId => true
    case Claim(n, req) => n in s.phase && s.phase[n].Drawn? && req.Valid()
    case Reserve(n) => n in s.phase && s.phase[n].Claimed? && n in s.recs
    case RollBack(n) => n in s.phase && (s.phase[n].Unfunded? || s.phase[n].Reserved?) && n in s.recs
    case Refunded(n) => n in s.phase && s.phase[n].Refund?
    case Place(n) => n in s.phase && s.phase[n].Reserved? && n in s.recs && LockFree(s, s.recs[n].sym)
    case OutsideOrder(sym, ord) => LockFree(s, sym) && Harmless(s, sym, ord) && ord.arrival == s.clock
    case OutsideIoc(sym, ord) => LockFree(s, sym) && Outside(ord)
    case CancelResting(sym, id) => LockFree(s, sym)
    case RunHook(sym) => Pend(s, sym) != []
    case AckCancel(n) => n in s.acks
    case Deposit(asset, amt) => true
    case Withdraw(asset, amt) => true
    case BurnUnits(asset, amt) => true
  }

  function SettleEvent(id: OrderId, isBuy: bool, t: Trade): seq<Event> {
    if id.Edge? then [Settle(id.num, isBuy, t.volume, t.price)] else []
  }

  function EventsOf(trades: seq<Trade>): seq<Event> {
    if trades == [] then []
    else
      var t := trades[0];
      [Fold(t)] + SettleEvent(t.buyId, true, t) + SettleEvent(t.sellId, t.sellId == t.buyId, t) + EventsOf(trades[1..])
  }

  function EdgeOrder(rec: Rec, arrival: nat): Order {
    Order(Edge(rec.id), rec.side, rec.price, rec.orig, rec.typ.MarketType?, arrival)
  }

  function AfterTrading(s: Sys, sym: string, result: (Book, seq<Trade>)): Sys {
    s.(books := s.books[sym := result.0], pend := s.pend[sym := EventsOf(result.1)], clock := s.clock + 1)
  }

  /** A market sell filled by a bid so far below zero that its truncated cost is negative. */
  predicate Overdraws(rec: Rec, isBuy: bool, qty: int, price: int) {
    !isBuy && rec.typ.MarketType? && MulRaw(qty, price) < 0
  }

  /** settleFill: post one fill to the ledger under the order's recorded symbol and price. */
  function SettleHook(s: Sys, n: nat, isBuy: bool, qty: int, price: int): Sys {
    if n !in s.recs then s
    else
      var rec := s.recs[n];
      var quote := QuoteOf(rec.sym);
      s.(bal := SettleFill(s.bal, isBuy, BaseOf(rec.sym), quote, qty, price, rec.price),
         fills := if isBuy && rec.typ.LimitType? then s.fills[quote := Fills(s, quote) + 1] else s.fills,
         overdrawn := s.overdrawn || Overdraws(rec, isBuy, qty, price))
  }

  /** What a cancelled limit order still had reserved goes back to free. */
  function UnlockBal(recs: Recs, bal: Balances, o: Order): Balances {
    if !o.id.Edge? || o.id.num !in recs || !recs[o.id.num].typ.LimitType? then bal
    else
      var rec := recs[o.id.num];
      var remaining := rec.orig - rec.executed;
      if remaining <= 0 then bal else Unlock(bal, LockAsset(rec), LockAmount(rec, remaining))
  }

  /** unlockRemainder: release the rest of the reservation; the handler that asked will see it done. */
  function UnlockHook(s: Sys, o: Order): Sys {
    if !o.id.Edge? then s else s.(acks := s.acks + {o.id.num}, bal := UnlockBal(s.recs, s.bal, o))
  }

  function Process(s: Sys, e: Event): Sys {
    match e
    case Fold(t) => s.(recs := FoldTrade(s.recs, t))
    case Settle(n, isBuy, qty, price) => SettleHook(s, n, isBuy, qty, price)
    case CancelFold(o) => if o.id.Edge? then s.(recs := CancelRec(s.recs, o.id.num)) else s
    case CancelUnlock(o) => UnlockHook(s, o)
  }

  /** RecordUnique: claim the client id and enter the record, or answer "duplicate order". */
  function ClaimStep(s: Sys, n: nat, req: Request): Sys {
    if ClientFor(req, n) in s.clients then s.(phase := s.phase - {n})
    else s.(recs := s.recs[n := NewRec(n, req)], clients := s.clients[ClientFor(req, n) := n],
        phase := s.phase[n := Claimed])
  }

  /** Lock the funds of a limit order; a market order locks nothing. */
  function ReserveStep(s: Sys, n: nat): Sys
    requires n in s.recs
  {
    var rec := s.recs[n];
    if rec.typ.MarketType? then s.(phase := s.phase[n := Reserved])
    else
      var (bal, ok) := LockFunds(s.bal, LockAsset(rec), LockAmount(rec, rec.orig));
      s.(bal := bal, phase := s.phase[n := if ok then Reserved else Unfunded])
  }

  /** Drop the record of an order that could not be funded, or that the engine refused. */
  function RollBackStep(s: Sys, n: nat): Sys
    requires n in s.recs && n in s.phase
  {
    var rec := s.recs[n];
    s.(recs := DropRec(s.recs, n), clients := DropClient(s.recs, s.clients, n),
       phase := if s.phase[n].Unfunded? then s.phase - {n}
                else if rec.typ.MarketType? then s.phase[n := Refund("", 0)]
                else s.phase[n := Refund(LockAsset(rec), LockAmount(rec, rec.orig))])
  }

  /** Give back the reservation of a refused order. */
  function RefundStep(s: Sys, n: nat): Sys
    requires n in s.phase && s.phase[n].Refund?
  {
    s.(bal := Unlock(s.bal, s.phase[n].asset, s.phase[n].amt), phase := s.phase - {n})
  }

  /** The book call: match, queue the remainder, and take on the trades' hooks. */
  function PlaceStep(s: Sys, n: nat): Sys
    requires n in s.recs && s.recs[n].sym in s.books
  {
    var sym := s.recs[n].sym;
    AfterTrading(s, sym, AddLimit(s.books[sym], EdgeOrder(s.recs[n], s.clock))).(phase := s.phase[n := Live])
  }

  function CancelStep(s: Sys, sym: string, id: OrderId): Sys
    requires sym in s.books
  {
    var (book, removed) := Cancel(s.books[sym], id);
    if removed.None? then s
    else s.(books := s.books[sym := book],
        pend := s.pend[sym := [CancelFold(removed.value), CancelUnlock(removed.value)]])
  }

  function HookStep(s: Sys, sym: string): Sys
    requires Pend(s, sym) != []
  {
    var events := Pend(s, sym);
    Process(s.(pend := s.pend[sym := events[1..]]), events[0])
  }

  function Next(s: Sys, step: Step): Sys
    requires Enabled(s, step)
  {
    match step
    case DrawId => s.(next := s.next + 1, phase := s.phase[s.next + 1 := Drawn])
    case Claim(n, req) => ClaimStep(s, n, req)
    case Reserve(n) => ReserveStep(s, n)
    case RollBack(n) => RollBackStep(s, n)
    case Refunded(n) => RefundStep(s, n)
    case Place(n) => PlaceStep(s, n)
    case OutsideOrder(sym, ord) => AfterTrading(s, sym, AddLimit(s.books[sym], ord))
    case OutsideIoc(sym, ord) => AfterTrading(s, sym, ExecuteIoc(s.books[sym], ord))
    case CancelResting(sym, id) => CancelStep(s, sym, id)
    case RunHook(sym) => HookStep(s, sym)
    case AckCancel(n) => s.(recs := CancelRec(s.recs, n), acks := s.acks - {n})
    case Deposit(asset, amt) => s.(bal := Credit(s.bal, asset, amt))
    case Withdraw(asset, amt) => s.(bal := Debit(s.bal, asset, amt).0)
    case BurnUnits(asset, amt) => s.(bal := Burn(s.bal, asset, amt))
  }

  // ----- quantities in flight ------------------------------------------------------------

  function Part(id: OrderId, n: nat, v: int): int {
    if id == Edge(n) then v else 0
  }

  function FoldPart(e: Event, n: nat): int {
    if e.Fold? then Part(e.trade.buyId, n, e.trade.volume) + Part(e.trade.sellId, n, e.trade.volume) else 0
  }

  function SettlePart(e: Event, n: nat): int {
    if e.Settle? && e.num == n then e.qty else 0
  }

  function CancelPart(e: Event, n: nat): int {
    if e.CancelFold? then Part(e.ord.id, n, e.ord.volume) else 0
  }

  function UnlockPart(e: Event, n: nat): int {
    if e.CancelUnlock? then Part(e.ord.id, n, e.ord.volume) else 0
  }

  /** Filled quantity of order n the registry hook has still to fold. */
  function FoldQty(events: seq<Event>, n: nat): int {
    if events == [] then 0 else FoldPart(events[0], n) + FoldQty(events[1..], n)
  }

  /** Filled quantity of order n the ledger hook has still to settle. */
  function SettleQty(events: seq<Event>, n: nat): int {
    if events == [] then 0 else SettlePart(events[0], n) + SettleQty(events[1..], n)
  }

  /** Cancelled quantity of order n the registry hook has still to see. */
  function CancelQty(events: seq<Event>, n: nat): int {
    if events == [] then 0 else CancelPart(events[0], n) + CancelQty(events[1..], n)
  }

  /** Cancelled quantity of order n the ledger hook has still to release. */
  function UnlockQty(events: seq<Event>, n: nat): int {
    if events == [] then 0 else UnlockPart(events[0], n) + UnlockQty(events[1..], n)
  }

  function RestQty(book: Book, n: nat): int {
    Resting(book.bids, Edge(n)) + Resting(book.asks, Edge(n))
  }

  /** The quantity of limit order n whose reservation is still in the ledger's locked column. */
  function Held(s: Sys, n: nat): int
    requires n in s.recs && n in s.phase
  {
    var rec := s.recs[n];
    if s.phase[n].Reserved? then rec.orig
    else if s.phase[n].Live? then RestQty(BookOf(s, rec.sym), n) + SettleQty(Pend(s, rec.sym), n)
        + UnlockQty(Pend(s, rec.sym), n)
    else 0
  }

  /** What order n accounts for in the locked balance of `asset`. */
  function Reservation(s: Sys, n: nat, asset: string): int {
    if n !in s.phase then 0
    else if s.phase[n].Refund? then Delta(asset, s.phase[n].asset, s.phase[n].amt)
    else if n !in s.recs || s.recs[n].typ.MarketType? then 0
    else Delta(asset, LockAsset(s.recs[n]), LockAmount(s.recs[n], Held(s, n)))
  }

  function SumTo(s: Sys, k: nat, asset: string): int {
    if k == 0 then 0 else SumTo(s, k - 1, asset) + Reservation(s, k, asset)
  }
}
