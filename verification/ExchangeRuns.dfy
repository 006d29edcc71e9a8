/**
 What holds after every run of the exchange machine, in any interleaving: solvency of the
 ledger, agreement of registry and book, and exactly how much a filled order leaves locked.
 */
module ExchangeRuns {
  import opened FixedPoint
  import opened Orders
  import opened Matching
  import opened Registry
  import opened Ledger
  import opened Exchange
  import opened ExchangeInv
  import opened ExchangeSteps
  import opened ExchangeTrading
  import opened ExchangeHooks

  /** A freshly started edge: empty books for the listed instruments, seeded free balances. */
  ghost predicate Init(s: Sys) {
    && s.next == 0 && s.recs == map[] && s.clients == map[] && s.phase == map[]
    && (forall sym :: sym in s.books ==> s.books[sym] == EMPTY_BOOK)
    && s.pend == map[] && s.acks == {} && s.fills == map[] && !s.overdrawn
    && (forall a {:trigger At(s.bal, a)} :: 0 <= At(s.bal, a).free && At(s.bal, a).locked == 0)
  }

  ghost predicate Run(s: Sys, steps: seq<Step>, s': Sys)
    decreases |steps|
  {
    if steps == [] then s' == s
    else Enabled(s, steps[0]) && Run(Next(s, steps[0]), steps[1..], s')
  }

  lemma InitInv(s: Sys)
    requires Init(s)
    ensures Inv(s)
  {
  }

  lemma StepKeeps(s: Sys, step: Step)
    requires Inv(s) && Enabled(s, step)
    ensures Inv(Next(s, step))
  {
    hide Inv, AddLimit, ExecuteIoc, ClaimStep, ReserveStep, RollBackStep, RefundStep, PlaceStep, CancelStep, HookStep,
        AfterTrading;
    match step
    case DrawId => DrawIdKeeps(s);
    case Claim(n, req) => ClaimKeeps(s, n, req);
    case Reserve(n) => ReserveKeeps(s, n);
    case RollBack(n) => RollBackKeeps(s, n);
    case Refunded(n) => RefundedKeeps(s, n);
    case Place(n) => PlaceKeeps(s, n);
    case OutsideOrder(sym, ord) => OutsideKeeps(s, sym, ord, true, AddLimit(s.books[sym], ord));
    case OutsideIoc(sym, ord) => OutsideKeeps(s, sym, ord, false, ExecuteIoc(s.books[sym], ord));
    case CancelResting(sym, id) => CancelKeeps(s, sym, id);
    case RunHook(sym) => HookStepKeeps(s, sym);
    case AckCancel(n) => AckCancelKeeps(s, n);
    case Deposit(asset, amt) => FundsKeep(s, asset, amt);
    case Withdraw(asset, amt) => FundsKeep(s, asset, amt);
    case BurnUnits(asset, amt) => FundsKeep(s, asset, amt);
  }

  lemma {:induction false} RunKeeps(s: Sys, steps: seq<Step>, s': Sys)
    requires Inv(s) && Run(s, steps, s')
    ensures Inv(s')
    decreases |steps|
  {
    hide Inv, Enabled, Next;
    if steps != [] {
      StepKeeps(s, steps[0]);
      RunKeeps(Next(s, steps[0]), steps[1..], s');
    }
  }

  // ----- solvency ------------------------------------------------------------------------

  /** What cancelling open limit order n would release of `asset`, from its record alone. */
  function OpenRelease(recs: Recs, n: nat, asset: string): int {
    if n in recs && recs[n].typ.LimitType? && recs[n].Open()
    then Delta(asset, LockAsset(recs[n]), LockAmount(recs[n], recs[n].orig - recs[n].executed))
    else 0
  }

  function OpenReleases(recs: Recs, k: nat, asset: string): int {
    if k == 0 then 0 else OpenReleases(recs, k - 1, asset) + OpenRelease(recs, k, asset)
  }

  /** No place handler is half way and no hook is owed. */
  ghost predicate Quiescent(s: Sys) {
    && (forall n :: n in s.phase ==> s.phase[n].Drawn? || s.phase[n].Live?)
    && (forall sym :: sym in s.pend ==> s.pend[sym] == [])
  }

  /** With nothing in flight a limit order holds what its record leaves open. */
  lemma QuietRec(rec: Rec, phase: Phase, rest: int)
    requires StatusOk(rec) && QtyOk(rec, phase, rest, 0, 0, 0, 0) && rec.typ.LimitType? && phase.Live?
    ensures rest == if rec.Open() then rec.orig - rec.executed else 0
  {
  }

  lemma QuietHeld(s: Sys, n: nat)
    requires n in s.recs && n in s.phase && RecOk(s, n) && s.phase[n].Live? && Pend(s, s.recs[n].sym) == []
    requires s.recs[n].typ.LimitType?
    ensures Held(s, n) == if s.recs[n].Open() then s.recs[n].orig - s.recs[n].executed else 0
  {
    var rec := s.recs[n];
    var rest := RestQty(BookOf(s, rec.sym), n);
    hide RestQty, QtyOk, StatusOk;
    QuietRec(rec, s.phase[n], rest);
  }

  lemma QuiescentRelease(s: Sys, n: nat, asset: string)
    requires Inv(s) && Quiescent(s)
    ensures Reservation(s, n, asset) == OpenRelease(s.recs, n, asset)
  {
    if n in s.recs {
      assert RecOk(s, n) && PhaseOk(s, n) && Pend(s, s.recs[n].sym) == [];
      hide Inv, RecOk, MulRaw, LockAsset, Held, Quiescent;
      if s.recs[n].typ.LimitType? { QuietHeld(s, n); }
      MulRawNonNeg(0, s.recs[n].price);
    }
  }

  lemma {:induction false} QuiescentReleases(s: Sys, k: nat, asset: string)
    requires Inv(s) && Quiescent(s)
    ensures SumTo(s, k, asset) == OpenReleases(s.recs, k, asset)
  {
    if k > 0 {
      hide Inv, Quiescent, Reservation, OpenRelease;
      QuiescentReleases(s, k - 1, asset);
      QuiescentRelease(s, k, asset);
    }
  }

  /** The hook is the ledger's for a market sell filled at a negative truncated cost. */
  predicate SellsBelowZero(s: Sys, step: Step) {
    && step.RunHook? && Pend(s, step.sym) != [] && Pend(s, step.sym)[0].Settle?
    && var Settle(n, isBuy, qty, price) := Pend(s, step.sym)[0];
       n in s.recs && Overdraws(s.recs[n], isBuy, qty, price)
  }

  ghost predicate SoldBelowZero(s: Sys, steps: seq<Step>)
    decreases |steps|
  {
    steps != [] && (SellsBelowZero(s, steps[0])
        || (Enabled(s, steps[0]) && SoldBelowZero(Next(s, steps[0]), steps[1..])))
  }

  lemma StepOverdraws(s: Sys, step: Step)
    requires Enabled(s, step)
    ensures Next(s, step).overdrawn <==> s.overdrawn || SellsBelowZero(s, step)
  {
    hide AddLimit, ExecuteIoc, Cancel, LockFunds, Unlock, SettleFill, LockAsset, LockAmount, MulRaw, EventsOf, BaseOf,
        QuoteOf, FoldTrade;
    if step.RunHook? {
      HookOverdraws(s, step.sym);
    }
    hide HookStep, SellsBelowZero;
  }

  lemma HookOverdraws(s: Sys, sym: string)
    requires Pend(s, sym) != []
    ensures HookStep(s, sym).overdrawn <==> s.overdrawn || SellsBelowZero(s, RunHook(sym))
  {
    hide SettleFill, Overdraws, BaseOf, QuoteOf, FoldTrade, UnlockBal, CancelRec;
    if Pend(s, sym)[0].Settle? { hide UnlockHook; } else { hide SettleHook; }
  }

  /** The account counts as overdrawn exactly when the run settled a market sell at a negative cost. */
  lemma {:induction false} OverdrawnExactly(s: Sys, steps: seq<Step>, s': Sys)
    requires Run(s, steps, s')
    ensures s'.overdrawn <==> s.overdrawn || SoldBelowZero(s, steps)
    decreases |steps|
  {
    hide Enabled, Next, SellsBelowZero;
    if steps != [] {
      StepOverdraws(s, steps[0]);
      OverdrawnExactly(Next(s, steps[0]), steps[1..], s');
    }
  }

  /** After every run that settled no market sell at a negative cost no free balance is negative, after
      every run whatever no locked balance is, and whenever nothing is in flight the locked
      balance of each asset is what cancelling every open limit order would release, plus a
      remainder of at most one raw unit per limit-buy fill settled so far. */
  lemma Solvency(s: Sys, steps: seq<Step>, s': Sys, asset: string)
    requires Init(s) && Run(s, steps, s')
    ensures !SoldBelowZero(s, steps) ==> 0 <= At(s'.bal, asset).free
    ensures 0 <= At(s'.bal, asset).locked
    ensures Quiescent(s') ==>
      OpenReleases(s'.recs, s'.next, asset) <= At(s'.bal, asset).locked <= OpenReleases(s'.recs, s'.next, asset)
          + Fills(s', asset)
  {
    InitInv(s);
    RunKeeps(s, steps, s');
    SumAtLeast(s', s'.next, 0, asset);
    FreeNonNeg(s', asset);
    OverdrawnExactly(s, steps, s');
    if Quiescent(s') { QuiescentReleases(s', s'.next, asset); }
  }

  /** After every run, whenever nothing is in flight, a limit record is open exactly when its
      order rests, and then it rests once, with exactly the unexecuted quantity. */
  lemma RegistryAgreesWithBook(s: Sys, steps: seq<Step>, s': Sys, n: nat)
    requires Init(s) && Run(s, steps, s') && Quiescent(s') && n in s'.recs && s'.recs[n].typ.LimitType?
    ensures var rec := s'.recs[n];
            var book := BookOf(s', rec.sym);
            var queue := if rec.side.Buy? then book.bids else book.asks;
            && (rec.Open() <==> RestQty(book, n) > 0)
            && (rec.Open() ==> RestQty(book, n) == rec.orig - rec.executed)
            && (rec.Open() ==> exists i :: 0 <= i < |queue| && queue[i].id == Edge(n)
                                && queue[i].volume == rec.orig - rec.executed && queue[i].price == rec.price)
  {
    InitInv(s);
    RunKeeps(s, steps, s');
    var rec := s'.recs[n];
    var book := BookOf(s', rec.sym);
    assert RecOk(s', n) && PhaseOk(s', n);
    if rec.Open() {
      var queue := if rec.side.Buy? then book.bids else book.asks;
      var other := if rec.side.Buy? then book.asks else book.bids;
      var otherSide := if rec.side.Buy? then Sell else Buy;
      forall i | 0 <= i < |other| ensures other[i].id != Edge(n) { assert RestOk(s', rec.sym, otherSide, other[i]); }
      RestingAbsent(other, Edge(n));
      var i := RestingWitness(queue, Edge(n));
      assert RestOk(s', rec.sym, rec.side, queue[i]);
      RestingOne(queue, i);
    }
  }

  lemma {:induction false} RestingWitness(queue: seq<Order>, id: OrderId) returns (i: nat)
    requires Resting(queue, id) != 0
    ensures i < |queue| && queue[i].id == id
    decreases |queue|
  {
    if queue[0].id == id { i := 0; } else { i := RestingWitness(queue[1..], id); i := i + 1; }
  }

  /** In every reachable state every instrument's book is uncrossed and in price-time order. */
  lemma BooksStayOrdered(s: Sys, steps: seq<Step>, s': Sys, sym: string)
    requires Init(s) && Run(s, steps, s') && sym in s'.books
    ensures BookOk(s'.books[sym], s'.clock)
  {
    InitInv(s);
    RunKeeps(s, steps, s');
  }

  /** No limit order is ever filled beyond its size, counting fills the registry has not seen yet. */
  lemma NeverOverfilled(s: Sys, steps: seq<Step>, s': Sys, n: nat)
    requires Init(s) && Run(s, steps, s') && n in s'.recs
    ensures var rec := s'.recs[n];
            0 <= rec.executed && rec.executed + FoldQty(Pend(s', rec.sym), n)
                + RestQty(BookOf(s', rec.sym), n) <= rec.orig
  {
    InitInv(s);
    RunKeeps(s, steps, s');
    var sym := s'.recs[n].sym;
    assert RecOk(s', n);
    PendNonNeg(s', sym, n);
    BookNonNeg(s', sym, n);
  }

  /** In every reachable state the next limit fill to settle moves exactly its quantity of base,
      exactly the truncated cost of quote and exactly the reservation of that quantity out of
      locked, never beyond its own price: no clamp engages. */
  lemma LimitFillsExact(s: Sys, steps: seq<Step>, s': Sys, sym: string, n: nat, isBuy: bool, qty: int, price: int,
      a: string)
    requires Init(s) && Run(s, steps, s')
    requires Pend(s', sym) != [] && Pend(s', sym)[0] == Settle(n, isBuy, qty, price)
    requires n in s'.recs && s'.recs[n].typ.LimitType?
    ensures 0 < qty && if isBuy then price <= s'.recs[n].price else s'.recs[n].price <= price
    ensures var rec, before, after := s'.recs[n], At(s'.bal, a), At(HookStep(s', sym).bal, a);
            && 0 <= after.locked == before.locked - Delta(a, LockAsset(rec), LockAmount(rec, qty))
            && (SoldBelowZero(s, steps) ||
                (0 <= after.free && after.free + after.locked == before.free + before.locked
                    + Bought(rec, isBuy, qty, price, a)))
  {
    InitInv(s);
    RunKeeps(s, steps, s');
    OverdrawnExactly(s, steps, s');
    hide Inv, Run, Init;
    NextFillMoves(s', sym, n, isBuy, qty, price, a);
  }

  /** What a fill adds to the account's holding of an asset, free and locked together. */
  function Bought(rec: Rec, isBuy: bool, qty: int, price: int, a: string): int {
    if isBuy then Delta(a, BaseOf(rec.sym), qty) - Delta(a, QuoteOf(rec.sym), MulRaw(qty, price))
    else Delta(a, QuoteOf(rec.sym), MulRaw(qty, price)) - Delta(a, BaseOf(rec.sym), qty)
  }

  lemma NextFillMoves(s: Sys, sym: string, n: nat, isBuy: bool, qty: int, price: int, a: string)
    requires Inv(s) && Pend(s, sym) != [] && Pend(s, sym)[0] == Settle(n, isBuy, qty, price)
    requires n in s.recs && s.recs[n].typ.LimitType?
    ensures 0 < qty && if isBuy then price <= s.recs[n].price else s.recs[n].price <= price
    ensures var rec, before, after := s.recs[n], At(s.bal, a), At(HookStep(s, sym).bal, a);
            && 0 <= after.locked == before.locked - Delta(a, LockAsset(rec), LockAmount(rec, qty))
            && (s.overdrawn ||
                (0 <= after.free && after.free + after.locked == before.free + before.locked
                    + Bought(rec, isBuy, qty, price, a)))
  {
    hide RecsOk, BooksOk, EventsOk, MoneyOk, AcksOk, ClientsOk, HookStep, SettleFill, At, Held, MulRaw, BaseOf,
        QuoteOf, Overdraws;
    NextFill(s, sym);
    HookStepKeeps(s, sym);
    FillBal(s, sym);
    LimitFillMoves(s, n, isBuy, qty, price, a);
    hide Inv;
    StillFunded(HookStep(s, sym), a);
  }

  lemma StillFunded(s: Sys, a: string)
    requires Inv(s)
    ensures 0 <= At(s.bal, a).locked && (s.overdrawn || 0 <= At(s.bal, a).free)
  {
    SumAtLeast(s, s.next, 0, a);
    FreeNonNeg(s, a);
  }

  lemma FillBal(s: Sys, sym: string)
    requires Pend(s, sym) != [] && Pend(s, sym)[0].Settle? && Pend(s, sym)[0].num in s.recs
    ensures var Settle(n, isBuy, qty, price) := Pend(s, sym)[0];
            var rec := s.recs[n];
            && HookStep(s, sym).bal ==
                SettleFill(s.bal, isBuy, BaseOf(rec.sym), QuoteOf(rec.sym), qty, price, rec.price)
            && HookStep(s, sym).overdrawn == (s.overdrawn || Overdraws(rec, isBuy, qty, price))
  {
    hide SettleFill, BaseOf, QuoteOf, Overdraws;
  }

  lemma NextFill(s: Sys, sym: string)
    requires Inv(s) && Pend(s, sym) != [] && Pend(s, sym)[0].Settle?
    ensures var Settle(n, isBuy, qty, price) := Pend(s, sym)[0];
            && n in s.recs && n in s.phase && 0 < qty <= Held(s, n)
            && (isBuy <==> s.recs[n].side.Buy?)
            && (s.recs[n].typ.LimitType? ==>
                s.recs[n].price > 0 && if isBuy then price <= s.recs[n].price else s.recs[n].price <= price)
  {
    var Settle(n, isBuy, qty, price) := Pend(s, sym)[0];
    var s2 := HookStep(s, sym);
    hide RecsOk, BooksOk, EventsOk, MoneyOk, AcksOk, ClientsOk, HookDone, SettleHook, Held, QuoteOf, BaseOf;
    SettleDone(s, s2, sym, n, isBuy, qty, price);
    SettleFacts(s, s2, sym, n, isBuy, qty, price);
  }

  /** In every reachable state a cancel releases exactly the reservation of what was left of the
      order, out of locked and into free. */
  lemma CancelReleasesExactly(s: Sys, steps: seq<Step>, s': Sys, sym: string, a: string)
    requires Init(s) && Run(s, steps, s')
    requires Pend(s', sym) != [] && Pend(s', sym)[0].CancelUnlock? && Pend(s', sym)[0].ord.id.Edge?
    ensures var o := Pend(s', sym)[0].ord;
            && o.id.num in s'.recs
            && var rec := s'.recs[o.id.num];
               var amt := Delta(a, LockAsset(rec), LockAmount(rec, o.volume));
               && rec.orig - rec.executed == o.volume
               && At(HookStep(s', sym).bal, a) == Holding(At(s'.bal, a).free + amt, At(s'.bal, a).locked - amt)
               && 0 <= amt <= At(s'.bal, a).locked
  {
    InitInv(s);
    RunKeeps(s, steps, s');
    NextRelease(s', sym, a);
  }

  lemma NextRelease(s: Sys, sym: string, a: string)
    requires RecsOk(s) && BooksOk(s) && EventsOk(s) && AcksOk(s) && MoneyOk(s)
    requires Pend(s, sym) != [] && Pend(s, sym)[0].CancelUnlock? && Pend(s, sym)[0].ord.id.Edge?
    ensures var o := Pend(s, sym)[0].ord;
            && o.id.num in s.recs
            && var rec := s.recs[o.id.num];
               var amt := Delta(a, LockAsset(rec), LockAmount(rec, o.volume));
               && rec.orig - rec.executed == o.volume
               && At(HookStep(s, sym).bal, a) == Holding(At(s.bal, a).free + amt, At(s.bal, a).locked - amt)
               && 0 <= amt <= At(s.bal, a).locked
  {
    hide RecsOk, BooksOk, EventsOk, MoneyOk, AcksOk, SumTo, Held, At, Unlock, HookDone, RestQty, MulRaw;
    var o := Pend(s, sym)[0].ord;
    var s2 := HookStep(s, sym);
    UnlockDone(s, s2, sym, o);
    UnlockFacts(s, s2, sym, o);
    var n := o.id.num;
    var rec := s.recs[n];
    MulRawNonNeg(o.volume, rec.price);
    MulRawNonNeg(0, rec.price);
    SumAtLeast(s, s.next, n, LockAsset(rec));
    SumAtLeast(s, s.next, 0, a);
    FreeNonNeg(s, LockAsset(rec));
    FreeNonNeg(s, a);
    UnlockMoves(s.bal, LockAsset(rec), LockAmount(rec, o.volume), a);
  }

  // ----- what a filled order leaves behind -----------------------------------------------

  datatype Fill = Fill(qty: int, price: int)

  function Qty(fills: seq<Fill>): int {
    if fills == [] then 0 else fills[0].qty + Qty(fills[1..])
  }

  /** The fractional parts of the filled quantities at the limit price, in 10^-36 units. */
  function Fractions(fills: seq<Fill>, limit: int): int {
    if fills == [] then 0 else (fills[0].qty * limit) % SCALE + Fractions(fills[1..], limit)
  }

  predicate FillsOk(fills: seq<Fill>, limit: int) {
    forall i :: 0 <= i < |fills| ==> fills[i].qty > 0 && 0 <= fills[i].price <= limit
  }

  function SettleAll(bal: Balances, base: string, quote: string, fills: seq<Fill>, limit: int): Balances
    decreases |fills|
  {
    if fills == [] then bal
    else SettleAll(SettleFill(bal, true, base, quote, fills[0].qty, fills[0].price, limit), base, quote, fills[1..],
        limit)
  }

  lemma {:induction false} QtyNonNeg(fills: seq<Fill>, limit: int)
    requires FillsOk(fills, limit)
    ensures 0 <= Qty(fills) && 0 <= Fractions(fills, limit)
    ensures fills != [] ==> 0 < Qty(fills)
    decreases |fills|
  {
    if fills != [] { QtyNonNeg(fills[1..], limit); }
  }

  /** The units truncation leaves behind when one quantity is released fill by fill. */
  function Remainder(fills: seq<Fill>, limit: int): int {
    Fractions(fills, limit) / SCALE
  }

  lemma RemainderStep(q: int, rest: int, fractions: int, limit: int)
    requires 0 <= q && 0 <= rest && 0 < limit && 0 <= fractions
    requires fractions % SCALE == (rest * limit) % SCALE
    ensures ((q * limit) % SCALE + fractions) / SCALE == Carry(q, rest, limit) + fractions / SCALE
    ensures ((q * limit) % SCALE + fractions) % SCALE == ((q + rest) * limit) % SCALE
  {
    assert (q + rest) * limit == q * limit + rest * limit;
    ModSum(q * limit, fractions, rest * limit);
  }

  lemma ModSum(a: int, f: int, b: int)
    requires 0 <= a && 0 <= f && 0 <= b && f % SCALE == b % SCALE
    ensures (a % SCALE + f) / SCALE == (a % SCALE + b % SCALE) / SCALE + f / SCALE
    ensures (a % SCALE + f) % SCALE == (a + b) % SCALE
  {
  }

  lemma {:induction false} FractionsMod(fills: seq<Fill>, limit: int)
    requires FillsOk(fills, limit) && 0 < limit
    ensures Fractions(fills, limit) % SCALE == (Qty(fills) * limit) % SCALE
    decreases |fills|
  {
    if fills != [] {
      FractionsMod(fills[1..], limit);
      QtyNonNeg(fills[1..], limit);
      RemainderStep(fills[0].qty, Qty(fills[1..]), Fractions(fills[1..], limit), limit);
    }
  }

  /** Settling a limit buy's fills one by one releases its whole reservation but for the
      carried fractions of the partial products. */
  lemma {:induction false} SettleAllLeaves(bal: Balances, base: string, quote: string, fills: seq<Fill>, limit: int)
    requires FillsOk(fills, limit) && 0 < limit
    requires MulRaw(Qty(fills), limit) <= At(bal, quote).locked && 0 <= At(bal, quote).free
    ensures At(SettleAll(bal, base, quote, fills, limit), quote).locked
         == At(bal, quote).locked - MulRaw(Qty(fills), limit) + Remainder(fills, limit)
    decreases |fills|
  {
    if fills == [] {
      MulRawNonNeg(0, limit);
    } else {
      var f, rest := fills[0], Qty(fills[1..]);
      QtyNonNeg(fills[1..], limit);
      MulRawSplit(f.qty, rest, limit);
      MulRawNonNeg(rest, limit);
      FractionsMod(fills[1..], limit);
      RemainderStep(f.qty, rest, Fractions(fills[1..], limit), limit);
      MulRawMonotone(f.qty, f.qty, f.price, limit);
      LimitBuyExact(bal, base, quote, f.qty, f.price, limit, quote);
      var next := SettleFill(bal, true, base, quote, f.qty, f.price, limit);
      hide SettleFill, MulRaw, Carry;
      SettleAllLeaves(next, base, quote, fills[1..], limit);
    }
  }

  /** "A fully filled order leaves nothing locked": lock for the whole order, fill it all, and
      what stays locked is exactly the carried fractions. Nothing stays exactly when the
      fractional parts of the partial products add up to less than one raw unit. */
  lemma FilledBuyLeaves(bal: Balances, base: string, quote: string, fills: seq<Fill>, limit: int)
    requires FillsOk(fills, limit) && 0 < limit && 0 <= At(bal, quote).locked
    requires LockFunds(bal, quote, MulRaw(Qty(fills), limit)).1 && 0 <= At(bal, quote).free
    ensures var locked := LockFunds(bal, quote, MulRaw(Qty(fills), limit)).0;
            var after := SettleAll(locked, base, quote, fills, limit);
            && At(after, quote).locked == At(bal, quote).locked + Remainder(fills, limit)
            && (At(after, quote).locked == At(bal, quote).locked <==> Fractions(fills, limit) < SCALE)
  {
    QtyNonNeg(fills, limit);
    MulRawNonNeg(Qty(fills), limit);
    LockFundsMoves(bal, quote, MulRaw(Qty(fills), limit), quote);
    SettleAllLeaves(LockFunds(bal, quote, MulRaw(Qty(fills), limit)).0, base, quote, fills, limit);
  }

  /** Two fills of one raw unit at price 0.5 leave one raw unit locked for good. */
  lemma FilledBuyLeavesDust()
    ensures var half := SCALE / 2;
            var fills := [Fill(1, half), Fill(1, half)];
            var bal: Balances := map["USD" := Holding(10, 0)];
            var locked := LockFunds(bal, "USD", MulRaw(2, half)).0;
            Qty(fills) == 2 && At(SettleAll(locked, "BTC", "USD", fills, half), "USD").locked == 1
  {
    var half := SCALE / 2;
    var fills := [Fill(1, half), Fill(1, half)];
    var bal: Balances := map["USD" := Holding(10, 0)];
    var last := fills[1..];
    assert last == [Fill(1, half)] && last[1..] == [];
    assert (1 * half) % SCALE == half;
    assert Qty(last[1..]) == 0 && Fractions(last[1..], half) == 0;
    assert Qty(last) == 1 && Fractions(last, half) == half;
    assert Qty(fills) == 2 && Fractions(fills, half) == SCALE;
    assert MulRaw(2, half) == 1;
    FilledBuyLeaves(bal, "BTC", "USD", fills, half);
  }
}
