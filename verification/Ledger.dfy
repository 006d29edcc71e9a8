/**
 internal/account: per-asset free and locked balances. The functions say what each ledger
 operation does to the balance table; the class at the end is the mutable ledger, each
 method proved to compute the function of its name.
 */
module Ledger {
  import opened FixedPoint

  datatype Holding = Holding(free: int, locked: int)

  type Balances = map<string, Holding>

  function At(bal: Balances, asset: string): Holding {
    if asset in bal then bal[asset] else Holding(0, 0)
  }

  function LockFunds(bal: Balances, asset: string, amt: int): (Balances, bool) {
    if amt <= 0 then (bal, true)
    else
      var h := At(bal, asset);
      if h.free < amt then (bal[asset := h], false)
      else (bal[asset := Holding(h.free - amt, h.locked + amt)], true)
  }

  /** Move up to `amt` from locked to free. */
  function Release(bal: Balances, asset: string, amt: int): Balances {
    var h := At(bal, asset);
    var clamped := if amt > h.locked then h.locked else amt;
    bal[asset := Holding(h.free + clamped, h.locked - clamped)]
  }

  function Unlock(bal: Balances, asset: string, amt: int): Balances {
    if amt <= 0 then bal else Release(bal, asset, amt)
  }

  /** Remove up to `amt` from free. */
  function DebitFree(bal: Balances, asset: string, amt: int): Balances {
    var h := At(bal, asset);
    var clamped := if amt > h.free then h.free else amt;
    bal[asset := Holding(h.free - clamped, h.locked)]
  }

  function AddFree(bal: Balances, asset: string, amt: int): Balances {
    var h := At(bal, asset);
    bal[asset := Holding(h.free + amt, h.locked)]
  }

  /** What a market buy is credited when it can pay only `pay` of `cost`. */
  function MarketCredit(qty: int, pay: int, cost: int): int {
    if pay < cost && cost > 0 then DivRaw(MulRaw(qty, pay), cost) else qty
  }

  function SettleMarket(bal: Balances, isBuy: bool, base: string, quote: string, qty: int, price: int): Balances {
    var cost := MulRaw(qty, price);
    if isBuy then
      var q := At(bal, quote);
      var pay := if cost > q.free then q.free else cost;
      AddFree(bal[quote := Holding(q.free - pay, q.locked)], base, MarketCredit(qty, pay, cost))
    else
      var b := At(bal, base);
      var sell := if qty > b.free then b.free else qty;
      AddFree(bal[base := Holding(b.free - sell, b.locked)], quote, MulRaw(sell, price))
  }

  function SettleLimit(bal: Balances, isBuy: bool, base: string, quote: string, qty: int, price: int,
      reserved: int): Balances {
    var cost := MulRaw(qty, price);
    if isBuy
    then AddFree(DebitFree(Release(bal, quote, MulRaw(qty, reserved)), quote, cost), base, qty)
    else AddFree(DebitFree(Release(bal, base, qty), base, qty), quote, cost)
  }

  /** One fill; `reserved` is the price the funds were locked at, or 0 for a market order. */
  function SettleFill(bal: Balances, isBuy: bool, base: string, quote: string, qty: int, price: int,
      reserved: int): Balances {
    if reserved <= 0 then SettleMarket(bal, isBuy, base, quote, qty, price)
    else SettleLimit(bal, isBuy, base, quote, qty, price, reserved)
  }

  function Debit(bal: Balances, asset: string, amt: int): (Balances, bool) {
    if amt <= 0 then (bal, true)
    else
      var h := At(bal, asset);
      if h.free < amt then (bal[asset := h], false)
      else (bal[asset := Holding(h.free - amt, h.locked)], true)
  }

  function Credit(bal: Balances, asset: string, amt: int): Balances {
    if amt <= 0 then bal else AddFree(bal, asset, amt)
  }

  function Burn(bal: Balances, asset: string, amt: int): Balances {
    if amt <= 0 then bal else DebitFree(bal, asset, amt)
  }

  // ----- what one fill moves -------------------------------------------------------------

  function Delta(asset: string, moved: string, amt: int): int {
    if asset == moved then amt else 0
  }

  /** A limit buy whose reservation is really locked moves exactly the reservation out of
      locked, the cost out of the account and the quantity in: no clamp engages. */
  lemma LimitBuyExact(bal: Balances, base: string, quote: string, qty: int, price: int, reserved: int, asset: string)
    requires 0 < qty && price <= reserved && 0 < reserved
    requires MulRaw(qty, reserved) <= At(bal, quote).locked && 0 <= At(bal, quote).free
    ensures var before := At(bal, asset);
            var after := At(SettleFill(bal, true, base, quote, qty, price, reserved), asset);
            && after.locked == before.locked - Delta(asset, quote, MulRaw(qty, reserved))
            && after.free == before.free + Delta(asset, quote, MulRaw(qty, reserved) - MulRaw(qty, price))
                + Delta(asset, base, qty)
  {
    MulRawBelow(qty, price, reserved);
  }

  lemma LimitSellExact(bal: Balances, base: string, quote: string, qty: int, price: int, reserved: int, asset: string)
    requires 0 < qty && 0 < reserved
    requires qty <= At(bal, base).locked && 0 <= At(bal, base).free
    ensures var before := At(bal, asset);
            var after := At(SettleFill(bal, false, base, quote, qty, price, reserved), asset);
            && after.locked == before.locked - Delta(asset, base, qty)
            && after.free == before.free + Delta(asset, quote, MulRaw(qty, price))
  {
  }

  /** What a limit fill takes out of locked does not depend on the free balances. */
  lemma LimitFillUnlocks(bal: Balances, isBuy: bool, base: string, quote: string, qty: int, price: int, reserved: int,
      asset: string)
    requires 0 < qty && 0 < reserved
    requires if isBuy then MulRaw(qty, reserved) <= At(bal, quote).locked else qty <= At(bal, base).locked
    ensures At(SettleFill(bal, isBuy, base, quote, qty, price, reserved), asset).locked ==
            At(bal, asset).locked
                - (if isBuy then Delta(asset, quote, MulRaw(qty, reserved)) else Delta(asset, base, qty))
  {
    hide MulRaw;
  }

  /** A market fill leaves locked funds alone, and drives no free balance negative unless it sells at a
      negative truncated cost. */
  lemma MarketKeepsFree(bal: Balances, isBuy: bool, base: string, quote: string, qty: int, price: int, asset: string)
    requires 0 < qty
    ensures var after := At(SettleFill(bal, isBuy, base, quote, qty, price, 0), asset);
            && after.locked == At(bal, asset).locked
            && ((forall a :: 0 <= At(bal, a).free) && (isBuy || 0 <= MulRaw(qty, price)) ==> 0 <= after.free)
  {
    var cost := MulRaw(qty, price);
    if (forall a :: 0 <= At(bal, a).free) && isBuy {
      var q := At(bal, quote);
      var pay := if cost > q.free then q.free else cost;
      assert 0 <= q.free;
      if pay < cost && cost > 0 { ProportionBound(qty, pay, cost); }
      hide MulRaw, DivRaw;
    } else if (forall a :: 0 <= At(bal, a).free) && 0 <= cost {
      var b := At(bal, base);
      var sell := if qty > b.free then b.free else qty;
      assert 0 <= b.free;
      PartNotNegative(sell, qty, price);
      hide MulRaw;
    } else {
      hide MulRaw, DivRaw;
    }
  }

  /** Exactly when a market sell can overdraw: a fill keeps every non-negative ledger non-negative if
      and only if its truncated cost is not negative. */
  lemma SellKeepsFreeExactly(base: string, quote: string, qty: int, price: int)
    requires 0 < qty
    ensures 0 <= MulRaw(qty, price) <==>
            forall bal: Balances, a: string ::
              (forall b :: 0 <= At(bal, b).free) ==> 0 <= At(SettleFill(bal, false, base, quote, qty, price, 0), a).free
  {
    if 0 <= MulRaw(qty, price) {
      forall bal: Balances, a: string | forall b :: 0 <= At(bal, b).free
        ensures 0 <= At(SettleFill(bal, false, base, quote, qty, price, 0), a).free
      {
        MarketKeepsFree(bal, false, base, quote, qty, price, a);
      }
    } else {
      var bal: Balances := map[base := Holding(qty, 0)];
      assert At(SettleFill(bal, false, base, quote, qty, price, 0), quote).free == MulRaw(qty, price)
          by { hide MulRaw; }
      assert forall b :: 0 <= At(bal, b).free;
    }
  }

  lemma DivFloorBound(n: int, d: int)
    requires 0 <= n && 0 < d
    ensures 0 <= n / d && (n / d) * d <= n
  {
  }

  lemma CancelFactor(x: int, y: int, c: int)
    requires 0 < c && x * c <= y * c
    ensures x <= y
  {
    assert x > y ==> (x - y) * c >= c;
    assert (x - y) * c == x * c - y * c;
  }

  lemma ProportionBound(qty: int, pay: int, cost: int)
    requires 0 < qty && 0 <= pay < cost
    ensures var credited := DivRaw(MulRaw(qty, pay), cost);
            0 <= credited <= qty && credited * cost <= qty * pay
  {
    MulRawNonNeg(qty, pay);
    var product := MulRaw(qty, pay);
    var credited := DivRaw(product, cost);
    assert 0 <= qty * pay;
    DivFloorBound(qty * pay, SCALE);
    assert 0 <= product * SCALE <= qty * pay;
    assert credited == (product * SCALE) / cost;
    DivFloorBound(product * SCALE, cost);
    assert qty * pay <= qty * cost;
    CancelFactor(credited, qty, cost);
  }

  /** A market order never drives a balance negative, leaves locked funds alone, and an
      underfunded buy is credited at most its share of what it paid. */
  lemma MarketNeverMints(bal: Balances, isBuy: bool, base: string, quote: string, qty: int, price: int, asset: string)
    requires 0 < qty && 0 <= price
    requires forall a :: 0 <= At(bal, a).free
    ensures var after := SettleFill(bal, isBuy, base, quote, qty, price, 0);
            && At(after, asset).locked == At(bal, asset).locked
            && 0 <= At(after, asset).free
            && (asset != base && asset != quote ==> At(after, asset) == At(bal, asset))
            && (isBuy && base != quote ==>
                  var paid := At(bal, quote).free - At(after, quote).free;
                  var credited := At(after, base).free - At(bal, base).free;
                  && 0 <= paid <= MulRaw(qty, price) && 0 <= credited <= qty
                  && (paid == MulRaw(qty, price) ==> credited == qty)
                  && credited * MulRaw(qty, price) <= qty * paid)
            && (!isBuy && base != quote ==>
                  var sold := At(bal, base).free - At(after, base).free;
                  && 0 <= sold <= qty
                  && At(after, quote).free - At(bal, quote).free == MulRaw(sold, price))
  {
    MulRawNonNeg(qty, price);
    var cost := MulRaw(qty, price);
    if isBuy {
      var q := At(bal, quote);
      var pay := if cost > q.free then q.free else cost;
      if pay < cost { ProportionBound(qty, pay, cost); }
    } else {
      var b := At(bal, base);
      var sell := if qty > b.free then b.free else qty;
      MulRawNonNeg(sell, price);
    }
  }

  /** The share of `qty` that `paid` buys of it at `cost`, from both sides: truncating twice loses less
      than one raw unit of quote on the way to less than one of base. */
  lemma ProportionExact(qty: int, pay: int, cost: int)
    requires 0 < qty && 0 <= pay < cost
    ensures var credited := DivRaw(MulRaw(qty, pay), cost);
            0 <= credited && credited * cost <= qty * pay < (credited + 1) * cost + SCALE
  {
    ProportionBound(qty, pay, cost);
    MulRawNonNeg(qty, pay);
    var product := MulRaw(qty, pay);
    FloorWithin(qty * pay, SCALE);
    FloorWithin(product * SCALE, cost);
    assert DivRaw(product, cost) == (product * SCALE) / cost;
    Successor(DivRaw(product, cost), cost);
    Successor(product, SCALE);
  }

  lemma FloorWithin(n: int, d: int)
    requires 0 <= n && 0 < d
    ensures n / d * d <= n < n / d * d + d
  {
  }

  lemma Successor(x: int, d: int)
    ensures (x + 1) * d == x * d + d
  {
  }

  /** Exactly what a market buy moves, whatever the price: it pays the cost or all that is free, and is
      credited the whole quantity for the one, its share to the last unit for the other. */
  lemma MarketBuyExact(bal: Balances, base: string, quote: string, qty: int, price: int) returns (credited: int)
    requires 0 < qty && 0 <= At(bal, quote).free
    ensures var after := SettleFill(bal, true, base, quote, qty, price, 0);
            var cost, paid := MulRaw(qty, price), Min(MulRaw(qty, price), At(bal, quote).free);
            && (forall a :: At(after, a).locked == At(bal, a).locked)
            && (forall a :: At(after, a).free == At(bal, a).free - Delta(a, quote, paid) + Delta(a, base, credited))
            && (paid == cost ==> credited == qty)
            && (paid < cost ==> 0 <= credited && credited * cost <= qty * paid < (credited + 1) * cost + SCALE)
  {
    var cost, free := MulRaw(qty, price), At(bal, quote).free;
    credited := MarketCredit(qty, Min(cost, free), cost);
    if free < cost { ProportionExact(qty, free, cost); }
    hide MulRaw, DivRaw;
  }

  /** Exactly what a market sell moves: the quantity or all that is free, paid for at the fill's price. */
  lemma MarketSellExact(bal: Balances, base: string, quote: string, qty: int, price: int)
    ensures var after := SettleFill(bal, false, base, quote, qty, price, 0);
            var sold := Min(qty, At(bal, base).free);
            && (forall a :: At(after, a).locked == At(bal, a).locked)
            && (forall a :: At(after, a).free == At(bal, a).free - Delta(a, base, sold)
                  + Delta(a, quote, MulRaw(sold, price)))
  {
    hide MulRaw;
  }

  /** Exactly what a limit fill moves of any ledger, the reservation covered or not: at most what is
      locked is released, at most what is then free is paid, and the other asset comes in whole. */
  lemma LimitFillExact(bal: Balances, isBuy: bool, base: string, quote: string, qty: int, price: int, reserved: int)
    requires 0 < reserved
    ensures var after := SettleFill(bal, isBuy, base, quote, qty, price, reserved);
            var pays, gets := if isBuy then quote else base, if isBuy then base else quote;
            var released := Min(if isBuy then MulRaw(qty, reserved) else qty, At(bal, pays).locked);
            var paid := Min(if isBuy then MulRaw(qty, price) else qty, At(bal, pays).free + released);
            && (forall a :: At(after, a).locked == At(bal, a).locked - Delta(a, pays, released))
            && (forall a :: At(after, a).free == At(bal, a).free + Delta(a, pays, released - paid)
                  + Delta(a, gets, if isBuy then qty else MulRaw(qty, price)))
  {
    hide MulRaw;
    var pays, due, cost := if isBuy then quote else base, if isBuy then MulRaw(qty, reserved) else qty,
        if isBuy then MulRaw(qty, price) else qty;
    PaysFrom(bal, pays, due, cost);
    hide Release, DebitFree;
  }

  /** Release up to `due` of what is locked, then pay up to `cost` of what is free. */
  lemma PaysFrom(bal: Balances, asset: string, due: int, cost: int)
    ensures var released := Min(due, At(bal, asset).locked);
            var paid := Min(cost, At(bal, asset).free + released);
            Moves(bal, DebitFree(Release(bal, asset, due), asset, cost), asset, released - paid, -released)
  {
  }

  // ----- what a transfer moves ------------------------------------------------------------

  /** Between `bal` and `after` exactly `freed` came into the asset's free column and `lockedUp` into its
      locked one, and no other asset changed. */
  ghost predicate Moves(bal: Balances, after: Balances, asset: string, freed: int, lockedUp: int) {
    forall a :: && At(after, a).free == At(bal, a).free + Delta(a, asset, freed)
                && At(after, a).locked == At(bal, a).locked + Delta(a, asset, lockedUp)
  }

  /** Locking, from every ledger: refused exactly when the free funds do not cover a positive amount, and
      then nothing moves; otherwise the amount changes columns. */
  lemma LockExact(bal: Balances, asset: string, amt: int)
    ensures var (after, ok) := LockFunds(bal, asset, amt);
            && (ok <==> amt <= 0 || amt <= At(bal, asset).free)
            && if ok && amt > 0 then Moves(bal, after, asset, -amt, amt) else Moves(bal, after, asset, 0, 0)
  {
  }

  /** Unlocking gives back the amount, or all that is locked. */
  lemma UnlockExact(bal: Balances, asset: string, amt: int)
    ensures var given := if amt <= 0 then 0 else Min(amt, At(bal, asset).locked);
            Moves(bal, Unlock(bal, asset, amt), asset, given, -given)
  {
  }

  /** A withdrawal likewise takes the amount from free or nothing; a deposit adds it. */
  lemma DebitExact(bal: Balances, asset: string, amt: int)
    ensures var (after, ok) := Debit(bal, asset, amt);
            && (ok <==> amt <= 0 || amt <= At(bal, asset).free)
            && if ok && amt > 0 then Moves(bal, after, asset, -amt, 0) else Moves(bal, after, asset, 0, 0)
  {
  }

  lemma CreditExact(bal: Balances, asset: string, amt: int)
    ensures Moves(bal, Credit(bal, asset, amt), asset, if amt <= 0 then 0 else amt, 0)
  {
  }

  /** Burning takes the amount, or all that is free. */
  lemma BurnExact(bal: Balances, asset: string, amt: int)
    ensures Moves(bal, Burn(bal, asset, amt), asset, if amt <= 0 then 0 else -Min(amt, At(bal, asset).free), 0)
  {
  }

  /** What a withdrawal takes a deposit brings back, and a lock an unlock. */
  lemma TransferUndone(bal: Balances, asset: string, amt: int, a: string)
    requires 0 <= At(bal, asset).locked
    ensures Debit(bal, asset, amt).1 ==> At(Credit(Debit(bal, asset, amt).0, asset, amt), a) == At(bal, a)
    ensures LockFunds(bal, asset, amt).1 ==> At(Unlock(LockFunds(bal, asset, amt).0, asset, amt), a) == At(bal, a)
  {
  }

  function Total(bal: Balances, asset: string): int {
    At(bal, asset).free + At(bal, asset).locked
  }

  /** When both sides of a trade are limit orders of the account, the account as a whole
      holds exactly what it held before, asset by asset. */
  lemma OwnTradeConserves(
    bal: Balances, base: string, quote: string, qty: int, price: int, bought: int, sold: int, asset: string)
    requires base != quote && 0 < qty && 0 < sold <= price <= bought
    requires MulRaw(qty, bought) <= At(bal, quote).locked && 0 <= At(bal, quote).free
    requires qty <= At(bal, base).locked && 0 <= At(bal, base).free
    ensures Total(SettleFill(SettleFill(bal, true, base, quote, qty, price, bought), false, base, quote, qty, price,
        sold), asset)
         == Total(bal, asset)
  {
    LimitBuyExact(bal, base, quote, qty, price, bought, asset);
    LimitBuyExact(bal, base, quote, qty, price, bought, base);
    var middle := SettleFill(bal, true, base, quote, qty, price, bought);
    LimitSellExact(middle, base, quote, qty, price, sold, asset);
  }

  // ----- the mutable ledger --------------------------------------------------------------

  class Account {
    var bal: Balances

    constructor (initial: map<string, int>)
      ensures forall a :: At(bal, a) == Holding(if a in initial then initial[a] else 0, 0)
    {
      bal := map a | a in initial :: Holding(initial[a], 0);
    }

    /** The holding record of an asset, created on first use. */
    method Touch(asset: string) returns (h: Holding)
      modifies this
      ensures h == At(old(bal), asset) && bal == old(bal)[asset := h]
    {
      if asset !in bal {
        bal := bal[asset := Holding(0, 0)];
      }
      h := bal[asset];
      assert bal == old(bal)[asset := h];
    }

    method Lock(asset: string, amt: int) returns (ok: bool)
      modifies this
      ensures (bal, ok) == LockFunds(old(bal), asset, amt)
    {
      if amt <= 0 {
        return true;
      }
      var h := Touch(asset);
      if h.free < amt {
        return false;
      }
      bal := bal[asset := Holding(h.free - amt, h.locked + amt)];
      assert bal == old(bal)[asset := Holding(h.free - amt, h.locked + amt)];
      return true;
    }

    method ReleaseUpTo(asset: string, amt: int)
      modifies this
      ensures bal == Release(old(bal), asset, amt)
    {
      var h := Touch(asset);
      var clamped := amt;
      if clamped > h.locked {
        clamped := h.locked;
      }
      bal := bal[asset := Holding(h.free + clamped, h.locked - clamped)];
    }

    method UnlockUpTo(asset: string, amt: int)
      modifies this
      ensures bal == Unlock(old(bal), asset, amt)
    {
      if amt <= 0 {
        return;
      }
      ReleaseUpTo(asset, amt);
    }

    method DebitUpTo(asset: string, amt: int)
      modifies this
      ensures bal == DebitFree(old(bal), asset, amt)
    {
      var h := Touch(asset);
      var clamped := amt;
      if clamped > h.free {
        clamped := h.free;
      }
      bal := bal[asset := Holding(h.free - clamped, h.locked)];
    }

    method Add(asset: string, amt: int)
      modifies this
      ensures bal == AddFree(old(bal), asset, amt)
    {
      var h := Touch(asset);
      bal := bal[asset := Holding(h.free + amt, h.locked)];
    }

    method Settle(isBuy: bool, base: string, quote: string, qty: int, price: int, reserved: int)
      modifies this
      ensures bal == SettleFill(old(bal), isBuy, base, quote, qty, price, reserved)
    {
      hide MulRaw, Release, DebitFree, AddFree;
      var cost := MulRaw(qty, price);
      if reserved <= 0 {
        SettleFromFree(isBuy, base, quote, qty, price, cost);
      } else if isBuy {
        ReleaseUpTo(quote, MulRaw(qty, reserved));
        DebitUpTo(quote, cost);
        Add(base, qty);
      } else {
        ReleaseUpTo(base, qty);
        DebitUpTo(base, qty);
        Add(quote, cost);
      }
    }

    /** The market-order branch: only what is free is spent. */
    method SettleFromFree(isBuy: bool, base: string, quote: string, qty: int, price: int, cost: int)
      requires cost == MulRaw(qty, price)
      modifies this
      ensures bal == SettleMarket(old(bal), isBuy, base, quote, qty, price)
    {
      hide MulRaw, DivRaw, AddFree;
      if isBuy {
        var q := Touch(quote);
        var pay := cost;
        if pay > q.free {
          pay := q.free;
        }
        bal := bal[quote := Holding(q.free - pay, q.locked)];
        assert bal == old(bal)[quote := Holding(q.free - pay, q.locked)];
        var credited := qty;
        if pay < cost && cost > 0 {
          credited := DivRaw(MulRaw(qty, pay), cost);
        }
        Add(base, credited);
      } else {
        var b := Touch(base);
        var sell := qty;
        if sell > b.free {
          sell := b.free;
        }
        bal := bal[base := Holding(b.free - sell, b.locked)];
        assert bal == old(bal)[base := Holding(b.free - sell, b.locked)];
        Add(quote, MulRaw(sell, price));
      }
    }

    method Withdraw(asset: string, amt: int) returns (ok: bool)
      modifies this
      ensures (bal, ok) == Debit(old(bal), asset, amt)
    {
      if amt <= 0 {
        return true;
      }
      var h := Touch(asset);
      if h.free < amt {
        return false;
      }
      bal := bal[asset := Holding(h.free - amt, h.locked)];
      assert bal == old(bal)[asset := Holding(h.free - amt, h.locked)];
      return true;
    }

    method Deposit(asset: string, amt: int)
      modifies this
      ensures bal == Credit(old(bal), asset, amt)
    {
      if amt > 0 {
        Add(asset, amt);
      }
    }

    method BurnUpTo(asset: string, amt: int)
      modifies this
      ensures bal == Burn(old(bal), asset, amt)
    {
      if amt > 0 {
        DebitUpTo(asset, amt);
      }
    }
  }
}
