/**
 What the registry reports about prices: along every run no limit order trades beyond its own
 price, and the quote a limit buy reports never exceeds what its executed quantity would cost at
 its limit, although every fill is truncated on its own.
 */
module ExchangePrices {
  import opened FixedPoint
  import opened Orders
  import opened Registry
  import Ledger
  import opened Exchange
  import opened ExchangeInv
  import opened ExchangeHooks
  import opened ExchangeRuns

  predicate Fair(rec: Rec) {
    rec.typ.LimitType? && rec.side.Buy? ==> rec.cumQuote <= MulRaw(rec.executed, rec.price)
  }

  ghost predicate AllFair(recs: Recs) {
    forall n :: n in recs ==> Fair(recs[n])
  }

  /** Fills at or below the limit stay within it together: floors add up to at most the floor. */
  lemma FillStaysFair(rec: Rec, qty: int, price: int)
    requires Fair(rec) && 0 <= rec.executed && 0 < qty
    requires rec.typ.LimitType? && rec.side.Buy? ==> 0 <= rec.price && price <= rec.price
    ensures Fair(ApplyFill(rec, qty, price))
  {
    if rec.typ.LimitType? && rec.side.Buy? {
      MulRawBelow(qty, price, rec.price);
      MulRawSplit(rec.executed, qty, rec.price);
    }
  }

  lemma FoldFair(s: Sys, sym: string, t: Trade)
    requires Inv(s) && AllFair(s.recs) && Pend(s, sym) != [] && Pend(s, sym)[0] == Fold(t)
    ensures AllFair(FoldTrade(s.recs, t))
  {
    assert EventOk(s, sym, Fold(t));
    var half := FoldFor(s.recs, t.buyId, t.volume, t.price);
    if t.buyId.Edge? { HalfFair(s, t.buyId.num, t); }
    if t.sellId.Edge? { HalfFair(s, t.sellId.num, t); }
  }

  lemma HalfFair(s: Sys, n: nat, t: Trade)
    requires RecsOk(s) && AllFair(s.recs) && n in s.recs && n in s.phase && 0 < t.volume
    requires s.recs[n].typ.LimitType? && s.recs[n].side.Buy? ==> t.price <= s.recs[n].price
    ensures Fair(ApplyFill(s.recs[n], t.volume, t.price))
  {
    assert RecOk(s, n);
    FillStaysFair(s.recs[n], t.volume, t.price);
  }

  lemma NewFair(n: nat, req: Request)
    ensures Fair(NewRec(n, req))
  {
  }

  /** Quantities and prices of records change only when a fill is folded in. */
  predicate SameTerms(recs: Recs, recs': Recs) {
    forall n :: n in recs' ==> n in recs && recs'[n] == recs[n].(status := recs'[n].status)
  }

  predicate Folds(s: Sys, step: Step) {
    step.RunHook? && Pend(s, step.sym) != [] && Pend(s, step.sym)[0].Fold?
  }

  lemma TermsKept(s: Sys, step: Step)
    requires Enabled(s, step) && !Folds(s, step) && !step.Claim?
    ensures SameTerms(s.recs, Next(s, step).recs)
  {
    hide AddLimit, ExecuteIoc, Cancel, Harmless, Ledger.LockFunds, Ledger.Unlock, Ledger.SettleFill, LockAsset,
        LockAmount, MulRaw, EventsOf, BaseOf, QuoteOf;
    if step.RunHook? {
      HookTerms(s, step.sym);
    }
    hide HookStep, LockFree, ClientFor;
  }

  lemma HookTerms(s: Sys, sym: string)
    requires Pend(s, sym) != [] && !Pend(s, sym)[0].Fold?
    ensures SameTerms(s.recs, HookStep(s, sym).recs)
  {
    hide SettleHook, UnlockHook, HookDone;
    var rest := s.(pend := s.pend[sym := Pend(s, sym)[1..]]);
    match Pend(s, sym)[0]
    case Settle(n, isBuy, qty, price) => SettleDone(s, HookStep(s, sym), sym, n, isBuy, qty, price);
    case CancelFold(o) =>
    case CancelUnlock(o) => UnlockHookFrame(rest, o);
  }

  lemma TermsFair(recs: Recs, recs': Recs)
    requires SameTerms(recs, recs') && AllFair(recs)
    ensures AllFair(recs')
  {
    hide MulRaw;
  }

  lemma StepFair(s: Sys, step: Step)
    requires Inv(s) && Enabled(s, step) && AllFair(s.recs)
    ensures AllFair(Next(s, step).recs)
  {
    hide Inv, Fair, SameTerms, HookStep, CancelStep, PlaceStep, RefundStep, RollBackStep, ReserveStep, AfterTrading,
        MulRaw;
    if Folds(s, step) {
      FoldFair(s, step.sym, Pend(s, step.sym)[0].trade);
      FoldRecs(s, step.sym);
    } else if step.Claim? {
      NewFair(step.n, step.req);
    } else {
      TermsKept(s, step);
      TermsFair(s.recs, Next(s, step).recs);
    }
  }

  lemma FoldRecs(s: Sys, sym: string)
    requires Pend(s, sym) != [] && Pend(s, sym)[0].Fold?
    ensures HookStep(s, sym).recs == FoldTrade(s.recs, Pend(s, sym)[0].trade)
  {
    hide FoldTrade;
  }

  lemma {:induction false} RunFair(s: Sys, steps: seq<Step>, s': Sys)
    requires Inv(s) && Run(s, steps, s') && AllFair(s.recs)
    ensures AllFair(s'.recs)
    decreases |steps|
  {
    hide Inv, Enabled, Next, AllFair;
    if steps != [] {
      StepKeeps(s, steps[0]);
      StepFair(s, steps[0]);
      RunFair(Next(s, steps[0]), steps[1..], s');
    }
  }

  /** A limit buy never reports more quote than its executed quantity costs at its limit. */
  lemma BuyNeverOverpays(s: Sys, steps: seq<Step>, s': Sys, n: nat)
    requires Init(s) && Run(s, steps, s') && n in s'.recs
    requires s'.recs[n].typ.LimitType? && s'.recs[n].side.Buy?
    ensures s'.recs[n].cumQuote <= MulRaw(s'.recs[n].executed, s'.recs[n].price)
  {
    InitInv(s);
    RunFair(s, steps, s');
  }
}
