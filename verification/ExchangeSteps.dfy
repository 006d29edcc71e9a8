/** Every step of the exchange machine keeps its invariant. */
module ExchangeSteps {
  import opened FixedPoint
  import opened Orders
  import opened Matching
  import opened Registry
  import opened Ledger
  import opened Exchange
  import opened ExchangeInv

  // ----- frames --------------------------------------------------------------------------

  /** Once placed, an order's terms are fixed, and cancelled is final. */
  ghost predicate Extends(s: Sys, s': Sys) {
    forall m :: m in s.recs && m in s.phase && s.phase[m].Live? ==>
      && m in s'.recs && m in s'.phase && s'.phase[m].Live?
      && s'.recs[m].sym == s.recs[m].sym && s'.recs[m].typ == s.recs[m].typ
      && s'.recs[m].side == s.recs[m].side && s'.recs[m].price == s.recs[m].price
      && (s.recs[m].status.Canceled? ==> s'.recs[m].status.Canceled?)
  }

  lemma QueueExtends(s: Sys, s': Sys, sym: string, side: Side, queue: seq<Order>)
    requires Extends(s, s') && QueueRestOk(s, sym, side, queue)
    ensures QueueRestOk(s', sym, side, queue)
  {
  }

  lemma BooksExtend(s: Sys, s': Sys)
    requires Extends(s, s') && BooksOk(s) && s'.books == s.books && s'.clock == s.clock
    ensures BooksOk(s')
  {
    forall sym | sym in s'.books
      ensures QueueRestOk(s', sym, Buy, s'.books[sym].bids) && QueueRestOk(s', sym, Sell, s'.books[sym].asks)
    {
      QueueExtends(s, s', sym, Buy, s.books[sym].bids);
      QueueExtends(s, s', sym, Sell, s.books[sym].asks);
    }
  }

  lemma EventExtends(s: Sys, s': Sys, sym: string, e: Event)
    requires Extends(s, s') && EventOk(s, sym, e)
    ensures EventOk(s', sym, e)
  {
  }

  lemma ShapeExtends(s: Sys, s': Sys, sym: string, events: seq<Event>)
    requires Extends(s, s') && PendShape(s, events)
    requires forall i :: 0 <= i < |events| ==> EventOk(s, sym, events[i])
    ensures PendShape(s', events)
  {
  }

  lemma EventsExtend(s: Sys, s': Sys)
    requires Extends(s, s') && EventsOk(s) && s'.books.Keys >= s.books.Keys && s'.pend == s.pend
    ensures EventsOk(s')
  {
    forall sym | sym in s'.pend
      ensures PendShape(s', s'.pend[sym])
      ensures forall i :: 0 <= i < |s'.pend[sym]| ==> EventOk(s', sym, s'.pend[sym][i])
    {
      ShapeExtends(s, s', sym, s.pend[sym]);
      forall i | 0 <= i < |s.pend[sym]| ensures EventOk(s', sym, s.pend[sym][i]) {
        EventExtends(s, s', sym, s.pend[sym][i]);
      }
    }
  }

  // ----- sums of reservations ------------------------------------------------------------

  lemma {:induction false} SumSame(s: Sys, s': Sys, k: nat, a: string)
    requires forall n :: 1 <= n <= k ==> Reservation(s', n, a) == Reservation(s, n, a)
    ensures SumTo(s', k, a) == SumTo(s, k, a)
  {
    if k > 0 { SumSame(s, s', k - 1, a); }
  }

  lemma {:induction false} SumChange(s: Sys, s': Sys, k: nat, n: nat, a: string)
    requires 1 <= n <= k
    requires forall m :: 1 <= m <= k && m != n ==> Reservation(s', m, a) == Reservation(s, m, a)
    ensures SumTo(s', k, a) == SumTo(s, k, a) + Reservation(s', n, a) - Reservation(s, n, a)
  {
    if n == k { SumSame(s, s', k - 1, a); } else { SumChange(s, s', k - 1, n, a); }
  }

  lemma ReservationNonNeg(s: Sys, n: nat, a: string)
    requires RecsOk(s) && BooksOk(s) && EventsOk(s)
    ensures Reservation(s, n, a) >= 0
  {
    if n in s.phase {
      assert PhaseOk(s, n);
      if n in s.recs {
        assert RecOk(s, n);
        HeldNonNeg(s, n);
        MulRawNonNeg(Held(s, n), s.recs[n].price);
      }
    }
  }

  lemma {:induction false} SumAtLeast(s: Sys, k: nat, n: nat, a: string)
    requires RecsOk(s) && BooksOk(s) && EventsOk(s)
    ensures SumTo(s, k, a) >= 0
    ensures 1 <= n <= k ==> Reservation(s, n, a) <= SumTo(s, k, a)
  {
    if k > 0 {
      SumAtLeast(s, k - 1, n, a);
      ReservationNonNeg(s, k, a);
    }
  }

  /** Reservations of order m look only at its record, its phase and its own symbol. */
  lemma ReservationFrame(s: Sys, s': Sys, m: nat, a: string)
    requires m in s.phase <==> m in s'.phase
    requires m in s.phase ==> s.phase[m] == s'.phase[m] && (m in s.recs <==> m in s'.recs)
    requires m in s.recs && m in s'.recs ==>
      var r, r' := s.recs[m], s'.recs[m];
      && r.typ == r'.typ && r.side == r'.side && r.sym == r'.sym && r.price == r'.price && r.orig == r'.orig
      && RestQty(BookOf(s, r.sym), m) + SettleQty(Pend(s, r.sym), m) + UnlockQty(Pend(s, r.sym), m)
         == RestQty(BookOf(s', r.sym), m) + SettleQty(Pend(s', r.sym), m) + UnlockQty(Pend(s', r.sym), m)
    ensures Reservation(s', m, a) == Reservation(s, m, a)
  {
  }

  // ----- handler steps -------------------------------------------------------------------

  lemma DrawIdKeeps(s: Sys)
    requires Inv(s)
    ensures Inv(s.(next := s.next + 1, phase := s.phase[s.next + 1 := Drawn]))
  {
    var k := s.next + 1;
    var s' := s.(next := k, phase := s.phase[k := Drawn]);
    assert k in s.phase ==> PhaseOk(s, k);
    assert k !in s.phase && k !in s.recs;
    BooksExtend(s, s');
    EventsExtend(s, s');
    DrawIdRecs(s, s');
    DrawIdMoney(s, s');
    assert AcksOk(s');
  }

  lemma DrawIdRecs(s: Sys, s': Sys)
    requires RecsOk(s) && s.next + 1 !in s.phase
    requires s' == s.(next := s.next + 1, phase := s.phase[s.next + 1 := Drawn])
    ensures RecsOk(s')
  {
    forall n | n in s'.phase ensures PhaseOk(s', n) { if n != s'.next { assert PhaseOk(s, n); } }
    forall n | n in s'.recs ensures n in s'.phase && RecOk(s', n) { assert RecOk(s, n); }
  }

  lemma DrawIdMoney(s: Sys, s': Sys)
    requires MoneyOk(s) && s.next + 1 !in s.phase && s.next + 1 !in s.recs
    requires s' == s.(next := s.next + 1, phase := s.phase[s.next + 1 := Drawn])
    ensures MoneyOk(s')
  {
    forall a {:trigger At(s'.bal, a)}
      ensures (s'.overdrawn || 0 <= At(s'.bal, a).free)
      ensures SumTo(s', s'.next, a) <= At(s'.bal, a).locked <= SumTo(s', s'.next, a) + Fills(s', a)
    {
      assert (s.overdrawn || 0 <= At(s.bal, a).free);
      forall n | 1 <= n <= s.next ensures Reservation(s', n, a) == Reservation(s, n, a) {
        ReservationFrame(s, s', n, a);
      }
      SumSame(s, s', s.next, a);
    }
  }

  /** A record nobody has placed yet appears in no book and in no pending hook. */
  lemma NotOwned(s: Sys, n: nat, sym: string)
    requires BooksOk(s) && EventsOk(s) && !OwnedBy(s, sym, n)
    ensures RestQty(BookOf(s, sym), n) == 0
    ensures var events := Pend(s, sym);
            FoldQty(events, n) == SettleQty(events, n) == CancelQty(events, n) == UnlockQty(events, n) == 0
  {
    BookNonNeg(s, sym, n);
    EventsNonNeg(s, sym, Pend(s, sym), n);
  }

  predicate SameEntry(s: Sys, s': Sys, m: nat) {
    && (m in s.phase <==> m in s'.phase) && (m in s.phase ==> s.phase[m] == s'.phase[m])
    && (m in s.recs <==> m in s'.recs) && (m in s.recs ==> s.recs[m] == s'.recs[m])
  }

  /** A step of the handler placing order n, before the order goes live. */
  ghost predicate HandlerStep(s: Sys, s': Sys, n: nat) {
    && s'.next == s.next && s'.fills == s.fills && s'.books == s.books && s'.pend == s.pend
    && s'.clock == s.clock && s'.acks == s.acks && s'.overdrawn == s.overdrawn
    && (forall m :: m != n ==> SameEntry(s, s', m))
    && n in s.phase && !s.phase[n].Live? && (n in s'.phase ==> !s'.phase[n].Live?)
  }

  lemma HandlerExtends(s: Sys, s': Sys, n: nat)
    requires HandlerStep(s, s', n)
    ensures Extends(s, s')
  {
    forall m | m in s.recs && m in s.phase && s.phase[m].Live?
      ensures m in s'.recs && m in s'.phase && s'.phase[m].Live? && s'.recs[m] == s.recs[m]
    {
      assert SameEntry(s, s', m);
    }
  }

  lemma HandlerRecs(s: Sys, s': Sys, n: nat)
    requires RecsOk(s) && HandlerStep(s, s', n)
    requires n in s'.phase ==> PhaseOk(s', n)
    requires n in s'.recs ==> n in s'.phase && RecOk(s', n)
    ensures RecsOk(s')
  {
    forall m | m in s'.phase ensures PhaseOk(s', m) {
      if m != n { assert SameEntry(s, s', m); assert PhaseOk(s, m); }
    }
    forall m | m in s'.recs ensures m in s'.phase && RecOk(s', m) {
      if m != n { assert SameEntry(s, s', m); assert RecOk(s, m); }
    }
  }

  lemma HandlerAcks(s: Sys, s': Sys, n: nat)
    requires RecsOk(s) && AcksOk(s) && HandlerStep(s, s', n)
    ensures AcksOk(s')
  {
    assert n in s.recs ==> RecOk(s, n);
    assert n !in s.acks;
    forall m | m in s'.acks ensures m in s'.recs && s'.recs[m].status.Canceled? {
      assert SameEntry(s, s', m);
    }
  }

  /** The asset columns move by exactly what order n's reservation changes. */
  lemma HandlerMoney(s: Sys, s': Sys, n: nat)
    requires MoneyOk(s) && HandlerStep(s, s', n) && 1 <= n <= s.next
    requires forall a {:trigger At(s'.bal, a)} ::
      && (s'.overdrawn || 0 <= At(s'.bal, a).free)
      && At(s'.bal, a).locked - At(s.bal, a).locked == Reservation(s', n, a) - Reservation(s, n, a)
    ensures MoneyOk(s')
  {
    forall a {:trigger At(s'.bal, a)}
      ensures (s'.overdrawn || 0 <= At(s'.bal, a).free)
      ensures SumTo(s', s'.next, a) <= At(s'.bal, a).locked <= SumTo(s', s'.next, a) + Fills(s', a)
    {
      assert (s.overdrawn || 0 <= At(s.bal, a).free);
      forall m | 1 <= m <= s.next && m != n ensures Reservation(s', m, a) == Reservation(s, m, a) {
        assert SameEntry(s, s', m);
        ReservationFrame(s, s', m, a);
      }
      SumChange(s, s', s.next, n, a);
    }
  }

  /** What is left to show of a handler step: the order it works for and the money it moves. */
  lemma HandlerKeeps(s: Sys, s': Sys, n: nat)
    requires Inv(s) && HandlerStep(s, s', n) && ClientsOk(s'.recs, s'.clients)
    requires n in s'.phase ==> PhaseOk(s', n)
    requires n in s'.recs ==> n in s'.phase && RecOk(s', n)
    requires forall a {:trigger At(s'.bal, a)} ::
      && (s'.overdrawn || 0 <= At(s'.bal, a).free)
      && At(s'.bal, a).locked - At(s.bal, a).locked == Reservation(s', n, a) - Reservation(s, n, a)
    ensures Inv(s')
  {
    assert PhaseOk(s, n);
    HandlerExtends(s, s', n);
    BooksExtend(s, s');
    EventsExtend(s, s');
    HandlerRecs(s, s', n);
    HandlerAcks(s, s', n);
    HandlerMoney(s, s', n);
  }

  /** A handler step that leaves the ledger and order n's reservation as they were. */
  lemma HandlerKeepsMoney(s: Sys, s': Sys, n: nat)
    requires Inv(s) && HandlerStep(s, s', n) && ClientsOk(s'.recs, s'.clients)
    requires n in s'.phase ==> PhaseOk(s', n)
    requires n in s'.recs ==> n in s'.phase && RecOk(s', n)
    requires s'.bal == s.bal && forall a :: Reservation(s', n, a) == Reservation(s, n, a)
    ensures Inv(s')
  {
    assert s'.overdrawn == s.overdrawn;
    hide BooksOk, EventsOk, ClientsOk, RecsOk, HandlerStep, Reservation, PhaseOk, RecOk;
    forall a {:trigger At(s'.bal, a)}
      ensures (s'.overdrawn || 0 <= At(s'.bal, a).free)
      ensures At(s'.bal, a).locked - At(s.bal, a).locked == Reservation(s', n, a) - Reservation(s, n, a)
    {
      FreeNonNeg(s, a);
    }
    HandlerKeeps(s, s', n);
  }

  lemma ClaimKeeps(s: Sys, n: nat, req: Request)
    requires Inv(s) && n in s.phase && s.phase[n].Drawn? && req.Valid()
    ensures Inv(ClaimStep(s, n, req))
  {
    hide BooksOk, EventsOk, ClientsOk, MoneyOk, AcksOk;
    assert PhaseOk(s, n);
    if ClientFor(req, n) in s.clients {
      HandlerKeepsMoney(s, s.(phase := s.phase - {n}), n);
    } else {
      var s' := s.(recs := s.recs[n := NewRec(n, req)], clients := s.clients[ClientFor(req, n) := n],
          phase := s.phase[n := Claimed]);
      RegisterKeepsClients(s.recs, s.clients, n, req);
      ClaimRec(s, s', n, req);
      HandlerKeepsMoney(s, s', n);
    }
  }

  lemma ClaimRec(s: Sys, s': Sys, n: nat, req: Request)
    requires BooksOk(s) && EventsOk(s) && n !in s.recs && n in s.phase && req.Valid()
    requires s'.books == s.books && s'.pend == s.pend && s'.recs == s.recs[n := NewRec(n, req)]
        && s'.phase == s.phase[n := Claimed]
    ensures RecOk(s', n)
  {
    NotOwned(s, n, req.sym);
  }

  lemma FreeNonNeg(s: Sys, a: string)
    requires MoneyOk(s)
    ensures (s.overdrawn || 0 <= At(s.bal, a).free)
    ensures SumTo(s, s.next, a) <= At(s.bal, a).locked <= SumTo(s, s.next, a) + Fills(s, a)
  {
  }

  lemma LockFundsMoves(bal: Balances, asset: string, amt: int, a: string)
    requires amt >= 0
    ensures var (bal', ok) := LockFunds(bal, asset, amt);
            var moved := if ok then Delta(a, asset, amt) else 0;
            && At(bal', a).locked == At(bal, a).locked + moved
            && At(bal', a).free == At(bal, a).free - moved
            && (0 <= At(bal, a).free ==> 0 <= At(bal', a).free)
  {
  }

  lemma ReserveKeeps(s: Sys, n: nat)
    requires Inv(s) && n in s.phase && s.phase[n].Claimed? && n in s.recs
    ensures Inv(ReserveStep(s, n))
  {
    hide BooksOk, EventsOk, ClientsOk, MoneyOk, AcksOk, Resting, FoldQty, SettleQty, CancelQty, UnlockQty, LockFunds,
        At;
    assert PhaseOk(s, n) && RecOk(s, n);
    var rec := s.recs[n];
    if rec.typ.MarketType? {
      HandlerKeepsMoney(s, s.(phase := s.phase[n := Reserved]), n);
    } else {
      ReserveLimitKeeps(s, n);
    }
  }

  lemma ReserveLimitKeeps(s: Sys, n: nat)
    requires Inv(s) && n in s.phase && s.phase[n].Claimed? && n in s.recs && s.recs[n].typ.LimitType?
    ensures Inv(ReserveStep(s, n))
  {
    var rec := s.recs[n];
    var (bal, ok) := LockFunds(s.bal, LockAsset(rec), LockAmount(rec, rec.orig));
    var s' := s.(bal := bal, phase := s.phase[n := if ok then Reserved else Unfunded]);
    ReservedRec(s, s', n, ok);
    hide Inv, LockFunds, At, RecsOk, Reservation, LockAsset, LockAmount, HandlerStep, PhaseOk, RecOk;
    ReserveMoney(s, s', n, ok);
    HandlerKeeps(s, s', n);
  }

  lemma ReservedRec(s: Sys, s': Sys, n: nat, ok: bool)
    requires Inv(s) && n in s.phase && s.phase[n].Claimed? && n in s.recs
    requires s' == s.(bal := s'.bal, phase := s.phase[n := if ok then Reserved else Unfunded])
    ensures MoneyOk(s) && StatusOk(s.recs[n]) && ClientsOk(s'.recs, s'.clients)
    ensures HandlerStep(s, s', n) && PhaseOk(s', n) && RecOk(s', n)
  {
    assert PhaseOk(s, n) && RecOk(s, n);
    hide BooksOk, EventsOk, ClientsOk, MoneyOk, AcksOk, RestQty, FoldQty, SettleQty, CancelQty, UnlockQty;
  }

  lemma ReserveMoney(s: Sys, s': Sys, n: nat, ok: bool)
    requires MoneyOk(s) && n in s.phase && s.phase[n].Claimed? && n in s.recs && StatusOk(s.recs[n])
        && s.recs[n].typ.LimitType?
    requires (s'.bal, ok) == LockFunds(s.bal, LockAsset(s.recs[n]), LockAmount(s.recs[n], s.recs[n].orig))
    requires s' == s.(bal := s'.bal, phase := s.phase[n := if ok then Reserved else Unfunded])
    ensures forall a {:trigger At(s'.bal, a)} ::
              && (s'.overdrawn || 0 <= At(s'.bal, a).free)
              && At(s'.bal, a).locked - At(s.bal, a).locked == Reservation(s', n, a) - Reservation(s, n, a)
  {
    hide SumTo, MoneyOk, LockFunds, At;
    var rec := s.recs[n];
    MulRawNonNeg(rec.orig, rec.price);
    MulRawNonNeg(0, rec.price);
    forall a {:trigger At(s'.bal, a)}
      ensures (s'.overdrawn || 0 <= At(s'.bal, a).free)
      ensures At(s'.bal, a).locked - At(s.bal, a).locked == Reservation(s', n, a) - Reservation(s, n, a)
    {
      FreeNonNeg(s, a);
      LockFundsMoves(s.bal, LockAsset(rec), LockAmount(rec, rec.orig), a);
    }
  }

  lemma RollBackKeeps(s: Sys, n: nat)
    requires Inv(s) && n in s.phase && (s.phase[n].Unfunded? || s.phase[n].Reserved?) && n in s.recs
    ensures Inv(RollBackStep(s, n))
  {
    hide BooksOk, EventsOk, ClientsOk, MoneyOk, AcksOk, Resting, FoldQty, SettleQty, CancelQty, UnlockQty;
    DropKeepsClients(s.recs, s.clients, n);
    assert PhaseOk(s, n) && RecOk(s, n);
    MulRawNonNeg(s.recs[n].orig, s.recs[n].price);
    HandlerKeepsMoney(s, RollBackStep(s, n), n);
  }

  lemma RefundedKeeps(s: Sys, n: nat)
    requires Inv(s) && n in s.phase && s.phase[n].Refund?
    ensures Inv(RefundStep(s, n))
  {
    var s' := RefundStep(s, n);
    assert PhaseOk(s, n);
    var asset := s.phase[n].asset;
    SumAtLeast(s, s.next, n, asset);
    FreeNonNeg(s, asset);
    assert s.phase[n].amt <= At(s.bal, asset).locked;
    hide BooksOk, EventsOk, ClientsOk, MoneyOk;
    assert HandlerStep(s, s', n);
    forall a {:trigger At(s'.bal, a)}
      ensures (s'.overdrawn || 0 <= At(s'.bal, a).free)
      ensures At(s'.bal, a).locked - At(s.bal, a).locked == Reservation(s', n, a) - Reservation(s, n, a)
    {
      FreeNonNeg(s, a);
    }
    HandlerKeeps(s, s', n);
  }

  // ----- steps outside any order's placement ---------------------------------------------

  /** Nothing that reservations depend on has changed. */
  lemma SameMoney(s: Sys, s': Sys)
    requires MoneyOk(s) && s'.next == s.next && s'.fills == s.fills && s'.recs == s.recs && s'.phase == s.phase
    requires s'.books == s.books && s'.pend == s.pend
    requires forall a {:trigger At(s'.bal, a)} ::
        (s'.overdrawn || 0 <= At(s'.bal, a).free) && At(s'.bal, a).locked == At(s.bal, a).locked
    ensures MoneyOk(s')
  {
    forall a {:trigger At(s'.bal, a)}
      ensures (s'.overdrawn || 0 <= At(s'.bal, a).free)
      ensures SumTo(s', s'.next, a) <= At(s'.bal, a).locked <= SumTo(s', s'.next, a) + Fills(s', a)
    {
      FreeNonNeg(s, a);
      forall n | 1 <= n <= s.next ensures Reservation(s', n, a) == Reservation(s, n, a) {
        ReservationFrame(s, s', n, a);
      }
      SumSame(s, s', s.next, a);
    }
  }

  lemma SameRecs(s: Sys, s': Sys)
    requires RecsOk(s) && s'.next == s.next && s'.recs == s.recs && s'.phase == s.phase && s'.books == s.books
        && s'.pend == s.pend
    ensures RecsOk(s')
  {
    forall m | m in s'.phase ensures PhaseOk(s', m) { assert PhaseOk(s, m); }
    forall m | m in s'.recs ensures m in s'.phase && RecOk(s', m) { assert RecOk(s, m); }
  }

  /** The late MarkCanceled of a cancel handler finds the record already cancelled. */
  lemma AckCancelKeeps(s: Sys, n: nat)
    requires Inv(s) && n in s.acks
    ensures CancelRec(s.recs, n) == s.recs
    ensures Inv(s.(acks := s.acks - {n}))
  {
    var s' := s.(acks := s.acks - {n});
    assert s.recs[n].(status := Canceled) == s.recs[n];
    assert AcksOk(s') && Extends(s, s');
    hide BooksOk, EventsOk, ClientsOk, MoneyOk, RecsOk, AcksOk, At, Extends;
    BooksExtend(s, s');
    EventsExtend(s, s');
    SameRecs(s, s');
    forall a {:trigger At(s'.bal, a)} ensures (s'.overdrawn || 0 <= At(s'.bal, a).free)
        && At(s'.bal, a).locked == At(s.bal, a).locked {
      FreeNonNeg(s, a);
    }
    SameMoney(s, s');
  }

  /** Deposits, withdrawals and burns touch free balances only. */
  lemma FundsKeep(s: Sys, asset: string, amt: int)
    requires Inv(s)
    ensures Inv(s.(bal := Credit(s.bal, asset, amt)))
    ensures Inv(s.(bal := Debit(s.bal, asset, amt).0))
    ensures Inv(s.(bal := Burn(s.bal, asset, amt)))
  {
    FreeNonNeg(s, asset);
    FreeOnlyKeeps(s, Credit(s.bal, asset, amt));
    FreeOnlyKeeps(s, Debit(s.bal, asset, amt).0);
    FreeOnlyKeeps(s, Burn(s.bal, asset, amt));
  }

  lemma FreeOnlyKeeps(s: Sys, bal: Balances)
    requires Inv(s)
    requires forall a {:trigger At(bal, a)} ::
        At(bal, a).locked == At(s.bal, a).locked && (0 <= At(s.bal, a).free ==> 0 <= At(bal, a).free)
    ensures Inv(s.(bal := bal))
  {
    var s' := s.(bal := bal);
    assert AcksOk(s');
    hide BooksOk, EventsOk, ClientsOk, MoneyOk, RecsOk, AcksOk, At;
    BooksExtend(s, s');
    EventsExtend(s, s');
    SameRecs(s, s');
    forall a {:trigger At(s'.bal, a)} ensures (s'.overdrawn || 0 <= At(s'.bal, a).free)
        && At(s'.bal, a).locked == At(s.bal, a).locked {
      FreeNonNeg(s, a);
    }
    SameMoney(s, s');
  }
}
