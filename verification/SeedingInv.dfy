/** Every step of the seeder, of its hooks and of everybody else keeps the book and the record in agreement. */
module SeedingInv {
  import opened Orders
  import opened Matching
  import opened Seeding
  import opened SeedingBook

  // ----- steps that touch only the record ------------------------------------------------

  /** The book, the corrected record and the fills it does not show yet are as before. */
  ghost predicate Silent(s: Sys, s': Sys) {
    && s'.book == s.book && s'.clock == s.clock && s'.pend == s.pend && s'.nonce == s.nonce && s'.revoked == s.revoked
    && TrackedNow(s') == TrackedNow(s)
    && (forall id :: At(s'.fills, id) + At(TakenOf(s'.pc), id) == At(s.fills, id) + At(TakenOf(s.pc), id))
    && FillsOk(s'.fills, s'.nonce) && FillsOk(TakenOf(s'.pc), s'.nonce)
  }

  lemma SilentKeeps(s: Sys, s': Sys)
    requires Inv(s) && Silent(s, s') && PcOk(s')
    ensures Inv(s')
  {
    hide BookOk, SynthBook, InBook, Filled, PcOk, TrackedNow, TakenOf, FillsOk, TradesOk, TrackedOk, At;
    forall id: OrderId | id.Synth? ensures InBook(s'.book, id) == Due(s', id) {
      assert InBook(s.book, id) == Due(s, id);
    }
  }

  lemma SwapKeeps(s: Sys)
    requires Inv(s) && s.pc.Idle?
    ensures Inv(Next(s, SwapFills))
  {
    hide Accounted, BookOk, SynthBook;
    SilentKeeps(s, Next(s, SwapFills));
  }

  lemma StartKeeps(s: Sys, plans: map<Level, Plan>, eps: int)
    requires Inv(s) && (s.pc.Idle? || s.pc.Folded?)
    requires forall k :: k in plans ==> PlanMatches(s.placed, plans, k)
    ensures Inv(StartPass(s, plans, eps))
  {
    hide Accounted, BookOk, SynthBook;
    SilentKeeps(s, StartPass(s, plans, eps));
  }

  lemma LeaveKeeps(s: Sys, k: Level)
    requires Inv(s) && Enabled(s, LeaveLevel(k))
    ensures Inv(LeaveStep(s, k))
  {
    hide Accounted, BookOk, SynthBook;
    SilentKeeps(s, LeaveStep(s, k));
  }

  lemma DropKeeps(s: Sys)
    requires Inv(s) && Enabled(s, DropRecord)
    ensures Inv(DropStep(s))
  {
    hide Accounted, BookOk, SynthBook;
    SilentKeeps(s, DropStep(s));
  }

  lemma RecordKeeps(s: Sys)
    requires Inv(s) && Enabled(s, WriteRecord)
    ensures Inv(RecordStep(s))
  {
    hide Accounted, BookOk, SynthBook;
    SilentKeeps(s, RecordStep(s));
  }

  lemma PhaseKeeps(s: Sys, step: Step)
    requires Inv(s) && Enabled(s, step) && (step.StartPlacing? || step.EndPass?)
    ensures Inv(Next(s, step))
  {
    hide Accounted, BookOk, SynthBook;
    SilentKeeps(s, Next(s, step));
  }

  // ----- hooks and folding ---------------------------------------------------------------

  lemma BufferAt(fills: map<OrderId, int>, who: OrderId, volume: int, id: OrderId)
    requires id.Synth?
    ensures At(Buffer(fills, who, volume), id) == At(fills, id) + (if who == id then volume else 0)
  {
  }

  lemma BufferOk(fills: map<OrderId, int>, who: OrderId, volume: int, nonce: nat)
    requires FillsOk(fills, nonce) && Minted(who, nonce) && volume >= 0
    ensures FillsOk(Buffer(fills, who, volume), nonce)
  {
  }

  lemma HookKeeps(s: Sys)
    requires Inv(s) && s.pend != []
    ensures Inv(HookStep(s))
  {
    hide BookOk, SynthBook, InBook, PcOk, TrackedOk, Buffer, FillsOk, Minted, At;
    var s', t := HookStep(s), s.pend[0];
    var half := Buffer(s.fills, t.buyId, t.volume);
    BufferOk(s.fills, t.buyId, t.volume, s.nonce);
    BufferOk(half, t.sellId, t.volume, s.nonce);
    forall id: OrderId | id.Synth? ensures InBook(s'.book, id) == Due(s', id) {
      BufferAt(s.fills, t.buyId, t.volume, id);
      BufferAt(half, t.sellId, t.volume, id);
      assert InBook(s.book, id) == Due(s, id);
    }
    PcSame(s, s');
  }

  lemma PcSame(s: Sys, s': Sys)
    requires PcOk(s) && s'.placed == s.placed && s'.pc == s.pc
    ensures PcOk(s')
  {
  }

  lemma {:induction false} FilledNonNegative(trades: seq<Trade>, nonce: nat, id: OrderId)
    requires TradesOk(trades, nonce)
    ensures Filled(trades, id) >= 0
  {
    if trades != [] { FilledNonNegative(trades[1..], nonce, id); }
  }

  /** An order that the fold removes has nothing left in the book. */
  lemma FoldKeepsDue(s: Sys, id: OrderId)
    requires Inv(s) && s.pc.Folding? && id.Synth?
    ensures InBook(s.book, id) == Due(FoldStep(s), id)
  {
    assert InBook(s.book, id) == Due(s, id);
    FilledNonNegative(s.pend, s.nonce, id);
    InBookZero(s.book, id);
  }

  lemma FoldKeeps(s: Sys)
    requires Inv(s) && s.pc.Folding?
    ensures Inv(FoldStep(s))
  {
    forall id: OrderId | id.Synth? ensures InBook(s.book, id) == Due(FoldStep(s), id) {
      FoldKeepsDue(s, id);
    }
    hide InBook, Due, BookOk, SynthBook;
  }

  // ----- other people's orders -----------------------------------------------------------

  /** A book operation whose trades are owed to the hooks. */
  ghost predicate BookStep(s: Sys, s': Sys) {
    && s'.placed == s.placed && s'.nonce == s.nonce && s'.fills == s.fills && s'.revoked == s.revoked && s'.pc == s.pc
    && s.pend == []
    && BookOk(s'.book, s'.clock) && SynthBook(s'.book) && TradesOk(s'.pend, s.nonce)
    && forall id: OrderId :: id.Synth? ==> InBook(s'.book, id) + Filled(s'.pend, id) == InBook(s.book, id)
  }

  lemma BookStepKeeps(s: Sys, s': Sys)
    requires Inv(s) && BookStep(s, s')
    ensures Inv(s')
  {
    assert Positive(s'.book.bids) && Positive(s'.book.asks);
    assert TradesOk(s'.pend, s.nonce);
    hide BookOk, SynthBook, PcOk, TrackedOk, FillsOk, At, TradesOk;
    forall id: OrderId | id.Synth? ensures InBook(s'.book, id) == Due(s', id) {
      assert InBook(s.book, id) == Due(s, id);
      assert InBook(s'.book, id) + Filled(s'.pend, id) == InBook(s.book, id);
      InBookZero(s'.book, id);
      FilledNonNegative(s'.pend, s.nonce, id);
    }
    PcSame(s, s');
  }

  lemma MatchTradesOk(ord: Order, queue: seq<Order>, nonce: nat)
    requires Positive(queue) && Minted(ord.id, nonce) && forall o :: o in queue ==> Minted(o.id, nonce)
    ensures TradesOk(MatchQueue(ord, queue).trades, nonce)
  {
    var trades := MatchQueue(ord, queue).trades;
    forall i | 0 <= i < |trades|
      ensures trades[i].volume > 0 && Minted(trades[i].buyId, nonce) && Minted(trades[i].sellId, nonce)
    {
      TradeParties(ord, queue, i);
      assert queue[i] in queue;
      assert trades[i].buyId in {trades[i].buyId, trades[i].sellId};
      assert trades[i].sellId in {trades[i].buyId, trades[i].sellId};
    }
  }

  /** Whatever rests under a synthetic id has been minted. */
  lemma BookMinted(s: Sys, o: Order)
    requires Inv(s) && (o in s.book.bids || o in s.book.asks)
    ensures Minted(o.id, s.nonce)
  {
    if o.id.Synth? {
      InBookZero(s.book, o.id);
      assert InBook(s.book, o.id) == Due(s, o.id);
    }
  }

  lemma AddLimitTradesOk(s: Sys, ord: Order, nonce: nat)
    requires Inv(s) && s.nonce <= nonce && Minted(ord.id, nonce)
    ensures TradesOk(AddLimit(s.book, ord).1, nonce) && TradesOk(ExecuteIoc(s.book, ord).1, nonce)
  {
    var queue := Opposite(s.book, ord.side);
    forall o | o in queue ensures Minted(o.id, nonce) {
      BookMinted(s, o);
    }
    hide Inv;
    MatchTradesOk(ord, queue, nonce);
  }

  lemma OutsideLimitKeeps(s: Sys, ord: Order)
    requires Inv(s) && Enabled(s, OutsideLimit(ord))
    ensures Inv(EngineLimit(s, ord))
  {
    hide Inv, EngineLimit, Absorbed, Minted, IsCurrent, TrackedNow;
    if !ord.id.Synth? {
      OthersKeeps(s, ord);
    } else if NoEffect(s.book, ord) {
      NothingHappens(s.book, ord);
      NothingHappens(s.book, ord.(id := Other("")));
      OthersKeeps(s, ord.(id := Other("")));
      assert EngineLimit(s, ord) == EngineLimit(s, ord.(id := Other("")))
          by { SameCall(s, ord, ord.(id := Other(""))); }
    } else {
      AbsorbedKeeps(s, ord);
    }
  }

  lemma SameCall(s: Sys, a: Order, b: Order)
    requires AddLimit(s.book, a) == AddLimit(s.book, b)
    ensures EngineLimit(s, a) == EngineLimit(s, b)
  {
    hide AddLimit;
  }

  /** An order under a minted id the book owes nothing: it leaves through its trades. */
  lemma AbsorbedKeeps(s: Sys, ord: Order)
    requires Inv(s) && s.pend == [] && ord.arrival == s.clock && ord.id.Synth? && !NoEffect(s.book, ord)
    requires Minted(ord.id, s.nonce) && !(IsCurrent(TrackedNow(s), ord.id) && ord.id !in s.revoked)
        && Absorbed(s.book, ord)
    ensures Inv(EngineLimit(s, ord))
  {
    var s' := EngineLimit(s, ord);
    AddLimitKeepsBookOk(s.book, ord);
    AddLimitTradesOk(s, ord, s.nonce);
    OwnNothing(s, ord);
    AbsorbedSynth(s.book, ord);
    hide AddLimit, InBook, SynthBook, BookOk, Filled, TrackedNow, FillsOk, TradesOk, TrackedOk, Minted, At;
    forall id: OrderId | id.Synth? ensures InBook(s'.book, id) == Due(s', id) {
      if id == ord.id {
        assert Due(s', id) == 0;
      } else {
        OtherDue(s, ord, id);
      }
    }
    PcSame(s, s');
  }

  lemma AbsorbedLeaves(book: Book, ord: Order)
    requires BookOk(book, ord.arrival) && ord.volume > 0 && Absorbed(book, ord)
    ensures AddLimit(book, ord).0 == AfterMatch(book, ord).0
  {
    CallTakes(book, ord, ord.arrival);
  }

  lemma AbsorbedSynth(book: Book, ord: Order)
    requires BookOk(book, ord.arrival) && SynthBook(book) && ord.volume > 0 && Absorbed(book, ord)
    ensures SynthBook(AddLimit(book, ord).0)
  {
    AbsorbedLeaves(book, ord);
    AfterMatchKeepsSynth(book, ord);
  }

  lemma OwnNothing(s: Sys, ord: Order)
    requires Inv(s) && s.pend == [] && ord.arrival == s.clock && ord.id.Synth? && ord.volume > 0
    requires !(IsCurrent(TrackedNow(s), ord.id) && ord.id !in s.revoked) && Absorbed(s.book, ord)
    ensures InBook(EngineLimit(s, ord).book, ord.id) == 0
  {
    assert InBook(s.book, ord.id) == Due(s, ord.id) == 0;
    AbsorbedLeaves(s.book, ord);
    InBookZero(s.book, ord.id);
    var queue := Opposite(s.book, ord.side);
    hide Inv, AddLimit, MatchQueue;
    MatchKeepsIds(ord, queue, ord.id);
    InBookZero(AfterMatch(s.book, ord).0, ord.id) by { AfterMatchOk(s.book, ord, ord.arrival); }
  }

  /** Any other id loses from the book what it trades. */
  lemma OtherDue(s: Sys, ord: Order, id: OrderId)
    requires Inv(s) && s.pend == [] && ord.arrival == s.clock && id.Synth? && id != ord.id
    requires TradesOk(EngineLimit(s, ord).pend, s.nonce)
    ensures InBook(EngineLimit(s, ord).book, id) == Due(EngineLimit(s, ord), id)
  {
    var s' := EngineLimit(s, ord);
    assert InBook(s.book, id) == Due(s, id);
    AddLimitKeepsBookOk(s.book, ord);
    AddLimitAccount(s.book, ord, s.clock, id);
    FilledNonNegative(s'.pend, s.nonce, id);
    hide Inv, AddLimit, InBook, Sorted, At;
    InBookZero(s'.book, id);
  }

  lemma OthersKeeps(s: Sys, ord: Order)
    requires Inv(s) && s.pend == [] && !ord.id.Synth? && ord.arrival == s.clock
    ensures Inv(EngineLimit(s, ord))
  {
    OthersStep(s, ord);
    hide Inv, BookStep, EngineLimit;
    BookStepKeeps(s, EngineLimit(s, ord));
  }

  lemma BookInOrder(s: Sys)
    requires Inv(s)
    ensures BookOk(s.book, s.clock) && SynthBook(s.book)
  {
  }

  lemma OthersStep(s: Sys, ord: Order)
    requires Inv(s) && s.pend == [] && !ord.id.Synth? && ord.arrival == s.clock
    ensures BookStep(s, EngineLimit(s, ord))
  {
    hide Inv, BookOk, SynthBook, AddLimit, InBook, Filled, TradesOk;
    BookInOrder(s);
    OutsideBook(s.book, ord);
    AddLimitTradesOk(s, ord, s.nonce);
  }

  /** Somebody else's order leaves the synthetic orders where they are, less what it buys of them. */
  lemma OutsideBook(book: Book, ord: Order)
    requires BookOk(book, ord.arrival) && SynthBook(book) && !ord.id.Synth?
    ensures BookOk(AddLimit(book, ord).0, ord.arrival + 1) && SynthBook(AddLimit(book, ord).0)
    ensures forall id: OrderId :: id.Synth? ==>
        InBook(AddLimit(book, ord).0, id) + Filled(AddLimit(book, ord).1, id) == InBook(book, id)
  {
    AddLimitKeepsBookOk(book, ord);
    AddLimitKeepsSynth(book, ord, ord.arrival);
    hide AddLimit, SynthBook, InBook, Filled, Sorted, Positive;
    forall id: OrderId | id.Synth? ensures InBook(AddLimit(book, ord).0, id) + Filled(AddLimit(book, ord).1, id) ==
        InBook(book, id) {
      AddLimitAccount(book, ord, ord.arrival, id);
    }
  }

  lemma OutsideIocKeeps(s: Sys, ord: Order)
    requires Inv(s) && Enabled(s, OutsideIoc(ord))
    ensures Inv(EngineIoc(s, ord))
  {
    var s' := EngineIoc(s, ord);
    ExecuteIocKeepsBookOk(s.book, ord, s.clock);
    IocKeepsSynth(s.book, ord);
    AddLimitTradesOk(s, ord, s.nonce);
    forall id: OrderId | id.Synth? ensures InBook(s'.book, id) + Filled(s'.pend, id) == InBook(s.book, id) {
      IocAccount(s.book, ord, id);
    }
    hide Inv, BookOk, SynthBook, ExecuteIoc, InBook, Filled, TradesOk;
    BookStepKeeps(s, s');
  }

  lemma CancelFound(book: Book, id: OrderId)
    ensures Cancel(book, id).1.None? ==> Cancel(book, id).0 == book
    ensures Cancel(book, id).1.Some? ==> !Fresh(book, id)
  {
    var i, j := FindId(book.bids, id), FindId(book.asks, id);
    if i < |book.bids| {
      assert book.bids[i] in book.bids;
    } else if j < |book.asks| {
      assert book.asks[j] in book.asks;
    }
  }

  lemma RevokedDue(s: Sys, gone: OrderId, id: OrderId)
    requires Inv(s) && s.pend == [] && id.Synth?
    ensures InBook(RevokeStep(s, gone).book, id) == Due(RevokeStep(s, gone), id)
  {
    assert InBook(s.book, id) == Due(s, id);
    CancelAccount(s.book, s.clock, gone, id);
    CancelFound(s.book, gone);
    hide Inv, InBook, Cancel, Unfolded;
  }

  lemma RevokeKeeps(s: Sys, gone: OrderId)
    requires Inv(s) && Enabled(s, OutsideCancel(gone))
    ensures Inv(RevokeStep(s, gone))
  {
    var s' := RevokeStep(s, gone);
    CancelKeepsBookOk(s.book, gone, s.clock);
    CancelKeepsSynth(s.book, gone);
    forall id: OrderId | id.Synth? ensures InBook(s'.book, id) == Due(s', id) {
      RevokedDue(s, gone, id);
    }
    if s'.revoked != s.revoked { RevokedMinted(s, gone); }
    hide BookOk, SynthBook, InBook, Due, Cancel, TrackedOk, FillsOk, TradesOk;
    PcSame(s, s');
  }

  lemma RevokedMinted(s: Sys, gone: OrderId)
    requires Inv(s) && gone.Synth? && Cancel(s.book, gone).1.Some?
    ensures Minted(gone, s.nonce)
  {
    CancelFound(s.book, gone);
    var o :| (o in s.book.bids || o in s.book.asks) && o.id == gone;
    BookMinted(s, o);
  }

  // ----- the seeder's own engine calls ---------------------------------------------------

  lemma CancelDue(s: Sys, k: Level, id: OrderId)
    requires Inv(s) && Enabled(s, CancelLevel(k)) && id.Synth?
    ensures InBook(CancelStep(s, k).book, id) == Due(CancelStep(s, k), id)
  {
    var current := s.pc.job.plans[k].current.value;
    assert PlanMatches(s.placed, s.pc.job.plans, k);
    assert s.placed[k].id == current && LevelOf(current) == k;
    assert InBook(s.book, id) == Due(s, id);
    CancelAccount(s.book, s.clock, current, id);
    hide Inv, InBook, Cancel, At, Filled, BookOk, SynthBook;
  }

  lemma CancelLevelKeeps(s: Sys, k: Level)
    requires Inv(s) && Enabled(s, CancelLevel(k))
    ensures Inv(CancelStep(s, k))
  {
    var s' := CancelStep(s, k);
    var current := s.pc.job.plans[k].current.value;
    CancelKeepsBookOk(s.book, current, s.clock);
    CancelKeepsSynth(s.book, current);
    forall id: OrderId | id.Synth? ensures InBook(s'.book, id) == Due(s', id) {
      CancelDue(s, k, id);
    }
    assert PlanMatches(s.placed, s.pc.job.plans, k);
    hide BookOk, SynthBook, InBook, Due, Cancel, FillsOk, TradesOk;
  }

  lemma UnmintedUnfolded(s: Sys, id: OrderId)
    requires Generations(s) && s.pend == [] && id.Synth? && id.generation == s.nonce + 1
    ensures Unfolded(s, id) == 0 && id !in s.revoked && !IsCurrent(TrackedNow(s), id)
  {
  }

  lemma NewIdFresh(s: Sys, k: Level)
    requires Inv(s) && s.pend == []
    ensures Fresh(s.book, NewId(s, k)) && InBook(s.book, NewId(s, k)) == 0
    ensures Unfolded(s, NewId(s, k)) == 0 && NewId(s, k) !in s.revoked
  {
    var id := NewId(s, k);
    UnmintedUnfolded(s, id);
    assert InBook(s.book, id) == Due(s, id);
    InBookZero(s.book, id);
  }

  /** What the placement moves between the book and the trades, id by id. */
  lemma PlaceAccount(s: Sys, k: Level, id: OrderId)
    requires Inv(s) && Enabled(s, PlaceLevel(k))
    ensures var s' := PlaceStep(s, k);
            && InBook(s'.book, id) + Filled(s'.pend, id)
               == InBook(s.book, id) + (if id == NewId(s, k) then s.pc.job.plans[k].target else 0)
            && InBook(s'.book, id) >= 0 && Filled(s'.pend, id) >= 0
  {
    var s', target := PlaceStep(s, k), s.pc.job.plans[k].target;
    PlaceTracked(s, k);
    assert target >= 0 && BookOk(s.book, s.clock) && Positive(s'.book.bids) && Positive(s'.book.asks);
    hide Inv, InBook, AddLimit, Filled, BookOk, SynthBook, TrackedNow, TradesOk;
    AddLimitAccount(s.book, SynthOrder(k, NewId(s, k), target, s.clock), s.clock, id);
    InBookZero(s'.book, id);
    FilledNonNegative(s'.pend, s.nonce + 1, id);
  }

  /** The new order: its volume is its target less what it traded on the way in. */
  lemma PlaceNewDue(s: Sys, k: Level)
    requires Inv(s) && Enabled(s, PlaceLevel(k))
    ensures InBook(PlaceStep(s, k).book, NewId(s, k)) == Due(PlaceStep(s, k), NewId(s, k))
  {
    NewIdFresh(s, k);
    PlaceTracked(s, k);
    PlaceAccount(s, k, NewId(s, k));
    NothingFilled(NewId(s, k));
    hide Inv, InBook, AddLimit, At, Filled, BookOk, SynthBook, TrackedNow, TradesOk, Fresh;
  }

  /** Any other id: what it traded it lost from the book. */
  lemma PlaceOtherDue(s: Sys, k: Level, id: OrderId)
    requires Inv(s) && Enabled(s, PlaceLevel(k)) && id.Synth? && id != NewId(s, k)
    ensures InBook(PlaceStep(s, k).book, id) == Due(PlaceStep(s, k), id)
  {
    assert InBook(s.book, id) == Due(s, id);
    PlaceTracked(s, k);
    PlaceAccount(s, k, id);
    NothingFilled(id);
    hide Inv, InBook, AddLimit, At, Filled, BookOk, SynthBook, TrackedNow, TradesOk;
  }

  lemma PlaceTracked(s: Sys, k: Level)
    requires Inv(s) && Enabled(s, PlaceLevel(k))
    ensures k !in s.placed
    ensures TrackedNow(s) == s.placed
    ensures TrackedNow(PlaceStep(s, k)) == s.placed[k := Tracked(NewId(s, k), s.pc.job.plans[k].target)]
    ensures BookOk(PlaceStep(s, k).book, PlaceStep(s, k).clock) && SynthBook(PlaceStep(s, k).book)
    ensures TradesOk(PlaceStep(s, k).pend, s.nonce + 1)
  {
    var ord := SynthOrder(k, NewId(s, k), s.pc.job.plans[k].target, s.clock);
    AddLimitKeepsBookOk(s.book, ord);
    NewIdFresh(s, k);
    AddLimitKeepsSynth(s.book, ord, s.clock);
    AddLimitTradesOk(s, ord, s.nonce + 1);
  }

  lemma PlaceGenerations(s: Sys, k: Level)
    requires Inv(s) && Enabled(s, PlaceLevel(k))
    ensures Generations(PlaceStep(s, k)) && PcOk(PlaceStep(s, k))
  {
    PlaceTracked(s, k);
    PlacePc(s, k);
    LaterFills(s.fills, s.nonce);
    assert TrackedOk(s.placed, s.nonce);
    TrackedLater(s.placed, s.nonce, k, NewId(s, k), s.pc.job.plans[k].target);
    hide BookOk, SynthBook, Accounted, AddLimit, TrackedNow, FillsOk, TradesOk, TrackedOk, PcOk;
  }

  lemma TrackedLater(placed: map<Level, Tracked>, nonce: nat, k: Level, id: OrderId, volume: int)
    requires TrackedOk(placed, nonce) && volume > 0 && id == Synth(k.side, k.price, nonce + 1)
    ensures TrackedOk(placed[k := Tracked(id, volume)], nonce + 1)
  {
  }

  lemma PlacePc(s: Sys, k: Level)
    requires Inv(s) && Enabled(s, PlaceLevel(k))
    ensures PcOk(PlaceStep(s, k)) && s.pc.job.plans[k].target > 0
  {
    hide BookOk, SynthBook, Accounted, AddLimit, TrackedNow, FillsOk, TradesOk, TrackedOk;
  }

  lemma LaterFills(fills: map<OrderId, int>, nonce: nat)
    requires FillsOk(fills, nonce)
    ensures FillsOk(fills, nonce + 1) && FillsOk(map[], nonce + 1)
  {
  }

  lemma PlaceKeeps(s: Sys, k: Level)
    requires Inv(s) && Enabled(s, PlaceLevel(k))
    ensures Inv(PlaceStep(s, k))
  {
    var s' := PlaceStep(s, k);
    forall id: OrderId | id.Synth? ensures InBook(s'.book, id) == Due(s', id) {
      if id == NewId(s, k) { PlaceNewDue(s, k); } else { PlaceOtherDue(s, k, id); }
    }
    PlaceTracked(s, k);
    PlaceGenerations(s, k);
    hide BookOk, SynthBook, InBook, Due, Generations, PcOk, PlaceStep, TrackedNow;
  }

  // ----- runs ----------------------------------------------------------------------------

  lemma StepKeeps(s: Sys, step: Step)
    requires Inv(s) && Enabled(s, step)
    ensures Inv(Next(s, step))
  {
    match step
    case OutsideLimit(ord) => OutsideLimitKeeps(s, ord);
    case OutsideIoc(ord) => OutsideIocKeeps(s, ord);
    case OutsideCancel(id) => RevokeKeeps(s, id);
    case RunHook => HookKeeps(s);
    case SwapFills => SwapKeeps(s);
    case FoldFills => FoldKeeps(s);
    case PlanPass(ref, exact, moved) => StartKeeps(s, MakePlans(s.placed, ref, exact, moved), CONVERGE_EPS);
    case PlanClear => StartKeeps(s, ClearPlans(s.placed), -1);
    case LeaveLevel(k) => LeaveKeeps(s, k);
    case CancelLevel(k) => CancelLevelKeeps(s, k);
    case DropRecord => DropKeeps(s);
    case StartPlacing => PhaseKeeps(s, step);
    case PlaceLevel(k) => PlaceKeeps(s, k);
    case WriteRecord => RecordKeeps(s);
    case EndPass => PhaseKeeps(s, step);
  }

  ghost predicate Run(s: Sys, steps: seq<Step>, s': Sys)
    decreases |steps|
  {
    if steps == [] then s' == s else Enabled(s, steps[0]) && Run(Next(s, steps[0]), steps[1..], s')
  }

  /** Before the seeder has placed anything, over any ordered book without its ids. */
  ghost predicate Init(s: Sys) {
    && BookOk(s.book, s.clock) && (forall o :: o in s.book.bids || o in s.book.asks ==> !o.id.Synth?)
    && s.pend == [] && s.placed == map[] && s.nonce == 0 && s.fills == map[] && s.revoked == {} && s.pc == Idle
  }

  lemma InitHolds(s: Sys)
    requires Init(s)
    ensures Inv(s)
  {
    forall id: OrderId | id.Synth? ensures InBook(s.book, id) == Due(s, id) {
      InBookZero(s.book, id);
    }
    assert SynthBook(s.book) by {
      assert forall i :: 0 <= i < |s.book.bids| ==> s.book.bids[i] in s.book.bids;
      assert forall i :: 0 <= i < |s.book.asks| ==> s.book.asks[i] in s.book.asks;
    }
  }

  lemma {:induction false} RunKeeps(s: Sys, steps: seq<Step>, s': Sys)
    requires Inv(s) && Run(s, steps, s')
    ensures Inv(s')
    decreases |steps|
  {
    if steps != [] {
      StepKeeps(s, steps[0]);
      RunKeeps(Next(s, steps[0]), steps[1..], s');
    }
  }

  /** In every interleaving: while no engine call is waiting to be recorded, each tracked level's
      current order rests with exactly the tracked volume less the fills not folded yet. */
  lemma TrackedMatchesBook(s: Sys, steps: seq<Step>, s': Sys, k: Level)
    requires Init(s) && Run(s, steps, s')
    requires !s'.pc.Cancelled? && !s'.pc.Placed? && k in s'.placed && s'.placed[k].id !in s'.revoked
    ensures InBook(s'.book, s'.placed[k].id) == s'.placed[k].volume - Unfolded(s', s'.placed[k].id)
    ensures s'.pend == [] && s'.pc.Idle? ==>
              InBook(s'.book, s'.placed[k].id) == s'.placed[k].volume - At(s'.fills, s'.placed[k].id)
  {
    InitHolds(s);
    RunKeeps(s, steps, s');
    var id := s'.placed[k].id;
    assert InBook(s'.book, id) == Due(s', id);
  }

  /** In every interleaving: every synthetic order in the book is the current one of its level
      (counting an engine call being recorded), rests at that level, and nobody else's cancel
      has touched it. */
  lemma NoOrphans(s: Sys, steps: seq<Step>, s': Sys, o: Order)
    requires Init(s) && Run(s, steps, s')
    requires (o in s'.book.bids || o in s'.book.asks) && o.id.Synth?
    ensures IsCurrent(TrackedNow(s'), o.id) && o.id !in s'.revoked
    ensures LevelOf(o.id) == Level(if o in s'.book.bids then Buy else Sell, o.price)
  {
    InitHolds(s);
    RunKeeps(s, steps, s');
    InBookZero(s'.book, o.id);
    assert InBook(s'.book, o.id) == Due(s', o.id);
  }

  /** A fill reported for an order that is not current changes no level: a replaced generation
      never reduces its successor. */
  lemma StaleFillIgnored(placed: map<Level, Tracked>, taken: map<OrderId, int>, id: OrderId, volume: int)
    requires forall k :: k in placed ==> placed[k].id != id
    ensures FoldAll(placed, taken[id := volume]) == FoldAll(placed, taken)
  {
    var a, b := FoldAll(placed, taken[id := volume]), FoldAll(placed, taken);
    assert forall k :: k in placed ==> Remaining(placed[k], taken[id := volume]) == Remaining(placed[k], taken);
    assert a.Keys == b.Keys;
  }
}
