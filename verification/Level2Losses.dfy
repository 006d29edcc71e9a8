/**
 What a Coinbase level2 subscriber that has missed a frame still holds: every level it has heard of
 since then is the server's, every other is as it was when it missed the frame. So it holds the
 baseline exactly when those others have not moved, or have moved back.
 */
module Level2Losses {
  import opened BookDiffs
  import opened Level2

  /** Some frame of the product mentions the level. */
  predicate Heard(frames: seq<Frame>, product: string, k: Key) {
    exists i :: 0 <= i < |frames| && frames[i].product == product && Mentions(frames[i].updates, k)
  }

  ghost predicate Behind(frames: seq<Frame>, n: nat, product: string, base: BookMap) {
    && n <= |frames|
    && forall k :: Look(ClientBook(frames, product), k) ==
                   if Heard(frames[n..], product, k) then Look(base, k) else Look(ClientBook(frames[..n], product), k)
  }

  /** Every subscriber that has missed a frame is behind in this way, and no client holds an empty or a
      removed quantity. */
  ghost predicate LossInv(s: Sys) {
    && (forall c, p :: Wire(ClientBook(SentTo(s, c), p)))
    && (forall p, c :: p in s.market && c in s.market[p] && (c, p) in s.lost && p in s.base ==>
          Behind(SentTo(s, c), s.lost[(c, p)], p, s.base[p]))
  }

  lemma HeardAppend(frames: seq<Frame>, f: Frame, product: string, k: Key)
    ensures Heard(frames + [f], product, k) <==>
        Heard(frames, product, k) || (f.product == product && Mentions(f.updates, k))
  {
    var longer := frames + [f];
    if Heard(frames, product, k) {
      var i :| 0 <= i < |frames| && frames[i].product == product && Mentions(frames[i].updates, k);
      assert longer[i] == frames[i];
    }
    assert longer[|frames|] == f;
  }

  lemma JustLost(frames: seq<Frame>, product: string, base: BookMap)
    ensures Behind(frames, |frames|, product, base)
  {
    assert frames[|frames|..] == [] && frames[..|frames|] == frames;
  }

  /** A frame of another product changes nothing. */
  lemma OtherFrame(frames: seq<Frame>, n: nat, f: Frame, product: string, base: BookMap)
    requires Behind(frames, n, product, base) && f.product != product
    ensures Behind(frames + [f], n, product, base)
  {
    var longer := frames + [f];
    assert longer[n..] == frames[n..] + [f] && longer[..n] == frames[..n];
    ClientAppend(frames, f, product);
    forall k ensures Heard(longer[n..], product, k) <==> Heard(frames[n..], product, k) {
      HeardAppend(frames[n..], f, product, k);
    }
    hide Heard, ClientBook;
  }

  /** An update frame brings the levels it mentions up to the new baseline; the others did not move. */
  lemma DiffFrame(frames: seq<Frame>, n: nat, updates: seq<Update>, product: string, was: BookMap, now: BookMap)
    requires Behind(frames, n, product, was) && IsDiff(updates, was, now) && Wire(now)
    ensures Behind(frames + [Frame(product, false, updates)], n, product, now)
  {
    var f := Frame(product, false, updates);
    var longer, before := frames + [f], ClientBook(frames, product);
    assert longer[n..] == frames[n..] + [f] && longer[..n] == frames[..n];
    ClientAppend(frames, f, product);
    hide ClientBook, Heard, ApplyAll, Mentions;
    forall k ensures Look(ClientBook(longer, product), k) ==
                     if Heard(longer[n..], product, k) then Look(now, k) else Look(ClientBook(longer[..n], product), k)
    {
      HeardAppend(frames[n..], f, product, k);
      ApplyAt(before, updates, now, k);
    }
  }

  // ----- steps ---------------------------------------------------------------------------

  lemma TickWire(s: Sys, product: string, book: BookMap, order: seq<Update>, full: set<nat>, c: nat, p: string)
    requires LossInv(s) && Enabled(s, Tick(product, book, order, full))
    ensures Wire(ClientBook(SentTo(Next(s, Tick(product, book, order, full)), c), p))
  {
    hide ClientBook, Wire, IsDiff, ApplyAll;
    assert Wire(ClientBook(SentTo(s, c), p));
    ClientAppend(SentTo(s, c), Frame(product, false, order), p);
    if product in s.base {
      DiffIsCurrent(order, s.base[product], book);
      ApplyKeepsWire(ClientBook(SentTo(s, c), p), order, book);
    }
  }

  lemma DiffIsCurrent(updates: seq<Update>, prev: BookMap, cur: BookMap)
    ensures IsDiff(updates, prev, cur) ==> Current(updates, cur)
    ensures IsListing(updates, cur) ==> Current(updates, cur)
  {
  }

  lemma TickBehind(s: Sys, product: string, book: BookMap, order: seq<Update>, full: set<nat>, p: string, c: nat)
    requires Level2.Inv(s) && LossInv(s) && Enabled(s, Tick(product, book, order, full))
    requires p in s.market && c in s.market[p]
    ensures var s' := Next(s, Tick(product, book, order, full));
            (c, p) in s'.lost && p in s'.base ==> Behind(SentTo(s', c), s'.lost[(c, p)], p, s'.base[p])
  {
    var s', f := Next(s, Tick(product, book, order, full)), Frame(product, false, order);
    var frames := SentTo(s, c);
    hide ClientBook, Wire, IsDiff, Behind;
    if product in s.base && order != [] {
      if p == product && c in s.closed + full {
        JustLost(frames, p, book);
      } else if (c, p) in s.lost {
        if p == product {
          DiffFrame(frames, s.lost[(c, p)], order, p, s.base[p], book);
        } else {
          OtherFrame(frames, s.lost[(c, p)], f, p, s.base[p]);
        }
      }
    }
  }

  lemma TickKeeps(s: Sys, product: string, book: BookMap, order: seq<Update>, full: set<nat>)
    requires Level2.Inv(s) && LossInv(s) && Enabled(s, Tick(product, book, order, full))
    ensures LossInv(Next(s, Tick(product, book, order, full)))
  {
    var s' := Next(s, Tick(product, book, order, full));
    forall c, p ensures Wire(ClientBook(SentTo(s', c), p)) { TickWire(s, product, book, order, full, c, p); }
    assert s'.market == s.market;
    hide ClientBook, Wire, Behind, Next, Level2.Inv;
    forall p, c | p in s'.market && c in s'.market[p] && (c, p) in s'.lost && p in s'.base
      ensures Behind(SentTo(s', c), s'.lost[(c, p)], p, s'.base[p])
    {
      TickBehind(s, product, book, order, full, p, c);
    }
  }

  lemma SubscribeBehind(s: Sys, c: nat, product: string, book: BookMap, order: seq<Update>, room: bool, p: string,
      d: nat)
    requires Level2.Inv(s) && LossInv(s) && Enabled(s, Subscribe(c, product, book, order, room))
    requires (p in s.market && d in s.market[p]) || (p == product && d == c)
    ensures var s' := Next(s, Subscribe(c, product, book, order, room));
            (d, p) in s'.lost && p in s'.base ==> Behind(SentTo(s', d), s'.lost[(d, p)], p, s'.base[p])
  {
    var frames := SentTo(s, d);
    hide ClientBook, Wire, IsListing, Behind;
    if d == c && p == product {
      JustLost(frames, p, Baseline(s, product, book));
    } else if (d, p) in s.lost {
      if d == c { OtherFrame(frames, s.lost[(d, p)], Frame(product, true, order), p, s.base[p]); }
    }
  }

  lemma SubscribeWire(s: Sys, c: nat, product: string, book: BookMap, order: seq<Update>, room: bool, d: nat, p: string)
    requires Level2.Inv(s) && LossInv(s) && Enabled(s, Subscribe(c, product, book, order, room))
    ensures Wire(ClientBook(SentTo(Next(s, Subscribe(c, product, book, order, room)), d), p))
  {
    assert product in s.base ==> Wire(s.base[product]);
    assert Wire(ClientBook(SentTo(s, d), p));
    hide Level2.Inv, LossInv, Wire, IsListing, ClientBook;
    ListedWire(SentTo(s, d), product, order, Baseline(s, product, book), p);
  }

  /** A snapshot frame keeps every client's quantities well formed. */
  lemma ListedWire(frames: seq<Frame>, product: string, order: seq<Update>, book: BookMap, p: string)
    requires Wire(ClientBook(frames, p)) && IsListing(order, book) && Wire(book)
    ensures Wire(ClientBook(frames + [Frame(product, true, order)], p))
  {
    var empty: BookMap := map[];
    assert Wire(empty);
    hide ClientBook, Wire, IsListing, ApplyAll;
    ClientAppend(frames, Frame(product, true, order), p);
    DiffIsCurrent(order, empty, book);
    ApplyKeepsWire(empty, order, book);
  }

  lemma SubscribeKeeps(s: Sys, c: nat, product: string, book: BookMap, order: seq<Update>, room: bool)
    requires Level2.Inv(s) && LossInv(s) && Enabled(s, Subscribe(c, product, book, order, room))
    ensures LossInv(Next(s, Subscribe(c, product, book, order, room)))
  {
    var s' := Next(s, Subscribe(c, product, book, order, room));
    forall d, p ensures Wire(ClientBook(SentTo(s', d), p)) { SubscribeWire(s, c, product, book, order, room, d, p); }
    assert forall p, d :: p in s'.market && d in s'.market[p] ==>
        (p in s.market && d in s.market[p]) || (p == product && d == c);
    hide ClientBook, Wire, Behind, Next, Level2.Inv;
    forall p, d | p in s'.market && d in s'.market[p] && (d, p) in s'.lost && p in s'.base
      ensures Behind(SentTo(s', d), s'.lost[(d, p)], p, s'.base[p])
    {
      SubscribeBehind(s, c, product, book, order, room, p, d);
    }
  }

  lemma StepKeeps(s: Sys, step: Step)
    requires Level2.Inv(s) && LossInv(s) && Enabled(s, step)
    ensures LossInv(Next(s, step))
  {
    match step
    case Tick(product, book, order, full) => TickKeeps(s, product, book, order, full);
    case Subscribe(c, product, book, order, room) => SubscribeKeeps(s, c, product, book, order, room);
    case Unsubscribe(c, product) => LeaveKeeps(s, Next(s, step));
    case Disconnect(c) => LeaveKeeps(s, Next(s, step));
  }

  lemma LeaveKeeps(s: Sys, s': Sys)
    requires LossInv(s) && s'.sent == s.sent && s'.lost == s.lost && s'.base == s.base
    requires forall p, c :: p in s'.market && c in s'.market[p] ==> p in s.market && c in s.market[p]
    ensures LossInv(s')
  {
    hide ClientBook, Wire, Behind;
    assert forall c :: SentTo(s', c) == SentTo(s, c);
  }

  lemma {:induction false} LossRun(s: Sys, steps: seq<Step>, s': Sys)
    requires Level2.Inv(s) && LossInv(s) && Run(s, steps, s')
    ensures LossInv(s')
    decreases |steps|
  {
    hide Level2.Inv, LossInv, Enabled, Next;
    if steps != [] {
      StepKeeps(s, steps[0]);
      Level2.StepKeeps(s, steps[0]);
      LossRun(Next(s, steps[0]), steps[1..], s');
    }
  }

  /** The frames a subscriber got since it last missed one, and its book at that moment. */
  function SinceLoss(s: Sys, c: nat, product: string): (seq<Frame>, BookMap)
    requires (c, product) in s.lost && s.lost[(c, product)] <= |SentTo(s, c)|
  {
    var n := s.lost[(c, product)];
    (SentTo(s, c)[n..], ClientBook(SentTo(s, c)[..n], product))
  }

  /** In every reachable state a subscriber holds the server's baseline if and only if it has missed
      nothing since its snapshot, or its book when it last missed a frame agrees with the baseline
      on every level that no frame it got since mentions. */
  lemma HoldsExactly(steps: seq<Step>, s: Sys, c: nat, product: string)
    requires Run(INITIAL, steps, s) && c in Subscribers(s, product)
    ensures product in s.base && ((c, product) in s.lost ==> s.lost[(c, product)] <= |SentTo(s, c)|)
    ensures ClientBook(SentTo(s, c), product) == s.base[product] <==>
              ((c, product) in s.lost ==>
                 var (frames, atLoss) := SinceLoss(s, c, product);
                 forall k :: !Heard(frames, product, k) ==> Look(atLoss, k) == Look(s.base[product], k))
  {
    RunKeeps(INITIAL, steps, s);
    LossRun(INITIAL, steps, s);
    if (c, product) in s.lost {
      var held, base := ClientBook(SentTo(s, c), product), s.base[product];
      var (frames, atLoss) := SinceLoss(s, c, product);
      assert Wire(held);
      hide ClientBook, Heard, Wire;
      if forall k :: !Heard(frames, product, k) ==> Look(atLoss, k) == Look(base, k) {
        forall k ensures Look(held, k) == Look(base, k) { }
        SameLooks(held, base);
      }
    }
  }
}
