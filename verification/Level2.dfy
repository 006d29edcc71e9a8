/**
 The Coinbase level2 channel (level2diff.go, ws.go, broadcaster.go): one baseline per product,
 from which a new subscriber's snapshot is built and against which every tick is diffed. Both
 run under the differ's lock, so each is one step; connections come, go and lose frames freely.
 */
module Level2 {
  import opened Common
  import opened BookDiffs

  datatype Frame = Frame(product: string, snapshot: bool, updates: seq<Update>)

  /** `sent` is everything ever enqueued to a connection; `lost` holds the connections that have missed
      a frame of a product since they last got a snapshot of it, with the number of frames they had
      been sent when they last missed one. */
  datatype Sys = Sys(
    base: map<string, BookMap>, market: map<string, set<nat>>, sent: map<nat, seq<Frame>>,
    closed: set<nat>, lost: map<(nat, string), nat>)

  const INITIAL: Sys := Sys(map[], map[], map[], {}, map[])

  function Subscribers(s: Sys, product: string): set<nat> {
    if product in s.market then s.market[product] else {}
  }

  function SentTo(s: Sys, c: nat): seq<Frame> {
    if c in s.sent then s.sent[c] else []
  }

  /** What a client makes of its frames: a snapshot starts over, an update is folded in. */
  function ClientBook(frames: seq<Frame>, product: string): BookMap {
    if frames == [] then map[]
    else
      var before, last := ClientBook(frames[..|frames| - 1], product), frames[|frames| - 1];
      if last.product != product then before
      else ApplyAll(if last.snapshot then map[] else before, last.updates)
  }

  // ----- steps ---------------------------------------------------------------------------

  /** `full` is the set of connections whose send buffer has no room; `order` is the order in which
      the maps happen to be walked. */
  datatype Step =
    | Tick(product: string, book: BookMap, order: seq<Update>, full: set<nat>)
    | Subscribe(c: nat, product: string, book: BookMap, order: seq<Update>, room: bool)
    | Unsubscribe(c: nat, product: string)
    | Disconnect(c: nat)

  /** The baseline a step works from: the first book seen becomes the baseline. */
  function Baseline(s: Sys, product: string, book: BookMap): BookMap {
    if product in s.base then s.base[product] else book
  }

  ghost predicate Enabled(s: Sys, step: Step) {
    match step
    case Tick(product, book, order, _) => Wire(book) && (product in s.base ==> IsDiff(order, s.base[product], book))
    case Subscribe(_, product, book, order, _) => Wire(book) && IsListing(order, Baseline(s, product, book))
    case Unsubscribe(_, _) => true
    case Disconnect(_) => true
  }

  function Next(s: Sys, step: Step): Sys {
    match step
    case Tick(product, book, order, full) =>
      if product !in s.base then s.(base := s.base[product := book])
      else if order == [] then s
      else Published(s.(base := s.base[product := book]), product, Frame(product, false, order), full)
    case Subscribe(c, product, book, order, room) =>
      Subscribed(s.(base := s.base[product := Baseline(s, product, book)]), c, product, Frame(product, true, order),
          room)
    case Unsubscribe(c, product) => s.(market := Leave(s.market, c, product))
    case Disconnect(c) =>
      s.(market := map p | p in s.market && s.market[p] - {c} != {} :: s.market[p] - {c}, closed := s.closed + {c})
  }

  function Leave(market: map<string, set<nat>>, c: nat, product: string): map<string, set<nat>> {
    if product !in market then market
    else if market[product] - {c} == {} then market - {product}
    else market[product := market[product] - {c}]
  }

  /** A subscriber that cannot take the frame is closed. */
  function Published(s: Sys, product: string, f: Frame, full: set<nat>): Sys {
    var dead := Subscribers(s, product) * (s.closed + full);
    s.(sent := map c | c in s.sent.Keys + (Subscribers(s, product) - dead)
                 :: if c in Subscribers(s, product) - dead then SentTo(s, c) + [f] else SentTo(s, c),
       closed := s.closed + dead,
       lost := s.lost + Losses(s, dead, product))
  }

  function Losses(s: Sys, dead: set<nat>, product: string): map<(nat, string), nat> {
    map c | c in dead :: (c, product) := |SentTo(s, c)|
  }

  /** The subscriber is registered whether or not its snapshot could be enqueued. */
  function Subscribed(s: Sys, c: nat, product: string, f: Frame, room: bool): Sys {
    var s' := s.(market := s.market[product := Subscribers(s, product) + {c}]);
    if room && c !in s.closed
    then s'.(sent := s.sent[c := SentTo(s, c) + [f]], lost := s.lost - {(c, product)})
    else s'.(lost := s.lost[(c, product) := |SentTo(s, c)|])
  }

  // ----- the invariant -------------------------------------------------------------------

  /** Every subscriber that has missed nothing holds exactly the baseline. */
  ghost predicate Inv(s: Sys) {
    && (forall p :: p in s.base ==> Wire(s.base[p]))
    && (forall p, c :: p in s.market && c in s.market[p] ==> p in s.base)
    && (forall p, c :: p in s.market && c in s.market[p] && (c, p) !in s.lost ==>
        ClientBook(SentTo(s, c), p) == s.base[p])
  }

  lemma ClientAppend(frames: seq<Frame>, f: Frame, product: string)
    ensures ClientBook(frames + [f], product) ==
            if f.product != product then ClientBook(frames, product)
            else ApplyAll(if f.snapshot then map[] else ClientBook(frames, product), f.updates)
  {
    assert (frames + [f])[..|frames|] == frames;
  }

  /** One subscriber, after a tick. */
  lemma TickHolds(s: Sys, product: string, book: BookMap, order: seq<Update>, full: set<nat>, p: string, c: nat)
    requires Inv(s) && Enabled(s, Tick(product, book, order, full)) && product in s.base && order != []
    requires p in s.market && c in s.market[p]
    ensures var s' := Next(s, Tick(product, book, order, full));
            (c, p) !in s'.lost ==> p in s'.base && ClientBook(SentTo(s', c), p) == s'.base[p]
  {
    hide Wire, IsDiff, ClientBook, ApplyAll;
    assert (c, p) !in s.lost ==> ClientBook(SentTo(s, c), p) == s.base[p];
    ClientAppend(SentTo(s, c), Frame(product, false, order), p);
    DiffReaches(order, s.base[product], book);
  }

  lemma TickKeeps(s: Sys, product: string, book: BookMap, order: seq<Update>, full: set<nat>)
    requires Inv(s) && Enabled(s, Tick(product, book, order, full))
    ensures Inv(Next(s, Tick(product, book, order, full)))
  {
    var s' := Next(s, Tick(product, book, order, full));
    assert forall p :: p in s'.base ==> Wire(s'.base[p]);
    hide Wire, IsDiff, ClientBook, ApplyAll;
    if product in s.base && order != [] {
      forall p, c | p in s'.market && c in s'.market[p] && (c, p) !in s'.lost
        ensures p in s'.base && ClientBook(SentTo(s', c), p) == s'.base[p]
      {
        TickHolds(s, product, book, order, full, p, c);
      }
    }
  }

  /** One subscriber, after somebody subscribes. */
  lemma SubscribeHolds(s: Sys, c: nat, product: string, book: BookMap, order: seq<Update>, room: bool, p: string,
      d: nat)
    requires Inv(s) && Enabled(s, Subscribe(c, product, book, order, room))
    requires (p in s.market && d in s.market[p]) || (p == product && d == c)
    ensures var s' := Next(s, Subscribe(c, product, book, order, room));
            (d, p) !in s'.lost ==> p in s'.base && ClientBook(SentTo(s', d), p) == s'.base[p]
  {
    hide Wire, IsListing, ClientBook, ApplyAll;
    assert p in s.market && d in s.market[p] && (d, p) !in s.lost ==> ClientBook(SentTo(s, d), p) == s.base[p];
    ClientAppend(SentTo(s, d), Frame(product, true, order), p);
    ListingReaches(order, Baseline(s, product, book));
  }

  lemma SubscribeKeeps(s: Sys, c: nat, product: string, book: BookMap, order: seq<Update>, room: bool)
    requires Inv(s) && Enabled(s, Subscribe(c, product, book, order, room))
    ensures Inv(Next(s, Subscribe(c, product, book, order, room)))
  {
    var s' := Next(s, Subscribe(c, product, book, order, room));
    assert forall p :: p in s'.base ==> Wire(s'.base[p]);
    hide Wire, IsListing, ClientBook, ApplyAll, SentTo;
    forall p, d | p in s'.market && d in s'.market[p] && (d, p) !in s'.lost
      ensures p in s'.base && ClientBook(SentTo(s', d), p) == s'.base[p]
    {
      SubscribeHolds(s, c, product, book, order, room, p, d);
    }
  }

  lemma StepKeeps(s: Sys, step: Step)
    requires Inv(s) && Enabled(s, step)
    ensures Inv(Next(s, step))
  {
    match step
    case Tick(product, book, order, full) => TickKeeps(s, product, book, order, full);
    case Subscribe(c, product, book, order, room) => SubscribeKeeps(s, c, product, book, order, room);
    case Unsubscribe(c, product) =>
    case Disconnect(c) =>
  }

  ghost predicate Run(s: Sys, steps: seq<Step>, s': Sys)
    decreases |steps|
  {
    if steps == [] then s' == s else Enabled(s, steps[0]) && Run(Next(s, steps[0]), steps[1..], s')
  }

  lemma {:induction false} RunKeeps(s: Sys, steps: seq<Step>, s': Sys)
    requires Inv(s) && Run(s, steps, s')
    ensures Inv(s')
    decreases |steps|
  {
    if steps != [] {
      StepKeeps(s, steps[0]);
      RunKeeps(Next(s, steps[0]), steps[1..], s');
    }
  }

  /** In every interleaving of ticks, subscriptions and lost frames: a subscriber that has missed no
      frame since its snapshot holds exactly the server's baseline, whatever order the levels of a
      frame came in. */
  lemma ClientHoldsBaseline(steps: seq<Step>, s: Sys, c: nat, product: string)
    requires Run(INITIAL, steps, s) && c in Subscribers(s, product) && (c, product) !in s.lost
    ensures product in s.base && ClientBook(SentTo(s, c), product) == s.base[product]
  {
    RunKeeps(INITIAL, steps, s);
  }

  /** The hypothesis is needed: a subscriber whose snapshot found the send buffer full is registered
      all the same and then gets updates to a book it never had. */
  lemma LostSnapshotDesyncs(c: nat, product: string, k: Key, j: Key, was: BookMap, book: BookMap, q: string)
    requires Wire(was) && k in was && was == map[k := was[k]] && k != j && q != "" && q != "0" && book == was[j := q]
    ensures exists s ::
              && Run(INITIAL, [Subscribe(c, product, was, [Update(k, was[k])], false),
                  Tick(product, book, [Update(j, q)], {})], s)
              && c in Subscribers(s, product) && product in s.base && s.base[product] == book
              && ClientBook(SentTo(s, c), product) == map[j := q]
  {
    var first, second := Subscribe(c, product, was, [Update(k, was[k])], false),
        Tick(product, book, [Update(j, q)], {});
    var s1, s2 := MissedSnapshot(c, product, was), AfterTick(c, product, book, Frame(product, false, [Update(j, q)]));
    ListedOnce(k, was[k], was);
    AddedOnce(j, q, was, book);
    MissingFirst(c, product, k, was);
    ThenATick(c, product, was, book, [Update(j, q)]);
    hide Enabled, Next, ClientBook, Run;
    TwoSteps(INITIAL, first, second);
    OneUpdate(product, j, q);
  }

  /** One subscriber, whose snapshot was not enqueued. */
  ghost function MissedSnapshot(c: nat, product: string, was: BookMap): Sys {
    Sys(map[product := was], map[product := {c}], map[], {}, map[(c, product) := 0])
  }

  /** The same after a tick that reached it. */
  ghost function AfterTick(c: nat, product: string, book: BookMap, f: Frame): Sys {
    Sys(map[product := book], map[product := {c}], map[c := [] + [f]], {}, map[(c, product) := 0])
  }

  lemma MissingFirst(c: nat, product: string, k: Key, was: BookMap)
    requires Wire(was) && k in was && IsListing([Update(k, was[k])], was)
    ensures var first := Subscribe(c, product, was, [Update(k, was[k])], false);
            Enabled(INITIAL, first) && Next(INITIAL, first) == MissedSnapshot(c, product, was)
  {
    hide Wire, IsListing;
    var s', want := Next(INITIAL, Subscribe(c, product, was, [Update(k, was[k])], false)),
        MissedSnapshot(c, product, was);
    assert Subscribers(INITIAL, product) + {c} == {c};
    assert s'.base == want.base && s'.market == want.market;
    assert s'.lost == want.lost;
    assert s'.sent == want.sent && s'.closed == want.closed;
  }

  lemma ThenATick(c: nat, product: string, was: BookMap, book: BookMap, order: seq<Update>)
    requires Wire(book) && IsDiff(order, was, book) && order != []
    ensures var second := Tick(product, book, order, {});
            && Enabled(MissedSnapshot(c, product, was), second)
            && Next(MissedSnapshot(c, product, was), second) ==
                AfterTick(c, product, book, Frame(product, false, order))
  {
    hide Wire, IsDiff;
    var s := MissedSnapshot(c, product, was);
    assert Subscribers(s, product) == {c} && SentTo(s, c) == [];
    var s' := Next(s, Tick(product, book, order, {}));
    assert Subscribers(s, product) * (s.closed + {}) == {};
    var want := AfterTick(c, product, book, Frame(product, false, order));
    assert s'.sent == want.sent;
    assert s'.base == want.base;
    assert s'.closed == want.closed;
    assert s'.lost == want.lost;
    assert s'.market == want.market;
  }

  lemma TwoSteps(s: Sys, first: Step, second: Step)
    requires Enabled(s, first) && Enabled(Next(s, first), second)
    ensures Run(s, [first, second], Next(Next(s, first), second))
  {
    hide Enabled, Next;
    var s1 := Next(s, first);
    var s2 := Next(s1, second);
    assert [first, second][1..] == [second] && [second][1..] == [];
    assert Run(s2, [], s2) && Run(s1, [second], s2);
  }

  /** A client whose only frame is one update knows one level. */
  lemma OneUpdate(product: string, j: Key, q: string)
    requires q != "0"
    ensures ClientBook([] + [Frame(product, false, [Update(j, q)])], product) == map[j := q]
  {
    ClientAppend([], Frame(product, false, [Update(j, q)]), product);
    assert [Update(j, q)][1..] == [];
    assert ApplyAll(map[], [Update(j, q)]) == ApplyAll(map[j := q], []);
  }

  lemma ListedOnce(k: Key, q: string, m: BookMap)
    requires m == map[k := q]
    ensures IsListing([Update(k, q)], m)
  {
    assert [Update(k, q)][0].key == k;
    assert forall j :: Mentions([Update(k, q)], j) <==> j == k;
  }

  lemma AddedOnce(j: Key, q: string, was: BookMap, book: BookMap)
    requires j !in was && book == was[j := q] && q != ""
    ensures IsDiff([Update(j, q)], was, book)
  {
    assert [Update(j, q)][0].key == j;
    assert forall i :: Mentions([Update(j, q)], i) <==> i == j;
  }

  // ----- the objects ---------------------------------------------------------------------

  const SEND_BUFFER: nat := 256

  datatype Sides = Sides(bids: map<string, string>, asks: map<string, string>)

  function JoinedSides(b: Sides): BookMap {
    Joined(b.bids, b.asks)
  }

  /** Everything listed once more, in random order. */
  method MapUpdates(m: map<string, string>, bid: bool) returns (updates: seq<Update>)
    ensures forall u :: u in updates ==> u.key.bid == bid && u.key.price in m && u.quantity == m[u.key.price]
    ensures forall p :: Mentions(updates, Key(bid, p)) <==> p in m
  {
    updates := [];
    var left := m.Keys;
    while left != {}
      invariant left <= m.Keys
      invariant forall u :: u in updates ==> u.key.bid == bid && u.key.price in m && u.quantity == m[u.key.price]
      invariant forall p :: Mentions(updates, Key(bid, p)) <==> p in m && p !in left
      decreases left
    {
      var p := NextKey(left);
      left := left - {p};
      MentionsOne(updates, Update(Key(bid, p), m[p]));
      updates := updates + [Update(Key(bid, p), m[p])];
    }
  }

  lemma SidesListed(bidUpdates: seq<Update>, askUpdates: seq<Update>, b: Sides)
    requires forall u :: u in bidUpdates ==> u.key.bid && u.key.price in b.bids && u.quantity == b.bids[u.key.price]
    requires forall u :: u in askUpdates ==> !u.key.bid && u.key.price in b.asks && u.quantity == b.asks[u.key.price]
    requires forall p :: Mentions(bidUpdates, Key(true, p)) <==> p in b.bids
    requires forall p :: Mentions(askUpdates, Key(false, p)) <==> p in b.asks
    ensures IsListing(bidUpdates + askUpdates, JoinedSides(b))
  {
    var updates, m := bidUpdates + askUpdates, JoinedSides(b);
    forall u | u in updates ensures u.quantity == if u.key in m then m[u.key] else "0" {
      JoinedLook(b.bids, b.asks, u.key);
      assert u in bidUpdates || u in askUpdates;
    }
    forall k ensures Mentions(updates, k) <==> k in m {
      MentionsConcat(bidUpdates, askUpdates, k);
      JoinedLook(b.bids, b.asks, k);
      assert k == Key(k.bid, k.price);
      OneSideOnly(bidUpdates, true, k);
      OneSideOnly(askUpdates, false, k);
    }
  }

  function BaseOf(st: map<string, Sides>): (base: map<string, BookMap>)
    ensures base.Keys == st.Keys && forall p :: p in st ==> base[p] == JoinedSides(st[p])
  {
    map p | p in st :: JoinedSides(st[p])
  }

  lemma BaseUpdate(st: map<string, Sides>, product: string, b: Sides)
    ensures BaseOf(st[product := b]) == BaseOf(st)[product := JoinedSides(b)]
  {
  }

  class Feed {
    var st: map<string, Sides>
    var market: map<string, set<nat>>
    var out: map<nat, seq<Frame>>
    var queued: map<nat, nat>
    var closed: set<nat>
    ghost var lost: map<(nat, string), nat>

    ghost function View(): Sys
      reads this
    {
      Sys(BaseOf(st), market, out, closed, lost)
    }

    ghost predicate Valid()
      reads this
    {
      forall p :: p in st ==> Wire(st[p].bids) && Wire(st[p].asks)
    }

    constructor ()
      ensures Valid() && View() == INITIAL
    {
      st, market, out, queued, closed, lost := map[], map[], map[], map[], {}, map[];
    }

    /** Enqueue without blocking; false when the connection is closed or its buffer is full. */
    method TrySend(c: nat, f: Frame) returns (ok: bool)
      modifies this`out, this`queued
      ensures ok ==> c !in closed && out == old(out)[c := SentTo(old(View()), c) + [f]]
      ensures !ok ==> out == old(out)
      ensures !ok && c !in closed ==> c in queued && queued[c] >= SEND_BUFFER
    {
      var n := if c in queued then queued[c] else 0;
      if c in closed || n >= SEND_BUFFER {
        return false;
      }
      out := out[c := (if c in out then out[c] else []) + [f]];
      queued := queued[c := n + 1];
      return true;
    }

    /** The write pump takes a frame off the buffer. */
    method Drain(c: nat)
      modifies this`queued
      ensures queued == if c in old(queued) && old(queued)[c] > 0 then old(queued)[c := old(queued)[c] - 1]
          else old(queued)
    {
      if c in queued && queued[c] > 0 {
        queued := queued[c := queued[c] - 1];
      }
    }

    /** Changed levels since the last push, advancing the baseline; the first book only seeds it. */
    method DiffLocked(product: string, bids: map<string, string>, asks: map<string, string>)
        returns (updates: seq<Update>, changed: bool)
      requires Valid() && Wire(bids) && Wire(asks)
      modifies this`st
      ensures Valid() && changed == (updates != [])
      ensures product !in old(st) ==> updates == []
      ensures product in old(st) ==> IsDiff(updates, JoinedSides(old(st)[product]), Joined(bids, asks))
      ensures st == if product !in old(st) || changed then old(st)[product := Sides(bids, asks)] else old(st)
    {
      if product !in st {
        st := st[product := Sides(bids, asks)];
        return [], false;
      }
      var b := st[product];
      var bidUpdates := DiffSide(b.bids, bids, true);
      var askUpdates := DiffSide(b.asks, asks, false);
      SidesDiff(bidUpdates, askUpdates, b.bids, b.asks, bids, asks);
      updates := bidUpdates + askUpdates;
      if |updates| == 0 {
        return [], false;
      }
      st := st[product := Sides(bids, asks)];
      return updates, true;
    }

    /** Send a frame to every subscriber of the product; those that cannot take it are closed. */
    method PublishMarket(product: string, f: Frame) returns (ghost full: set<nat>)
      modifies this`out, this`queued, this`closed, this`lost
      ensures View() == Published(old(View()), product, f, full)
    {
      hide PartSent;
      var targets := if product in market then market[product] else {};
      var todo, dead: set<nat> := targets, {};
      full := {};
      ghost var s0, took: set<nat> := View(), {};
      NoneSent(out, f);
      while todo != {}
        modifies this`out, this`queued
        invariant todo <= targets && took + dead == targets - todo && took !! dead
        invariant full <= dead && (forall c :: c in dead ==> c in closed || c in full)
            && (forall c :: c in took ==> c !in closed)
        invariant PartSent(s0.sent, out, took, f)
        decreases todo
      {
        var c := NextKey(todo);
        SentOne(s0.sent, out, took, f, c);
        todo := todo - {c};
        var ok := TrySend(c, f);
        if ok {
          took := took + {c};
        } else {
          dead := dead + {c};
          if c !in closed { full := full + {c}; }
        }
      }
      closed := closed + dead;
      lost := lost + Losses(s0, dead, product);
      AllSent(s0, out, product, f, full, took, dead);
    }

    /** Diff the current book against the baseline and publish what changed. */
    method BroadcastLevel2(product: string, bids: seq<Quote>, asks: seq<Quote>) returns (ghost step: Step)
      requires Valid()
      modifies this
      ensures Valid() && Enabled(old(View()), step) && View() == Next(old(View()), step)
      ensures step.Tick? && step.product == product && step.book == Joined(LevelMap(bids), LevelMap(asks))
    {
      hide Published, IsDiff, LevelMap, Wire, Joined, BaseOf;
      ghost var s0, was := View(), st;
      var curBids := RenderLevels(bids);
      var curAsks := RenderLevels(asks);
      LevelMapWire(bids);
      LevelMapWire(asks);
      JoinedWire(curBids, curAsks);
      BaseUpdate(st, product, Sides(curBids, curAsks));
      var updates, changed := DiffLocked(product, curBids, curAsks);
      ghost var full: set<nat> := {};
      if changed {
        full := PublishMarket(product, Frame(product, false, updates));
      }
      step := Tick(product, Joined(curBids, curAsks), updates, full);
    }

    /** The product's baseline, seeded from the current book if there is none. */
    method BookLocked(product: string, bids: map<string, string>, asks: map<string, string>) returns (b: Sides)
      requires Valid() && Wire(bids) && Wire(asks)
      modifies this`st
      ensures Valid() && JoinedSides(b) == Baseline(old(View()), product, Joined(bids, asks))
      ensures View() == old(View()).(base := old(View()).base[product := JoinedSides(b)])
    {
      BaseUpdate(st, product, Sides(bids, asks));
      hide BaseOf, Wire, Joined;
      if product !in st {
        st := st[product := Sides(bids, asks)];
      }
      b := st[product];
    }

    /** The whole baseline as updates. */
    static method SnapshotUpdates(b: Sides) returns (updates: seq<Update>)
      ensures IsListing(updates, JoinedSides(b))
    {
      var bidUpdates := MapUpdates(b.bids, true);
      var askUpdates := MapUpdates(b.asks, false);
      SidesListed(bidUpdates, askUpdates, b);
      updates := bidUpdates + askUpdates;
    }

    /** Enqueue the baseline as a snapshot and then register, under one lock. */
    method SubscribeLevel2(c: nat, product: string, bids: seq<Quote>, asks: seq<Quote>) returns (ghost step: Step)
      requires Valid()
      modifies this
      ensures Valid() && Enabled(old(View()), step) && View() == Next(old(View()), step)
      ensures step.Subscribe? && step.c == c && step.product == product
          && step.book == Joined(LevelMap(bids), LevelMap(asks))
    {
      hide IsListing, LevelMap, Wire, Joined, BaseOf;
      var curBids := RenderLevels(bids);
      var curAsks := RenderLevels(asks);
      LevelMapWire(bids);
      LevelMapWire(asks);
      JoinedWire(curBids, curAsks);
      var b := BookLocked(product, curBids, curAsks);
      var updates := SnapshotUpdates(b);
      var ok := TrySend(c, Frame(product, true, updates));
      market := market[product := (if product in market then market[product] else {}) + {c}];
      lost := if ok then lost - {(c, product)} else lost[(c, product) := |SentTo(View(), c)|];
      step := Subscribe(c, product, Joined(curBids, curAsks), updates, ok);
    }

    method UnsubscribeMarket(c: nat, product: string)
      requires Valid()
      modifies this`market
      ensures Valid() && View() == Next(old(View()), Unsubscribe(c, product))
    {
      if product in market {
        var rest := market[product] - {c};
        market := market[product := rest];
        if |rest| == 0 {
          market := market - {product};
        }
      }
    }

    /** Forget a connection that has gone. */
    method Remove(c: nat)
      requires Valid()
      modifies this`market, this`closed
      ensures Valid() && View() == Next(old(View()), Disconnect(c))
    {
      var left := market.Keys;
      ghost var was := market;
      while left != {}
        modifies this`market
        invariant left <= was.Keys
        invariant forall p :: p in market <==> p in was && (p in left || was[p] - {c} != {})
        invariant forall p :: p in market ==> market[p] == if p in left then was[p] else was[p] - {c}
        decreases left
      {
        var p := NextKey(left);
        left := left - {p};
        var rest := market[p] - {c};
        market := if |rest| == 0 then market - {p} else market[p := rest];
      }
      closed := closed + {c};
      Departed(was, market, c);
    }
  }

  lemma Departed(was: map<string, set<nat>>, market: map<string, set<nat>>, c: nat)
    requires forall p :: p in market <==> p in was && was[p] - {c} != {}
    requires forall p :: p in market ==> market[p] == was[p] - {c}
    ensures market == map p | p in was && was[p] - {c} != {} :: was[p] - {c}
  {
  }

  function SentOf(out: map<nat, seq<Frame>>, c: nat): seq<Frame> {
    if c in out then out[c] else []
  }

  /** The frame has been enqueued to these connections and no others. */
  ghost predicate PartSent(was: map<nat, seq<Frame>>, out: map<nat, seq<Frame>>, took: set<nat>, f: Frame) {
    && out.Keys == was.Keys + took
    && forall c :: c in out ==> out[c] == if c in took then SentOf(was, c) + [f] else SentOf(was, c)
  }

  lemma NoneSent(was: map<nat, seq<Frame>>, f: Frame)
    ensures PartSent(was, was, {}, f)
  {
  }

  lemma SentOne(was: map<nat, seq<Frame>>, out: map<nat, seq<Frame>>, took: set<nat>, f: Frame, c: nat)
    requires PartSent(was, out, took, f)
    ensures c !in took ==> PartSent(was, out[c := SentOf(out, c) + [f]], took + {c}, f)
  {
  }

  lemma AllSent(s: Sys, out: map<nat, seq<Frame>>, product: string, f: Frame, full: set<nat>, took: set<nat>,
      dead: set<nat>)
    requires PartSent(s.sent, out, took, f) && took + dead == Subscribers(s, product) && took !! dead
    requires full <= dead && (forall c :: c in dead ==> c in s.closed || c in full)
        && (forall c :: c in took ==> c !in s.closed)
    ensures dead == Subscribers(s, product) * (s.closed + full) && out == Published(s, product, f, full).sent
  {
    assert took == Subscribers(s, product) - dead;
    assert forall c :: c in s.sent.Keys + took ==>
        (c in out && out[c] == if c in took then SentTo(s, c) + [f] else SentTo(s, c));
  }
}
