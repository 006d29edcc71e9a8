/**
 Incremental book feeds in general: what a client gets by folding the changed levels of a book,
 in whatever order they arrive, "0" meaning removal. Both exchange edges diff rendered levels
 this way (level2diff.go, depthdiff.go).
 */
module BookDiffs {
  import opened Common
  import opened Decimal
  import DecimalText

  /** A price level of one side, by its rendered price. */
  datatype Key = Key(bid: bool, price: string)

  type BookMap = map<Key, string>

  datatype Update = Update(key: Key, quantity: string)

  /** What a Go map yields for a key, present or not. */
  function Look<K>(m: map<K, string>, k: K): string {
    if k in m then m[k] else ""
  }

  /** Rendered quantities are never empty and never the removal mark. */
  ghost predicate Wire<K>(m: map<K, string>) {
    forall k :: k in m ==> m[k] != "" && m[k] != "0"
  }

  // ----- the client ----------------------------------------------------------------------

  function ApplyUpdate(m: BookMap, u: Update): BookMap {
    if u.quantity == "0" then m - {u.key} else m[u.key := u.quantity]
  }

  function ApplyAll(m: BookMap, updates: seq<Update>): BookMap
    decreases |updates|
  {
    if updates == [] then m else ApplyAll(ApplyUpdate(m, updates[0]), updates[1..])
  }

  // ----- the server's diff ---------------------------------------------------------------

  /** Updates that all carry the current quantity of their level. */
  ghost predicate Current(updates: seq<Update>, cur: BookMap) {
    forall u :: u in updates ==> u.quantity == if u.key in cur then cur[u.key] else "0"
  }

  predicate Mentions(updates: seq<Update>, k: Key) {
    exists i :: 0 <= i < |updates| && updates[i].key == k
  }

  /** A diff, in any order: exactly the levels whose quantity changed, with their new quantity. */
  ghost predicate IsDiff(updates: seq<Update>, prev: BookMap, cur: BookMap) {
    Current(updates, cur) && forall k :: Mentions(updates, k) <==> Look(prev, k) != Look(cur, k)
  }

  /** A full listing, in any order. */
  ghost predicate IsListing(updates: seq<Update>, m: BookMap) {
    Current(updates, m) && forall k :: Mentions(updates, k) <==> k in m
  }

  /** Folding current updates sets every mentioned level to its current quantity and leaves the
      others, whatever the order and the repetitions. */
  lemma {:induction false} ApplyAt(m: BookMap, updates: seq<Update>, cur: BookMap, k: Key)
    requires Current(updates, cur) && Wire(cur)
    ensures Look(ApplyAll(m, updates), k) == if Mentions(updates, k) then Look(cur, k) else Look(m, k)
    decreases |updates|
  {
    if updates != [] {
      ApplyAt(ApplyUpdate(m, updates[0]), updates[1..], cur, k);
      MentionsCons(updates, k);
      assert updates[0] in updates;
    }
  }

  lemma MentionsCons(updates: seq<Update>, k: Key)
    requires updates != []
    ensures Mentions(updates, k) <==> updates[0].key == k || Mentions(updates[1..], k)
  {
    if Mentions(updates, k) && updates[0].key != k {
      var i :| 0 <= i < |updates| && updates[i].key == k;
      assert updates[1..][i - 1].key == k;
    }
    if Mentions(updates[1..], k) {
      var i :| 0 <= i < |updates[1..]| && updates[1..][i].key == k;
      assert updates[i + 1].key == k;
    }
  }

  lemma {:induction false} ApplyKeepsWire(m: BookMap, updates: seq<Update>, cur: BookMap)
    requires Wire(m) && Current(updates, cur) && Wire(cur)
    ensures Wire(ApplyAll(m, updates))
    decreases |updates|
  {
    if updates != [] {
      assert updates[0] in updates;
      ApplyKeepsWire(ApplyUpdate(m, updates[0]), updates[1..], cur);
    }
  }

  lemma SameLooks(a: BookMap, b: BookMap)
    requires Wire(a) && Wire(b) && forall k :: Look(a, k) == Look(b, k)
    ensures a == b
  {
    assert forall k :: k in a <==> k in b by {
      forall k ensures k in a <==> k in b {
        assert Look(a, k) == Look(b, k);
      }
    }
    forall k | k in a ensures a[k] == b[k] {
      assert Look(a, k) == Look(b, k);
    }
  }

  /** A client at the old book that folds a diff, in any order, is at the new book. */
  lemma DiffReaches(updates: seq<Update>, prev: BookMap, cur: BookMap)
    requires IsDiff(updates, prev, cur) && Wire(prev) && Wire(cur)
    ensures ApplyAll(prev, updates) == cur
  {
    forall k ensures Look(ApplyAll(prev, updates), k) == Look(cur, k) {
      ApplyAt(prev, updates, cur, k);
    }
    ApplyKeepsWire(prev, updates, cur);
    SameLooks(ApplyAll(prev, updates), cur);
  }

  /** A client that folds a listing from nothing has the listed book. */
  lemma ListingReaches(updates: seq<Update>, m: BookMap)
    requires IsListing(updates, m) && Wire(m)
    ensures ApplyAll(map[], updates) == m
  {
    forall k ensures Look(ApplyAll(map[], updates), k) == Look(m, k) {
      ApplyAt(map[], updates, m, k);
    }
    ApplyKeepsWire(map[], updates, m);
    SameLooks(ApplyAll(map[], updates), m);
  }

  /** Nothing to send exactly when nothing changed. */
  lemma EmptyDiff(updates: seq<Update>, prev: BookMap, cur: BookMap)
    requires IsDiff(updates, prev, cur) && Wire(prev) && Wire(cur)
    ensures updates == [] <==> prev == cur
  {
    if updates == [] {
      forall k ensures Look(prev, k) == Look(cur, k) {
        assert !Mentions(updates, k);
      }
      SameLooks(prev, cur);
    } else {
      assert Mentions(updates, updates[0].key);
    }
  }

  // ----- rendering a snapshot ------------------------------------------------------------

  datatype Quote = Quote(price: Dec, volume: Dec)

  const PREC: int := 8

  /** Levels that render to the same price collapse to the last one. */
  function LevelMap(levels: seq<Quote>): map<string, string> {
    if levels == [] then map[]
    else LevelMap(levels[..|levels| - 1])
           [DecimalText.StringPrec(levels[|levels| - 1].price, PREC) :=
               DecimalText.StringPrec(levels[|levels| - 1].volume, PREC)]
  }

  method RenderLevels(levels: seq<Quote>) returns (m: map<string, string>)
    ensures m == LevelMap(levels)
  {
    m := map[];
    for i := 0 to |levels|
      invariant m == LevelMap(levels[..i])
    {
      assert levels[..i + 1][..i] == levels[..i];
      m := m[DecimalText.StringPrec(levels[i].price, PREC) := DecimalText.StringPrec(levels[i].volume, PREC)];
    }
    assert levels[..|levels|] == levels;
  }

  /** Each rendered price carries the rendered quantity of the last level that renders to it. */
  lemma {:induction false} LevelMapAt(levels: seq<Quote>, i: nat)
    requires i < |levels|
    requires forall j :: i < j < |levels| ==>
               DecimalText.StringPrec(levels[j].price, PREC) != DecimalText.StringPrec(levels[i].price, PREC)
    ensures var p := DecimalText.StringPrec(levels[i].price, PREC);
            p in LevelMap(levels) && LevelMap(levels)[p] == DecimalText.StringPrec(levels[i].volume, PREC)
    decreases |levels|
  {
    hide DecimalText.StringPrec;
    if i < |levels| - 1 { LevelMapAt(levels[..|levels| - 1], i); }
  }

  /** And nothing else is in the map. */
  lemma {:induction false} LevelMapKeys(levels: seq<Quote>, p: string)
    requires p in LevelMap(levels)
    ensures exists i :: 0 <= i < |levels| && DecimalText.StringPrec(levels[i].price, PREC) == p
    decreases |levels|
  {
    hide DecimalText.StringPrec;
    var n := |levels| - 1;
    if DecimalText.StringPrec(levels[n].price, PREC) != p {
      LevelMapKeys(levels[..n], p);
      var i :| 0 <= i < n && DecimalText.StringPrec(levels[..n][i].price, PREC) == p;
      assert levels[i] == levels[..n][i];
    }
  }

  /** Rendered quantities always show a point, so they are never "0" nor empty. */
  lemma {:induction false} LevelMapWire(levels: seq<Quote>)
    ensures Wire(LevelMap(levels))
    decreases |levels|
  {
    if levels != [] {
      LevelMapWire(levels[..|levels| - 1]);
      DecimalText.RenderingHasPoint(levels[|levels| - 1].volume, PREC);
    }
  }

  /** One side of a diff. */
  ghost predicate IsSideDiff(updates: seq<Update>, prev: map<string, string>, cur: map<string, string>, bid: bool) {
    && (forall u :: u in updates ==> u.key.bid == bid && u.quantity == if u.key.price in cur then cur[u.key.price]
        else "0")
    && (forall p :: Mentions(updates, Key(bid, p)) <==> Look(prev, p) != Look(cur, p))
  }

  /** Both sides as one book. */
  function Joined(bids: map<string, string>, asks: map<string, string>): BookMap {
    map k | k in (set p | p in bids :: Key(true, p)) + (set p | p in asks :: Key(false, p))
      :: if k.bid then bids[k.price] else asks[k.price]
  }

  lemma JoinedLook(bids: map<string, string>, asks: map<string, string>, k: Key)
    ensures Look(Joined(bids, asks), k) == if k.bid then Look(bids, k.price) else Look(asks, k.price)
    ensures k in Joined(bids, asks) <==> if k.bid then k.price in bids else k.price in asks
  {
    assert k == Key(k.bid, k.price);
  }

  lemma JoinedWire(bids: map<string, string>, asks: map<string, string>)
    requires Wire(bids) && Wire(asks)
    ensures Wire(Joined(bids, asks))
  {
  }

  lemma MentionsConcat(a: seq<Update>, b: seq<Update>, k: Key)
    ensures Mentions(a + b, k) <==> Mentions(a, k) || Mentions(b, k)
  {
    if Mentions(a, k) {
      var i :| 0 <= i < |a| && a[i].key == k;
      assert (a + b)[i].key == k;
    }
    if Mentions(b, k) {
      var i :| 0 <= i < |b| && b[i].key == k;
      assert (a + b)[|a| + i].key == k;
    }
  }

  /** The diffs of the two sides, one after the other, are the diff of the book. */
  lemma SidesDiff(bidUpdates: seq<Update>, askUpdates: seq<Update>,
                  bids: map<string, string>, asks: map<string, string>, bids': map<string, string>,
                      asks': map<string, string>)
    requires IsSideDiff(bidUpdates, bids, bids', true) && IsSideDiff(askUpdates, asks, asks', false)
    ensures IsDiff(bidUpdates + askUpdates, Joined(bids, asks), Joined(bids', asks'))
  {
    var updates, prev, cur := bidUpdates + askUpdates, Joined(bids, asks), Joined(bids', asks');
    forall u | u in updates ensures u.quantity == if u.key in cur then cur[u.key] else "0" {
      JoinedLook(bids', asks', u.key);
      assert u in bidUpdates || u in askUpdates;
    }
    forall k ensures Mentions(updates, k) <==> Look(prev, k) != Look(cur, k) {
      MentionsConcat(bidUpdates, askUpdates, k);
      JoinedLook(bids, asks, k);
      JoinedLook(bids', asks', k);
      assert k == Key(k.bid, k.price);
      OneSideOnly(bidUpdates, true, k);
      OneSideOnly(askUpdates, false, k);
    }
  }

  lemma OneSideOnly(updates: seq<Update>, bid: bool, k: Key)
    requires forall u :: u in updates ==> u.key.bid == bid
    ensures Mentions(updates, k) ==> k.bid == bid
  {
  }

  /** The changed levels of one side: new quantities first, then removals, each in random order. */
  method DiffSide(prev: map<string, string>, cur: map<string, string>, bid: bool) returns (updates: seq<Update>)
    requires Wire(prev) && Wire(cur)
    ensures IsSideDiff(updates, prev, cur, bid)
  {
    hide Mentions;
    updates := ChangedLevels(prev, cur, bid);
    var gone := prev.Keys;
    while gone != {}
      invariant gone <= prev.Keys
      invariant forall u :: u in updates ==>
          u.key.bid == bid && u.quantity == if u.key.price in cur then cur[u.key.price] else "0"
      invariant forall p :: Mentions(updates, Key(bid, p)) <==>
                  (p in cur && Look(prev, p) != cur[p]) || (p in prev && p !in gone && p !in cur)
      decreases gone
    {
      var p := NextKey(gone);
      gone := gone - {p};
      if p !in cur {
        MentionsOne(updates, Update(Key(bid, p), "0"));
        updates := updates + [Update(Key(bid, p), "0")];
      }
    }
  }

  /** The first of the two loops: new and changed levels. */
  method ChangedLevels(prev: map<string, string>, cur: map<string, string>, bid: bool) returns (updates: seq<Update>)
    ensures forall u :: u in updates ==> u.key.bid == bid && u.key.price in cur && u.quantity == cur[u.key.price]
    ensures forall p :: Mentions(updates, Key(bid, p)) <==> p in cur && Look(prev, p) != cur[p]
  {
    updates := [];
    var left := cur.Keys;
    while left != {}
      invariant left <= cur.Keys
      invariant forall u :: u in updates ==> u.key.bid == bid && u.key.price in cur && u.quantity == cur[u.key.price]
      invariant forall p :: Mentions(updates, Key(bid, p)) <==> p in cur && p !in left && Look(prev, p) != cur[p]
      decreases left
    {
      var p := NextKey(left);
      left := left - {p};
      if Look(prev, p) != cur[p] {
        MentionsOne(updates, Update(Key(bid, p), cur[p]));
        updates := updates + [Update(Key(bid, p), cur[p])];
      }
    }
  }

  lemma MentionsOne(updates: seq<Update>, u: Update)
    ensures forall k :: Mentions(updates + [u], k) <==> Mentions(updates, k) || u.key == k
  {
    forall k ensures Mentions(updates + [u], k) <==> Mentions(updates, k) || u.key == k {
      MentionsConcat(updates, [u], k);
      assert Mentions([u], k) <==> u.key == k by {
        assert [u][0].key == u.key;
      }
    }
  }
}
