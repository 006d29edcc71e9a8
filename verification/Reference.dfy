/**
 internal/reference: one instrument's reference book, folded from snapshots and diffs, with a
 sorted view that is rebuilt only when somebody reads it. Every read is proved to see the sort
 of the level maps as they are, however long ago the view was cached.
 */
module Reference {
  import opened Common

  datatype RefLevel = RefLevel(price: int, quantity: int, orders: nat)

  datatype Frame = Frame(snapshot: bool, bids: seq<RefLevel>, asks: seq<RefLevel>, sequence: nat, stamp: nat)

  type Levels = map<int, RefLevel>

  // ----- folding frames ------------------------------------------------------------------

  /** A snapshot's side: only positive quantities, later entries over earlier ones. */
  function FoldSnapshot(m: Levels, levels: seq<RefLevel>): Levels
    decreases |levels|
  {
    if levels == [] then m
    else FoldSnapshot(if levels[0].quantity > 0 then m[levels[0].price := levels[0]] else m, levels[1..])
  }

  /** A diff's side: a zero quantity removes the level, anything else replaces it. */
  function FoldDiff(m: Levels, levels: seq<RefLevel>): Levels
    decreases |levels|
  {
    if levels == [] then m
    else FoldDiff(if levels[0].quantity == 0 then m - {levels[0].price} else m[levels[0].price := levels[0]],
        levels[1..])
  }

  /** Index of the last entry for a price, or |levels|. */
  function LastFor(levels: seq<RefLevel>, price: int): (i: nat)
    ensures i <= |levels|
    ensures i < |levels| ==> levels[i].price == price
    ensures forall j :: 0 <= j < |levels| && (i == |levels| || j > i) ==> levels[j].price != price
  {
    if levels == [] then 0
    else
      var i := LastFor(levels[1..], price);
      assert forall j :: 0 < j < |levels| ==> levels[j] == levels[1..][j - 1];
      if i < |levels| - 1 then i + 1 else if levels[0].price == price then 0 else |levels|
  }

  /** Only a price's last entry in a diff matters. */
  lemma {:induction false} DiffLastWins(m: Levels, levels: seq<RefLevel>, price: int)
    ensures var i, after := LastFor(levels, price), FoldDiff(m, levels);
            if i == |levels| then (price in after <==> price in m) && (price in m ==> after[price] == m[price])
            else if levels[i].quantity == 0 then price !in after
            else price in after && after[price] == levels[i]
    decreases |levels|
  {
    if levels != [] {
      DiffLastWins(if levels[0].quantity == 0 then m - {levels[0].price} else m[levels[0].price := levels[0]],
          levels[1..], price);
    }
  }

  /** Entry i is the last positive one for its price. */
  predicate LastPositive(levels: seq<RefLevel>, i: nat)
    requires i < |levels|
  {
    && levels[i].quantity > 0
    && forall j :: i < j < |levels| ==> levels[j].price != levels[i].price || levels[j].quantity <= 0
  }

  /** The side a snapshot leaves: a price is in it exactly when some entry for it is positive, with the
      last such entry as its level. */
  ghost predicate SnapshotOf(levels: seq<RefLevel>, side: Levels) {
    && (forall p :: p in side <==> exists i :: 0 <= i < |levels| && levels[i].price == p && levels[i].quantity > 0)
    && (forall i :: 0 <= i < |levels| && LastPositive(levels, i) ==> levels[i].price in side)
    && (forall i :: 0 <= i < |levels| && LastPositive(levels, i) ==> side[levels[i].price] == levels[i])
  }

  lemma {:induction false} SnapshotKeys(m: Levels, levels: seq<RefLevel>, p: int)
    ensures p in FoldSnapshot(m, levels) <==>
        p in m || exists i :: 0 <= i < |levels| && levels[i].price == p && levels[i].quantity > 0
    decreases |levels|
  {
    if levels != [] {
      var rest := levels[1..];
      SnapshotKeys(if levels[0].quantity > 0 then m[levels[0].price := levels[0]] else m, rest, p);
      if i :| 0 <= i < |levels| && levels[i].price == p && levels[i].quantity > 0 {
        if i > 0 { assert rest[i - 1].price == p && rest[i - 1].quantity > 0; }
      }
      if i :| 0 <= i < |rest| && rest[i].price == p && rest[i].quantity > 0 {
        assert levels[i + 1].price == p && levels[i + 1].quantity > 0;
      }
    }
  }

  lemma {:induction false} SnapshotKeeps(m: Levels, levels: seq<RefLevel>, p: int)
    requires p in m && forall j :: 0 <= j < |levels| ==> levels[j].price != p || levels[j].quantity <= 0
    ensures p in FoldSnapshot(m, levels) && FoldSnapshot(m, levels)[p] == m[p]
    decreases |levels|
  {
    if levels != [] {
      SnapshotKeeps(if levels[0].quantity > 0 then m[levels[0].price := levels[0]] else m, levels[1..], p);
    }
  }

  lemma {:induction false} SnapshotLast(m: Levels, levels: seq<RefLevel>, i: nat)
    requires i < |levels| && LastPositive(levels, i)
    ensures levels[i].price in FoldSnapshot(m, levels) && FoldSnapshot(m, levels)[levels[i].price] == levels[i]
    decreases i
  {
    var next := if levels[0].quantity > 0 then m[levels[0].price := levels[0]] else m;
    if i == 0 {
      SnapshotKeeps(next, levels[1..], levels[0].price);
    } else {
      SnapshotLast(next, levels[1..], i - 1);
    }
  }

  lemma SnapshotLastWins(levels: seq<RefLevel>)
    ensures SnapshotOf(levels, FoldSnapshot(map[], levels))
  {
    var side := FoldSnapshot(map[], levels);
    forall p
      ensures p in side <==> exists i :: 0 <= i < |levels| && levels[i].price == p && levels[i].quantity > 0
    {
      SnapshotKeys(map[], levels, p);
    }
    forall i | 0 <= i < |levels| && LastPositive(levels, i)
      ensures levels[i].price in side && side[levels[i].price] == levels[i]
    {
      SnapshotLast(map[], levels, i);
    }
  }

  /** The side a diff leaves: for each price its last entry decides, and without one nothing changes. */
  ghost predicate DiffOf(before: Levels, levels: seq<RefLevel>, side: Levels) {
    forall p :: var i := LastFor(levels, p);
      if i == |levels| then (p in side <==> p in before) && (p in before ==> side[p] == before[p])
      else if levels[i].quantity == 0 then p !in side
      else p in side && side[p] == levels[i]
  }

  lemma DiffDecided(m: Levels, levels: seq<RefLevel>)
    ensures DiffOf(m, levels, FoldDiff(m, levels))
  {
    forall p { DiffLastWins(m, levels, p); }
  }

  ghost predicate AllPositive(m: Levels) {
    forall p :: p in m ==> m[p].quantity > 0
  }

  ghost predicate Keyed(m: Levels) {
    forall p :: p in m ==> m[p].price == p
  }

  lemma {:induction false} SnapshotPositive(m: Levels, levels: seq<RefLevel>)
    requires AllPositive(m)
    ensures AllPositive(FoldSnapshot(m, levels))
    decreases |levels|
  {
    if levels != [] {
      SnapshotPositive(if levels[0].quantity > 0 then m[levels[0].price := levels[0]] else m, levels[1..]);
    }
  }

  /** A diff keeps every quantity positive exactly when none of its prices ends negative: unlike a
      snapshot, it does not filter negative quantities. */
  lemma DiffPositiveExactly(m: Levels, levels: seq<RefLevel>)
    requires AllPositive(m)
    ensures AllPositive(FoldDiff(m, levels)) <==>
            (forall i :: 0 <= i < |levels| && LastFor(levels, levels[i].price) == i ==> levels[i].quantity >= 0)
  {
    var after := FoldDiff(m, levels);
    forall p | p in after
      ensures after[p].quantity > 0 ||
              (LastFor(levels, p) < |levels| && levels[LastFor(levels, p)].quantity < 0
               && LastFor(levels, levels[LastFor(levels, p)].price) == LastFor(levels, p))
    {
      DiffLastWins(m, levels, p);
    }
    forall i | 0 <= i < |levels| && LastFor(levels, levels[i].price) == i && levels[i].quantity < 0
      ensures levels[i].price in after && after[levels[i].price].quantity < 0
    {
      DiffLastWins(m, levels, levels[i].price);
    }
  }

  lemma {:induction false} FoldsKeyed(m: Levels, levels: seq<RefLevel>)
    requires Keyed(m)
    ensures Keyed(FoldSnapshot(m, levels)) && Keyed(FoldDiff(m, levels))
    decreases |levels|
  {
    if levels != [] {
      FoldsKeyed(if levels[0].quantity > 0 then m[levels[0].price := levels[0]] else m, levels[1..]);
      FoldsKeyed(if levels[0].quantity == 0 then m - {levels[0].price} else m[levels[0].price := levels[0]],
          levels[1..]);
    }
  }

  // ----- the sorted view -----------------------------------------------------------------

  predicate Before(desc: bool, p: int, q: int) {
    if desc then p > q else p < q
  }

  predicate InOrder(view: seq<RefLevel>, desc: bool) {
    forall i, j :: 0 <= i < j < |view| ==> Before(desc, view[i].price, view[j].price)
  }

  /** The view lists exactly the map's levels, best first. */
  ghost predicate SortOf(m: Levels, desc: bool, view: seq<RefLevel>) {
    InOrder(view, desc) && (forall l :: l in view <==> l.price in m && m[l.price] == l)
  }

  /** There is only one such list, so the random order in which a map is walked does not show. */
  lemma {:induction false} SortUnique(m: Levels, desc: bool, a: seq<RefLevel>, b: seq<RefLevel>)
    requires SortOf(m, desc, a) && SortOf(m, desc, b)
    ensures a == b
    decreases |a|
  {
    if a == [] {
      FirstIn(b);
    } else {
      assert a[0] in a && a[0] in b;
      assert b[0] in b && b[0] in a;
      var i :| 0 <= i < |a| && a[i] == b[0];
      var j :| 0 <= j < |b| && b[j] == a[0];
      assert a[0] == b[0];
      var rest := m - {a[0].price};
      RestSorted(m, desc, a);
      RestSorted(m, desc, b);
      SortUnique(rest, desc, a[1..], b[1..]);
      assert a == [a[0]] + a[1..] && b == [b[0]] + b[1..];
    }
  }

  lemma FirstIn(b: seq<RefLevel>)
    ensures b != [] ==> b[0] in b
  {
  }

  lemma RestSorted(m: Levels, desc: bool, a: seq<RefLevel>)
    requires SortOf(m, desc, a) && a != []
    ensures SortOf(m - {a[0].price}, desc, a[1..])
  {
    forall l ensures l in a[1..] <==> l.price in m - {a[0].price} && (m - {a[0].price})[l.price] == l {
      if l in a[1..] {
        var i :| 0 <= i < |a[1..]| && a[1..][i] == l;
        assert l == a[i + 1];
      } else if l in a {
        assert l == a[0];
      }
    }
  }

  /** Best bid at or above best ask. */
  predicate CrossedView(bids: seq<RefLevel>, asks: seq<RefLevel>) {
    bids != [] && asks != [] && bids[0].price >= asks[0].price
  }

  /** Comparing the two tops is comparing all levels: crossed when some bid meets some ask. */
  lemma CrossedExactly(bids: Levels, asks: Levels, bidView: seq<RefLevel>, askView: seq<RefLevel>)
    requires Keyed(bids) && Keyed(asks) && SortOf(bids, true, bidView) && SortOf(asks, false, askView)
    ensures CrossedView(bidView, askView) <==> exists b, a :: b in bids && a in asks && b >= a
  {
    if CrossedView(bidView, askView) {
      assert bidView[0] in bidView && askView[0] in askView;
      assert bidView[0].price in bids && askView[0].price in asks;
    }
    forall b, a | b in bids && a in asks && b >= a ensures CrossedView(bidView, askView) {
      assert bids[b] in bidView && asks[a] in askView;
      var i :| 0 <= i < |bidView| && bidView[i] == bids[b];
      var j :| 0 <= j < |askView| && askView[j] == asks[a];
      assert i > 0 ==> Before(true, bidView[0].price, bidView[i].price);
      assert j > 0 ==> Before(false, askView[0].price, askView[j].price);
    }
  }

  function Clip(view: seq<RefLevel>, n: int): seq<RefLevel> {
    if n <= 0 || n > |view| then view else view[..n]
  }

  ghost function Better(m: Levels, desc: bool, p: int): set<int> {
    set q | q in m && Before(desc, q, p)
  }

  /** Clipped to n, the view keeps exactly the levels that fewer than n others beat, and so as many as
      there are, up to n. */
  ghost predicate TopOf(m: Levels, desc: bool, n: int, kept: seq<RefLevel>) {
    && (forall p :: p in m ==> (m[p] in kept <==> n <= 0 || |Better(m, desc, p)| < n))
    && (forall l :: l in kept ==> l.price in m && m[l.price] == l)
    && |kept| == if n <= 0 || |m| < n then |m| else n
  }

  lemma {:induction false} BetterThan(m: Levels, desc: bool, view: seq<RefLevel>, i: nat)
    requires Keyed(m) && SortOf(m, desc, view) && i < |view|
    ensures |Better(m, desc, view[i].price)| == i
  {
    var p := view[i].price;
    if i == 0 {
      forall q | q in m ensures q !in Better(m, desc, p) { BestFirst(m, desc, view); }
      assert Better(m, desc, p) == {};
    } else {
      var b := view[i - 1].price;
      BetterThan(m, desc, view, i - 1);
      forall q ensures q in Better(m, desc, p) <==> q in Better(m, desc, b) || q == b {
        NextBest(m, desc, view, i, q);
      }
      assert Better(m, desc, p) == Better(m, desc, b) + {b};
    }
  }

  lemma NextBest(m: Levels, desc: bool, view: seq<RefLevel>, i: nat, q: int)
    requires Keyed(m) && SortOf(m, desc, view) && 0 < i < |view|
    ensures q in Better(m, desc, view[i].price) <==> q in Better(m, desc, view[i - 1].price) || q == view[i - 1].price
  {
    assert view[i - 1] in view;
    if q in m {
      assert m[q] in view;
      var j :| 0 <= j < |view| && view[j] == m[q];
    }
  }

  lemma {:induction false} ViewSize(m: Levels, desc: bool, view: seq<RefLevel>)
    requires Keyed(m) && SortOf(m, desc, view)
    ensures |view| == |m|
    decreases |view|
  {
    if view == [] {
      EmptyView(m, desc, view);
    } else {
      EmptyView(m, desc, view);
      RestSorted(m, desc, view);
      ViewSize(m - {view[0].price}, desc, view[1..]);
      assert |m| == |m - {view[0].price}| + 1 by {
        assert m.Keys == (m - {view[0].price}).Keys + {view[0].price};
      }
    }
  }

  lemma ClipIsTop(m: Levels, desc: bool, view: seq<RefLevel>, n: int)
    requires Keyed(m) && SortOf(m, desc, view)
    ensures TopOf(m, desc, n, Clip(view, n))
  {
    var kept := Clip(view, n);
    ViewSize(m, desc, view);
    forall p | p in m ensures m[p] in kept <==> n <= 0 || |Better(m, desc, p)| < n {
      assert m[p] in view;
      var i :| 0 <= i < |view| && view[i] == m[p];
      BetterThan(m, desc, view, i);
      assert i < |kept| ==> kept[i] == view[i];
      if m[p] in kept {
        var j :| 0 <= j < |kept| && kept[j] == m[p];
        BetterThan(m, desc, view, j);
      }
    }
    assert forall l :: l in kept ==> l in view;
  }

  /** The clipped levels are the best ones: none left out beats one kept. */
  lemma ClipKeepsBest(view: seq<RefLevel>, desc: bool, n: int, kept: RefLevel, dropped: RefLevel)
    requires InOrder(view, desc) && kept in Clip(view, n) && dropped in view && dropped !in Clip(view, n)
    ensures Before(desc, kept.price, dropped.price)
  {
    var c := Clip(view, n);
    var i :| 0 <= i < |c| && c[i] == kept;
    var j :| 0 <= j < |view| && view[j] == dropped;
    assert forall t :: 0 <= t < |c| ==> c[t] == view[t];
  }

  lemma SplicedMembers(out: seq<RefLevel>, l: RefLevel, at: nat)
    requires at <= |out|
    ensures forall x :: x in out[..at] + [l] + out[at..] <==> x in out || x == l
  {
    assert out == out[..at] + out[at..];
  }

  lemma SplicedInOrder(out: seq<RefLevel>, l: RefLevel, at: nat, desc: bool)
    requires InOrder(out, desc) && at <= |out| && forall i :: 0 <= i < |out| ==> out[i].price != l.price
    requires forall i :: at <= i < |out| ==> Before(desc, l.price, out[i].price)
    requires at == 0 || !Before(desc, l.price, out[at - 1].price)
    ensures InOrder(out[..at] + [l] + out[at..], desc)
  {
    assert forall i :: 0 <= i < at ==> Before(desc, out[i].price, l.price);
    hide Before;
  }

  /** Put a level behind every level that is not after it (sort.Slice orders distinct prices, so any
      sorting algorithm gives this list). */
  method SortLevels(levels: seq<RefLevel>, desc: bool) returns (out: seq<RefLevel>)
    requires forall i, j :: 0 <= i < j < |levels| ==> levels[i].price != levels[j].price
    ensures InOrder(out, desc) && forall l :: l in out <==> l in levels
  {
    out := [];
    for k := 0 to |levels|
      invariant InOrder(out, desc) && forall l :: l in out <==> l in levels[..k]
    {
      assert levels[..k + 1] == levels[..k] + [levels[k]];
      forall i | 0 <= i < |out| ensures out[i].price != levels[k].price {
        assert out[i] in levels[..k];
      }
      var at := |out|;
      while at > 0 && Before(desc, levels[k].price, out[at - 1].price)
        invariant 0 <= at <= |out|
        invariant forall i :: at <= i < |out| ==> Before(desc, levels[k].price, out[i].price)
      {
        at := at - 1;
      }
      SplicedInOrder(out, levels[k], at, desc);
      SplicedMembers(out, levels[k], at);
      out := out[..at] + [levels[k]] + out[at..];
    }
    assert levels[..|levels|] == levels;
  }

  /** The levels of the map outside `left`, once each. */
  ghost predicate Listed(m: Levels, left: set<int>, out: seq<RefLevel>) {
    && (forall l :: l in out <==> l.price in m && l.price !in left && m[l.price] == l)
    && (forall i, j :: 0 <= i < j < |out| ==> out[i].price != out[j].price)
  }

  lemma ListOne(m: Levels, left: set<int>, out: seq<RefLevel>, p: int)
    requires Keyed(m) && p in left && left <= m.Keys && Listed(m, left, out)
    ensures Listed(m, left - {p}, out + [m[p]])
  {
    assert forall i :: 0 <= i < |out| ==> out[i] in out;
  }

  method SortedLevels(m: Levels, desc: bool) returns (out: seq<RefLevel>)
    requires Keyed(m)
    ensures SortOf(m, desc, out)
  {
    out := [];
    var left := m.Keys;
    while left != {}
      invariant left <= m.Keys && Listed(m, left, out)
      decreases left
    {
      var p := NextKey(left);
      ListOne(m, left, out, p);
      out := out + [m[p]];
      left := left - {p};
    }
    out := SortLevels(out, desc);
  }

  // ----- the book ------------------------------------------------------------------------

  class RefBook {
    var bids: Levels
    var asks: Levels
    var initialized: bool
    var lastSeq: nat
    var anomalies: nat
    var crossings: nat
    var lastUpdate: nat
    var dirty: bool
    var crossed: bool
    var sortedBids: seq<RefLevel>
    var sortedAsks: seq<RefLevel>

    /** A clean cache is the sort of the maps. */
    ghost predicate Valid()
      reads this
    {
      && Keyed(bids) && Keyed(asks)
      && (!dirty ==> SortOf(bids, true, sortedBids) && SortOf(asks, false, sortedAsks)
                     && crossed == CrossedView(sortedBids, sortedAsks))
    }

    constructor ()
      ensures Valid() && bids == map[] && asks == map[] && !initialized
    {
      bids, asks, initialized, lastSeq, anomalies, crossings, lastUpdate := map[], map[], false, 0, 0, 0, 0;
      dirty, crossed, sortedBids, sortedAsks := false, false, [], [];
    }

    /** Fold one frame. A diff before any snapshot is dropped and counted. */
    method Apply(f: Frame) returns (ok: bool)
      requires Valid()
      modifies this
      ensures Valid()
      ensures ok <==> f.snapshot || old(initialized)
      ensures ok ==>
                && initialized && anomalies == old(anomalies)
                && bids == (if f.snapshot then FoldSnapshot(map[], f.bids) else FoldDiff(old(bids), f.bids))
                && asks == (if f.snapshot then FoldSnapshot(map[], f.asks) else FoldDiff(old(asks), f.asks))
                && (if f.snapshot then SnapshotOf(f.bids, bids) && SnapshotOf(f.asks, asks)
                    else DiffOf(old(bids), f.bids, bids) && DiffOf(old(asks), f.asks, asks))
                && lastUpdate == (if f.stamp == 0 then old(lastUpdate) else f.stamp)
                && lastSeq == (if f.snapshot || f.sequence > 0 then f.sequence else old(lastSeq))
      ensures !ok ==>
                && anomalies == old(anomalies) + 1 && !initialized
                && bids == old(bids) && asks == old(asks) && lastSeq == old(lastSeq) && lastUpdate == old(lastUpdate)
      ensures crossings == old(crossings)
    {
      SnapshotLastWins(f.bids);
      SnapshotLastWins(f.asks);
      DiffDecided(bids, f.bids);
      DiffDecided(asks, f.asks);
      hide SnapshotOf, DiffOf;
      FoldsKeyed(map[], f.bids);
      FoldsKeyed(map[], f.asks);
      FoldsKeyed(bids, f.bids);
      FoldsKeyed(asks, f.asks);
      if f.snapshot {
        bids := SnapshotSide(f.bids);
        asks := SnapshotSide(f.asks);
        initialized, lastSeq := true, f.sequence;
        Stamp(f.stamp);
        dirty := true;
        return true;
      }
      if !initialized {
        anomalies := anomalies + 1;
        return false;
      }
      if f.sequence > 0 {
        lastSeq := f.sequence;
      }
      bids := ApplySide(bids, f.bids);
      asks := ApplySide(asks, f.asks);
      Stamp(f.stamp);
      dirty := true;
      return true;
    }

    static method SnapshotSide(levels: seq<RefLevel>) returns (side: Levels)
      ensures side == FoldSnapshot(map[], levels)
    {
      side := map[];
      for i := 0 to |levels|
        invariant FoldSnapshot(side, levels[i..]) == FoldSnapshot(map[], levels)
      {
        assert levels[i..][1..] == levels[i + 1..];
        if levels[i].quantity > 0 {
          side := side[levels[i].price := levels[i]];
        }
      }
    }

    static method ApplySide(before: Levels, levels: seq<RefLevel>) returns (side: Levels)
      ensures side == FoldDiff(before, levels)
    {
      side := before;
      for i := 0 to |levels|
        invariant FoldDiff(side, levels[i..]) == FoldDiff(before, levels)
      {
        assert levels[i..][1..] == levels[i + 1..];
        if levels[i].quantity == 0 {
          side := side - {levels[i].price};
        } else {
          side := side[levels[i].price := levels[i]];
        }
      }
    }

    /** A zero timestamp does not rewind the clock. */
    method Stamp(at: nat)
      modifies this`lastUpdate
      ensures lastUpdate == if at == 0 then old(lastUpdate) else at
    {
      if at != 0 {
        lastUpdate := at;
      }
    }

    /** Refresh the cached view, if a frame has arrived since. */
    method Rebuild()
      requires Valid()
      modifies this`sortedBids, this`sortedAsks, this`crossed, this`crossings, this`dirty
      ensures Valid() && !dirty
      ensures crossings == old(crossings) + (if old(dirty) && crossed then 1 else 0)
    {
      if !dirty {
        return;
      }
      sortedBids := SortedLevels(bids, true);
      sortedAsks := SortedLevels(asks, false);
      crossed := |sortedBids| > 0 && |sortedAsks| > 0 && sortedBids[0].price >= sortedAsks[0].price;
      if crossed {
        crossings := crossings + 1;
      }
      dirty := false;
    }

    /** Crossed right now: some bid is at or above some ask. */
    method Crossed() returns (c: bool)
      requires Valid()
      modifies this`sortedBids, this`sortedAsks, this`crossed, this`crossings, this`dirty
      ensures Valid()
      ensures c <==> exists b, a :: b in bids && a in asks && b >= a
    {
      Rebuild();
      CrossedExactly(bids, asks, sortedBids, sortedAsks);
      return crossed;
    }

    /** The top n levels of each side (all of them for n <= 0) of the maps as they are. */
    method Depth(n: int) returns (topBids: seq<RefLevel>, topAsks: seq<RefLevel>)
      requires Valid()
      modifies this`sortedBids, this`sortedAsks, this`crossed, this`crossings, this`dirty
      ensures Valid()
      ensures SortOf(bids, true, sortedBids) && topBids == Clip(sortedBids, n)
      ensures SortOf(asks, false, sortedAsks) && topAsks == Clip(sortedAsks, n)
      ensures InOrder(topBids, true) && InOrder(topAsks, false)
      ensures TopOf(bids, true, n, topBids) && TopOf(asks, false, n, topAsks)
      ensures forall l :: l in topBids ==> l.price in bids && bids[l.price] == l
      ensures forall l :: l in topAsks ==> l.price in asks && asks[l.price] == l
    {
      Rebuild();
      topBids, topAsks := Clip(sortedBids, n), Clip(sortedAsks, n);
      ClipIsTop(bids, true, sortedBids, n);
      ClipIsTop(asks, false, sortedAsks, n);
      hide TopOf;
      assert forall l :: l in topBids ==> l in sortedBids;
      assert forall l :: l in topAsks ==> l in sortedAsks;
    }

    /** Both tops, when both sides have levels. */
    method BestBidAsk() returns (bid: RefLevel, ask: RefLevel, ok: bool)
      requires Valid()
      modifies this`sortedBids, this`sortedAsks, this`crossed, this`crossings, this`dirty
      ensures Valid()
      ensures ok <==> bids != map[] && asks != map[]
      ensures ok ==> bid.price in bids && bids[bid.price] == bid && forall p :: p in bids ==> p <= bid.price
      ensures ok ==> ask.price in asks && asks[ask.price] == ask && forall p :: p in asks ==> p >= ask.price
    {
      Rebuild();
      if |sortedBids| == 0 || |sortedAsks| == 0 {
        EmptyView(bids, true, sortedBids);
        EmptyView(asks, false, sortedAsks);
        return RefLevel(0, 0, 0), RefLevel(0, 0, 0), false;
      }
      EmptyView(bids, true, sortedBids);
      EmptyView(asks, false, sortedAsks);
      BestFirst(bids, true, sortedBids);
      BestFirst(asks, false, sortedAsks);
      return sortedBids[0], sortedAsks[0], true;
    }
  }

  lemma EmptyView(m: Levels, desc: bool, view: seq<RefLevel>)
    requires Keyed(m) && SortOf(m, desc, view)
    ensures view == [] <==> m == map[]
    ensures view != [] ==> view[0].price in m && m[view[0].price] == view[0]
  {
    assert view != [] ==> view[0] in view;
    assert forall p :: p in m ==> m[p] in view;
  }

  lemma BestFirst(m: Levels, desc: bool, view: seq<RefLevel>)
    requires Keyed(m) && SortOf(m, desc, view) && view != []
    ensures forall p :: p in m ==> p == view[0].price || Before(desc, view[0].price, p)
  {
    forall p | p in m ensures p == view[0].price || Before(desc, view[0].price, p) {
      assert m[p] in view;
      var i :| 0 <= i < |view| && view[i] == m[p];
    }
  }
}
