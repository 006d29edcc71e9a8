/**
 The Binance diff-depth stream (depthdiff.go) and how a client joins it (rest.go): numbered
 diffs of one symbol's baseline, and a REST snapshot taken after reading the update id.
 */
module DepthFeed {
  import opened Common
  import opened BookDiffs

  datatype Push = Push(first: int, final: int, updates: seq<Update>)

  /** One symbol's life: the id it started from, every baseline it has had and every push made. */
  datatype History = History(startId: Option<int>, books: seq<BookMap>, pushes: seq<Push>)

  const UNSEEN: History := History(None, [], [])

  function LastId(h: History): int
    requires h.startId.Some?
  {
    h.startId.value + |h.pushes|
  }

  /** The current baseline. */
  function Baseline(h: History): BookMap
    requires h.books != []
  {
    h.books[|h.books| - 1]
  }

  // ----- steps ---------------------------------------------------------------------------

  datatype Step =
    | ReadId(now: int)
    | Tick(now: int, book: BookMap, order: seq<Update>)

  ghost predicate Enabled(h: History, step: Step) {
    step.Tick? ==> Wire(step.book) && (h.books != [] ==> IsDiff(step.order, Baseline(h), step.book))
  }

  /** The first use of a symbol draws its id from the clock. */
  function Started(h: History, now: int): History {
    if h.startId.None? then h.(startId := Some(now)) else h
  }

  function Next(h: History, step: Step): History {
    var s := Started(h, step.now);
    if step.ReadId? then s
    else if s.books == [] then s.(books := [step.book])
    else if step.order == [] then s
    else s.(books := s.books + [step.book], pushes := s.pushes + [Push(LastId(s) + 1, LastId(s) + 1, step.order)])
  }

  /** Push k carries the next id and leads from baseline k to baseline k+1. */
  ghost predicate Numbered(h: History) {
    && (h.startId.None? ==> h.books == []) && (h.books == [] ==> h.pushes == [])
    && (h.books != [] ==> |h.pushes| == |h.books| - 1)
    && (forall k :: 0 <= k < |h.books| ==> Wire(h.books[k]))
    && (forall k :: 0 <= k < |h.pushes| ==>
          && h.pushes[k].first == h.pushes[k].final == h.startId.value + k + 1
          && IsDiff(h.pushes[k].updates, h.books[k], h.books[k + 1]))
  }

  lemma StepNumbers(h: History, step: Step)
    requires Numbered(h) && Enabled(h, step)
    ensures Numbered(Next(h, step))
  {
    hide Wire, IsDiff;
  }

  ghost predicate Run(h: History, steps: seq<Step>, h': History)
    decreases |steps|
  {
    if steps == [] then h' == h else Enabled(h, steps[0]) && Run(Next(h, steps[0]), steps[1..], h')
  }

  lemma {:induction false} RunNumbers(h: History, steps: seq<Step>, h': History)
    requires Numbered(h) && Run(h, steps, h')
    ensures Numbered(h')
    decreases |steps|
  {
    if steps != [] {
      StepNumbers(h, steps[0]);
      RunNumbers(Next(h, steps[0]), steps[1..], h');
    }
  }

  /** A push happens exactly when the book changed, and then the id grows by one. */
  lemma PushesOnChange(h: History, now: int, book: BookMap, order: seq<Update>)
    requires Numbered(h) && Enabled(h, Tick(now, book, order)) && h.books != []
    ensures var h' := Next(h, Tick(now, book, order));
            && Baseline(h') == book
            && (book == Baseline(h) ==> h' == h)
            && (book != Baseline(h) ==> |h'.pushes| == |h.pushes| + 1 && LastId(h') == LastId(h) + 1
                                        && h'.pushes[|h.pushes|].final == LastId(h'))
  {
    EmptyDiff(order, Baseline(h), book);
  }

  // ----- the client ----------------------------------------------------------------------

  /** Fold every push whose final id is beyond `since`. */
  function Follow(m: BookMap, pushes: seq<Push>, since: int): BookMap {
    if pushes == [] then m
    else
      var before, last := Follow(m, pushes[..|pushes| - 1], since), pushes[|pushes| - 1];
      if last.final > since then ApplyAll(before, last.updates) else before
  }

  /** A level some push beyond `since` mentions. */
  ghost predicate Touched(pushes: seq<Push>, since: int, k: Key) {
    exists i :: 0 <= i < |pushes| && pushes[i].final > since && Mentions(pushes[i].updates, k)
  }

  /** The client after the first n pushes: touched levels are the baseline's, the others its own. */
  lemma {:induction false} FollowAt(h: History, m: BookMap, since: int, n: nat, k: Key)
    requires Numbered(h) && n <= |h.pushes| && h.books != []
    ensures Look(Follow(m, h.pushes[..n], since), k) ==
            if Touched(h.pushes[..n], since, k) then Look(h.books[n], k) else Look(m, k)
  {
    if n > 0 {
      FollowAt(h, m, since, n - 1, k);
      FollowStep(h, m, since, n, k);
    }
  }

  lemma FollowStep(h: History, m: BookMap, since: int, n: nat, k: Key)
    requires Numbered(h) && 0 < n <= |h.pushes| && h.books != []
    requires Look(Follow(m, h.pushes[..n - 1], since), k) ==
             if Touched(h.pushes[..n - 1], since, k) then Look(h.books[n - 1], k) else Look(m, k)
    ensures Look(Follow(m, h.pushes[..n], since), k) ==
            if Touched(h.pushes[..n], since, k) then Look(h.books[n], k) else Look(m, k)
  {
    var last := h.pushes[n - 1];
    assert h.pushes[..n][..n - 1] == h.pushes[..n - 1];
    ApplyAt(Follow(m, h.pushes[..n - 1], since), last.updates, h.books[n], k);
    TouchedStep(h, since, n, k);
    assert IsDiff(last.updates, h.books[n - 1], h.books[n]);
    if Touched(h.pushes[..n - 1], since, k) { LaterTouched(h, since, n, k); }
  }

  lemma TouchedStep(h: History, since: int, n: nat, k: Key)
    requires 0 < n <= |h.pushes|
    ensures Touched(h.pushes[..n], since, k) <==>
            Touched(h.pushes[..n - 1], since, k)
                || (h.pushes[n - 1].final > since && Mentions(h.pushes[n - 1].updates, k))
  {
    if Touched(h.pushes[..n - 1], since, k) {
      var i :| 0 <= i < n - 1 && h.pushes[..n - 1][i].final > since && Mentions(h.pushes[..n - 1][i].updates, k);
      assert h.pushes[..n][i] == h.pushes[..n - 1][i];
    }
    if Touched(h.pushes[..n], since, k) {
      var i :| 0 <= i < n && h.pushes[..n][i].final > since && Mentions(h.pushes[..n][i].updates, k);
      if i < n - 1 { assert h.pushes[..n - 1][i] == h.pushes[..n][i]; }
    }
    if h.pushes[n - 1].final > since && Mentions(h.pushes[n - 1].updates, k) {
      assert h.pushes[..n][n - 1] == h.pushes[n - 1];
    }
  }

  /** Ids grow, so once a push is beyond `since` all later ones are. */
  lemma LaterTouched(h: History, since: int, n: nat, k: Key)
    requires Numbered(h) && 0 < n <= |h.pushes|
    requires Touched(h.pushes[..n - 1], since, k)
    ensures h.pushes[n - 1].final > since
  {
    var i :| 0 <= i < n - 1 && h.pushes[..n - 1][i].final > since && Mentions(h.pushes[..n - 1][i].updates, k);
    assert h.pushes[i].final == h.startId.value + i + 1;
  }

  lemma {:induction false} FollowWire(h: History, m: BookMap, since: int, n: nat)
    requires Numbered(h) && n <= |h.pushes| && h.books != [] && Wire(m)
    ensures Wire(Follow(m, h.pushes[..n], since))
  {
    if n > 0 {
      FollowWire(h, m, since, n - 1);
      assert h.pushes[..n][..n - 1] == h.pushes[..n - 1];
      assert IsDiff(h.pushes[n - 1].updates, h.books[n - 1], h.books[n]);
      ApplyKeepsWire(Follow(m, h.pushes[..n - 1], since), h.pushes[n - 1].updates, h.books[n]);
    }
  }

  /** Exactly which starting books lead to the current baseline: those that agree with it on every
      level that no later push mentions. */
  lemma CatchUpExactly(h: History, m: BookMap, since: int)
    requires Numbered(h) && h.books != [] && Wire(m)
    ensures Follow(m, h.pushes, since) == Baseline(h) <==>
            forall k :: !Touched(h.pushes, since, k) ==> Look(m, k) == Look(Baseline(h), k)
  {
    var n := |h.pushes|;
    assert h.pushes[..n] == h.pushes;
    FollowWire(h, m, since, n);
    forall k ensures Look(Follow(m, h.pushes, since), k) ==
                     if Touched(h.pushes, since, k) then Look(Baseline(h), k) else Look(m, k)
    {
      FollowAt(h, m, since, n, k);
    }
    if forall k :: !Touched(h.pushes, since, k) ==> Look(m, k) == Look(Baseline(h), k) {
      SameLooks(Follow(m, h.pushes, since), Baseline(h));
    }
  }

  /** A level no push beyond `since` mentions is the same in all baselines from there on. */
  lemma {:induction false} UntouchedStays(h: History, since: int, j: nat, k: Key)
    requires Numbered(h) && j < |h.books| && since <= h.startId.value + j && !Touched(h.pushes, since, k)
    ensures Look(h.books[j], k) == Look(Baseline(h), k)
    decreases |h.books| - j
  {
    if j + 1 < |h.books| {
      assert h.pushes[j].final > since;
      assert IsDiff(h.pushes[j].updates, h.books[j], h.books[j + 1]);
      assert !Mentions(h.pushes[j].updates, k);
      UntouchedStays(h, since, j + 1, k);
    }
  }

  /** In every run: a client that starts from any baseline at or after the update id it read, and
      folds every push beyond that id (also those its snapshot already shows), ends exactly at
      the current baseline. */
  lemma ClientCatchesUp(steps: seq<Step>, h: History, since: int, j: nat)
    requires Run(UNSEEN, steps, h) && j < |h.books|
    requires h.startId.Some? && since <= h.startId.value + j
    ensures Follow(h.books[j], h.pushes, since) == Baseline(h)
  {
    RunNumbers(UNSEEN, steps, h);
    CatchUpExactly(h, h.books[j], since);
    forall k | !Touched(h.pushes, since, k) ensures Look(h.books[j], k) == Look(Baseline(h), k) {
      UntouchedStays(h, since, j, k);
    }
  }

  /** Reading the id after the snapshot can lose a change for good: a client that starts one
      baseline before the id it read misses exactly what that push changed, unless it was
      touched again. */
  lemma LateIdDesyncs(h: History, j: nat, k: Key)
    requires Numbered(h) && j + 1 < |h.books| && Mentions(h.pushes[j].updates, k)
    requires !Touched(h.pushes, h.startId.value + j + 1, k)
    ensures Follow(h.books[j], h.pushes, h.startId.value + j + 1) != Baseline(h)
  {
    CatchUpExactly(h, h.books[j], h.startId.value + j + 1);
    UntouchedStays(h, h.startId.value + j + 1, j + 1, k);
    assert IsDiff(h.pushes[j].updates, h.books[j], h.books[j + 1]);
  }

  /** A snapshot of the live book need not be any seeded baseline, and then the client can stay wrong: a
      level that moved between two ticks and moved back before the next one is pushed by neither. */
  lemma LiveSnapshotDesyncs(now: int, book: BookMap, k: Key, live: BookMap)
    requires Wire(book) && Wire(live) && Look(live, k) != Look(book, k)
    ensures var steps := [Tick(now, book, []), ReadId(now), Tick(now, book, [])];
            exists h :: Run(UNSEEN, steps, h) && h.startId.Some? && h.books != [] && Baseline(h) == book
                        && LastId(h) == now && Follow(live, h.pushes, now) == live != Baseline(h)
  {
    var steps := [Tick(now, book, []), ReadId(now), Tick(now, book, [])];
    var h := History(Some(now), [book], []);
    assert forall j :: !Mentions([], j);
    assert Enabled(h, steps[2]) && Next(h, steps[2]) == h;
    assert steps[1..] == [steps[1], steps[2]] && steps[1..][1..] == [steps[2]] && steps[1..][1..][1..] == [];
    assert Run(h, [], h) && Run(h, [steps[2]], h) && Run(h, steps[1..], h);
    assert Next(UNSEEN, steps[0]) == h;
    assert Run(UNSEEN, steps, h);
  }

  // ----- the object ----------------------------------------------------------------------

  datatype SymbolDepth = SymbolDepth(lastId: int, seeded: bool, bids: map<string, string>, asks: map<string, string>)

  ghost predicate Tracks(s: SymbolDepth, h: History) {
    && h.startId.Some? && s.lastId == LastId(h) && s.seeded == (h.books != [])
    && (s.seeded ==> Wire(s.bids) && Wire(s.asks) && Baseline(h) == Joined(s.bids, s.asks))
  }

  /** What a tick makes of a symbol's state and of its history. */
  lemma TickTracks(h: History, s: SymbolDepth, now: int, bids: map<string, string>, asks: map<string, string>,
      updates: seq<Update>)
    requires Tracks(s, h) || (h == UNSEEN && s == SymbolDepth(now, false, map[], map[]))
    requires Wire(bids) && Wire(asks) && Wire(Joined(bids, asks))
    ensures s.seeded ==> Wire(s.bids) && Wire(s.asks) && h.books != [] && Baseline(h) == Joined(s.bids, s.asks)
    ensures !s.seeded ==> h.books == []
    ensures var h' := Next(h, Tick(now, Joined(bids, asks), updates));
            if !s.seeded then Tracks(SymbolDepth(s.lastId, true, bids, asks), h') && h'.pushes == h.pushes
            else if updates == [] then Tracks(s, h') && h'.pushes == h.pushes
            else Tracks(SymbolDepth(s.lastId + 1, true, bids, asks), h')
                 && h'.pushes == h.pushes + [Push(s.lastId + 1, s.lastId + 1, updates)]
  {
    hide Wire, Joined;
  }

  class DepthDiffer {
    var st: map<string, SymbolDepth>
    ghost var past: map<string, History>

    ghost function PastOf(sym: string): History
      reads this
    {
      if sym in past then past[sym] else UNSEEN
    }

    /** The state holds each symbol's last id and current baseline. */
    ghost predicate Valid()
      reads this
    {
      && past.Keys == st.Keys
      && forall sym :: sym in st ==> Tracks(st[sym], past[sym])
    }

    constructor ()
      ensures Valid() && past == map[]
    {
      st, past := map[], map[];
    }

    /** The update id, drawing one for a new symbol; it does not advance. */
    method Current(sym: string, now: int) returns (id: int)
      requires Valid()
      modifies this
      ensures Valid() && past == old(past)[sym := Next(old(PastOf(sym)), ReadId(now))]
      ensures id == LastId(past[sym])
    {
      if sym !in st {
        st := st[sym := SymbolDepth(now, false, map[], map[])];
      }
      past := past[sym := Next(PastOf(sym), ReadId(now))];
      id := st[sym].lastId;
    }

    /** Changed levels since the last push; the first book only seeds the baseline. */
    method Diff(sym: string, bids: seq<Quote>, asks: seq<Quote>, now: int)
      returns (push: Push, changed: bool, ghost step: Step)
      requires Valid()
      modifies this
      ensures Valid() && step.Tick? && step.now == now && step.book == Joined(LevelMap(bids), LevelMap(asks))
      ensures Enabled(old(PastOf(sym)), step) && past == old(past)[sym := Next(old(PastOf(sym)), step)]
      ensures changed ==> past[sym].pushes == old(PastOf(sym)).pushes + [push]
      ensures !changed ==> past[sym].pushes == old(PastOf(sym)).pushes
    {
      hide LevelMap, Wire, Joined, IsDiff, IsSideDiff, Tracks, Next;
      var curBids := RenderLevels(bids);
      var curAsks := RenderLevels(asks);
      LevelMapWire(bids);
      LevelMapWire(asks);
      JoinedWire(curBids, curAsks);
      var book := Joined(curBids, curAsks);
      push, changed := Push(0, 0, []), false;
      var s := if sym in st then st[sym] else SymbolDepth(now, false, map[], map[]);
      ghost var h := PastOf(sym);
      TickTracks(h, s, now, curBids, curAsks, []);
      step := Tick(now, book, []);
      if !s.seeded {
        st := st[sym := SymbolDepth(s.lastId, true, curBids, curAsks)];
      } else {
        var bidUpdates := DiffSide(s.bids, curBids, true);
        var askUpdates := DiffSide(s.asks, curAsks, false);
        SidesDiff(bidUpdates, askUpdates, s.bids, s.asks, curBids, curAsks);
        step := Tick(now, book, bidUpdates + askUpdates);
        TickTracks(h, s, now, curBids, curAsks, bidUpdates + askUpdates);
        if |bidUpdates| != 0 || |askUpdates| != 0 {
          st := st[sym := SymbolDepth(s.lastId + 1, true, curBids, curAsks)];
          push, changed := Push(s.lastId + 1, s.lastId + 1, bidUpdates + askUpdates), true;
        }
      }
      past := past[sym := Next(PastOf(sym), step)];
    }
  }
}
