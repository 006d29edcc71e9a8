/**
 The seeder as an object over its engine and its reference book (internal/emulator/seeder.go).
 A pass that nobody interrupts is proved to be a run of the concurrent machine of Seeding.dfy, so
 it keeps its invariant, and its effect on the record is the pass outcome of SeedingMirror.dfy.
 */
module LiveSeeder {
  import opened Common
  import opened FixedPoint
  import opened Orders
  import opened Matching
  import opened Seeding
  import opened SeedingInv
  import opened SeedingMirror
  import SeedingBook
  import Reference

  /** The matching engine behind the seeder's interface. OrderBook.dfy proves that the mutable book
      computes these functions. */
  class Engine {
    var book: Book
    var clock: nat

    constructor ()
      ensures book == EMPTY_BOOK && clock == 0
    {
      book, clock := EMPTY_BOOK, 0;
    }

    method PlaceLimit(ord: Order) returns (trades: seq<Trade>)
      modifies this
      ensures (book, trades) == AddLimit(old(book), ord) && clock == old(clock) + 1
    {
      var (after, made) := AddLimit(book, ord);
      book, trades, clock := after, made, clock + 1;
    }

    method CancelOrder(id: OrderId) returns (gone: Option<Order>)
      modifies this`book
      ensures (book, gone) == Cancel(old(book), id)
    {
      var (after, found) := Cancel(book, id);
      book, gone := after, found;
    }
  }

  // ----- reading the reference -----------------------------------------------------------

  function PutAll(m: map<Level, int>, side: Side, levels: seq<Reference.RefLevel>): map<Level, int>
    decreases |levels|
  {
    if levels == [] then m else PutAll(m[Level(side, levels[0].price) := levels[0].quantity], side, levels[1..])
  }

  /** The volume wanted at each level of the reference's depth. */
  function RefVolumes(bids: seq<Reference.RefLevel>, asks: seq<Reference.RefLevel>): map<Level, int> {
    PutAll(PutAll(map[], Buy, bids), Sell, asks)
  }

  lemma {:induction false} PutAllKeys(m: map<Level, int>, side: Side, levels: seq<Reference.RefLevel>, k: Level)
    ensures k in PutAll(m, side, levels) <==>
        k in m || (k.side == side && exists l :: l in levels && l.price == k.price)
    decreases |levels|
  {
    if levels != [] {
      PutAllKeys(m[Level(side, levels[0].price) := levels[0].quantity], side, levels[1..], k);
      assert levels == [levels[0]] + levels[1..];
    }
  }

  predicate DistinctPrices(levels: seq<Reference.RefLevel>) {
    forall i, j :: 0 <= i < j < |levels| ==> levels[i].price != levels[j].price
  }

  lemma OrderedDistinct(levels: seq<Reference.RefLevel>, desc: bool)
    requires Reference.InOrder(levels, desc)
    ensures DistinctPrices(levels)
  {
  }

  lemma {:induction false} PutAllOther(m: map<Level, int>, side: Side, levels: seq<Reference.RefLevel>, k: Level)
    requires k in m && (k.side != side || forall l :: l in levels ==> l.price != k.price)
    ensures k in PutAll(m, side, levels) && PutAll(m, side, levels)[k] == m[k]
    decreases |levels|
  {
    if levels != [] {
      assert levels[0] in levels;
      PutAllOther(m[Level(side, levels[0].price) := levels[0].quantity], side, levels[1..], k);
    }
  }

  lemma {:induction false} PutAllAt(m: map<Level, int>, side: Side, levels: seq<Reference.RefLevel>, i: nat)
    requires DistinctPrices(levels) && i < |levels|
    ensures var k := Level(side, levels[i].price);
            k in PutAll(m, side, levels) && PutAll(m, side, levels)[k] == levels[i].quantity
    decreases |levels|
  {
    var next := m[Level(side, levels[0].price) := levels[0].quantity];
    if i == 0 {
      PutAllOther(next, side, levels[1..], Level(side, levels[0].price));
    } else {
      PutAllAt(next, side, levels[1..], i - 1);
    }
  }

  /** Each listed level is wanted on its side, at its price, with its quantity; and nothing else is. */
  lemma RefVolumesAt(bids: seq<Reference.RefLevel>, asks: seq<Reference.RefLevel>)
    requires DistinctPrices(bids) && DistinctPrices(asks)
    ensures forall l :: l in bids ==> Level(Buy, l.price) in RefVolumes(bids, asks)
    ensures forall l :: l in bids ==> RefVolumes(bids, asks)[Level(Buy, l.price)] == l.quantity
    ensures forall l :: l in asks ==> Level(Sell, l.price) in RefVolumes(bids, asks)
    ensures forall l :: l in asks ==> RefVolumes(bids, asks)[Level(Sell, l.price)] == l.quantity
    ensures forall k :: k in RefVolumes(bids, asks) ==>
              exists l :: l in (if k.side.Buy? then bids else asks) && l.price == k.price
  {
    var half := PutAll(map[], Buy, bids);
    forall l | l in bids
      ensures Level(Buy, l.price) in RefVolumes(bids, asks)
      ensures RefVolumes(bids, asks)[Level(Buy, l.price)] == l.quantity
    {
      var i :| 0 <= i < |bids| && bids[i] == l;
      PutAllAt(map[], Buy, bids, i);
      PutAllOther(half, Sell, asks, Level(Buy, l.price));
    }
    forall l | l in asks
      ensures Level(Sell, l.price) in RefVolumes(bids, asks)
      ensures RefVolumes(bids, asks)[Level(Sell, l.price)] == l.quantity
    {
      var i :| 0 <= i < |asks| && asks[i] == l;
      PutAllAt(half, Sell, asks, i);
    }
    forall k | k in RefVolumes(bids, asks)
      ensures exists l :: l in (if k.side.Buy? then bids else asks) && l.price == k.price
    {
      PutAllKeys(half, Sell, asks, k);
      PutAllKeys(map[], Buy, bids, k);
    }
  }

  /** One of the best `depth` levels of this side of the reference (of all, for depth <= 0), with a
      positive quantity. */
  ghost predicate Quoted(m: Reference.Levels, side: Side, depth: int, k: Level) {
    && k.side == side && k.price in m && m[k.price].quantity > 0
    && (depth <= 0 || |Reference.Better(m, side.Buy?, k.price)| < depth)
  }

  /** The record holds the quoted level, with its quantity up to the tolerance. */
  ghost predicate Mirrored(m: Reference.Levels, placed: map<Level, Tracked>, k: Level)
    requires k.price in m
  {
    k in placed && Abs(placed[k].volume - m[k.price].quantity) <= CONVERGE_EPS
  }

  /** One level after an exact pass: quoted, it is in the record within the tolerance; otherwise, if it is in the
      record, it was before, with no more than the tolerance. */
  ghost predicate LevelRight(bidMap: Reference.Levels, askMap: Reference.Levels, depth: int,
      before: map<Level, Tracked>, after: map<Level, Tracked>, k: Level) {
    && (Quoted(bidMap, Buy, depth, k) ==> Mirrored(bidMap, after, k))
    && (Quoted(askMap, Sell, depth, k) ==> Mirrored(askMap, after, k))
    && (k in after && !Quoted(bidMap, Buy, depth, k) && !Quoted(askMap, Sell, depth, k) ==>
          k in before && after[k] == before[k] && after[k].volume <= CONVERGE_EPS)
  }

  ghost predicate OnReference(bidMap: Reference.Levels, askMap: Reference.Levels, depth: int,
      before: map<Level, Tracked>, after: map<Level, Tracked>) {
    forall k :: LevelRight(bidMap, askMap, depth, before, after, k)
  }

  /** The wanted volumes of one side are those of the levels listed. */
  ghost predicate Lists(wanted: map<Level, int>, side: Side, top: seq<Reference.RefLevel>) {
    && (forall l :: l in top ==> Level(side, l.price) in wanted && wanted[Level(side, l.price)] == l.quantity)
    && (forall k :: k in wanted && k.side == side ==> exists l :: l in top && l.price == k.price)
  }

  lemma BothListed(bids: seq<Reference.RefLevel>, asks: seq<Reference.RefLevel>)
    requires DistinctPrices(bids) && DistinctPrices(asks)
    ensures Lists(RefVolumes(bids, asks), Buy, bids) && Lists(RefVolumes(bids, asks), Sell, asks)
  {
    RefVolumesAt(bids, asks);
    hide RefVolumes, DistinctPrices;
  }

  lemma QuotedIsWanted(m: Reference.Levels, side: Side, depth: int, top: seq<Reference.RefLevel>,
      wanted: map<Level, int>, k: Level)
    requires Reference.Keyed(m) && Reference.TopOf(m, side.Buy?, depth, top) && Lists(wanted, side, top)
    requires k.side == side
    ensures Quoted(m, side, depth, k) <==> k in wanted && wanted[k] > 0
    ensures Quoted(m, side, depth, k) ==> wanted[k] == m[k.price].quantity
  {
    hide Reference.Better;
    assert k == Level(side, k.price);
    if k in wanted {
      var l :| l in top && l.price == k.price;
      assert m[k.price] == l;
    }
  }

  /** From the volumes wanted back to the reference's own levels, for one level. */
  lemma LevelOnReference(m: Reference.Levels, side: Side, depth: int, top: seq<Reference.RefLevel>,
      before: map<Level, Tracked>, wanted: map<Level, int>, moved: map<Level, int>, nonce: nat,
      after: map<Level, Tracked>, k: Level)
    requires Reference.Keyed(m) && Reference.TopOf(m, side.Buy?, depth, top) && Lists(wanted, side, top)
    requires PassResult(before, MakePlans(before, wanted, true, moved), nonce, after) && k.side == side
    ensures Quoted(m, side, depth, k) ==> k.price in m && Mirrored(m, after, k)
    ensures k in after && !Quoted(m, side, depth, k) ==>
              k in before && after[k] == before[k] && after[k].volume <= CONVERGE_EPS
  {
    QuotedIsWanted(m, side, depth, top, wanted, k);
    hide PassResult, MakePlans, Lists, Reference.TopOf, Reference.Keyed;
    if Quoted(m, side, depth, k) {
      LevelMirrored(before, wanted, moved, nonce, after, k);
    } else if k in after {
      OtherIsDust(before, wanted, moved, nonce, after, k);
    }
  }

  lemma EachLevelRight(bidMap: Reference.Levels, askMap: Reference.Levels, depth: int,
      bids: seq<Reference.RefLevel>, asks: seq<Reference.RefLevel>,
      before: map<Level, Tracked>, wanted: map<Level, int>, moved: map<Level, int>, nonce: nat,
      after: map<Level, Tracked>, k: Level)
    requires Reference.Keyed(bidMap) && Reference.TopOf(bidMap, true, depth, bids) && Lists(wanted, Buy, bids)
    requires Reference.Keyed(askMap) && Reference.TopOf(askMap, false, depth, asks) && Lists(wanted, Sell, asks)
    requires PassResult(before, MakePlans(before, wanted, true, moved), nonce, after)
    ensures LevelRight(bidMap, askMap, depth, before, after, k)
  {
    hide PassResult, MakePlans, Reference.TopOf, Reference.Keyed, Lists, Mirrored, Reference.Better;
    if k.side.Buy? {
      LevelOnReference(bidMap, Buy, depth, bids, before, wanted, moved, nonce, after, k);
    } else {
      LevelOnReference(askMap, Sell, depth, asks, before, wanted, moved, nonce, after, k);
    }
  }

  lemma PassOnReference(bidMap: Reference.Levels, askMap: Reference.Levels, depth: int,
      bids: seq<Reference.RefLevel>, asks: seq<Reference.RefLevel>,
      before: map<Level, Tracked>, moved: map<Level, int>, nonce: nat, after: map<Level, Tracked>)
    requires Reference.Keyed(bidMap) && Reference.TopOf(bidMap, true, depth, bids) && DistinctPrices(bids)
    requires Reference.Keyed(askMap) && Reference.TopOf(askMap, false, depth, asks) && DistinctPrices(asks)
    requires PassResult(before, MakePlans(before, RefVolumes(bids, asks), true, moved), nonce, after)
    ensures OnReference(bidMap, askMap, depth, before, after)
  {
    BothListed(bids, asks);
    hide PassResult, MakePlans, RefVolumes, Reference.TopOf, Reference.Keyed, DistinctPrices, Lists, LevelRight;
    forall k ensures LevelRight(bidMap, askMap, depth, before, after, k) {
      EachLevelRight(bidMap, askMap, depth, bids, asks, before, RefVolumes(bids, asks), moved, nonce, after, k);
    }
  }

  /** An uncrossed reference wants levels that lie apart. */
  lemma DepthApart(bids: seq<Reference.RefLevel>, asks: seq<Reference.RefLevel>)
    requires forall b, a :: b in bids && a in asks ==> b.price < a.price
    ensures Apart(RefVolumes(bids, asks).Keys)
  {
    forall b, a | b in RefVolumes(bids, asks) && a in RefVolumes(bids, asks) && b.side.Buy? && a.side.Sell?
      ensures b.price < a.price
    {
      PutAllKeys(PutAll(map[], Buy, bids), Sell, asks, b);
      PutAllKeys(map[], Buy, bids, b);
      PutAllKeys(PutAll(map[], Buy, bids), Sell, asks, a);
      PutAllKeys(map[], Buy, bids, a);
    }
  }

  // ----- runs ----------------------------------------------------------------------------

  lemma {:induction false} RunThen(s: Sys, steps: seq<Step>, s': Sys, more: seq<Step>, s'': Sys)
    requires Run(s, steps, s') && Run(s', more, s'')
    ensures Run(s, steps + more, s'')
    decreases |steps|
  {
    if steps == [] {
      assert steps + more == more;
    } else {
      RunThen(Next(s, steps[0]), steps[1..], s', more, s'');
      assert (steps + more)[1..] == steps[1..] + more;
    }
  }

  lemma OneStep(s: Sys, step: Step)
    requires Enabled(s, step)
    ensures Run(s, [step], Next(s, step))
  {
    assert [step][1..] == [];
    assert Run(Next(s, step), [], Next(s, step));
  }

  /** Reports of trades, in order. */
  function Reported(fills: map<OrderId, int>, trades: seq<Trade>): map<OrderId, int>
    decreases |trades|
  {
    if trades == [] then fills else Reported(OnTrade(fills, trades[0]), trades[1..])
  }

  function Hooks(n: nat): seq<Step> {
    seq(n, _ => RunHook)
  }

  lemma {:induction false} HooksRun(s: Sys)
    ensures Run(s, Hooks(|s.pend|), s.(fills := Reported(s.fills, s.pend), pend := []))
    decreases |s.pend|
  {
    if s.pend != [] {
      HooksRun(HookStep(s));
      assert Hooks(|s.pend|)[1..] == Hooks(|s.pend| - 1);
    }
  }

  // ----- lemmas about the passes ---------------------------------------------------------

  /** How far the fold has got: the fills of the ids in `left` are still to be applied. */
  ghost predicate PartFolded(before: map<Level, Tracked>, taken: map<OrderId, int>, left: set<OrderId>,
      placed: map<Level, Tracked>) {
    && placed.Keys <= before.Keys
    && forall k :: k in before ==>
         if before[k].id in taken && before[k].id !in left then
           && (k in placed <==> Remaining(before[k], taken) > 0)
           && (k in placed ==> placed[k] == before[k].(volume := Remaining(before[k], taken)))
         else k in placed && placed[k] == before[k]
  }

  lemma FoldStarts(before: map<Level, Tracked>, taken: map<OrderId, int>)
    ensures PartFolded(before, taken, taken.Keys, before)
  {
  }

  lemma FoldEnds(before: map<Level, Tracked>, taken: map<OrderId, int>, left: set<OrderId>, placed: map<Level, Tracked>)
    requires PartFolded(before, taken, left, placed) && left == {}
    ensures placed == FoldAll(before, taken)
  {
    assert placed.Keys == FoldAll(before, taken).Keys;
  }

  lemma Planned(s: Sys, k: Level)
    requires Inv(s) && s.pc.Cancelling? && k in s.pc.job.todo && k in s.pc.job.plans
    ensures s.pc.job.plans[k].current == if k in s.placed then Some(s.placed[k].id) else None
  {
    assert PlanMatches(s.placed, s.pc.job.plans, k);
  }

  lemma LeaveRun(s: Sys, k: Level)
    requires Inv(s) && Enabled(s, LeaveLevel(k))
    ensures Inv(LeaveStep(s, k)) && Run(s, [LeaveLevel(k)], LeaveStep(s, k))
  {
    StepKeeps(s, LeaveLevel(k));
    hide Inv;
    OneStep(s, LeaveLevel(k));
  }

  lemma CancelRun(s: Sys, k: Level)
    requires Inv(s) && Enabled(s, CancelLevel(k))
    ensures Inv(DropStep(CancelStep(s, k)))
    ensures Run(s, [CancelLevel(k)] + [DropRecord], DropStep(CancelStep(s, k)))
  {
    StepKeeps(s, CancelLevel(k));
    StepKeeps(CancelStep(s, k), DropRecord);
    hide Inv, Run;
    OneStep(s, CancelLevel(k));
    OneStep(CancelStep(s, k), DropRecord);
    RunThen(s, [CancelLevel(k)], CancelStep(s, k), [DropRecord], DropStep(CancelStep(s, k)));
  }

  lemma WithinPlace(k: Level, n: nat)
    ensures WithinPass([PlaceLevel(k)] + Hooks(n) + [WriteRecord])
  {
  }

  lemma {:induction false} HooksKeep(s: Sys)
    requires Inv(s)
    ensures Inv(s.(fills := Reported(s.fills, s.pend), pend := []))
    decreases |s.pend|
  {
    if s.pend == [] {
      assert s.(fills := Reported(s.fills, s.pend), pend := []) == s;
    } else {
      HookKeeps(s);
      HooksKeep(HookStep(s));
    }
  }

  lemma PlaceRun(s: Sys, k: Level, trades: seq<Trade>) returns (s': Sys)
    requires Inv(s) && Enabled(s, PlaceLevel(k)) && trades == PlaceStep(s, k).pend
    ensures s' == RecordStep(PlaceStep(s, k).(fills := Reported(PlaceStep(s, k).fills, trades), pend := []))
    ensures Inv(s') && Run(s, [PlaceLevel(k)] + Hooks(|trades|) + [WriteRecord], s')
  {
    var s1 := PlaceStep(s, k);
    var s2 := s1.(fills := Reported(s1.fills, s1.pend), pend := []);
    s' := RecordStep(s2);
    StepKeeps(s, PlaceLevel(k));
    HooksKeep(s1);
    HooksRun(s1);
    StepKeeps(s2, WriteRecord);
    hide Inv, Run, Hooks, Reported;
    OneStep(s, PlaceLevel(k));
    RunThen(s, [PlaceLevel(k)], s1, Hooks(|trades|), s2);
    OneStep(s2, WriteRecord);
    RunThen(s, [PlaceLevel(k)] + Hooks(|trades|), s2, [WriteRecord], s');
  }

  /** How far the first pass has got, in terms of the record it started from. */
  ghost predicate FirstDone(before: map<Level, Tracked>, job: Job, placed: map<Level, Tracked>) {
    && before.Keys <= job.plans.Keys && job.todo <= job.plans.Keys
    && (forall k :: k in placed <==> k in before && (k in job.todo || Keeps(before, job, k)))
    && (forall k :: k in placed ==> placed[k] == before[k])
    && (forall k :: k in job.apply <==>
          k in job.plans && k !in job.todo && !Keeps(before, job, k) && job.plans[k].target > 0)
  }

  lemma FirstOne(before: map<Level, Tracked>, job: Job, placed: map<Level, Tracked>, k: Level)
    requires FirstDone(before, job, placed) && k in job.todo && (forall j :: j in before ==> job.plans[j].current.Some?)
    ensures k in job.plans
    ensures FirstDone(before, if Keeps(placed, job, k) then job.(todo := job.todo - {k}) else Decided(job, k),
                      if Keeps(placed, job, k) then placed else placed - {k})
  {
  }

  lemma FirstNothing(before: map<Level, Tracked>, job: Job)
    requires job.todo == job.plans.Keys && job.apply == {} && before.Keys <= job.plans.Keys
    ensures FirstDone(before, job, before)
  {
  }

  /** The levels a pass changes: those it had an order on before, or not, and those it wants one on, or not. */
  ghost function Changed(before: map<Level, Tracked>, plans: map<Level, Plan>, eps: int, had: bool,
      wants: bool): set<Level> {
    set k | k in plans && (k in before <==> had) && (plans[k].target > 0 <==> wants)
        && !Keeps(before, Job(plans, eps, {}, {}), k)
  }

  /** Of the levels looked at so far, those drained. */
  ghost function Drained(before: map<Level, Tracked>, job: Job): set<Level> {
    Changed(before, job.plans, job.eps, true, false) - job.todo
  }

  lemma DrainedOne(before: map<Level, Tracked>, job: Job, job': Job, k: Level)
    requires k in job.todo && k in job.plans && job'.plans == job.plans && job'.eps == job.eps
        && job'.todo == job.todo - {k}
    ensures |Drained(before, job')| ==
            |Drained(before, job)|
                + (if k in before && job.plans[k].target <= 0 && !Keeps(before, job, k) then 1 else 0)
  {
    var all := Changed(before, job.plans, job.eps, true, false);
    if k in all {
      assert Drained(before, job') == Drained(before, job) + {k};
    } else {
      assert Drained(before, job') == Drained(before, job);
    }
  }

  lemma NoneDrained(before: map<Level, Tracked>, job: Job)
    requires job.todo == job.plans.Keys
    ensures Drained(before, job) == {}
  {
  }

  lemma AllDrained(before: map<Level, Tracked>, job: Job)
    requires job.todo == {}
    ensures Drained(before, job) == Changed(before, job.plans, job.eps, true, false)
  {
  }

  /** A level not looked at yet is as it was. */
  lemma StillHad(before: map<Level, Tracked>, job: Job, placed: map<Level, Tracked>, k: Level)
    requires FirstDone(before, job, placed) && k in job.todo && k in job.plans
    ensures (k in placed && !Keeps(placed, job, k)) <==> (k in before && !Keeps(before, job, k))
  {
  }

  /** Of the levels to place, those that had an order. */
  ghost function Had(plans: map<Level, Plan>, levels: set<Level>, had: bool): set<Level> {
    set k | k in levels && k in plans && (plans[k].current.Some? <==> had)
  }

  lemma HadOne(plans: map<Level, Plan>, levels: set<Level>, k: Level, had: bool)
    requires k !in levels && k in plans
    ensures |Had(plans, levels + {k}, had)| == |Had(plans, levels, had)|
        + (if plans[k].current.Some? <==> had then 1 else 0)
  {
    if plans[k].current.Some? <==> had {
      assert Had(plans, levels + {k}, had) == Had(plans, levels, had) + {k};
    } else {
      assert Had(plans, levels + {k}, had) == Had(plans, levels, had);
    }
  }

  /** How many of the levels placed so far had an order, and how many had none. */
  ghost predicate Counted(start: Job, left: set<Level>, resized: nat, created: nat) {
    && left <= start.apply <= start.plans.Keys
    && resized == |Had(start.plans, start.apply - left, true)|
    && created == |Had(start.plans, start.apply - left, false)|
  }

  lemma CountedNone(start: Job)
    requires forall k :: k in start.apply ==> k in start.plans
    ensures Counted(start, start.apply, 0, 0)
  {
    assert Had(start.plans, start.apply - start.apply, true) == {}
        && Had(start.plans, start.apply - start.apply, false) == {};
  }

  lemma CountedOne(start: Job, left: set<Level>, k: Level, resized: nat, created: nat)
    requires Counted(start, left, resized, created) && k in left
    ensures k in start.plans
    ensures if start.plans[k].current.Some? then Counted(start, left - {k}, resized + 1, created)
            else Counted(start, left - {k}, resized, created + 1)
  {
    HadOne(start.plans, start.apply - left, k, true);
    HadOne(start.plans, start.apply - left, k, false);
    hide Had;
    assert start.apply - (left - {k}) == (start.apply - left) + {k};
  }

  lemma CountedAll(start: Job, resized: nat, created: nat)
    requires Counted(start, {}, resized, created)
    ensures resized == |Had(start.plans, start.apply, true)| && created == |Had(start.plans, start.apply, false)|
  {
    hide Had;
    assert start.apply - {} == start.apply;
  }

  /** What the first pass leaves to place is what the pass changes to a wanted volume. */
  lemma AppliedChanged(before: map<Level, Tracked>, job: Job, placed: map<Level, Tracked>, had: bool)
    requires FirstDone(before, job, placed) && job.todo == {}
    requires forall k :: k in job.plans ==> (job.plans[k].current.Some? <==> k in before)
    ensures Had(job.plans, job.apply, had) == Changed(before, job.plans, job.eps, had, true)
  {
    forall k ensures k in Had(job.plans, job.apply, had) <==> k in Changed(before, job.plans, job.eps, had, true) {
    }
  }

  lemma NoSteps(s: Sys)
    ensures Run(s, [], s) && WithinPass([])
  {
  }

  lemma WithinThen(steps: seq<Step>, more: seq<Step>)
    requires WithinPass(steps) && WithinPass(more)
    ensures WithinPass(steps + more)
  {
  }

  /** Nobody but the seeder has an order in the book. */
  ghost predicate SynthOnly(book: Book) {
    forall o :: o in book.bids || o in book.asks ==> o.id.Synth?
  }

  lemma CancelSynthOnly(book: Book, id: OrderId)
    requires SynthOnly(book)
    ensures SynthOnly(Cancel(book, id).0)
  {
  }

  /** How far the second pass has got. */
  ghost predicate SecondDone(before: map<Level, Tracked>, job: Job, nonce: nat, placed: map<Level, Tracked>) {
    && (forall k :: k in placed ==> k in job.plans)
    && (forall k :: k in job.apply ==> k in job.plans)
    && forall k :: k in job.plans ==>
         if Keeps(before, job, k) then k in before && k in placed && placed[k] == before[k] && k !in job.apply
         else if job.plans[k].target > 0 then
           if k in job.apply then k !in placed
           else
             && k in placed && placed[k].volume == job.plans[k].target
             && placed[k].id.Synth? && placed[k].id.generation > nonce
         else k !in placed && k !in job.apply
  }

  lemma SecondStarts(before: map<Level, Tracked>, job: Job, nonce: nat, placed: map<Level, Tracked>)
    requires FirstDone(before, job, placed) && job.todo == {}
    ensures SecondDone(before, job, nonce, placed)
  {
  }

  lemma SecondOne(before: map<Level, Tracked>, job: Job, nonce: nat, placed: map<Level, Tracked>, k: Level, id: OrderId)
    requires SecondDone(before, job, nonce, placed) && k in job.apply && id.Synth? && id.generation > nonce
    ensures k in job.plans
    ensures SecondDone(before, job.(apply := job.apply - {k}), nonce, placed[k := Tracked(id, job.plans[k].target)])
  {
  }

  lemma SecondEnds(before: map<Level, Tracked>, job: Job, nonce: nat, placed: map<Level, Tracked>)
    requires SecondDone(before, job, nonce, placed) && job.apply == {} && job.eps == CONVERGE_EPS
    ensures PassResult(before, job.plans, nonce, placed)
  {
  }

  lemma MatchSynthOnly(book: Book, ord: Order, clock: nat)
    requires SynthOnly(book) && BookOk(book, clock)
    ensures SynthOnly(AfterMatch(book, ord).0)
  {
    var queue := Opposite(book, ord.side);
    var rest := MatchQueue(ord, queue).queue;
    forall o | o in rest ensures o.id.Synth? {
      var j :| 0 <= j < |rest| && rest[j] == o;
      var i := LeftoverAt(ord, queue, j);
      assert queue[i] in queue;
    }
  }

  lemma InsertSynth(queue: seq<Order>, ord: Order, side: Side)
    requires ord.id.Synth? && forall o :: o in queue ==> o.id.Synth?
    ensures forall o :: o in Insert(queue, ord, side) ==> o.id.Synth?
  {
    InsertMembers(queue, ord, side);
    forall o | o in Insert(queue, ord, side) ensures o in queue || o == ord {
      assert o in multiset(Insert(queue, ord, side));
    }
  }

  lemma EnqueueSynthOnly(book: Book, ord: Order, clock: nat)
    requires SynthOnly(book) && ord.id.Synth? && QueueOk(book.bids, Buy, clock) && QueueOk(book.asks, Sell, clock)
    ensures SynthOnly(Enqueue(book, ord))
  {
    hide Insert, StableSort, Positive, BetterPrice;
    var own := if ord.side.Buy? then book.bids else book.asks;
    EnqueueInserts(own, ord, ord.side);
    InsertSynth(own, ord, ord.side);
    hide QueueOk, Sorted;
  }

  lemma AddSynthOnly(book: Book, ord: Order, clock: nat)
    requires SynthOnly(book) && ord.id.Synth? && BookOk(book, clock)
    ensures SynthOnly(AddLimit(book, ord).0)
  {
    MatchSynthOnly(book, ord, clock);
    AfterMatchOk(book, ord, clock);
    hide SynthOnly, AfterMatch, Enqueue, MatchQueue;
    var (matched, m) := AfterMatch(book, ord);
    EnqueueSynthOnly(matched, ord.(volume := m.left), clock);
  }

  /** With nobody else's orders in the book, placing an apart level trades with nothing. */
  lemma QuietPlace(s: Sys, levels: set<Level>, k: Level)
    requires Inv(s) && Mirroring(s, levels) && Apart(levels) && SynthOnly(s.book) && Enabled(s, PlaceLevel(k))
    ensures PlaceStep(s, k).pend == [] && SynthOnly(PlaceStep(s, k).book)
  {
    NoSelfTrade(s, levels, k);
    TradesWithinQueue(s, k);
    FirstIn(PlaceStep(s, k).pend);
    if PlaceStep(s, k).pend != [] {
      SynthFirst(s.book, k.side);
      PlacementTrades(s, k, 0);
    }
    AddSynthOnly(s.book, SynthOrder(k, NewId(s, k), s.pc.job.plans[k].target, s.clock), s.clock);
  }

  lemma FirstIn(trades: seq<Trade>)
    ensures trades != [] ==> trades[0] in trades
  {
  }

  lemma SynthFirst(book: Book, side: Side)
    requires SynthOnly(book) && Opposite(book, side) != []
    ensures Opposite(book, side)[0].id.Synth?
  {
    assert Opposite(book, side)[0] in Opposite(book, side);
  }

  /** The pass is over levels that lie apart and the book holds nobody else's orders. */
  ghost predicate Quiet(s: Sys, levels: set<Level>) {
    Mirroring(s, levels) && Apart(levels) && SynthOnly(s.book)
  }

  lemma QuietOne(s: Sys, levels: set<Level>, k: Level, trades: seq<Trade>, steps: seq<Step>, s': Sys)
    requires Inv(s) && Quiet(s, levels) && Enabled(s, PlaceLevel(k)) && trades == PlaceStep(s, k).pend
    requires WithinPass(steps) && Run(s, steps, s') && s'.book == PlaceStep(s, k).book
    ensures trades == [] && Quiet(s', levels)
  {
    QuietPlace(s, levels, k);
    MirroringRun(s, steps, s', levels);
  }

  lemma UncrossedApart(bidMap: Reference.Levels, askMap: Reference.Levels,
                              bids: seq<Reference.RefLevel>, asks: seq<Reference.RefLevel>)
    requires !exists b, a :: b in bidMap && a in askMap && b >= a
    requires (forall l :: l in bids ==> l.price in bidMap) && (forall l :: l in asks ==> l.price in askMap)
    ensures Apart(RefVolumes(bids, asks).Keys)
  {
    hide Apart, RefVolumes;
    DepthApart(bids, asks);
  }

  lemma FoldRun(s: Sys)
    requires Inv(s) && s.pc.Idle?
    ensures TrackedOk(s.placed, s.nonce)
    ensures var s' := s.(placed := FoldAll(s.placed, s.fills), fills := map[], pc := Folded);
            Inv(s') && Run(s, [SwapFills] + [Step.FoldFills], s')
  {
    var s1 := Next(s, SwapFills);
    StepKeeps(s, SwapFills);
    StepKeeps(s1, Step.FoldFills);
    assert TrackedOk(s.placed, s.nonce);
    hide Inv, Run;
    OneStep(s, SwapFills);
    OneStep(s1, Step.FoldFills);
    RunThen(s, [SwapFills], s1, [Step.FoldFills], Next(s1, Step.FoldFills));
  }

  lemma PlanRun(s: Sys, refVol: map<Level, int>, exact: bool, moved: map<Level, int>)
    requires Inv(s) && s.pc.Folded?
    ensures var s' := Next(s, PlanPass(refVol, exact, moved)); Inv(s') && Run(s, [PlanPass(refVol, exact, moved)], s')
    ensures var plans := MakePlans(s.placed, refVol, exact, moved);
            Next(s, PlanPass(refVol, exact, moved)) == s.(pc := Cancelling(Job(plans, CONVERGE_EPS, plans.Keys, {})))
  {
    StepKeeps(s, PlanPass(refVol, exact, moved));
    hide Inv, Run;
    OneStep(s, PlanPass(refVol, exact, moved));
  }

  lemma PlansCover(placed: map<Level, Tracked>, refVol: map<Level, int>, exact: bool, moved: map<Level, int>)
    ensures placed.Keys <= MakePlans(placed, refVol, exact, moved).Keys
    ensures var plans := MakePlans(placed, refVol, exact, moved);
            forall j :: (j in placed ==> j in plans) && (j in plans ==> (plans[j].current.Some? <==> j in placed))
  {
  }

  lemma PlacingRun(s: Sys)
    requires Inv(s) && s.pc.Cancelling? && s.pc.job.todo == {}
    ensures Inv(s.(pc := Placing(s.pc.job))) && Run(s, [StartPlacing], s.(pc := Placing(s.pc.job)))
  {
    StepKeeps(s, StartPlacing);
    hide Inv, Run;
    OneStep(s, StartPlacing);
  }

  lemma EndRun(s: Sys)
    requires Inv(s) && (s.pc.Placing? || s.pc.Cancelling?)
    ensures Inv(s.(pc := Idle)) && Run(s, [EndPass], s.(pc := Idle))
  {
    StepKeeps(s, EndPass);
    hide Inv, Run;
    OneStep(s, EndPass);
  }

  lemma QuietStart(s: Sys, refVol: map<Level, int>, exact: bool, moved: map<Level, int>, steps: seq<Step>, s': Sys)
    requires Inv(s) && s.pc.Folded? && NoStaleDust(s.placed, refVol) && Apart(refVol.Keys)
    requires WithinPass(steps) && Run(Next(s, PlanPass(refVol, exact, moved)), steps, s')
    requires s'.pc.Cancelling? && s'.pc.job.todo == {} && SynthOnly(s'.book)
    ensures Quiet(s'.(pc := Placing(s'.pc.job)), refVol.Keys)
  {
    PassStarts(s, refVol, exact, moved);
    StepKeeps(s, PlanPass(refVol, exact, moved));
    MirroringRun(Next(s, PlanPass(refVol, exact, moved)), steps, s', refVol.Keys);
    MirroringKept(s', StartPlacing, refVol.Keys);
  }

  lemma ClearedAll(before: map<Level, Tracked>, job: Job, placed: map<Level, Tracked>)
    requires FirstDone(before, job, placed) && job.todo == {} && job.eps == -1
    ensures placed == map[]
  {
    assert forall k :: k !in placed;
  }

  lemma NothingLeft(s: Sys)
    requires Inv(s) && s.pc.Idle? && s.placed == map[]
    ensures forall o :: o in s.book.bids || o in s.book.asks ==> !o.id.Synth?
  {
    forall o | (o in s.book.bids || o in s.book.asks) && o.id.Synth? ensures false {
      SeedingBook.InBookZero(s.book, o.id);
      DueInBook(s, o.id);
    }
  }

  lemma DueInBook(s: Sys, id: OrderId)
    requires Inv(s) && id.Synth?
    ensures InBook(s.book, id) == Due(s, id)
  {
  }

  datatype Stats = Stats(placed: nat, resized: nat, cancelled: nat, trades: nat)

  class Seeder {
    const engine: Engine
    const ref: Reference.RefBook
    const depth: int
    var placed: map<Level, Tracked>
    var nonce: nat
    var fills: map<OrderId, int>
    ghost var revoked: set<OrderId>

    /** The machine state seen at a point of the code. */
    ghost function View(pc: Pc): (s: Sys)
      reads this, engine
    {
      Sys(engine.book, engine.clock, [], placed, nonce, fills, revoked, pc)
    }

    constructor (engine: Engine, ref: Reference.RefBook, depth: int)
      requires BookOk(engine.book, engine.clock)
      requires forall o :: o in engine.book.bids || o in engine.book.asks ==> !o.id.Synth?
      ensures this.engine == engine && this.ref == ref && this.depth == depth
      ensures Init(View(Idle))
    {
      this.engine, this.ref, this.depth := engine, ref, depth;
      placed, nonce, fills, revoked := map[], 0, map[], {};
    }

    /** The trade hook. */
    method OnTrade(t: Trade)
      modifies this`fills
      ensures fills == Seeding.OnTrade(old(fills), t)
    {
      var ids := [t.buyId, t.sellId];
      for i := 0 to 2
        invariant fills == if i == 0 then old(fills)
                           else if i == 1 then Buffer(old(fills), t.buyId, t.volume)
                           else Seeding.OnTrade(old(fills), t)
      {
        if ids[i].Synth? {
          fills := fills[ids[i] := (if ids[i] in fills then fills[ids[i]] else 0) + t.volume];
        }
      }
    }

    /** Place an order; the engine fires the hook for each of its trades before it answers. */
    method Submit(ord: Order) returns (trades: seq<Trade>)
      modifies engine, this`fills
      ensures (engine.book, trades) == AddLimit(old(engine.book), ord) && engine.clock == old(engine.clock) + 1
      ensures fills == Reported(old(fills), trades)
    {
      trades := engine.PlaceLimit(ord);
      for i := 0 to |trades|
        modifies this`fills
        invariant Reported(fills, trades[i..]) == Reported(old(fills), trades)
      {
        assert trades[i..][1..] == trades[i + 1..];
        OnTrade(trades[i]);
      }
    }

    // ----- folding -----------------------------------------------------------------------

    /** Swap the buffer out and apply it to the levels whose current orders it names. */
    method FoldFills()
      requires TrackedOk(placed, nonce)
      modifies this`fills, this`placed
      ensures fills == map[] && placed == FoldAll(old(placed), old(fills))
    {
      var taken := fills;
      fills := map[];
      ghost var before := placed;
      FoldStarts(placed, taken);
      if |taken| == 0 {
        FoldEnds(before, taken, {}, placed);
        return;
      }
      var byId := IndexById();
      var left := taken.Keys;
      while left != {}
        modifies this`placed
        invariant left <= taken.Keys && PartFolded(before, taken, left, placed)
        decreases left
      {
        var id := NextKey(left);
        left := left - {id};
        if id in byId {
          var k := byId[id];
          var cur := placed[k];
          cur := cur.(volume := cur.volume - taken[id]);
          if cur.volume <= 0 {
            placed := placed - {k};
          } else {
            placed := placed[k := cur];
          }
        }
      }
      FoldEnds(before, taken, left, placed);
    }

    /** Which level each current order belongs to. */
    method IndexById() returns (byId: map<OrderId, Level>)
      requires TrackedOk(placed, nonce)
      ensures forall id :: id in byId <==> IsCurrent(placed, id)
      ensures forall id :: id in byId ==> id.Synth? && byId[id] == LevelOf(id)
    {
      byId := map[];
      var left := placed.Keys;
      while left != {}
        invariant left <= placed.Keys
        invariant forall id :: id in byId <==> IsCurrent(placed, id) && LevelOf(id) !in left
        invariant forall id :: id in byId ==> id.Synth? && byId[id] == LevelOf(id)
        decreases left
      {
        var k := NextKey(left);
        byId := byId[placed[k].id := k];
        left := left - {k};
      }
    }

    // ----- the two passes ----------------------------------------------------------------

    /** First-pass work on one level: leave it, or cancel its order and forget it. */
    method CancelOne(job: Job, k: Level) returns (job': Job, gone: bool, ghost steps: seq<Step>)
      requires Inv(View(Cancelling(job))) && k in job.todo && k in job.plans
      modifies this`placed, engine`book
      ensures Run(old(View(Cancelling(job))), steps, View(Cancelling(job'))) && WithinPass(steps)
      ensures Inv(View(Cancelling(job')))
      ensures gone == (k in old(placed) && !Keeps(old(placed), job, k))
      ensures placed == (if Keeps(old(placed), job, k) then old(placed) else old(placed) - {k})
      ensures job' == (if Keeps(old(placed), job, k) then job.(todo := job.todo - {k}) else Decided(job, k))
      ensures engine.book == (if k in old(placed) && !Keeps(old(placed), job, k)
                              then Cancel(old(engine.book), old(placed)[k].id).0 else old(engine.book))
    {
      hide Inv, Run, Cancel, SynthBook, BookOk, Accounted, Generations;
      ghost var s0 := View(Cancelling(job));
      Planned(s0, k);
      var p := job.plans[k];
      if p.current.Some? && Abs(p.target - placed[k].volume) <= job.eps {
        steps, job', gone := [LeaveLevel(k)], job.(todo := job.todo - {k}), false;
        LeaveRun(s0, k);
        return;
      }
      gone := p.current.Some?;
      if p.current.Some? {
        var _ := engine.CancelOrder(p.current.value);
        placed := placed - {k};
        job', steps := Decided(job, k), [CancelLevel(k)] + [DropRecord];
        CancelRun(s0, k);
      } else {
        job', steps := Decided(job, k), [LeaveLevel(k)];
        LeaveRun(s0, k);
        assert placed - {k} == placed;
      }
    }

    /** Second-pass work on one level: mint an id, place the order, record it. */
    method PlaceOne(job: Job, k: Level) returns (job': Job, trades: seq<Trade>, ghost steps: seq<Step>)
      requires Inv(View(Placing(job))) && k in job.apply && k in job.plans
      modifies this`placed, this`nonce, this`fills, engine
      ensures Run(old(View(Placing(job))), steps, View(Placing(job'))) && WithinPass(steps)
      ensures Inv(View(Placing(job')))
      ensures job' == job.(apply := job.apply - {k}) && nonce == old(nonce) + 1
      ensures placed == old(placed)[k := Tracked(Synth(k.side, k.price, nonce), job.plans[k].target)]
      ensures trades == PlaceStep(old(View(Placing(job))), k).pend
      ensures engine.book == PlaceStep(old(View(Placing(job))), k).book
    {
      hide Inv, Run, AddLimit, SynthBook, BookOk, Accounted, Generations, Reported, Hooks;
      ghost var s0 := View(Placing(job));
      var p := job.plans[k];
      nonce := nonce + 1;
      var id := Synth(k.side, k.price, nonce);
      var ord := SynthOrder(k, id, p.target, engine.clock);
      trades := Submit(ord);
      placed := placed[k := Tracked(id, p.target)];
      job' := job.(apply := job.apply - {k});
      ghost var s1 := PlaceRun(s0, k, trades);
      steps := [PlaceLevel(k)] + Hooks(|trades|) + [WriteRecord];
      WithinPlace(k, |trades|);
      assert View(Placing(job')) == s1;
    }

    // ----- a whole pass ------------------------------------------------------------------

    /** The wanted volume of every level of the reference's depth. */
    static method CollectVolumes(bids: seq<Reference.RefLevel>, asks: seq<Reference.RefLevel>)
        returns (refVol: map<Level, int>)
      ensures refVol == RefVolumes(bids, asks)
    {
      refVol := map[];
      for i := 0 to |bids|
        invariant PutAll(refVol, Buy, bids[i..]) == PutAll(map[], Buy, bids)
      {
        assert bids[i..][1..] == bids[i + 1..];
        refVol := refVol[Level(Buy, bids[i].price) := bids[i].quantity];
      }
      ghost var half := refVol;
      for i := 0 to |asks|
        invariant PutAll(refVol, Sell, asks[i..]) == PutAll(half, Sell, asks)
      {
        assert asks[i..][1..] == asks[i + 1..];
        refVol := refVol[Level(Sell, asks[i].price) := asks[i].quantity];
      }
    }

    /** One plan per level of the reference or of the record. */
    method BuildPlans(refVol: map<Level, int>, exact: bool, moved: map<Level, int>) returns (plans: map<Level, Plan>)
      ensures plans == MakePlans(placed, refVol, exact, moved)
    {
      plans := map[];
      var left := refVol.Keys;
      while left != {}
        invariant left <= refVol.Keys && plans.Keys == refVol.Keys - left
        invariant forall k :: k in plans ==> plans[k] == PlanOf(refVol, exact, moved, k)
        decreases left
      {
        var k := NextKey(left);
        plans, left := plans[k := PlanOf(refVol, exact, moved, k)], left - {k};
      }
      var mine := placed.Keys;
      while mine != {}
        invariant mine <= placed.Keys && plans.Keys == refVol.Keys + (placed.Keys - mine)
        invariant forall k :: k in plans ==> plans[k] == PlanOf(refVol, exact, moved, k)
        decreases mine
      {
        var k := NextKey(mine);
        if k !in refVol {
          plans := plans[k := Plan(0, Some(placed[k].id))];
        }
        mine := mine - {k};
      }
    }

    function PlanOf(refVol: map<Level, int>, exact: bool, moved: map<Level, int>, k: Level): Plan
      reads this
    {
      Plan(Target(placed, refVol, exact, moved, k), if k in placed then Some(placed[k].id) else None)
    }

    method FirstPass(start: Job) returns (job: Job, cancelled: nat, ghost steps: seq<Step>)
      requires Inv(View(Cancelling(start))) && start.todo == start.plans.Keys && start.apply == {}
      requires placed.Keys <= start.plans.Keys && forall j :: j in placed ==> start.plans[j].current.Some?
      modifies this`placed, engine`book
      ensures Run(old(View(Cancelling(start))), steps, View(Cancelling(job))) && WithinPass(steps)
      ensures Inv(View(Cancelling(job))) && job.todo == {}
      ensures job.plans == start.plans && job.eps == start.eps && FirstDone(old(placed), job, placed)
      ensures SynthOnly(old(engine.book)) ==> SynthOnly(engine.book)
      ensures cancelled == |Changed(old(placed), start.plans, start.eps, true, false)|
    {
      hide Inv, Run, Cancel, FirstDone, SynthOnly, Drained, Changed;
      job, steps, cancelled := start, [], 0;
      FirstNothing(placed, start);
      NoneDrained(placed, start);
      NoSteps(View(Cancelling(start)));
      while job.todo != {}
        invariant Run(old(View(Cancelling(start))), steps, View(Cancelling(job))) && WithinPass(steps)
        invariant Inv(View(Cancelling(job))) && job.plans == start.plans && job.eps == start.eps
        invariant FirstDone(old(placed), job, placed) && cancelled == |Drained(old(placed), job)|
        invariant SynthOnly(old(engine.book)) ==> SynthOnly(engine.book)
        decreases job.todo
      {
        var k := NextKey(job.todo);
        ghost var s1 := View(Cancelling(job));
        FirstOne(old(placed), job, placed, k);
        if SynthOnly(engine.book) && k in placed { CancelSynthOnly(engine.book, placed[k].id); }
        var next, gone;
        ghost var more;
        ghost var here := placed;
        next, gone, more := CancelOne(job, k);
        RunThen(old(View(Cancelling(start))), steps, s1, more, View(Cancelling(next)));
        WithinThen(steps, more);
        DrainedOne(old(placed), job, next, k);
        StillHad(old(placed), job, here, k);
        if gone && job.plans[k].target <= 0 {
          cancelled := cancelled + 1;
        }
        job, steps := next, steps + more;
      }
      AllDrained(old(placed), job);
    }

    method SecondPass(start: Job, ghost before: map<Level, Tracked>, ghost levels: set<Level>)
      returns (traded: nat, resized: nat, created: nat, ghost job: Job, ghost steps: seq<Step>)
      requires Inv(View(Placing(start))) && SecondDone(before, start, nonce, placed)
      requires forall k :: k in start.apply ==> k in start.plans
      modifies this`placed, this`nonce, this`fills, engine
      ensures Run(old(View(Placing(start))), steps, View(Placing(job)))
      ensures Inv(View(Placing(job))) && job == start.(apply := {})
      ensures SecondDone(before, job, old(nonce), placed)
      ensures Quiet(old(View(Placing(start))), levels) ==> traded == 0
      ensures resized == |Had(start.plans, start.apply, true)| && created == |Had(start.plans, start.apply, false)|
    {
      hide Inv, Run, Cancel, SecondDone, Quiet, AddLimit, Had, Counted;
      var apply := start.apply;
      job, steps, traded, resized, created := start, [], 0, 0, 0;
      CountedNone(start);
      NoSteps(View(Placing(start)));
      while apply != {}
        invariant Run(old(View(Placing(start))), steps, View(Placing(job)))
        invariant Inv(View(Placing(job))) && job == start.(apply := apply) && nonce >= old(nonce)
        invariant SecondDone(before, job, old(nonce), placed)
        invariant Quiet(old(View(Placing(start))), levels) ==> traded == 0 && Quiet(View(Placing(job)), levels)
        invariant Counted(start, apply, resized, created)
        decreases apply
      {
        var k := NextKey(apply);
        ghost var s1 := View(Placing(job));
        SecondOne(before, job, old(nonce), placed, k, Synth(k.side, k.price, nonce + 1));
        var next, trades;
        ghost var more;
        next, trades, more := PlaceOne(start.(apply := apply), k);
        RunThen(old(View(Placing(start))), steps, s1, more, View(Placing(next)));
        if Quiet(s1, levels) { QuietOne(s1, levels, k, trades, more, View(Placing(next))); }
        traded := traded + |trades|;
        CountedOne(start, apply, k, resized, created);
        if start.plans[k].current.Some? {
          resized := resized + 1;
        } else {
          created := created + 1;
        }
        job, steps, apply := next, steps + more, apply - {k};
      }
      CountedAll(start, resized, created);
    }

    /** One pass toward the reference. `exact` is alpha = 1; otherwise `moved` is what the float
        factor makes of each level's distance. */
    method Converge(exact: bool, moved: map<Level, int>)
      returns (skipped: bool, stats: Stats, ghost wanted: map<Level, int>, ghost steps: seq<Step>)
      requires Inv(View(Idle)) && ref.Valid()
      modifies this`placed, this`nonce, this`fills, engine, ref
      ensures Inv(View(Idle)) && ref.Valid()
      ensures ref.bids == old(ref.bids) && ref.asks == old(ref.asks)
      ensures skipped <==> !old(ref.initialized) || exists b, a :: b in ref.bids && a in ref.asks && b >= a
      ensures skipped ==> View(Idle) == old(View(Idle)) && stats == Stats(0, 0, 0, 0)
      ensures !skipped ==> Run(old(View(Idle)), steps, View(Idle))
      ensures !skipped ==>
                && Reference.SortOf(ref.bids, true, ref.sortedBids) && Reference.SortOf(ref.asks, false, ref.sortedAsks)
                && wanted == RefVolumes(Reference.Clip(ref.sortedBids, depth), Reference.Clip(ref.sortedAsks, depth))
      ensures !skipped ==> Apart(wanted.Keys)
      ensures !skipped && exact ==>
                OnReference(ref.bids, ref.asks, depth, FoldAll(old(placed), old(fills)), placed)
      ensures !skipped ==>
                var folded := FoldAll(old(placed), old(fills));
                && PassResult(folded, MakePlans(folded, wanted, exact, moved), old(nonce), placed)
                && (NoStaleDust(folded, wanted) && SynthOnly(old(engine.book)) ==> stats.trades == 0)
                && stats.cancelled == |Changed(folded, MakePlans(folded, wanted, exact, moved), CONVERGE_EPS, true,
                    false)|
                && stats.resized == |Changed(folded, MakePlans(folded, wanted, exact, moved), CONVERGE_EPS, true, true)|
                && stats.placed == |Changed(folded, MakePlans(folded, wanted, exact, moved), CONVERGE_EPS, false, true)|
    {
      hide Inv, Run, PassResult, FirstDone, SecondDone, Quiet, SynthOnly, NoStaleDust, Apart, MakePlans, FoldAll,
          RefVolumes, Changed, Had, OnReference, DistinctPrices, Reference.TopOf;
      skipped, stats, wanted, steps := false, Stats(0, 0, 0, 0), map[], [];
      var crossed := ref.Crossed();
      if !ref.initialized || crossed {
        skipped := true;
        return;
      }
      var bids, asks := ref.Depth(depth);
      var refVol := CollectVolumes(bids, asks);
      wanted := refVol;
      UncrossedApart(ref.bids, ref.asks, bids, asks);
      OrderedDistinct(bids, true);
      OrderedDistinct(asks, false);
      ghost var s0 := View(Idle);
      FoldRun(s0);
      FoldFills();
      steps := [SwapFills] + [Step.FoldFills];
      ghost var folded, s1 := placed, View(Folded);
      var plans := BuildPlans(refVol, exact, moved);
      ghost var more, last: Job;
      PlanRun(s1, refVol, exact, moved);
      PlansCover(placed, refVol, exact, moved);
      RunThen(s0, steps, s1, [PlanPass(refVol, exact, moved)],
          View(Cancelling(Job(plans, CONVERGE_EPS, plans.Keys, {}))));
      steps := steps + [PlanPass(refVol, exact, moved)];
      var job: Job;
      var cancelled;
      job, cancelled, more := FirstPass(Job(plans, CONVERGE_EPS, plans.Keys, {}));
      AppliedChanged(folded, job, placed, true);
      AppliedChanged(folded, job, placed, false);
      RunThen(s0, steps, Next(s1, PlanPass(refVol, exact, moved)), more, View(Cancelling(job)));
      steps := steps + more;
      if NoStaleDust(folded, refVol) && SynthOnly(old(engine.book)) {
        QuietStart(s1, refVol, exact, moved, more, View(Cancelling(job)));
      }
      PlacingRun(View(Cancelling(job)));
      RunThen(s0, steps, View(Cancelling(job)), [StartPlacing], View(Placing(job)));
      steps := steps + [StartPlacing];
      SecondStarts(folded, job, nonce, placed);
      ghost var s3 := View(Placing(job));
      var traded, resized, created;
      traded, resized, created, last, more := SecondPass(job, folded, refVol.Keys);
      stats := Stats(created, resized, cancelled, traded);
      SecondEnds(folded, last, old(nonce), placed);
      if exact { PassOnReference(ref.bids, ref.asks, depth, bids, asks, folded, moved, old(nonce), placed); }
      RunThen(s0, steps, s3, more, View(Placing(last)));
      EndRun(View(Placing(last)));
      RunThen(s0, steps + more, View(Placing(last)), [EndPass], View(Idle));
      steps := steps + more + [EndPass];
    }

    /** Cancel every synthetic order. */
    method Clear() returns (ghost steps: seq<Step>)
      requires Inv(View(Idle))
      modifies this`placed, engine`book
      ensures Inv(View(Idle)) && Run(old(View(Idle)), steps, View(Idle))
      ensures placed == map[]
      ensures forall o :: o in engine.book.bids || o in engine.book.asks ==> !o.id.Synth?
    {
      hide Run, FirstDone, SynthOnly;
      ghost var s0 := View(Idle);
      StepKeeps(s0, PlanClear);
      hide Inv;
      OneStep(s0, PlanClear);
      var plans := ClearPlans(placed);
      var job, drained;
      ghost var more;
      job, drained, more := FirstPass(Job(plans, -1, plans.Keys, {}));
      ClearedAll(s0.placed, job, placed);
      RunThen(s0, [PlanClear], Next(s0, PlanClear), more, View(Cancelling(job)));
      EndRun(View(Cancelling(job)));
      RunThen(s0, [PlanClear] + more, View(Cancelling(job)), [EndPass], View(Idle));
      steps := [PlanClear] + more + [EndPass];
      NothingLeft(View(Idle));
    }

  }
}
