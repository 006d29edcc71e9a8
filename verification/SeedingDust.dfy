/**
 How stale dust comes about and what it does: the seeder mirrors one ask of exactly its tolerance,
 by the next pass the reference bids above it, and the pass buys from the seeder's own ask.
 */
module SeedingDust {
  import opened Common
  import opened FixedPoint
  import opened Orders
  import opened Seeding
  import opened SeedingInv
  import opened SeedingMirror
  import LiveSeeder

  const DUSTY: Level := Level(Sell, 100)
  const WANTED: Level := Level(Buy, 101)

  /** One stale ask of exactly the tolerance, still resting; the reference now bids above it. */
  function DustyState(pc: Pc): Sys {
    Sys(Book([], [Order(Synth(Sell, 100, 1), Sell, 100, CONVERGE_EPS, false, 0)], None), 1, [],
        map[DUSTY := Tracked(Synth(Sell, 100, 1), CONVERGE_EPS)], 1, map[], {}, pc)
  }

  const DUSTY_REF: map<Level, int> := map[WANTED := SCALE]

  /** A seeder that has done nothing yet, over somebody's book. */
  function Begun(book: Book, clock: nat, pc: Pc): Sys {
    Sys(book, clock, [], map[], 0, map[], {}, pc)
  }

  function Fresh(pc: Pc): Sys {
    Begun(EMPTY_BOOK, 0, pc)
  }

  function OnePlan(k: Level, volume: int): map<Level, Plan> {
    map[k := Plan(volume, None)]
  }

  function FirstPlans(): map<Level, Plan> {
    OnePlan(DUSTY, CONVERGE_EPS)
  }

  /** Start a pass over a reference of one level, up to its placement. */
  function DecideOne(k: Level, volume: int): seq<Step> {
    [SwapFills, FoldFills, PlanPass(map[k := volume], true, map[]), LeaveLevel(k), StartPlacing]
  }

  function Decide(): seq<Step> {
    DecideOne(DUSTY, CONVERGE_EPS)
  }

  function Settle(): seq<Step> {
    [PlaceLevel(DUSTY), WriteRecord, EndPass, SwapFills, FoldFills]
  }

  lemma FiveSteps(s: Sys, steps: seq<Step>, s1: Sys, s2: Sys, s3: Sys, s4: Sys, s5: Sys)
    requires |steps| == 5
    requires Enabled(s, steps[0]) && s1 == Next(s, steps[0]) && Enabled(s1, steps[1]) && s2 == Next(s1, steps[1])
    requires Enabled(s2, steps[2]) && s3 == Next(s2, steps[2]) && Enabled(s3, steps[3]) && s4 == Next(s3, steps[3])
    requires Enabled(s4, steps[4]) && s5 == Next(s4, steps[4])
    ensures Run(s, steps, s5)
  {
    hide Enabled, Next;
    LiveSeeder.OneStep(s, steps[0]);
    LiveSeeder.OneStep(s1, steps[1]);
    LiveSeeder.OneStep(s2, steps[2]);
    LiveSeeder.OneStep(s3, steps[3]);
    LiveSeeder.OneStep(s4, steps[4]);
    hide Run;
    LiveSeeder.RunThen(s, [steps[0]], s1, [steps[1]], s2);
    LiveSeeder.RunThen(s, [steps[0]] + [steps[1]], s2, [steps[2]], s3);
    LiveSeeder.RunThen(s, [steps[0]] + [steps[1]] + [steps[2]], s3, [steps[3]], s4);
    LiveSeeder.RunThen(s, [steps[0]] + [steps[1]] + [steps[2]] + [steps[3]], s4, [steps[4]], s5);
    assert steps == [steps[0]] + [steps[1]] + [steps[2]] + [steps[3]] + [steps[4]];
  }

  lemma Planned(k: Level, volume: int)
    ensures MakePlans(map[], map[k := volume], true, map[]) == OnePlan(k, volume)
  {
    assert map[k := volume].Keys == {k};
  }

  lemma DecidedOne(book: Book, clock: nat, k: Level, volume: int)
    requires volume > 0
    ensures Run(Begun(book, clock, Idle), DecideOne(k, volume),
        Begun(book, clock, Placing(Job(OnePlan(k, volume), CONVERGE_EPS, {}, {k}))))
  {
    Planned(k, volume);
    hide MakePlans;
    var job := Job(OnePlan(k, volume), CONVERGE_EPS, {k}, {});
    var done := Job(OnePlan(k, volume), CONVERGE_EPS, {}, {k});
    assert OnePlan(k, volume).Keys == {k} && {k} - {k} == {} && {} + {k} == {k};
    FiveSteps(Begun(book, clock, Idle), DecideOne(k, volume), Begun(book, clock, Folding(map[])),
        Begun(book, clock, Folded),
              Begun(book, clock, Cancelling(job)), Begun(book, clock, Cancelling(done)),
                  Begun(book, clock, Placing(done)));
  }

  lemma DecidedSteps()
    ensures Run(Fresh(Idle), Decide(), Fresh(Placing(Job(FirstPlans(), CONVERGE_EPS, {}, {DUSTY}))))
  {
    DecidedOne(EMPTY_BOOK, 0, DUSTY, CONVERGE_EPS);
  }

  /** An ask on an empty book rests: nothing is in its way. */
  lemma LoneAsk(ord: Order)
    requires ord.side.Sell? && !ord.isMarket && ord.volume > 0
    ensures AddLimit(EMPTY_BOOK, ord) == (Book([], [ord], None), [])
  {
    assert MatchQueue(ord, []) == Match([], [], ord.volume);
    assert [] + [ord] == [ord] && [ord][..0] == [];
    assert StableSort([ord], Sell) == Insert(StableSort([], Sell), ord, Sell) == [ord];
  }

  lemma AskPlaced()
    ensures var job := Job(FirstPlans(), CONVERGE_EPS, {}, {DUSTY});
            var s := PlaceStep(Fresh(Placing(job)), DUSTY);
            s == Unrecorded()
  {
    LoneAsk(Order(Synth(Sell, 100, 1), Sell, 100, CONVERGE_EPS, false, 0));
    hide AddLimit;
    assert {DUSTY} - {DUSTY} == {};
  }

  function Unrecorded(): Sys {
    DustyState(Placed(Job(FirstPlans(), CONVERGE_EPS, {}, {}), DUSTY, Synth(Sell, 100, 1))).(placed := map[])
  }

  lemma Recorded()
    ensures var placing := DustyState(Placing(Job(FirstPlans(), CONVERGE_EPS, {}, {})));
            && Enabled(Unrecorded(), WriteRecord) && Next(Unrecorded(), WriteRecord) == placing
            && Enabled(placing, EndPass) && Next(placing, EndPass) == DustyState(Idle)
  {
  }

  lemma Refolded()
    ensures Enabled(DustyState(Idle), SwapFills) && Next(DustyState(Idle), SwapFills) == DustyState(Folding(map[]))
    ensures Enabled(DustyState(Folding(map[])), FoldFills) && Next(DustyState(Folding(map[])), FoldFills) ==
        DustyState(Folded)
  {
    FoldedSame();
    hide FoldAll;
  }

  lemma SettledSteps()
    ensures Run(Fresh(Placing(Job(FirstPlans(), CONVERGE_EPS, {}, {DUSTY}))), Settle(), DustyState(Folded))
  {
    AskPlaced();
    Recorded();
    Refolded();
    hide PlaceStep, DustyState;
    var start := Fresh(Placing(Job(FirstPlans(), CONVERGE_EPS, {}, {DUSTY})));
    assert Enabled(start, PlaceLevel(DUSTY)) && Next(start, PlaceLevel(DUSTY)) == Unrecorded();
    hide Enabled, Next, Unrecorded;
    FiveSteps(start, Settle(), Unrecorded(), DustyState(Placing(Job(FirstPlans(), CONVERGE_EPS, {}, {}))),
              DustyState(Idle), DustyState(Folding(map[])), DustyState(Folded));
  }

  lemma FoldedSame()
    ensures FoldAll(DustyState(Idle).placed, map[]) == DustyState(Idle).placed
  {
  }

  lemma DustReached()
    ensures Init(Fresh(Idle)) && Run(Fresh(Idle), Decide() + Settle(), DustyState(Folded))
  {
    DecidedSteps();
    SettledSteps();
    hide Run;
    LiveSeeder.RunThen(Fresh(Idle), Decide(), Fresh(Placing(Job(FirstPlans(), CONVERGE_EPS, {}, {DUSTY}))), Settle(),
        DustyState(Folded));
  }

  /** What the pass makes of the stale ask and the wanted bid. */
  function DustPlans(): map<Level, Plan> {
    map[DUSTY := Plan(0, Some(Synth(Sell, 100, 1))), WANTED := Plan(SCALE, None)]
  }

  /** The first pass leaves the ask, which is within tolerance, and decides to place the bid. */
  lemma DustPlanned()
    ensures NoStaleDust(DustyState(Folded).placed, DUSTY_REF) == false && Apart(DUSTY_REF.Keys)
    ensures var s0 := Next(DustyState(Folded), PlanPass(DUSTY_REF, true, map[]));
            var s1 := Next(s0, LeaveLevel(DUSTY));
            var s2 := Next(s1, LeaveLevel(WANTED));
            && Enabled(s0, LeaveLevel(DUSTY)) && Enabled(s1, LeaveLevel(WANTED)) && Enabled(s2, StartPlacing)
            && Next(s2, StartPlacing) == DustyState(Placing(Job(DustPlans(), CONVERGE_EPS, {}, {WANTED})))
  {
    assert DUSTY in DustyState(Folded).placed && DUSTY !in DUSTY_REF;
    var s0 := Next(DustyState(Folded), PlanPass(DUSTY_REF, true, map[]));
    assert s0.pc.job == Job(DustPlans(), CONVERGE_EPS, {DUSTY, WANTED}, {});
    var s2 := Next(Next(s0, LeaveLevel(DUSTY)), LeaveLevel(WANTED));
    assert s2.pc.job.todo == {} && s2.pc.job.apply == {WANTED};
  }

  /** The bid meets the seeder's own ask. */
  lemma DustMeets()
    ensures var s := DustyState(Placing(Job(DustPlans(), CONVERGE_EPS, {}, {WANTED})));
            Enabled(s, PlaceLevel(WANTED))
                && PlaceStep(s, WANTED).pend == [Trade(Synth(Buy, 101, 2), Synth(Sell, 100, 1), 100, CONVERGE_EPS, Buy)]
  {
    var s := DustyState(Placing(Job(DustPlans(), CONVERGE_EPS, {}, {WANTED})));
    var ord := SynthOrder(WANTED, NewId(s, WANTED), SCALE, 1);
    assert s.book.asks[1..] == [];
    assert MatchQueue(ord.(volume := SCALE - CONVERGE_EPS), []).trades == [];
  }

  function Leave(): seq<Step> {
    [PlanPass(DUSTY_REF, true, map[]), LeaveLevel(DUSTY), LeaveLevel(WANTED), StartPlacing]
  }

  lemma LeftRun()
    ensures Run(DustyState(Folded), Leave(), DustyState(Placing(Job(DustPlans(), CONVERGE_EPS, {}, {WANTED}))))
  {
    DustPlanned();
    assert Enabled(DustyState(Folded), Leave()[0]);
    hide Enabled, Next, DustyState, DustPlans;
    var s, steps := DustyState(Folded), Leave();
    var s1 := Next(s, steps[0]);
    var s2 := Next(s1, steps[1]);
    var s3 := Next(s2, steps[2]);
    var s4 := Next(s3, steps[3]);
    assert steps[1..] == [steps[1], steps[2], steps[3]] && steps[1..][1..] == [steps[2], steps[3]];
    assert steps[1..][1..][1..] == [steps[3]] && steps[1..][1..][1..][1..] == [];
    assert Run(s4, [], s4) && Run(s3, [steps[3]], s4) && Run(s2, [steps[2], steps[3]], s4) && Run(s1, steps[1..], s4);
  }

  /** The hypothesis of no stale dust is needed: a run from an empty book in which a pass over an
      uncrossed reference is about to trade with the seeder's own order. */
  lemma DustSelfTrades()
    ensures Init(Fresh(Idle)) && Run(Fresh(Idle), Decide() + Settle(), DustyState(Folded))
    ensures Apart(DUSTY_REF.Keys) && !NoStaleDust(DustyState(Folded).placed, DUSTY_REF)
    ensures exists s ::
              && Run(Fresh(Idle), Decide() + Settle() + Leave(), s)
              && Enabled(s, PlaceLevel(WANTED))
              && PlaceStep(s, WANTED).pend == [Trade(Synth(Buy, 101, 2), Synth(Sell, 100, 1), 100, CONVERGE_EPS, Buy)]
  {
    DustReached();
    DustPlanned();
    DustMeets();
    LeftRun();
    hide Run, Enabled, Next, PlaceStep, DustyState, DustPlans, Init, Decide, Settle, Leave;
    LiveSeeder.RunThen(Fresh(Idle), Decide() + Settle(), DustyState(Folded), Leave(),
                       DustyState(Placing(Job(DustPlans(), CONVERGE_EPS, {}, {WANTED}))));
  }
}
