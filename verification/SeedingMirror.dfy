/**
 What a pass achieves: with an uncrossed reference its placements never meet another synthetic
 order, whatever others do meanwhile, unless a stale level of at most the tolerance was left
 behind; and an exact pass leaves the reference's levels and nothing else.
 */
module SeedingMirror {
  import opened Common
  import opened FixedPoint
  import opened Orders
  import opened Matching
  import opened Seeding
  import opened SeedingBook
  import opened SeedingInv

  /** Every bid level below every ask level. */
  ghost predicate Apart(levels: set<Level>) {
    forall b, a :: b in levels && a in levels && b.side.Buy? && a.side.Sell? ==> b.price < a.price
  }

  /** Every tracked level that has left the reference is above the tolerance, so it will be drained. */
  predicate NoStaleDust(placed: map<Level, Tracked>, ref: map<Level, int>) {
    forall k :: k in placed && k !in ref ==> placed[k].volume > CONVERGE_EPS
  }

  function JobOf(pc: Pc): Option<Job> {
    match pc
    case Cancelling(job) => Some(job)
    case Cancelled(job, _) => Some(job)
    case Placing(job) => Some(job)
    case Placed(job, _, _) => Some(job)
    case Idle => None
    case Folding(_) => None
    case Folded => None
  }

  /** During a pass: levels to be placed are wanted, and a tracked level that is not wanted is
      still waiting to be cancelled and too large to be left. */
  ghost predicate Mirroring(s: Sys, levels: set<Level>) {
    && JobOf(s.pc).Some?
    && var job := JobOf(s.pc).value;
       && (forall k :: k in job.plans && job.plans[k].target > 0 ==> k in levels)
       && forall k :: k in TrackedNow(s) && k !in levels ==>
            && k in job.todo && k in job.plans && k in s.placed
            && job.plans[k].target <= 0 && !Keeps(s.placed, job, k)
  }

  lemma PassStarts(s: Sys, ref: map<Level, int>, exact: bool, moved: map<Level, int>)
    requires Inv(s) && s.pc.Folded? && NoStaleDust(s.placed, ref)
    ensures Mirroring(Next(s, PlanPass(ref, exact, moved)), ref.Keys)
  {
    hide BookOk, SynthBook, Accounted, Generations;
  }

  lemma MirroringKept(s: Sys, step: Step, levels: set<Level>)
    requires Inv(s) && Enabled(s, step) && Mirroring(s, levels) && !step.EndPass?
    ensures Mirroring(Next(s, step), levels)
  {
    hide BookOk, SynthBook, Accounted, Generations, AddLimit, ExecuteIoc, Cancel, OnTrade;
    if step.CancelLevel? || step.LeaveLevel? {
      assert PlanMatches(s.placed, s.pc.job.plans, step.k);
    }
  }

  /** Which resting orders an incoming order trades with: exactly those at a crossing price whose
      queue ahead does not exhaust it. */
  function Ahead(queue: seq<Order>, i: nat): int
    requires i <= |queue|
  {
    if i == 0 then 0 else Ahead(queue, i - 1) + queue[i - 1].volume
  }

  lemma {:induction false} AheadShift(queue: seq<Order>, i: nat)
    requires 0 < i <= |queue|
    ensures Ahead(queue, i) == queue[0].volume + Ahead(queue[1..], i - 1)
  {
    if i > 1 {
      AheadShift(queue, i - 1);
      assert queue[1..][i - 2] == queue[i - 1];
    }
  }

  lemma {:induction false} AheadNonNegative(queue: seq<Order>, i: nat)
    requires Positive(queue) && i <= |queue|
    ensures Ahead(queue, i) >= 0
  {
    if i > 0 { AheadNonNegative(queue, i - 1); }
  }

  lemma CrossesPrefix(incoming: Order, queue: seq<Order>, side: Side, clock: nat, i: nat)
    requires QueueOk(queue, side, clock) && side != incoming.side && i < |queue| && Crosses(incoming, queue[i])
    ensures Crosses(incoming, queue[0])
  {
    if i > 0 { assert Matching.Ahead(side, queue[0], queue[i]); }
  }

  lemma {:induction false} TradeReaches(incoming: Order, queue: seq<Order>, side: Side, clock: nat, i: nat)
    requires QueueOk(queue, side, clock) && side != incoming.side && i < |queue| && incoming.volume > 0
    ensures i < |MatchQueue(incoming, queue).trades| <==>
        Crosses(incoming, queue[i]) && Ahead(queue, i) < incoming.volume
    decreases |queue|
  {
    if Crosses(incoming, queue[i]) { CrossesPrefix(incoming, queue, side, clock, i); }
    if i == 0 {
    } else {
      AheadShift(queue, i);
      AheadNonNegative(queue[1..], i - 1);
      if Crosses(incoming, queue[0]) && queue[0].volume < incoming.volume {
        TradeReaches(incoming.(volume := incoming.volume - queue[0].volume), queue[1..], side, clock, i - 1);
      }
    }
  }

  /** The resting order at index i of the opposite queue would trade with the order being placed. */
  ghost predicate Reached(s: Sys, k: Level, i: nat) {
    && s.pc.Placing? && k in s.pc.job.plans
    && var ord := SynthOrder(k, NewId(s, k), s.pc.job.plans[k].target, s.clock);
       var queue := Opposite(s.book, k.side);
       i < |queue| && Crosses(ord, queue[i]) && Ahead(queue, i) < ord.volume
  }

  /** A placement trades with exactly the orders within its reach. */
  lemma PlacementTrades(s: Sys, k: Level, i: nat)
    requires Inv(s) && Enabled(s, PlaceLevel(k)) && i < |Opposite(s.book, k.side)|
    ensures i < |PlaceStep(s, k).pend| <==> Reached(s, k, i)
    ensures i < |PlaceStep(s, k).pend| ==>
              PlaceStep(s, k).pend[i].Maker() == Opposite(s.book, k.side)[i].id && PlaceStep(s, k).pend[i].Taker() ==
                  NewId(s, k)
  {
    var ord := SynthOrder(k, NewId(s, k), s.pc.job.plans[k].target, s.clock);
    var queue := Opposite(s.book, k.side);
    assert PlaceStep(s, k).pend == MatchQueue(ord, queue).trades;
    TradeReaches(ord, queue, if k.side.Buy? then Sell else Buy, s.clock, i);
    if i < |MatchQueue(ord, queue).trades| { TradeParties(ord, queue, i); }
  }

  /** The tracked level of a synthetic order in the opposite queue. */
  lemma OppositeLevel(s: Sys, k: Level, i: nat)
    requires Inv(s) && s.pc.Placing? && i < |Opposite(s.book, k.side)| && Opposite(s.book, k.side)[i].id.Synth?
    ensures var o := Opposite(s.book, k.side)[i];
            LevelOf(o.id) in s.placed && LevelOf(o.id).side != k.side && LevelOf(o.id).price == o.price
  {
    var o := Opposite(s.book, k.side)[i];
    assert o in s.book.bids || o in s.book.asks;
    InBookZero(s.book, o.id);
    assert InBook(s.book, o.id) == Due(s, o.id);
  }

  lemma TradesWithinQueue(s: Sys, k: Level)
    requires Inv(s) && Enabled(s, PlaceLevel(k))
    ensures |PlaceStep(s, k).pend| <= |Opposite(s.book, k.side)|
  {
    var ord := SynthOrder(k, NewId(s, k), s.pc.job.plans[k].target, s.clock);
    MatchConsumesFront(ord, Opposite(s.book, k.side));
    assert PlaceStep(s, k).pend == MatchQueue(ord, Opposite(s.book, k.side)).trades;
  }

  /** No synthetic self-trade: while a pass mirrors levels that lie apart, no placement trades
      with a synthetic order, whatever outsiders have done to the book. */
  lemma NoSelfTrade(s: Sys, levels: set<Level>, k: Level)
    requires Inv(s) && Mirroring(s, levels) && Apart(levels) && Enabled(s, PlaceLevel(k))
    ensures forall t :: t in PlaceStep(s, k).pend ==> !t.Maker().Synth? && t.Taker() == NewId(s, k)
  {
    TradesWithinQueue(s, k);
    var trades, queue := PlaceStep(s, k).pend, Opposite(s.book, k.side);
    forall i | 0 <= i < |trades| ensures !trades[i].Maker().Synth? && trades[i].Taker() == NewId(s, k) {
      PlacementTrades(s, k, i);
      if queue[i].id.Synth? {
        OppositeLevel(s, k, i);
        StillApart(s, levels, k, LevelOf(queue[i].id));
      }
    }
  }

  lemma StillApart(s: Sys, levels: set<Level>, k: Level, other: Level)
    requires Inv(s) && Mirroring(s, levels) && Apart(levels) && Enabled(s, PlaceLevel(k))
    requires other in s.placed && other.side != k.side
    ensures if k.side.Buy? then k.price < other.price else other.price < k.price
  {
  }

  /** A run inside one pass. */
  predicate WithinPass(steps: seq<Step>) {
    forall i :: 0 <= i < |steps| ==> !steps[i].EndPass?
  }

  lemma {:induction false} MirroringRun(s: Sys, steps: seq<Step>, s': Sys, levels: set<Level>)
    requires Inv(s) && Mirroring(s, levels) && WithinPass(steps) && Run(s, steps, s')
    ensures Inv(s') && Mirroring(s', levels)
    decreases |steps|
  {
    if steps != [] {
      StepKeeps(s, steps[0]);
      MirroringKept(s, steps[0], levels);
      assert forall i :: 0 <= i < |steps[1..]| ==> steps[1..][i] == steps[i + 1];
      MirroringRun(Next(s, steps[0]), steps[1..], s', levels);
    }
  }

  /** In every interleaving of a pass with other people's orders: if the reference is uncrossed and
      the pass started with no stale dust, no placement trades with a synthetic order. */
  lemma PassNeverSelfTrades(s: Sys, ref: map<Level, int>, exact: bool, moved: map<Level, int>,
                            steps: seq<Step>, s': Sys, k: Level)
    requires Inv(s) && s.pc.Folded? && NoStaleDust(s.placed, ref) && Apart(ref.Keys)
    requires WithinPass(steps) && Run(Next(s, PlanPass(ref, exact, moved)), steps, s')
    requires Enabled(s', PlaceLevel(k))
    ensures forall t :: t in PlaceStep(s', k).pend ==> !t.Maker().Synth? && t.Taker() == NewId(s', k)
  {
    PassStarts(s, ref, exact, moved);
    StepKeeps(s, PlanPass(ref, exact, moved));
    MirroringRun(Next(s, PlanPass(ref, exact, moved)), steps, s', ref.Keys);
    NoSelfTrade(s', ref.Keys, k);
  }

  /** Levels wanted by the pass, for any pass: what is placed lies among `levels`. */
  ghost predicate PlacesWithin(s: Sys, levels: set<Level>) {
    s.pc.Placing? && forall k :: k in s.pc.job.plans && s.pc.job.plans[k].target > 0 ==> k in levels
  }

  /** Exactly when a placement trades with a synthetic order: when the book still holds, within
      its reach, an order of a level that is not among the wanted ones (a stale level that was
      within tolerance and therefore left behind). */
  lemma SelfTradeExactly(s: Sys, levels: set<Level>, k: Level, i: nat)
    requires Inv(s) && PlacesWithin(s, levels) && Apart(levels) && Enabled(s, PlaceLevel(k))
    requires i < |Opposite(s.book, k.side)|
    ensures (i < |PlaceStep(s, k).pend| && PlaceStep(s, k).pend[i].Maker().Synth?) <==>
            (&& Reached(s, k, i) && Opposite(s.book, k.side)[i].id.Synth?
             && LevelOf(Opposite(s.book, k.side)[i].id) in s.placed.Keys - levels)
  {
    PlacementTrades(s, k, i);
    var o := Opposite(s.book, k.side)[i];
    if Reached(s, k, i) && o.id.Synth? {
      OppositeLevel(s, k, i);
      assert k in levels;
    }
  }

  // ----- the outcome of a pass -----------------------------------------------------------

  function PassJob(plans: map<Level, Plan>): Job {
    Job(plans, CONVERGE_EPS, {}, {})
  }

  /** What a pass that nothing interrupts makes of the record. */
  ghost predicate PassResult(before: map<Level, Tracked>, plans: map<Level, Plan>, nonce: nat,
      after: map<Level, Tracked>) {
    && (forall k :: k in after ==> k in plans)
    && (forall k :: k in plans ==>
          if Keeps(before, PassJob(plans), k) then k in before && k in after && after[k] == before[k]
          else if plans[k].target > 0 then
            k in after && after[k].volume == plans[k].target && after[k].id.Synth? && after[k].id.generation > nonce
          else k !in after)
  }

  /** An exact pass leaves every level that the reference has in the record, within the tolerance. */
  lemma LevelMirrored(before: map<Level, Tracked>, ref: map<Level, int>, moved: map<Level, int>, nonce: nat,
      after: map<Level, Tracked>, k: Level)
    requires PassResult(before, MakePlans(before, ref, true, moved), nonce, after) && k in ref && ref[k] > 0
    ensures k in after && Abs(after[k].volume - ref[k]) <= CONVERGE_EPS
  {
    assert k in MakePlans(before, ref, true, moved);
  }

  /** And no other level, except one whose volume was within the tolerance of none. */
  lemma OtherIsDust(before: map<Level, Tracked>, ref: map<Level, int>, moved: map<Level, int>, nonce: nat,
      after: map<Level, Tracked>, k: Level)
    requires PassResult(before, MakePlans(before, ref, true, moved), nonce, after) && k in after
    requires k in ref ==> ref[k] <= 0
    ensures k in before && after[k] == before[k] && after[k].volume <= CONVERGE_EPS
  {
    assert k in MakePlans(before, ref, true, moved);
  }

  /** One exact pass: every reference level is tracked within the tolerance, and anything else
      still tracked is stale dust; so the tracked levels are exactly the reference's if and only if
      there was no stale dust to begin with. */
  lemma ExactPassMirrors(before: map<Level, Tracked>, ref: map<Level, int>, nonce: nat, after: map<Level, Tracked>)
    requires forall k :: k in before ==> before[k].volume > 0
    requires forall k :: k in ref ==> ref[k] > 0
    requires PassResult(before, MakePlans(before, ref, true, map[]), nonce, after)
    ensures forall k :: k in ref ==> k in after && Abs(after[k].volume - ref[k]) <= CONVERGE_EPS
    ensures forall k :: k in after && k !in ref ==>
        k in before && after[k] == before[k] && after[k].volume <= CONVERGE_EPS
    ensures after.Keys == ref.Keys <==> NoStaleDust(before, ref)
  {
    var plans := MakePlans(before, ref, true, map[]);
    forall k | k in ref ensures k in after && Abs(after[k].volume - ref[k]) <= CONVERGE_EPS {
      LevelMirrored(before, ref, map[], nonce, after, k);
    }
    if NoStaleDust(before, ref) {
      forall k | k in after ensures k in ref {
        assert k in plans;
      }
      assert after.Keys == ref.Keys;
    } else {
      var k :| k in before && k !in ref && before[k].volume <= CONVERGE_EPS;
      assert k in plans && Keeps(before, PassJob(plans), k);
      assert k in after.Keys && k !in ref.Keys;
    }
  }

  /** A second exact pass finds every level within tolerance: it changes no record. */
  lemma SecondPassIdle(before: map<Level, Tracked>, ref: map<Level, int>, nonce: nat,
                       after: map<Level, Tracked>, nonce': nat, again: map<Level, Tracked>)
    requires forall k :: k in before ==> before[k].volume > 0
    requires forall k :: k in ref ==> ref[k] > 0
    requires PassResult(before, MakePlans(before, ref, true, map[]), nonce, after)
    requires PassResult(after, MakePlans(after, ref, true, map[]), nonce', again)
    ensures forall k :: k in MakePlans(after, ref, true, map[]) ==>
              Keeps(after, PassJob(MakePlans(after, ref, true, map[])), k)
    ensures again == after
  {
    ExactPassMirrors(before, ref, nonce, after);
    var plans := MakePlans(after, ref, true, map[]);
    forall k | k in plans ensures Keeps(after, PassJob(plans), k) {
      if k in ref { assert k in after; } else { assert k in after; }
    }
    assert forall k :: k in again <==> k in after;
  }

  /** A partial pass moves a level of the reference by what the factor makes of its distance, up to the
      tolerance, and leaves it with nothing but dust when that is nothing. */
  lemma PartialPassMoves(before: map<Level, Tracked>, ref: map<Level, int>, moved: map<Level, int>,
                         nonce: nat, after: map<Level, Tracked>, k: Level)
    requires PassResult(before, MakePlans(before, ref, false, moved), nonce, after) && k in ref && k in moved
    ensures var goal := (if k in before then before[k].volume else 0) + moved[k];
            && (goal > 0 ==> k in after && Abs(after[k].volume - goal) <= CONVERGE_EPS)
            && (goal <= 0 && k in after ==> after[k].volume <= CONVERGE_EPS)
  {
    assert k in MakePlans(before, ref, false, moved);
  }

  /** And a level that has left the reference is drained at once, in a partial pass as in an exact one. */
  lemma StaleDrained(before: map<Level, Tracked>, ref: map<Level, int>, exact: bool, moved: map<Level, int>,
                     nonce: nat, after: map<Level, Tracked>, k: Level)
    requires PassResult(before, MakePlans(before, ref, exact, moved), nonce, after) && k !in ref && k in after
    ensures k in before && after[k] == before[k] && after[k].volume <= CONVERGE_EPS
  {
    assert k in MakePlans(before, ref, exact, moved);
  }

  /** Part-way convergence never overshoots: if the float factor moves each level toward its
      reference volume without passing it, every level ends at least as close as it was. */
  lemma PartialPassApproaches(before: map<Level, Tracked>, ref: map<Level, int>, moved: map<Level, int>,
                              nonce: nat, after: map<Level, Tracked>, k: Level)
    requires forall j :: j in before ==> before[j].volume > 0
    requires PassResult(before, MakePlans(before, ref, false, moved), nonce, after)
    requires k in ref && ref[k] > 0 && k in moved
    requires var c := if k in before then before[k].volume else 0;
             Min(0, ref[k] - c) <= moved[k] <= -Min(0, c - ref[k])
    ensures var c := if k in before then before[k].volume else 0;
            var c' := if k in after then after[k].volume else 0;
            Abs(ref[k] - c') <= Abs(ref[k] - c)
  {
    assert k in MakePlans(before, ref, false, moved);
  }
}
