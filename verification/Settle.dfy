/**
 The options expiry sweep (internal/optmarket/settle.go). Any number of passes run at once; the
 claim is the only thing that serializes them. Prices come from outside and may be missing.
 */
module Settle {
  import opened Common

  /** A listed contract as one pass sees it. */
  datatype Contract = Contract(sym: string, exotic: bool, expired: bool)

  datatype Record = Record(sym: string, exotic: bool, perUnit: int)

  /** Where a pass is. A pass holds its contract's claim from Claimed until the record is written. */
  datatype Phase =
    | Looking
    | Claimed(c: Contract)
    | Listing(rec: Record)
    | Cancelling(rec: Record, left: set<nat>)
    | Recorded(rec: Record)
    | Draining(keys: set<string>)
    | DrainingOne(sym: string, left: set<nat>, keys: set<string>)

  datatype Pass = Pass(todo: seq<Contract>, phase: Phase)

  /** `hooks` is every call of the cash hook, in order; `resting` the engine's open orders. */
  datatype Sys = Sys(
    settled: set<string>, records: seq<Record>, hooks: seq<Record>, resting: map<string, set<nat>>,
        passes: map<nat, Pass>)

  const INITIAL: Sys := Sys({}, [], [], map[], map[])

  function Resting(s: Sys, sym: string): set<nat> {
    if sym in s.resting then s.resting[sym] else {}
  }

  // ----- steps ---------------------------------------------------------------------------

  datatype Step =
    | StartPass(p: nat, listing: seq<Contract>)
    | PassOver(p: nat)
    | Claim(p: nat)
    | NoValue(p: nat)
    | Priced(p: nat, perUnit: int)
    | ListOrders(p: nat)
    | CancelOne(p: nat, id: nat, ok: bool)
    | WriteRecord(p: nat)
    | FireHook(p: nat, held: bool)
    | StartDrain(p: nat)
    | DrainNext(p: nat, sym: string)
    | EndPass(p: nat)
    | PlaceOrder(sym: string, id: nat)
    | RemoveOrder(sym: string, id: nat)

  predicate At(s: Sys, p: nat) {
    p in s.passes && s.passes[p].phase.Looking? && s.passes[p].todo != []
  }

  ghost predicate Enabled(s: Sys, step: Step) {
    match step
    case StartPass(p, _) => p !in s.passes
    case PassOver(p) => At(s, p) && (!s.passes[p].todo[0].expired || s.passes[p].todo[0].sym in s.settled)
    case Claim(p) => At(s, p) && s.passes[p].todo[0].expired && s.passes[p].todo[0].sym !in s.settled
    case NoValue(p) => p in s.passes && s.passes[p].phase.Claimed?
    case Priced(p, _) => p in s.passes && s.passes[p].phase.Claimed?
    case ListOrders(p) => p in s.passes && s.passes[p].phase.Listing?
    case CancelOne(p, id, _) =>
      p in s.passes && (s.passes[p].phase.Cancelling? || s.passes[p].phase.DrainingOne?) && id in s.passes[p].phase.left
    case WriteRecord(p) => p in s.passes && s.passes[p].phase.Cancelling? && s.passes[p].phase.left == {}
    case FireHook(p, _) => p in s.passes && s.passes[p].phase.Recorded?
    case StartDrain(p) => p in s.passes && s.passes[p].phase.Looking? && s.passes[p].todo == []
    case DrainNext(p, sym) => p in s.passes && s.passes[p].phase.Draining? && sym in s.passes[p].phase.keys
    case EndPass(p) => p in s.passes && s.passes[p].phase == Draining({})
    case PlaceOrder(_, _) => true
    case RemoveOrder(_, _) => true
  }

  function To(s: Sys, p: nat, phase: Phase): Sys
    requires p in s.passes
  {
    s.(passes := s.passes[p := s.passes[p].(phase := phase)])
  }

  /** Done with the contract at hand. */
  function Onward(s: Sys, p: nat): Sys
    requires p in s.passes
  {
    var pass := s.passes[p];
    s.(passes := s.passes[p := Pass(if pass.todo == [] then [] else pass.todo[1..], Looking)])
  }

  function Without(s: Sys, sym: string, id: nat): Sys {
    s.(resting := s.resting[sym := Resting(s, sym) - {id}])
  }

  ghost function Next(s: Sys, step: Step): Sys
    requires Enabled(s, step)
  {
    match step
    case StartPass(p, listing) => s.(passes := s.passes[p := Pass(listing, Looking)])
    case PassOver(p) => Onward(s, p)
    case Claim(p) => To(s.(settled := s.settled + {s.passes[p].todo[0].sym}), p, Claimed(s.passes[p].todo[0]))
    case NoValue(p) => Onward(s.(settled := s.settled - {s.passes[p].phase.c.sym}), p)
    case Priced(p, perUnit) => To(s, p, Listing(Record(s.passes[p].phase.c.sym, s.passes[p].phase.c.exotic, perUnit)))
    case ListOrders(p) => To(s, p, Cancelling(s.passes[p].phase.rec, Resting(s, s.passes[p].phase.rec.sym)))
    case CancelOne(p, id, ok) => CancelStep(s, p, id, ok)
    case WriteRecord(p) => To(s.(records := s.records + [s.passes[p].phase.rec]), p, Recorded(s.passes[p].phase.rec))
    case FireHook(p, held) => Onward(if held then s.(hooks := s.hooks + [s.passes[p].phase.rec]) else s, p)
    case StartDrain(p) => To(s, p, Draining(s.settled))
    case DrainNext(p, sym) =>
      var keys := s.passes[p].phase.keys - {sym};
      To(s, p, if Resting(s, sym) == {} then Draining(keys) else DrainingOne(sym, Resting(s, sym), keys))
    case EndPass(p) => s.(passes := s.passes - {p})
    case PlaceOrder(sym, id) => s.(resting := s.resting[sym := Resting(s, sym) + {id}])
    case RemoveOrder(sym, id) => Without(s, sym, id)
  }

  /** A cancel that fails (the order has gone meanwhile, or the engine refuses) is logged and the sweep
      goes on. */
  function CancelStep(s: Sys, p: nat, id: nat, ok: bool): Sys
    requires p in s.passes && (s.passes[p].phase.Cancelling? || s.passes[p].phase.DrainingOne?)
  {
    match s.passes[p].phase
    case Cancelling(rec, left) => To(if ok then Without(s, rec.sym, id) else s, p, Cancelling(rec, left - {id}))
    case DrainingOne(sym, left, keys) =>
      To(if ok then Without(s, sym, id) else s, p, if left - {id} == {} then Draining(keys)
          else DrainingOne(sym, left - {id}, keys))
    case Looking => s
    case Claimed(_) => s
    case Listing(_) => s
    case Recorded(_) => s
    case Draining(_) => s
  }

  // ----- the invariant -------------------------------------------------------------------

  /** The symbol whose claim a pass holds without having written its record yet. */
  function Holding(phase: Phase): Option<string> {
    match phase
    case Claimed(c) => Some(c.sym)
    case Listing(rec) => Some(rec.sym)
    case Cancelling(rec, _) => Some(rec.sym)
    case Looking => None
    case Recorded(_) => None
    case Draining(_) => None
    case DrainingOne(_, _, _) => None
  }

  predicate Holds(s: Sys, p: nat, sym: string) {
    p in s.passes && Holding(s.passes[p].phase) == Some(sym)
  }

  predicate HookOwed(s: Sys, p: nat, sym: string) {
    p in s.passes && s.passes[p].phase.Recorded? && s.passes[p].phase.rec.sym == sym
  }

  predicate Has(records: seq<Record>, sym: string) {
    exists i :: 0 <= i < |records| && records[i].sym == sym
  }

  predicate Distinct(records: seq<Record>) {
    forall i, j :: 0 <= i < j < |records| ==> records[i].sym != records[j].sym
  }

  ghost predicate Inv(s: Sys) {
    && Distinct(s.records) && Distinct(s.hooks)
    && (forall sym :: sym in s.settled <==> Has(s.records, sym) || exists p :: Holds(s, p, sym))
    && (forall p, sym :: Holds(s, p, sym) ==> !Has(s.records, sym))
    && (forall p, q, sym :: Holds(s, p, sym) && Holds(s, q, sym) ==> p == q)
    && (forall sym :: Has(s.hooks, sym) ==> Has(s.records, sym))
    && (forall p, sym :: HookOwed(s, p, sym) ==> Has(s.records, sym) && !Has(s.hooks, sym))
    && (forall p, q, sym :: HookOwed(s, p, sym) && HookOwed(s, q, sym) ==> p == q)
  }

  lemma HasAppend(records: seq<Record>, rec: Record)
    ensures forall sym :: Has(records + [rec], sym) <==> Has(records, sym) || rec.sym == sym
    ensures Distinct(records) && !Has(records, rec.sym) ==> Distinct(records + [rec])
  {
    forall sym ensures Has(records + [rec], sym) <==> Has(records, sym) || rec.sym == sym {
      if Has(records, sym) {
        var i :| 0 <= i < |records| && records[i].sym == sym;
        assert (records + [rec])[i].sym == sym;
      }
      assert (records + [rec])[|records|] == rec;
    }
  }

  /** A step that neither takes nor drops a claim, nor writes a record or fires a hook. */
  ghost predicate Quiet(s: Sys, s': Sys) {
    && s'.settled == s.settled && s'.records == s.records && s'.hooks == s.hooks
    && (forall p, sym :: Holds(s', p, sym) <==> Holds(s, p, sym))
    && (forall p, sym :: HookOwed(s', p, sym) <==> HookOwed(s, p, sym))
  }

  lemma QuietKeeps(s: Sys, s': Sys)
    requires Inv(s) && Quiet(s, s')
    ensures Inv(s')
  {
    hide Has, Holds, HookOwed, Distinct;
    forall sym ensures sym in s'.settled <==> Has(s'.records, sym) || exists p :: Holds(s', p, sym) {
      if p :| Holds(s, p, sym) { assert Holds(s', p, sym); }
      if p :| Holds(s', p, sym) { assert Holds(s, p, sym); }
    }
  }

  /** What a step does to who holds what: pass p goes from `was` to `now`, everybody else stays. */
  ghost predicate Moved(s: Sys, s': Sys, p: nat, was: Option<string>, now: Option<string>, owed: Option<string>,
      owes: Option<string>) {
    && (forall q, sym :: Holds(s, q, sym) <==> (if q == p then was == Some(sym) else Holds(s', q, sym)))
    && (forall q, sym :: Holds(s', q, sym) <==> (if q == p then now == Some(sym) else Holds(s, q, sym)))
    && (forall q, sym :: HookOwed(s, q, sym) <==> (if q == p then owed == Some(sym) else HookOwed(s', q, sym)))
    && (forall q, sym :: HookOwed(s', q, sym) <==> (if q == p then owes == Some(sym) else HookOwed(s, q, sym)))
  }

  lemma ClaimKeeps(s: Sys, p: nat)
    requires Inv(s) && Enabled(s, Claim(p))
    ensures Inv(Next(s, Claim(p)))
  {
    var s', mine := Next(s, Claim(p)), s.passes[p].todo[0].sym;
    assert Moved(s, s', p, None, Some(mine), None, None);
    hide Has, Distinct, Holds, HookOwed;
    forall sym ensures sym in s'.settled <==> Has(s'.records, sym) || exists q :: Holds(s', q, sym) {
      if q :| Holds(s, q, sym) { assert Holds(s', q, sym); }
      assert Holds(s', p, mine);
    }
  }

  lemma NoValueKeeps(s: Sys, p: nat)
    requires Inv(s) && Enabled(s, NoValue(p))
    ensures Inv(Next(s, NoValue(p)))
  {
    var s', mine := Next(s, NoValue(p)), s.passes[p].phase.c.sym;
    assert Moved(s, s', p, Some(mine), None, None, None);
    hide Has, Distinct, Holds, HookOwed;
    assert Holds(s, p, mine);
    forall sym ensures sym in s'.settled <==> Has(s'.records, sym) || exists q :: Holds(s', q, sym) {
      if q :| Holds(s, q, sym) { assert q != p ==> Holds(s', q, sym); }
    }
  }

  lemma WriteKeeps(s: Sys, p: nat)
    requires Inv(s) && Enabled(s, WriteRecord(p))
    ensures Inv(Next(s, WriteRecord(p)))
  {
    var s', rec := Next(s, WriteRecord(p)), s.passes[p].phase.rec;
    assert Moved(s, s', p, Some(rec.sym), None, None, Some(rec.sym));
    HasAppend(s.records, rec);
    hide Has, Distinct, Holds, HookOwed;
    assert Holds(s, p, rec.sym);
    forall sym ensures sym in s'.settled <==> Has(s'.records, sym) || exists q :: Holds(s', q, sym) {
      if q :| Holds(s, q, sym) { assert q != p ==> Holds(s', q, sym); }
    }
  }

  lemma HookKeeps(s: Sys, p: nat, held: bool)
    requires Inv(s) && Enabled(s, FireHook(p, held))
    ensures Inv(Next(s, FireHook(p, held)))
  {
    var s', rec := Next(s, FireHook(p, held)), s.passes[p].phase.rec;
    assert Moved(s, s', p, None, None, Some(rec.sym), None);
    HasAppend(s.hooks, rec);
    hide Has, Distinct, Holds, HookOwed;
    assert HookOwed(s, p, rec.sym);
    forall sym ensures sym in s'.settled <==> Has(s'.records, sym) || exists q :: Holds(s', q, sym) {
      if q :| Holds(s, q, sym) { assert Holds(s', q, sym); }
    }
  }

  predicate ChangesClaims(step: Step) {
    step.Claim? || step.NoValue? || step.WriteRecord? || step.FireHook?
  }

  lemma QuietStep(s: Sys, step: Step)
    requires Enabled(s, step) && !ChangesClaims(step)
    ensures Quiet(s, Next(s, step))
  {
    hide Has, Distinct;
    if step.CancelOne? {
      QuietCancel(s, step.p, step.id, step.ok);
    } else {
      hide CancelStep;
    }
  }

  lemma QuietCancel(s: Sys, p: nat, id: nat, ok: bool)
    requires Enabled(s, CancelOne(p, id, ok))
    ensures Quiet(s, CancelStep(s, p, id, ok))
  {
    hide Has, Distinct;
  }

  lemma StepKeeps(s: Sys, step: Step)
    requires Inv(s) && Enabled(s, step)
    ensures Inv(Next(s, step))
  {
    hide Inv, Quiet, Enabled;
    if step.Claim? {
      ClaimKeeps(s, step.p);
    } else if step.NoValue? {
      NoValueKeeps(s, step.p);
    } else if step.WriteRecord? {
      WriteKeeps(s, step.p);
    } else if step.FireHook? {
      HookKeeps(s, step.p, step.held);
    } else {
      QuietStep(s, step);
      QuietKeeps(s, Next(s, step));
    }
  }

  ghost predicate Run(s: Sys, steps: seq<Step>, s': Sys)
    decreases |steps|
  {
    if steps == [] then s' == s else Enabled(s, steps[0]) && Run(Next(s, steps[0]), steps[1..], s')
  }

  lemma {:induction false} RunKeeps(s: Sys, steps: seq<Step>, s': Sys)
    requires Inv(s) && Run(s, steps, s')
    ensures Inv(s')
    decreases |steps|
  {
    if steps != [] {
      StepKeeps(s, steps[0]);
      RunKeeps(Next(s, steps[0]), steps[1..], s');
    }
  }

  /** Under any interleaving of passes, every contract has at most one settlement record and at most
      one cash-hook call, and no hook call without its record. */
  lemma SettledAtMostOnce(steps: seq<Step>, s: Sys)
    requires Run(INITIAL, steps, s)
    ensures Distinct(s.records) && Distinct(s.hooks) && forall sym :: Has(s.hooks, sym) ==> Has(s.records, sym)
  {
    assert Inv(INITIAL);
    RunKeeps(INITIAL, steps, s);
  }

  /** With no pass running, a contract is marked settled exactly when it has its (one) record. */
  lemma SettledExactlyWhenRecorded(steps: seq<Step>, s: Sys, sym: string)
    requires Run(INITIAL, steps, s) && s.passes == map[]
    ensures sym in s.settled <==> Has(s.records, sym)
  {
    assert Inv(INITIAL);
    RunKeeps(INITIAL, steps, s);
    assert forall p :: !Holds(s, p, sym);
  }

  /** A contract whose value was not available can be claimed again, by whichever pass gets to it next. */
  lemma UnavailableIsRetried(steps: seq<Step>, s: Sys, p: nat, q: nat)
    requires Run(INITIAL, steps, s) && Enabled(s, NoValue(p))
    requires q != p && At(s, q) && s.passes[q].todo[0].expired && s.passes[q].todo[0].sym == s.passes[p].phase.c.sym
    ensures !Enabled(s, Claim(q)) && Enabled(Next(s, NoValue(p)), Claim(q))
    ensures !Has(Next(s, NoValue(p)).records, s.passes[p].phase.c.sym)
  {
    assert Inv(INITIAL);
    RunKeeps(INITIAL, steps, s);
    assert Holds(s, p, s.passes[p].phase.c.sym);
  }

  lemma {:induction false} RunThen(s: Sys, first: seq<Step>, mid: Sys, second: seq<Step>, s': Sys)
    requires Run(s, first, mid) && Run(mid, second, s')
    ensures Run(s, first + second, s')
    decreases |first|
  {
    if first == [] {
      assert first + second == second;
    } else {
      RunThen(Next(s, first[0]), first[1..], mid, second, s');
      assert (first + second)[1..] == first[1..] + second;
    }
  }

  lemma FourSteps(s: Sys, steps: seq<Step>, s1: Sys, s2: Sys, s3: Sys, s4: Sys)
    requires |steps| == 4
    requires Enabled(s, steps[0]) && s1 == Next(s, steps[0]) && Enabled(s1, steps[1]) && s2 == Next(s1, steps[1])
    requires Enabled(s2, steps[2]) && s3 == Next(s2, steps[2]) && Enabled(s3, steps[3]) && s4 == Next(s3, steps[3])
    ensures Run(s, steps, s4)
  {
    hide Enabled, Next;
    assert steps[1..] == [steps[1], steps[2], steps[3]] && steps[1..][1..] == [steps[2], steps[3]];
    assert steps[1..][1..][1..] == [steps[3]] && steps[1..][1..][1..][1..] == [];
    assert Run(s4, [], s4) && Run(s3, [steps[3]], s4) && Run(s2, [steps[2], steps[3]], s4) && Run(s1, steps[1..], s4);
  }

  /** Pass p holds the claim on an expired contract with one resting order; pass q has nothing to do. */
  ghost function ClaimedAndIdle(p: nat, q: nat, c: Contract, id: nat): Sys {
    Sys({c.sym}, [], [], map[c.sym := {id}], map[p := Pass([c], Claimed(c)), q := Pass([], Looking)])
  }

  function ToClaimed(p: nat, q: nat, c: Contract, id: nat): seq<Step> {
    [StartPass(p, [c]), Claim(p), StartPass(q, []), PlaceOrder(c.sym, id)]
  }

  lemma ClaimedReached(p: nat, q: nat, c: Contract, id: nat)
    requires p != q && c.expired
    ensures Run(INITIAL, ToClaimed(p, q, c, id), ClaimedAndIdle(p, q, c, id))
  {
    var s1 := INITIAL.(passes := map[p := Pass([c], Looking)]);
    var s2 := s1.(settled := {c.sym}, passes := map[p := Pass([c], Claimed(c))]);
    var s3 := s2.(passes := map[p := Pass([c], Claimed(c)), q := Pass([], Looking)]);
    assert {} + {c.sym} == {c.sym} && Resting(s3, c.sym) + {id} == {id};
    assert Next(s2, StartPass(q, [])).passes == s3.passes;
    FourSteps(INITIAL, ToClaimed(p, q, c, id), s1, s2, s3, ClaimedAndIdle(p, q, c, id));
  }

  function DrainIt(p: nat, q: nat, c: Contract, id: nat): seq<Step> {
    [StartDrain(q), DrainNext(q, c.sym), CancelOne(q, id, true), NoValue(p)]
  }

  /** The drain of pass q has found the order, or cancelled it. */
  ghost function FoundByDrain(p: nat, q: nat, c: Contract, id: nat): Sys {
    ClaimedAndIdle(p, q, c, id).(passes := map[p := Pass([c], Claimed(c)), q := Pass([], DrainingOne(c.sym, {id}, {}))])
  }

  lemma DrainFinds(p: nat, q: nat, c: Contract, id: nat)
    requires p != q
    ensures var s0 := ClaimedAndIdle(p, q, c, id);
            && Enabled(s0, StartDrain(q)) && Enabled(Next(s0, StartDrain(q)), DrainNext(q, c.sym))
            && Next(Next(s0, StartDrain(q)), DrainNext(q, c.sym)) == FoundByDrain(p, q, c, id)
  {
    var s1 := Next(ClaimedAndIdle(p, q, c, id), StartDrain(q));
    assert s1.passes[q].phase == Draining({c.sym}) && {c.sym} - {c.sym} == {};
  }

  lemma DrainCancels(p: nat, q: nat, c: Contract, id: nat)
    requires p != q
    ensures var s2 := FoundByDrain(p, q, c, id);
            && Enabled(s2, CancelOne(q, id, true)) && Enabled(Next(s2, CancelOne(q, id, true)), NoValue(p))
            && Next(Next(s2, CancelOne(q, id, true)), NoValue(p))
               == Sys({}, [], [], map[c.sym := {}], map[p := Pass([], Looking), q := Pass([], Draining({}))])
  {
    var s3 := Next(FoundByDrain(p, q, c, id), CancelOne(q, id, true));
    assert {id} - {id} == {} && {c.sym} - {c.sym} == {};
    assert s3.passes[p] == Pass([c], Claimed(c)) && s3.resting == map[c.sym := {}];
    assert [c][1..] == [];
  }

  lemma DrainedUnsettled(p: nat, q: nat, c: Contract, id: nat) returns (s: Sys)
    requires p != q && c.expired
    ensures Run(ClaimedAndIdle(p, q, c, id), DrainIt(p, q, c, id), s)
    ensures s == Sys({}, [], [], map[c.sym := {}], map[p := Pass([], Looking), q := Pass([], Draining({}))])
  {
    var s0, s2 := ClaimedAndIdle(p, q, c, id), FoundByDrain(p, q, c, id);
    DrainFinds(p, q, c, id);
    DrainCancels(p, q, c, id);
    hide Enabled, Next, ClaimedAndIdle, FoundByDrain;
    s := Next(Next(s2, CancelOne(q, id, true)), NoValue(p));
    FourSteps(s0, DrainIt(p, q, c, id), Next(s0, StartDrain(q)), s2, Next(s2, CancelOne(q, id, true)), s);
  }

  /** The drain takes claimed contracts for settled ones. From a fresh market: one pass claims an
      expired contract, another drains meanwhile and cancels its order, the first finds no value and
      gives the claim back. The order is gone and nothing was settled. */
  lemma DrainCanHitUnsettled(p: nat, q: nat, c: Contract, id: nat)
    requires p != q && c.expired
    ensures exists s :: Run(INITIAL, ToClaimed(p, q, c, id) + DrainIt(p, q, c, id), s)
              && Resting(s, c.sym) == {} && c.sym !in s.settled && s.records == []
  {
    ClaimedReached(p, q, c, id);
    var s := DrainedUnsettled(p, q, c, id);
    RunThen(INITIAL, ToClaimed(p, q, c, id), ClaimedAndIdle(p, q, c, id), DrainIt(p, q, c, id), s);
  }

  /** Exactly when that threatens: in every reachable state a drain that starts takes the keys with a
      record and the keys some other pass holds the claim of at that moment, and these are all it
      takes; a key it takes has no record if and only if another pass holds it. */
  lemma DrainTakesExactly(steps: seq<Step>, s: Sys, q: nat, sym: string)
    requires Run(INITIAL, steps, s) && Enabled(s, StartDrain(q))
    ensures var keys := Next(s, StartDrain(q)).passes[q].phase.keys;
            && (sym in keys <==> Has(s.records, sym) || exists p :: p != q && Holds(s, p, sym))
            && (sym in keys ==> (!Has(s.records, sym) <==> exists p :: p != q && Holds(s, p, sym)))
  {
    assert Inv(INITIAL);
    RunKeeps(INITIAL, steps, s);
    hide Has, Distinct;
    assert !Holds(s, q, sym);
  }

  // ----- the object ----------------------------------------------------------------------

  /** The records one uninterrupted pass adds: expired contracts not settled before whose value is
      available, in listing order. */
  function Swept(settled: set<string>, listing: seq<Contract>, values: map<string, int>): seq<Record>
    decreases |listing|
  {
    if listing == [] then []
    else
      var c := listing[0];
      if c.expired && c.sym !in settled && c.sym in values
      then [Record(c.sym, c.exotic, values[c.sym])] + Swept(settled + {c.sym}, listing[1..], values)
      else Swept(settled, listing[1..], values)
  }

  function Symbols(records: seq<Record>): set<string> {
    set i | 0 <= i < |records| :: records[i].sym
  }

  function HeldOnly(records: seq<Record>, held: set<string>): seq<Record> {
    if records == [] then []
    else
      var last := records[|records| - 1];
      HeldOnly(records[..|records| - 1], held) + (if last.sym in held then [last] else [])
  }

  /** A sweep settles no contract twice, none that was settled, and exactly those it can. */
  lemma {:induction false} SweptExactly(settled: set<string>, listing: seq<Contract>, values: map<string, int>)
    ensures Distinct(Swept(settled, listing, values))
    ensures forall sym :: sym in Symbols(Swept(settled, listing, values)) <==>
              sym !in settled && sym in values && ListedExpired(listing, sym)
    decreases |listing|
  {
    if listing != [] {
      var c, out := listing[0], Swept(settled, listing[1..], values);
      SweptExactly(settled, listing[1..], values);
      SweptExactly(settled + {c.sym}, listing[1..], values);
      ListedCons(listing);
      if c.expired && c.sym !in settled && c.sym in values {
        var rest := Swept(settled + {c.sym}, listing[1..], values);
        var rec := Record(c.sym, c.exotic, values[c.sym]);
        SymbolsCons(rec, rest);
        assert c.sym !in Symbols(rest);
      }
    }
  }

  /** Each record carries its contract's settlement value and kind. */
  lemma {:induction false} SweptValues(settled: set<string>, listing: seq<Contract>, values: map<string, int>,
      rec: Record)
    requires rec in Swept(settled, listing, values)
    ensures rec.sym in values && rec.perUnit == values[rec.sym]
    ensures exists c :: c in listing && c.expired && c.sym == rec.sym && c.exotic == rec.exotic
    decreases |listing|
  {
    var c := listing[0];
    if c.expired && c.sym !in settled && c.sym in values {
      var rest := Swept(settled + {c.sym}, listing[1..], values);
      if rec in rest {
        SweptValues(settled + {c.sym}, listing[1..], values, rec);
      } else {
        assert rec == Record(c.sym, c.exotic, values[c.sym]) && c in listing;
      }
    } else {
      SweptValues(settled, listing[1..], values, rec);
    }
  }

  /** The hook is called with exactly the records in which there is a position. */
  lemma {:induction false} HeldExactly(records: seq<Record>, held: set<string>, rec: Record)
    ensures multiset(HeldOnly(records, held))[rec] == if rec.sym in held then multiset(records)[rec] else 0
    decreases |records|
  {
    if records != [] {
      var n := |records| - 1;
      HeldExactly(records[..n], held, rec);
      assert records == records[..n] + [records[n]];
    }
  }

  predicate ListedExpired(listing: seq<Contract>, sym: string) {
    exists i :: 0 <= i < |listing| && listing[i].expired && listing[i].sym == sym
  }

  lemma ListedCons(listing: seq<Contract>)
    requires listing != []
    ensures forall sym :: ListedExpired(listing, sym) <==>
              (listing[0].expired && listing[0].sym == sym) || ListedExpired(listing[1..], sym)
  {
    forall sym ensures ListedExpired(listing, sym) <==>
                         (listing[0].expired && listing[0].sym == sym) || ListedExpired(listing[1..], sym)
    {
      if ListedExpired(listing, sym) {
        var i :| 0 <= i < |listing| && listing[i].expired && listing[i].sym == sym;
        assert i > 0 ==> listing[1..][i - 1] == listing[i];
      }
      if ListedExpired(listing[1..], sym) {
        var i :| 0 <= i < |listing[1..]| && listing[1..][i].expired && listing[1..][i].sym == sym;
        assert listing[i + 1] == listing[1..][i];
      }
    }
  }

  lemma SymbolsCons(rec: Record, rest: seq<Record>)
    ensures Symbols([rec] + rest) == {rec.sym} + Symbols(rest)
    ensures Distinct(rest) && rec.sym !in Symbols(rest) ==> Distinct([rec] + rest)
  {
    var all := [rec] + rest;
    assert forall i :: 0 <= i < |rest| ==> all[i + 1] == rest[i];
    forall sym ensures sym in Symbols(all) <==> sym == rec.sym || sym in Symbols(rest) {
      if sym in Symbols(all) {
        var i :| 0 <= i < |all| && all[i].sym == sym;
        assert i > 0 ==> rest[i - 1].sym == sym;
      }
      assert all[0].sym == rec.sym;
      if sym in Symbols(rest) {
        var i :| 0 <= i < |rest| && rest[i].sym == sym;
        assert all[i + 1].sym == sym;
      }
    }
  }

  /** A second pass over the same contracts and values settles nothing. */
  lemma SecondSweepIdle(settled: set<string>, listing: seq<Contract>, values: map<string, int>)
    ensures Swept(settled + Symbols(Swept(settled, listing, values)), listing, values) == []
  {
    var done := settled + Symbols(Swept(settled, listing, values));
    SweptExactly(settled, listing, values);
    SweptExactly(done, listing, values);
    var again := Swept(done, listing, values);
    assert Symbols(again) == {};
    FirstSymbol(again);
  }

  lemma FirstSymbol(records: seq<Record>)
    ensures records != [] ==> records[0].sym in Symbols(records)
  {
  }

  class Market {
    var settled: set<string>
    var settlements: seq<Record>
    var hooks: seq<Record>
    var resting: map<string, set<nat>>

    constructor ()
      ensures settled == {} && settlements == [] && hooks == [] && resting == map[]
    {
      settled, settlements, hooks, resting := {}, [], [], map[];
    }

    method Claim(sym: string) returns (ok: bool)
      modifies this`settled
      ensures ok == (sym !in old(settled)) && settled == old(settled) + {sym}
    {
      if sym in settled {
        assert settled == settled + {sym};
        return false;
      }
      settled := settled + {sym};
      return true;
    }

    method Unclaim(sym: string)
      modifies this`settled
      ensures settled == old(settled) - {sym}
    {
      settled := settled - {sym};
    }

    /** Cancel the listed open orders one by one; those the engine will not cancel stay. */
    method CancelResting(sym: string, stuck: set<nat>)
      modifies this`resting
      ensures resting == if sym in old(resting) then old(resting)[sym := old(resting)[sym] * stuck] else old(resting)
    {
      if sym !in resting {
        return;
      }
      var left := resting[sym];
      assert left + left * stuck == left;
      while left != {}
        invariant left <= old(resting)[sym]
        invariant sym in resting && resting == old(resting)[sym := left + old(resting)[sym] * stuck]
        decreases left
      {
        var id := NextKey(left);
        ghost var kept := old(resting)[sym] * stuck;
        if id !in stuck {
          resting := resting[sym := resting[sym] - {id}];
          assert (left + kept) - {id} == (left - {id}) + kept;
        } else {
          assert left + kept == (left - {id}) + kept;
        }
        left := left - {id};
      }
      assert left + old(resting)[sym] * stuck == old(resting)[sym] * stuck;
    }

    /** Cancel, record and pay one claimed contract. */
    method FinishSettle(c: Contract, perUnit: int, held: set<string>, stuck: set<nat>) returns (rec: Record)
      modifies this`resting, this`settlements, this`hooks
      ensures rec == Record(c.sym, c.exotic, perUnit)
      ensures settlements == old(settlements) + [rec] && hooks == old(hooks) + (if c.sym in held then [rec] else [])
      ensures resting == if c.sym in old(resting) then old(resting)[c.sym := old(resting)[c.sym] * stuck]
          else old(resting)
    {
      CancelResting(c.sym, stuck);
      rec := Record(c.sym, c.exotic, perUnit);
      settlements := settlements + [rec];
      if c.sym in held {
        hooks := hooks + [rec];
      }
    }

    /** One pass, uninterrupted: `values` has the contracts whose settlement value is available, `held`
        those in which the client has a position and `stuck` the orders the engine will not cancel. */
    method Settle(listing: seq<Contract>, values: map<string, int>, held: set<string>, stuck: set<nat>)
        returns (out: seq<Record>)
      modifies this
      ensures out == Swept(old(settled), listing, values)
      ensures settlements == old(settlements) + out && hooks == old(hooks) + HeldOnly(out, held)
      ensures settled == old(settled) + Symbols(out)
      ensures forall sym :: sym in settled && sym in resting ==>
          sym in old(resting) && resting[sym] == old(resting)[sym] * stuck
      ensures resting.Keys == old(resting).Keys
      ensures forall sym :: sym !in settled && sym in resting ==> resting[sym] == old(resting)[sym]
    {
      assert Symbols([]) == {} && HeldOnly([], held) == [];
      hide Thinned, Symbols, HeldOnly;
      out := [];
      NothingThinned(resting, settled, stuck);
      for i := 0 to |listing|
        invariant Swept(old(settled), listing, values) == out + Swept(settled, listing[i..], values)
        invariant settled == old(settled) + Symbols(out)
        invariant settlements == old(settlements) + out && hooks == old(hooks) + HeldOnly(out, held)
        invariant Thinned(old(resting), resting, settled, stuck)
      {
        var c := listing[i];
        assert listing[i..][1..] == listing[i + 1..] && listing[i..][0] == c;
        if !c.expired {
          continue;
        }
        ghost var before := settled;
        var ok := Claim(c.sym);
        if !ok {
          assert settled == before;
          continue;
        }
        if c.sym !in values {
          Unclaim(c.sym);
          assert settled == before;
          continue;
        }
        ghost var was := resting;
        var rec := FinishSettle(c, values[c.sym], held, stuck);
        OneThinned(old(resting), was, resting, before, c.sym, stuck);
        SymbolsAppend(out, rec);
        HeldAppend(out, rec, held);
        out := out + [rec];
      }
      assert listing[|listing|..] == [];
      ghost var was := resting;
      DrainSettled(stuck);
      AllThinned(old(resting), was, resting, settled, stuck);
    }

    /** Cancel the orders of everything claimed. */
    method DrainSettled(stuck: set<nat>)
      modifies this`resting
      ensures resting.Keys == old(resting).Keys
      ensures forall sym :: sym in resting ==> resting[sym] == if sym in settled then old(resting)[sym] * stuck
          else old(resting)[sym]
    {
      var left := settled;
      while left != {}
        modifies this`resting
        invariant left <= settled && resting.Keys == old(resting).Keys
        invariant forall sym :: sym in resting ==>
            resting[sym] == if sym in settled - left then old(resting)[sym] * stuck else old(resting)[sym]
        decreases left
      {
        var sym := NextKey(left);
        CancelResting(sym, stuck);
        left := left - {sym};
      }
    }
  }

  /** Orders of unsettled contracts are as they were; elsewhere at least the stuck ones are left. */
  ghost predicate Thinned(was: map<string, set<nat>>, now: map<string, set<nat>>, settled: set<string>,
      stuck: set<nat>) {
    && now.Keys == was.Keys
    && forall sym :: sym in now ==> (sym !in settled ==> now[sym] == was[sym]) && now[sym] * stuck == was[sym] * stuck
  }

  lemma NothingThinned(was: map<string, set<nat>>, settled: set<string>, stuck: set<nat>)
    ensures Thinned(was, was, settled, stuck)
  {
  }

  lemma OneThinned(first: map<string, set<nat>>, was: map<string, set<nat>>, now: map<string, set<nat>>,
      settled: set<string>, sym: string, stuck: set<nat>)
    requires Thinned(first, was, settled, stuck) && now == if sym in was then was[sym := was[sym] * stuck] else was
    ensures Thinned(first, now, settled + {sym}, stuck)
  {
    if sym in was { assert (was[sym] * stuck) * stuck == was[sym] * stuck; }
  }

  lemma AllThinned(first: map<string, set<nat>>, was: map<string, set<nat>>, now: map<string, set<nat>>,
      settled: set<string>, stuck: set<nat>)
    requires Thinned(first, was, settled, stuck) && now.Keys == was.Keys
    requires forall sym :: sym in now ==> now[sym] == if sym in settled then was[sym] * stuck else was[sym]
    ensures now.Keys == first.Keys
    ensures forall sym :: sym in now ==> now[sym] == if sym in settled then first[sym] * stuck else first[sym]
  {
  }

  lemma HeldAppend(out: seq<Record>, rec: Record, held: set<string>)
    ensures HeldOnly(out + [rec], held) == HeldOnly(out, held) + (if rec.sym in held then [rec] else [])
  {
    assert (out + [rec])[..|out|] == out;
  }

  lemma SymbolsAppend(out: seq<Record>, rec: Record)
    ensures Symbols(out + [rec]) == Symbols(out) + {rec.sym}
  {
    var all := out + [rec];
    forall sym ensures sym in Symbols(all) <==> sym == rec.sym || sym in Symbols(out) {
      if sym in Symbols(out) {
        var i :| 0 <= i < |out| && out[i].sym == sym;
        assert all[i].sym == sym;
      }
      assert all[|out|].sym == rec.sym;
    }
  }
}
