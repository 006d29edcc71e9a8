/**
 The seeder (internal/emulator/seeder.go) as a concurrent state machine over the matching
 engine. A pass holds the seeder's own lock from start to end, but the book changes under it:
 outsiders trade and cancel between any two of its engine calls, and the trade hooks that report
 fills write to a buffer with a lock of its own. Every region under one lock is one step.
 */
module Seeding {
  import opened Common
  import opened FixedPoint
  import opened Orders
  import opened Matching

  // 10^-9: a level this close to its target is left alone.
  const CONVERGE_EPS: int := 1_000_000_000

  /** A price level of one side: what the level key string identifies. */
  datatype Level = Level(side: Side, price: int)

  datatype Tracked = Tracked(id: OrderId, volume: int)

  /** One level's share of a pass: the volume it should have, and the order it has now. */
  datatype Plan = Plan(target: int, current: Option<OrderId>)

  /** A pass under way: the levels still to be looked at, and those waiting to be placed. */
  datatype Job = Job(plans: map<Level, Plan>, eps: int, todo: set<Level>, apply: set<Level>)

  /** Where the holder of the seeder's lock is. Cancelled and Placed are the moments after an
      engine call and before the record of it. */
  datatype Pc =
    | Idle
    | Folding(taken: map<OrderId, int>)
    | Folded
    | Cancelling(job: Job)
    | Cancelled(job: Job, at: Level)
    | Placing(job: Job)
    | Placed(job: Job, at: Level, id: OrderId)

  /** `pend` is the trades whose hooks the holder of the book's lock still has to run; `revoked`
      remembers the synthetic orders that somebody else cancelled. */
  datatype Sys = Sys(
    book: Book, clock: nat, pend: seq<Trade>, placed: map<Level, Tracked>, nonce: nat,
    fills: map<OrderId, int>, revoked: set<OrderId>, pc: Pc)

  // ----- what the seeder computes ---------------------------------------------------------

  function At(fills: map<OrderId, int>, id: OrderId): int {
    if id in fills then fills[id] else 0
  }

  function Buffer(fills: map<OrderId, int>, id: OrderId, volume: int): map<OrderId, int> {
    if id.Synth? then fills[id := At(fills, id) + volume] else fills
  }

  /** The hook: credit both sides of a trade, if they are synthetic. */
  function OnTrade(fills: map<OrderId, int>, t: Trade): map<OrderId, int> {
    Buffer(Buffer(fills, t.buyId, t.volume), t.sellId, t.volume)
  }

  function Remaining(t: Tracked, taken: map<OrderId, int>): int {
    t.volume - At(taken, t.id)
  }

  /** Apply buffered fills to the levels whose current order they are for. */
  function FoldAll(placed: map<Level, Tracked>, taken: map<OrderId, int>): map<Level, Tracked> {
    map k | k in placed && (placed[k].id in taken ==> Remaining(placed[k], taken) > 0)
      :: placed[k].(volume := Remaining(placed[k], taken))
  }

  /** The volume a level should have: its reference volume, or part of the way there; nothing
      once it has left the reference. `moved` is what the float factor makes of the difference. */
  function Target(placed: map<Level, Tracked>, ref: map<Level, int>, exact: bool, moved: map<Level, int>,
      k: Level): int {
    if k !in ref then 0
    else if exact then ref[k]
    else (if k in placed then placed[k].volume else 0) + (if k in moved then moved[k] else 0)
  }

  function MakePlans(placed: map<Level, Tracked>, ref: map<Level, int>, exact: bool,
      moved: map<Level, int>): map<Level, Plan> {
    map k | k in ref.Keys + placed.Keys
      :: Plan(Target(placed, ref, exact, moved, k), if k in placed then Some(placed[k].id) else None)
  }

  function ClearPlans(placed: map<Level, Tracked>): map<Level, Plan> {
    map k | k in placed :: Plan(0, Some(placed[k].id))
  }

  /** Within tolerance of the target: the resting order stays. */
  predicate Keeps(placed: map<Level, Tracked>, job: Job, k: Level)
    requires k in job.plans
  {
    k in placed && job.plans[k].current.Some? && Abs(job.plans[k].target - placed[k].volume) <= job.eps
  }

  /** The level has been dealt with in the first pass; it is to be placed if its target is positive. */
  function Decided(job: Job, k: Level): Job
    requires k in job.plans
  {
    job.(todo := job.todo - {k}, apply := if job.plans[k].target > 0 then job.apply + {k} else job.apply)
  }

  function SynthOrder(k: Level, id: OrderId, volume: int, clock: nat): Order {
    Order(id, k.side, k.price, volume, false, clock)
  }

  // ----- steps ---------------------------------------------------------------------------

  datatype Step =
    | OutsideLimit(ord: Order)
    | OutsideIoc(ord: Order)
    | OutsideCancel(id: OrderId)
    | RunHook
    | SwapFills
    | FoldFills
    | PlanPass(ref: map<Level, int>, exact: bool, moved: map<Level, int>)
    | PlanClear
    | LeaveLevel(k: Level)
    | CancelLevel(k: Level)
    | DropRecord
    | StartPlacing
    | PlaceLevel(k: Level)
    | WriteRecord
    | EndPass

  /** Somebody else's order, under an id that is not of the seeder's kind, or such that the id makes no
      difference: nothing happens, or the id has been minted, the book owes it nothing and nothing of
      the order is left to rest. */
  predicate Harmless(s: Sys, ord: Order) {
    || !ord.id.Synth?
    || NoEffect(s.book, ord)
    || (Minted(ord.id, s.nonce) && !(IsCurrent(TrackedNow(s), ord.id) && ord.id !in s.revoked) && Absorbed(s.book, ord))
  }

  /** Engine calls wait for the book's lock. */
  ghost predicate Enabled(s: Sys, step: Step) {
    match step
    case OutsideLimit(ord) => s.pend == [] && Harmless(s, ord) && ord.arrival == s.clock
    case OutsideIoc(ord) => s.pend == [] && !ord.id.Synth?
    case OutsideCancel(id) => s.pend == []
    case RunHook => s.pend != []
    case SwapFills => s.pc.Idle?
    case FoldFills => s.pc.Folding?
    case PlanPass(ref, exact, moved) => s.pc.Folded?
    case PlanClear => s.pc.Idle?
    case LeaveLevel(k) =>
      && s.pc.Cancelling? && k in s.pc.job.todo && k in s.pc.job.plans
      && (Keeps(s.placed, s.pc.job, k) || s.pc.job.plans[k].current.None?)
    case CancelLevel(k) =>
      && s.pc.Cancelling? && k in s.pc.job.todo && k in s.pc.job.plans && s.pend == []
      && !Keeps(s.placed, s.pc.job, k) && s.pc.job.plans[k].current.Some?
    case DropRecord => s.pc.Cancelled? && s.pc.at in s.pc.job.plans
    case StartPlacing => s.pc.Cancelling? && s.pc.job.todo == {}
    case PlaceLevel(k) => s.pc.Placing? && k in s.pc.job.apply && k in s.pc.job.plans && s.pend == []
    case WriteRecord => s.pc.Placed? && s.pc.at in s.pc.job.plans
    case EndPass => s.pc.Placing? || s.pc.Cancelling? || s.pc.Folded?
  }

  function Next(s: Sys, step: Step): Sys {
    match step
    case OutsideLimit(ord) => EngineLimit(s, ord)
    case OutsideIoc(ord) => EngineIoc(s, ord)
    case OutsideCancel(id) => RevokeStep(s, id)
    case RunHook => HookStep(s)
    case SwapFills => s.(fills := map[], pc := Folding(s.fills))
    case FoldFills => FoldStep(s)
    case PlanPass(ref, exact, moved) => StartPass(s, MakePlans(s.placed, ref, exact, moved), CONVERGE_EPS)
    case PlanClear => StartPass(s, ClearPlans(s.placed), -1)
    case LeaveLevel(k) => LeaveStep(s, k)
    case CancelLevel(k) => CancelStep(s, k)
    case DropRecord => DropStep(s)
    case StartPlacing => if s.pc.Cancelling? then s.(pc := Placing(s.pc.job)) else s
    case PlaceLevel(k) => PlaceStep(s, k)
    case WriteRecord => RecordStep(s)
    case EndPass => s.(pc := Idle)
  }

  function EngineLimit(s: Sys, ord: Order): Sys {
    var (book, trades) := AddLimit(s.book, ord);
    s.(book := book, pend := trades, clock := s.clock + 1)
  }

  function EngineIoc(s: Sys, ord: Order): Sys {
    var (book, trades) := ExecuteIoc(s.book, ord);
    s.(book := book, pend := trades)
  }

  function RevokeStep(s: Sys, id: OrderId): Sys {
    var (book, gone) := Cancel(s.book, id);
    s.(book := book, revoked := if gone.Some? && id.Synth? then s.revoked + {id} else s.revoked)
  }

  function HookStep(s: Sys): Sys {
    if s.pend == [] then s else s.(fills := OnTrade(s.fills, s.pend[0]), pend := s.pend[1..])
  }

  function FoldStep(s: Sys): Sys {
    if s.pc.Folding? then s.(placed := FoldAll(s.placed, s.pc.taken), pc := Folded) else s
  }

  function StartPass(s: Sys, plans: map<Level, Plan>, eps: int): Sys {
    s.(pc := Cancelling(Job(plans, eps, plans.Keys, {})))
  }

  /** A level within tolerance is skipped; one with no order goes straight to the second pass. */
  function LeaveStep(s: Sys, k: Level): Sys {
    if s.pc.Cancelling? && k in s.pc.job.plans then
      s.(pc := Cancelling(if s.pc.job.plans[k].current.Some?
                          then s.pc.job.(todo := s.pc.job.todo - {k})
                          else Decided(s.pc.job, k)))
    else s
  }

  /** The engine may answer that the order is gone; the pass goes on either way. */
  function CancelStep(s: Sys, k: Level): Sys {
    if s.pc.Cancelling? && k in s.pc.job.plans && s.pc.job.plans[k].current.Some? then
      s.(book := Cancel(s.book, s.pc.job.plans[k].current.value).0, pc := Cancelled(s.pc.job, k))
    else s
  }

  function DropStep(s: Sys): Sys {
    if s.pc.Cancelled? && s.pc.at in s.pc.job.plans then
      s.(placed := s.placed - {s.pc.at}, pc := Cancelling(Decided(s.pc.job, s.pc.at)))
    else s
  }

  function NewId(s: Sys, k: Level): OrderId {
    Synth(k.side, k.price, s.nonce + 1)
  }

  function PlaceStep(s: Sys, k: Level): Sys {
    if s.pc.Placing? && k in s.pc.job.plans then
      var id := NewId(s, k);
      EngineLimit(s, SynthOrder(k, id, s.pc.job.plans[k].target, s.clock))
        .(nonce := s.nonce + 1, pc := Placed(s.pc.job.(apply := s.pc.job.apply - {k}), k, id))
    else s
  }

  function RecordStep(s: Sys): Sys {
    if s.pc.Placed? && s.pc.at in s.pc.job.plans then
      s.(placed := s.placed[s.pc.at := Tracked(s.pc.id, s.pc.job.plans[s.pc.at].target)], pc := Placing(s.pc.job))
    else s
  }

  // ----- accounting ----------------------------------------------------------------------

  /** What one trade takes from (or gives to) the order `id`, on either side. */
  function Credit(t: Trade, id: OrderId): int {
    (if t.buyId == id then t.volume else 0) + (if t.sellId == id then t.volume else 0)
  }

  function Filled(trades: seq<Trade>, id: OrderId): int {
    if trades == [] then 0 else Credit(trades[0], id) + Filled(trades[1..], id)
  }

  function InBook(book: Book, id: OrderId): int {
    Resting(book.bids, id) + Resting(book.asks, id)
  }

  /** The record, corrected for an engine call that has been made and not yet recorded. */
  function TrackedNow(s: Sys): map<Level, Tracked> {
    if s.pc.Cancelled? then s.placed - {s.pc.at}
    else if s.pc.Placed? && s.pc.at in s.pc.job.plans then
      s.placed[s.pc.at := Tracked(s.pc.id, s.pc.job.plans[s.pc.at].target)]
    else s.placed
  }

  function TakenOf(pc: Pc): map<OrderId, int> {
    if pc.Folding? then pc.taken else map[]
  }

  /** Fills of `id` that the record does not show yet: buffered, being folded, or still to be
      reported by a hook. */
  function Unfolded(s: Sys, id: OrderId): int {
    At(s.fills, id) + At(TakenOf(s.pc), id) + Filled(s.pend, id)
  }

  function LevelOf(id: OrderId): Level
    requires id.Synth?
  {
    Level(id.level, id.at)
  }

  predicate IsCurrent(tracked: map<Level, Tracked>, id: OrderId) {
    id.Synth? && LevelOf(id) in tracked && tracked[LevelOf(id)].id == id
  }

  /** The volume the book should hold under a synthetic id. */
  function Due(s: Sys, id: OrderId): int {
    var tracked := TrackedNow(s);
    if IsCurrent(tracked, id) && id !in s.revoked then tracked[LevelOf(id)].volume - Unfolded(s, id) else 0
  }

  // ----- the invariant -------------------------------------------------------------------

  /** The book holds exactly what the record says, order id by order id; in particular nothing
      under a synthetic id that is not current. */
  ghost predicate Accounted(s: Sys) {
    forall id: OrderId :: id.Synth? ==> InBook(s.book, id) == Due(s, id)
  }

  /** Synthetic orders rest at their own level, one order per id. */
  predicate SynthQueue(queue: seq<Order>, side: Side) {
    && (forall i :: 0 <= i < |queue| && queue[i].id.Synth? ==>
        queue[i].id.level == side && queue[i].id.at == queue[i].price)
    && (forall i, j :: 0 <= i < j < |queue| && queue[i].id.Synth? ==> queue[i].id != queue[j].id)
  }

  ghost predicate SynthBook(book: Book) {
    SynthQueue(book.bids, Buy) && SynthQueue(book.asks, Sell)
  }

  predicate Minted(id: OrderId, nonce: nat) {
    id.Synth? ==> id.generation <= nonce
  }

  ghost predicate FillsOk(fills: map<OrderId, int>, nonce: nat) {
    forall id :: id in fills ==> id.Synth? && Minted(id, nonce) && fills[id] >= 0
  }

  predicate TradesOk(trades: seq<Trade>, nonce: nat) {
    forall i :: 0 <= i < |trades| ==>
      trades[i].volume > 0 && Minted(trades[i].buyId, nonce) && Minted(trades[i].sellId, nonce)
  }

  ghost predicate TrackedOk(tracked: map<Level, Tracked>, nonce: nat) {
    forall k :: k in tracked ==>
      tracked[k].volume > 0 && tracked[k].id.Synth? && LevelOf(tracked[k].id) == k && Minted(tracked[k].id, nonce)
  }

  ghost predicate Generations(s: Sys) {
    && FillsOk(s.fills, s.nonce) && FillsOk(TakenOf(s.pc), s.nonce) && TradesOk(s.pend, s.nonce)
    && TrackedOk(TrackedNow(s), s.nonce) && (forall id :: id in s.revoked ==> Minted(id, s.nonce))
  }

  predicate PlanMatches(placed: map<Level, Tracked>, plans: map<Level, Plan>, k: Level) {
    k in plans && plans[k].current == if k in placed then Some(placed[k].id) else None
  }

  /** The pass's plan still describes the record: levels not looked at are as planned, levels to
      be placed have no order. */
  ghost predicate JobOk(placed: map<Level, Tracked>, job: Job) {
    && (forall k :: k in job.todo ==> PlanMatches(placed, job.plans, k))
    && (forall k :: k in job.apply ==> k in job.plans && job.plans[k].target > 0 && k !in placed && k !in job.todo)
  }

  ghost predicate PcOk(s: Sys) {
    match s.pc
    case Idle => true
    case Folding(taken) => true
    case Folded => true
    case Cancelling(job) => JobOk(s.placed, job)
    case Cancelled(job, at) => JobOk(s.placed, job) && at in job.todo && at in s.placed
    case Placing(job) => job.todo == {} && JobOk(s.placed, job)
    case Placed(job, at, id) =>
      && job.todo == {} && JobOk(s.placed, job) && at in job.plans && at !in job.apply
      && at !in s.placed && job.plans[at].target > 0
  }

  ghost predicate Inv(s: Sys) {
    BookOk(s.book, s.clock) && SynthBook(s.book) && Accounted(s) && Generations(s) && PcOk(s)
  }
}
