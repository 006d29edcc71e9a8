/** Every interleaving on the published-snapshot dictionaries is linearizable to a finite map. */
module LockFreeRuns {
  import opened Common
  import opened LockFree

  // ----- effects -------------------------------------------------------------------------

  /** More effects change neither what lies before a place nor what the map gave there. */
  lemma EarlierSame(effects: seq<Effect>, effects': seq<Effect>, at: nat)
    requires at <= |effects| <= |effects'| && effects'[..|effects|] == effects
    ensures effects'[..at] == effects[..at]
  {
    assert effects'[..at] == effects'[..|effects|][..at];
  }

  lemma ReplayAppend(effects: seq<Effect>, e: Effect)
    ensures Replay(effects + [e]) == Apply(Replay(effects), e.op).0
    ensures (effects + [e])[..|effects|] == effects
  {
    assert (effects + [e])[..|effects|] == effects;
  }

  // ----- what one thread's step leaves alone ---------------------------------------------

  ghost predicate OwnsCopy(s: Sys, t: nat, id: nat) {
    t in s.threads && HasCopy(s.threads[t]) && s.threads[t].pc.copy == id
  }

  /** The effects grew by calls of thread t, which were not among them. */
  ghost predicate Grown(s: Sys, s': Sys, t: nat) {
    && |s.effects| <= |s'.effects| <= |s.effects| + 1 && s'.effects[..|s.effects|] == s.effects
    && (forall i :: |s.effects| <= i < |s'.effects| ==>
          t in s.threads && s'.effects[i].call == s.threads[t].call && !Logged(s.effects, s'.effects[i].call))
  }

  /** Thread t moved: the others, the published snapshots and their private copies are as before. */
  ghost predicate Moved(s: Sys, s': Sys, t: nat) {
    && s'.threads.Keys - {t} == s.threads.Keys - {t}
    && (forall u :: u in s.threads && u != t ==> u in s'.threads && s'.threads[u] == s.threads[u])
    && |s'.heap| >= |s.heap| && s.calls <= s'.calls
    && (forall id: nat :: id < |s.heap| && !OwnsCopy(s, t, id) ==> s'.heap[id] == s.heap[id])
    && s.published <= s'.published
    && (forall id :: id in s'.published && id !in s.published ==> OwnsCopy(s, t, id))
    && Grown(s, s', t)
  }

  lemma EffectsKept(s: Sys, s': Sys, t: nat, th: Thread)
    requires Grown(s, s', t) && Placed(s, th) && (t in s.threads ==> s.threads[t].call != th.call)
    ensures Placed(s', th)
  {
    assert forall i :: 0 <= i < |s.effects| ==> s'.effects[i] == s.effects[i];
  }

  lemma FromKept(s: Sys, s': Sys, t: nat, th: Thread, from: nat)
    requires Moved(s, s', t) && FromOk(s, th, from) && !OwnsCopy(s, t, from)
    ensures FromOk(s', th, from)
  {
    if th.at.Some? { EarlierSame(s.effects, s'.effects, th.at.value); }
    hide ToMap, ReadsOnly, Replay;
  }

  lemma OtherThread(s: Sys, s': Sys, t: nat, u: nat)
    requires Inv(s) && Moved(s, s', t) && u != t && u in s.threads
    ensures u in s'.threads && ThreadOk(s', s'.threads[u])
  {
    var th := s.threads[u];
    assert ThreadOk(s, th) && |s.effects| <= |s'.effects|;
    hide SnapOk, Replay, ToMap, IsEdit, Apply, SnapshotsOk, Grown, Placed, FromOk, ReadsOnly, Inv;
    EffectsKept(s, s', t, th);
    match th.pc {
      case Begun =>
      case Loaded(from) =>
        Unowned(s, t, th, from);
        FromKept(s, s', t, th, from);
      case Copied(from, copy) =>
        Unowned(s, t, th, from);
        FromKept(s, s', t, th, from);
        FromSame(s, s', t, th, from);
      case Ready(from, copy) =>
        Unowned(s, t, th, from);
        FromKept(s, s', t, th, from);
        FromSame(s, s', t, th, from);
      case Answered(result) =>
        AnsweredKept(s, s', t, th);
    }
  }

  lemma AnsweredKept(s: Sys, s': Sys, t: nat, th: Thread)
    requires Grown(s, s', t) && th.at.Some? && th.at.value <= |s.effects|
    ensures th.at.value <= |s'.effects| && ResultAt(s'.effects, th.at.value, th.op) ==
        ResultAt(s.effects, th.at.value, th.op)
  {
    EarlierSame(s.effects, s'.effects, th.at.value);
  }

  /** A published snapshot is nobody's private copy. */
  lemma Unowned(s: Sys, t: nat, th: Thread, from: nat)
    requires Inv(s) && FromOk(s, th, from)
    ensures !OwnsCopy(s, t, from)
  {
    if t in s.threads { assert ThreadOk(s, s.threads[t]); }
  }

  lemma FromSame(s: Sys, s': Sys, t: nat, th: Thread, from: nat)
    requires Moved(s, s', t) && FromOk(s, th, from) && !OwnsCopy(s, t, from)
    ensures Has(s, from) && Has(s', from) && s'.heap[from] == s.heap[from]
  {
  }

  /** The invariant after a step of thread t, from what is true of t and of the whole. */
  lemma StepHolds(s: Sys, s': Sys, t: nat)
    requires Inv(s) && Moved(s, s', t) && SnapshotsOk(s') && Replay(s'.effects) == CurrentMap(s')
    requires t in s'.threads ==> ThreadOk(s', s'.threads[t])
    requires t in s'.threads ==>
        (t in s.threads && s'.threads[t].call == s.threads[t].call) || s'.threads[t].call == s.calls
    requires t in s'.threads && HasCopy(s'.threads[t]) ==>
        OwnsCopy(s, t, s'.threads[t].pc.copy) || s'.threads[t].pc.copy == |s.heap|
    requires s'.over == s.over
        || (s'.effects == s.effects && exists r :: s'.over == s.over + [r] && ReturnOk(s.effects, r))
    ensures Inv(s')
  {
    hide SnapOk, Replay, ToMap, IsEdit, Apply, SnapshotsOk, CurrentMap, ThreadOk;
    forall u | u in s'.threads ensures ThreadOk(s', s'.threads[u]) {
      if u != t {
        assert u in s'.threads.Keys - {t};
        OtherThread(s, s', t, u);
      }
    }
    CallsDistinct(s, s', t);
    EffectsDistinct(s, s', t);
    OversHold(s, s', t);
    CopiesDistinct(s, s', t);
  }

  lemma CallsDistinct(s: Sys, s': Sys, t: nat)
    requires Inv(s) && Moved(s, s', t)
    requires t in s'.threads ==>
        (t in s.threads && s'.threads[t].call == s.threads[t].call) || s'.threads[t].call == s.calls
    ensures forall u, v :: u in s'.threads && v in s'.threads && u != v ==> s'.threads[u].call != s'.threads[v].call
  {
    hide SnapOk, Replay, ToMap, IsEdit, Apply, SnapshotsOk, CurrentMap, Placed, FromOk;
    forall u, v | u in s'.threads && v in s'.threads && u != v ensures s'.threads[u].call != s'.threads[v].call {
      if u != t { assert u in s'.threads.Keys - {t}; assert ThreadOk(s, s.threads[u]); }
      if v != t { assert v in s'.threads.Keys - {t}; assert ThreadOk(s, s.threads[v]); }
    }
  }

  lemma CopiesDistinct(s: Sys, s': Sys, t: nat)
    requires Inv(s) && Moved(s, s', t)
    requires t in s'.threads && HasCopy(s'.threads[t]) ==>
        OwnsCopy(s, t, s'.threads[t].pc.copy) || s'.threads[t].pc.copy == |s.heap|
    ensures forall u, v ::
        u in s'.threads && v in s'.threads && u != v && HasCopy(s'.threads[u]) && HasCopy(s'.threads[v]) ==>
          s'.threads[u].pc.copy != s'.threads[v].pc.copy
  {
    hide SnapOk, Replay, ToMap, IsEdit, Apply, SnapshotsOk, CurrentMap, Placed, FromOk;
    forall u, v | u in s'.threads && v in s'.threads && u != v && HasCopy(s'.threads[u]) && HasCopy(s'.threads[v])
      ensures s'.threads[u].pc.copy != s'.threads[v].pc.copy
    {
      if u != t { assert u in s'.threads.Keys - {t}; assert ThreadOk(s, s.threads[u]); }
      if v != t { assert v in s'.threads.Keys - {t}; assert ThreadOk(s, s.threads[v]); }
    }
  }

  lemma EffectsDistinct(s: Sys, s': Sys, t: nat)
    requires Inv(s) && Moved(s, s', t)
    ensures forall i :: 0 <= i < |s'.effects| ==> s'.effects[i].call < s'.calls
    ensures forall i, j :: 0 <= i < j < |s'.effects| ==> s'.effects[i].call != s'.effects[j].call
  {
    hide SnapOk, Replay, ToMap, IsEdit, Apply, SnapshotsOk, CurrentMap, Placed, FromOk;
    assert forall i :: 0 <= i < |s.effects| ==> s'.effects[i] == s.effects[i];
    assert t in s.threads ==> ThreadOk(s, s.threads[t]);
  }

  lemma OversHold(s: Sys, s': Sys, t: nat)
    requires (forall r :: r in s.over ==> ReturnOk(s.effects, r)) && Grown(s, s', t)
    requires s'.over == s.over
        || (s'.effects == s.effects && exists r :: s'.over == s.over + [r] && ReturnOk(s.effects, r))
    ensures forall r :: r in s'.over ==> ReturnOk(s'.effects, r)
  {
    if s'.over == s.over {
      forall r | r in s'.over ensures ReturnOk(s'.effects, r) {
        assert ReturnOk(s.effects, r);
        EarlierSame(s.effects, s'.effects, r.at);
        assert s'.effects[r.at] == s.effects[r.at];
      }
    }
  }

  // ----- the steps -----------------------------------------------------------------------

  /** The heap and the pointer stayed, so the snapshots did. */
  lemma OnlyThreads(s: Sys, s': Sys)
    requires s'.heap == s.heap && s'.ptr == s.ptr && s'.published == s.published
    ensures CurrentMap(s') == CurrentMap(s) && (SnapshotsOk(s) ==> SnapshotsOk(s'))
  {
    hide ToMap, SnapOk;
  }

  lemma MovedAlone(s: Sys, t: nat, th: Thread)
    ensures Moved(s, s.(threads := s.threads[t := th]), t)
  {
    assert s.effects[..|s.effects|] == s.effects;
  }

  /** A step that changes nothing but where its own thread is. */
  lemma ThreadMoves(s: Sys, t: nat, th: Thread)
    requires Inv(s) && t in s.threads && th.call == s.threads[t].call && !HasCopy(th)
    requires ThreadOk(s.(threads := s.threads[t := th]), th)
    ensures Inv(s.(threads := s.threads[t := th]))
  {
    var s' := s.(threads := s.threads[t := th]);
    MovedAlone(s, t, th);
    OnlyThreads(s, s');
    hide Moved, ThreadOk, SnapshotsOk, CurrentMap, Replay;
    StepHolds(s, s', t);
  }

  lemma BeginKeeps(s: Sys, t: nat, op: Op)
    requires Inv(s) && Enabled(s, Begin(t, op))
    ensures Inv(Next(s, Begin(t, op)))
  {
    assert !Logged(s.effects, s.calls);
    hide SnapOk, Replay, ToMap, IsEdit, Apply;
    StepHolds(s, Next(s, Begin(t, op)), t);
  }

  /** A call answered by the current map takes its place after everything that has happened. */
  lemma LoadPlaces(s: Sys, t: nat)
    requires Inv(s) && t in s.threads && s.threads[t].pc.Begun?
    ensures var s' := LoadStep(s, t, s.threads[t]);
            && Replay(s'.effects) == CurrentMap(s') && ThreadOk(s', s'.threads[t]) && Grown(s, s', t)
  {
    var th := s.threads[t];
    assert ThreadOk(s, th);
    var s' := LoadStep(s, t, th);
    if ReadsOnly(CurrentMap(s), th.op) {
      ReplayAppend(s.effects, Effect(th.call, th.op));
      assert Apply(CurrentMap(s), th.op).0 == CurrentMap(s);
    }
    assert Replay(s.effects) == CurrentMap(s) && s.ptr in s.published && Has(s, s.ptr);
    hide SnapOk, Replay, ToMap, IsEdit, Apply, Inv, SnapshotsOk;
    assert s'.threads[t].at.Some? ==> s'.effects[..|s.effects|] == s.effects;
  }

  lemma LoadKeeps(s: Sys, t: nat)
    requires Inv(s) && Enabled(s, Load(t))
    ensures Inv(LoadStep(s, t, s.threads[t]))
  {
    LoadPlaces(s, t);
    LoadMoves(s, t);
    LoadFrame(s, t);
    hide Inv, LoadStep, Enabled, ThreadOk, Moved, SnapshotsOk, Replay, CurrentMap, Grown, ReturnOk, OwnsCopy;
    StepHolds(s, LoadStep(s, t, s.threads[t]), t);
  }

  lemma LoadFrame(s: Sys, t: nat)
    requires Enabled(s, Load(t))
    ensures var s' := LoadStep(s, t, s.threads[t]);
            && t in s'.threads && t in s.threads && s'.threads[t].call == s.threads[t].call && !HasCopy(s'.threads[t])
            && s'.over == s.over
  {
    hide ReadsOnly, CurrentMap, ToMap;
  }

  lemma LoadMoves(s: Sys, t: nat)
    requires Inv(s) && Enabled(s, Load(t)) && Grown(s, LoadStep(s, t, s.threads[t]), t)
    ensures var s' := LoadStep(s, t, s.threads[t]); Moved(s, s', t) && SnapshotsOk(s')
  {
    assert SnapshotsOk(s);
    hide Replay, Apply, ToMap, IsEdit, SnapOk, ReadsOnly, Grown, ThreadOk, CurrentMap, Inv;
  }

  /** What the code reads later in the snapshot it loaded is what the map gave at the call's place. */
  lemma AnswerIsRight(s: Sys, t: nat, value: Option<Value>)
    requires Inv(s) && Enabled(s, Answer(t, value))
    ensures var th := s.threads[t];
            && th.at.Some? && th.at.value <= |s.effects|
            && (if th.op.Get? then Found(value) else Deleted(false)) == ResultAt(s.effects, th.at.value, th.op)
  {
    var th := s.threads[t];
    assert ThreadOk(s, th) && SnapOk(s.heap[th.pc.from]);
    ReadsFind(s.heap[th.pc.from], th.op.key, value);
    hide Replay, ToMap, SnapOk, Reads;
  }

  lemma AnswerKeeps(s: Sys, t: nat, value: Option<Value>)
    requires Inv(s) && Enabled(s, Answer(t, value))
    ensures Inv(AnswerStep(s, t, s.threads[t], value))
  {
    var s', th := AnswerStep(s, t, s.threads[t], value), s.threads[t];
    assert ThreadOk(s, th);
    AnswerIsRight(s, t, value);
    hide Replay, Apply, ToMap, IsEdit, SnapOk, ReadsOnly, Reads, ResultAt, FromOk, SnapshotsOk, CurrentMap, Moved;
    assert ThreadOk(s', s'.threads[t]);
    hide ThreadOk, Inv;
    ThreadMoves(s, t, s'.threads[t]);
  }

  /** Only a Delete of an absent key from the towers is copied although it will be answered. */
  lemma CopiedOnlyToChange(s: Sys, t: nat, value: Option<Value>)
    requires Inv(s) && Enabled(s, Copy(t, value))
    ensures var th := s.threads[t]; th.at.Some? ==> th.op.Delete? && s.heap[th.pc.from].Towers?
  {
    var th := s.threads[t];
    assert ThreadOk(s, th) && SnapOk(s.heap[th.pc.from]);
    if th.op.Delete? && s.heap[th.pc.from].Tree? { ReadsFind(s.heap[th.pc.from], th.op.key, value); }
  }

  lemma CopyMoves(s: Sys, t: nat, value: Option<Value>)
    requires Inv(s) && Enabled(s, Copy(t, value))
    ensures var s' := CopyStep(s, t, s.threads[t]);
            Moved(s, s', t) && SnapshotsOk(s') && CurrentMap(s') == CurrentMap(s)
  {
    hide Replay, ToMap, IsEdit, SnapOk, Reads, ThreadOk;
    assert forall id :: id in s.published ==> Has(s, id);
    assert s.effects[..|s.effects|] == s.effects;
  }

  lemma CopyIsOk(s: Sys, t: nat, value: Option<Value>)
    requires Inv(s) && Enabled(s, Copy(t, value))
    ensures var s' := CopyStep(s, t, s.threads[t]); ThreadOk(s', s'.threads[t])
  {
    assert ThreadOk(s, s.threads[t]);
    assert forall id :: id in s.published ==> Has(s, id);
    CopiedOnlyToChange(s, t, value);
    hide Replay, Apply, ToMap, IsEdit, SnapOk, ReadsOnly, Reads, SnapshotsOk, Inv;
  }

  lemma CopyKeeps(s: Sys, t: nat, value: Option<Value>)
    requires Inv(s) && Enabled(s, Copy(t, value))
    ensures Inv(CopyStep(s, t, s.threads[t]))
  {
    var s' := CopyStep(s, t, s.threads[t]);
    assert ThreadOk(s, s.threads[t]);
    CopyMoves(s, t, value);
    CopyIsOk(s, t, value);
    hide Replay, Apply, ToMap, IsEdit, SnapOk, ReadsOnly, Reads, ThreadOk, Moved, SnapshotsOk;
    StepHolds(s, s', t);
  }

  /** An edit is made only of a snapshot that the call really changes. */
  lemma EditChanges(s: Sys, t: nat, value: Option<Value>, after: Snap)
    requires Inv(s) && Enabled(s, Edit(t, value, after))
    ensures s.threads[t].at.None? && IsEdit(s.heap[s.threads[t].pc.from], s.threads[t].op, after)
  {
    var th := s.threads[t];
    assert ThreadOk(s, th) && SnapOk(s.heap[th.pc.from]);
    if th.op.Delete? && s.heap[th.pc.copy].Towers? { ReadsFind(s.heap[th.pc.copy], th.op.key, value); }
    hide ToMap, SnapOk, Apply, Reads;
  }

  lemma EditMoves(s: Sys, t: nat, value: Option<Value>, after: Snap)
    requires Inv(s) && Enabled(s, Edit(t, value, after))
    ensures var s' := EditStep(s, t, s.threads[t], after);
            Moved(s, s', t) && SnapshotsOk(s') && CurrentMap(s') == CurrentMap(s)
  {
    assert ThreadOk(s, s.threads[t]);
    EditIsPrivate(s, t, value, after);
    hide Replay, Apply, ToMap, IsEdit, SnapOk, ReadsOnly, Reads, ThreadOk, Inv, CurrentMap, SnapshotsOk;
    assert s.effects[..|s.effects|] == s.effects;
  }

  /** The edited copy is not published, so what is published and current stays. */
  lemma EditIsPrivate(s: Sys, t: nat, value: Option<Value>, after: Snap)
    requires Inv(s) && Enabled(s, Edit(t, value, after))
    ensures var s' := EditStep(s, t, s.threads[t], after);
            SnapshotsOk(s') && CurrentMap(s') == CurrentMap(s)
  {
    assert ThreadOk(s, s.threads[t]);
    hide Replay, Apply, ToMap, IsEdit, SnapOk, ReadsOnly, Reads, Inv, FromOk, Placed;
  }

  lemma EditIsOk(s: Sys, t: nat, value: Option<Value>, after: Snap)
    requires Inv(s) && Enabled(s, Edit(t, value, after))
    ensures var s' := EditStep(s, t, s.threads[t], after); ThreadOk(s', s'.threads[t])
  {
    assert ThreadOk(s, s.threads[t]);
    EditChanges(s, t, value, after);
    hide Replay, Apply, ToMap, IsEdit, SnapOk, ReadsOnly, Reads, Inv, SnapshotsOk;
  }

  lemma EditKeeps(s: Sys, t: nat, value: Option<Value>, after: Snap)
    requires Inv(s) && Enabled(s, Edit(t, value, after))
    ensures Inv(EditStep(s, t, s.threads[t], after))
  {
    assert ThreadOk(s, s.threads[t]);
    EditMoves(s, t, value, after);
    EditIsOk(s, t, value, after);
    hide Replay, Apply, ToMap, IsEdit, SnapOk, ReadsOnly, Reads, ThreadOk, Moved, SnapshotsOk;
    StepHolds(s, EditStep(s, t, s.threads[t], after), t);
  }

  /** A successful swap publishes the edited copy of what is current. */
  lemma SwapPublishes(s: Sys, t: nat)
    requires Inv(s) && Enabled(s, CompareAndSwap(t)) && s.ptr == s.threads[t].pc.from
    ensures var s' := SwapStep(s, t, s.threads[t]);
            CurrentMap(s') == Apply(CurrentMap(s), s.threads[t].op).0 && SnapshotsOk(s')
  {
    assert ThreadOk(s, s.threads[t]);
    hide Replay, Apply, ToMap;
  }

  /** The call takes its place at the end, and the order replays to the new map. */
  lemma SwapPlaces(s: Sys, t: nat)
    requires Inv(s) && Enabled(s, CompareAndSwap(t)) && s.ptr == s.threads[t].pc.from
    ensures var s', th := SwapStep(s, t, s.threads[t]), s.threads[t];
            && s'.effects == s.effects + [Effect(th.call, th.op)] && !ReadsOnly(CurrentMap(s), th.op)
            && Replay(s.effects) == CurrentMap(s) && Replay(s'.effects) == CurrentMap(s') && Grown(s, s', t)
  {
    var th := s.threads[t];
    assert ThreadOk(s, th);
    SwapPublishes(s, t);
    ReplayAppend(s.effects, Effect(th.call, th.op));
    assert !ReadsOnly(CurrentMap(s), th.op) && Replay(s.effects) == CurrentMap(s);
    hide Replay, ToMap, IsEdit, SnapOk, CurrentMap, Inv, FromOk, SnapshotsOk, Apply, ReadsOnly;
  }

  /** The result it returns is the map's, though nobody looks at the map again. */
  lemma SwapIsRight(s: Sys, t: nat)
    requires Inv(s) && Enabled(s, CompareAndSwap(t)) && s.ptr == s.threads[t].pc.from
    ensures var s', th := SwapStep(s, t, s.threads[t]), s.threads[t];
            && Replay(s'.effects) == CurrentMap(s') && Grown(s, s', t) && ThreadOk(s', s'.threads[t])
  {
    var th := s.threads[t];
    assert ThreadOk(s, th);
    SwapPlaces(s, t);
    hide Replay, ToMap, IsEdit, SnapOk, CurrentMap, Inv, FromOk, SnapshotsOk, Grown;
  }

  lemma SwapMoves(s: Sys, t: nat)
    requires Inv(s) && Enabled(s, CompareAndSwap(t)) && s.ptr == s.threads[t].pc.from
    ensures Moved(s, SwapStep(s, t, s.threads[t]), t)
  {
    SwapIsRight(s, t);
    hide Replay, Apply, ToMap, IsEdit, SnapOk, CurrentMap, ThreadOk, SnapshotsOk, Grown;
  }

  /** A failed swap starts over: the snapshot may have changed, the call still has no place. */
  lemma RetryKeeps(s: Sys, t: nat)
    requires Inv(s) && Enabled(s, CompareAndSwap(t)) && s.ptr != s.threads[t].pc.from
    ensures Inv(SwapStep(s, t, s.threads[t]))
  {
    var s' := SwapStep(s, t, s.threads[t]);
    assert ThreadOk(s, s.threads[t]);
    hide Replay, Apply, ToMap, IsEdit, SnapOk, ReadsOnly, CurrentMap, SnapshotsOk, FromOk, Moved;
    assert ThreadOk(s', s'.threads[t]);
    hide ThreadOk, Inv;
    ThreadMoves(s, t, s'.threads[t]);
  }

  lemma SwapKeeps(s: Sys, t: nat)
    requires Inv(s) && Enabled(s, CompareAndSwap(t))
    ensures Inv(SwapStep(s, t, s.threads[t]))
  {
    if s.ptr == s.threads[t].pc.from {
      SwapIsRight(s, t);
      SwapPublishes(s, t);
      SwapMoves(s, t);
      hide Replay, Apply, ToMap, IsEdit, SnapOk, ReadsOnly, CurrentMap, ThreadOk, Moved, SnapshotsOk;
      StepHolds(s, SwapStep(s, t, s.threads[t]), t);
    } else {
      RetryKeeps(s, t);
    }
  }

  lemma FinishKeeps(s: Sys, t: nat)
    requires Inv(s) && Enabled(s, Finish(t))
    ensures Inv(FinishStep(s, t, s.threads[t]))
  {
    var th := s.threads[t];
    assert ThreadOk(s, th);
    var r := Return(th.op, th.call, th.start, th.at.value, |s.effects|, th.pc.result);
    assert ReturnOk(s.effects, r);
    hide Replay, Apply, ToMap, IsEdit, SnapOk, ReadsOnly, ReturnOk;
    assert FinishStep(s, t, th).over == s.over + [r];
    StepHolds(s, FinishStep(s, t, th), t);
  }

  lemma StepKeeps(s: Sys, step: Step)
    requires Inv(s) && Enabled(s, step)
    ensures Inv(Next(s, step))
  {
    hide Inv;
    match step
    case Begin(t, op) => BeginKeeps(s, t, op);
    case Load(t) => LoadKeeps(s, t);
    case Answer(t, value) => AnswerKeeps(s, t, value);
    case Copy(t, value) => CopyKeeps(s, t, value);
    case Edit(t, value, after) => EditKeeps(s, t, value, after);
    case CompareAndSwap(t) => SwapKeeps(s, t);
    case Finish(t) => FinishKeeps(s, t);
  }

  ghost predicate Run(s: Sys, steps: seq<Step>, s': Sys)
    decreases |steps|
  {
    if steps == [] then s' == s else Enabled(s, steps[0]) && Run(Next(s, steps[0]), steps[1..], s')
  }

  lemma {:induction false} RunKeeps(s: Sys, steps: seq<Step>, s': Sys)
    requires Inv(s) && Run(s, steps, s')
    ensures Inv(s')
    decreases |steps|
  {
    hide Inv, Enabled, Next;
    if steps != [] {
      StepKeeps(s, steps[0]);
      RunKeeps(Next(s, steps[0]), steps[1..], s');
    }
  }

  /** Published snapshots never change. */
  lemma PublishedStays(s: Sys, step: Step, id: nat)
    requires Inv(s) && Enabled(s, step) && id in s.published
    ensures var s' := Next(s, step); id in s'.published && Has(s', id) && Has(s, id) && s'.heap[id] == s.heap[id]
  {
    if step.Edit? { assert ThreadOk(s, s.threads[step.t]); }
    hide Replay, Apply, ToMap, IsEdit, SnapOk;
  }

  /** Each successful swap applies exactly one operation to the current state of the map; nothing else
      changes it. */
  lemma OneUpdatePerSwap(s: Sys, step: Step)
    requires Inv(s) && Enabled(s, step)
    ensures if step.CompareAndSwap? && s.ptr == s.threads[step.t].pc.from
            then CurrentMap(Next(s, step)) == Apply(CurrentMap(s), s.threads[step.t].op).0
            else CurrentMap(Next(s, step)) == CurrentMap(s)
  {
    if step.CompareAndSwap? && s.ptr == s.threads[step.t].pc.from {
      SwapPublishes(s, step.t);
    } else {
      PublishedStays(s, step, s.ptr);
    }
  }

  /** Linearizable: over every run there is one order of operations on a finite map that ends in the
      current contents, and every call that is over has one place in it, between its beginning and
      its end, where the map gives exactly what the code returned. */
  lemma Linearizable(s: Sys, steps: seq<Step>, s': Sys, r: Return)
    requires Init(s) && Run(s, steps, s') && r in s'.over
    ensures Replay(s'.effects) == CurrentMap(s')
    ensures r.start <= r.at < r.end <= |s'.effects| && s'.effects[r.at] == Effect(r.call, r.op)
    ensures r.result == Apply(Replay(s'.effects[..r.at]), r.op).1
    ensures forall i :: 0 <= i < |s'.effects| && s'.effects[i].call == r.call ==> i == r.at
  {
    InitHolds(s);
    RunKeeps(s, steps, s');
    assert ReturnOk(s'.effects, r);
  }

  lemma InitHolds(s: Sys)
    requires Init(s)
    ensures Inv(s)
  {
  }
}
