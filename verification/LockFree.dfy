/**
 The two dictionaries that publish immutable snapshots through one atomic pointer
 (internal/concurrency/dict/lockfree_skiplist.go, lockfree_tree.go). Threads load, edit a private
 copy and try to swap it in; every interleaving of their steps is shown to be a sequence of
 single map operations, each taking effect at one instant between its call and its return.
 */
module LockFree {
  import opened Common
  import opened Keys

  type Value = int

  datatype Entry = Entry(key: string, value: Value, level: nat)

  // ----- snapshots -----------------------------------------------------------------------

  ghost predicate SortedEntries(entries: seq<Entry>) {
    forall i, j :: 0 <= i < j < |entries| ==> Less(entries[i].key, entries[j].key)
  }

  /** The map a snapshot stands for. */
  function MapOf(entries: seq<Entry>): map<string, Value> {
    if entries == [] then map[]
    else MapOf(entries[..|entries| - 1])[entries[|entries| - 1].key := entries[|entries| - 1].value]
  }

  lemma {:induction false} MapAt(entries: seq<Entry>, key: string)
    requires SortedEntries(entries)
    ensures key in MapOf(entries) <==> exists i :: 0 <= i < |entries| && entries[i].key == key
    ensures forall i :: 0 <= i < |entries| && entries[i].key == key ==> MapOf(entries)[key] == entries[i].value
    decreases |entries|
  {
    if entries != [] {
      var n := |entries| - 1;
      MapAt(entries[..n], key);
      forall i | 0 <= i < n && entries[i].key == key ensures entries[n].key != key && entries[..n][i].key == key {
        LessAsymmetric(entries[i].key, entries[n].key);
      }
      if key in MapOf(entries[..n]) {
        var i :| 0 <= i < n && entries[..n][i].key == key;
        assert entries[i].key == key;
      }
    }
  }

  lemma EntryInMap(entries: seq<Entry>, i: int)
    requires SortedEntries(entries) && 0 <= i < |entries|
    ensures entries[i].key in MapOf(entries) && MapOf(entries)[entries[i].key] == entries[i].value
  {
    MapAt(entries, entries[i].key);
  }

  lemma EntryFor(entries: seq<Entry>, key: string) returns (i: int)
    requires SortedEntries(entries) && key in MapOf(entries)
    ensures 0 <= i < |entries| && entries[i].key == key && entries[i].value == MapOf(entries)[key]
  {
    MapAt(entries, key);
    i :| 0 <= i < |entries| && entries[i].key == key;
  }

  /** The place of a key: everything before it is smaller, nothing from it on is. */
  ghost predicate PlaceOf(entries: seq<Entry>, key: string, idx: int) {
    && 0 <= idx <= |entries|
    && (forall i :: 0 <= i < idx ==> Less(entries[i].key, key))
    && (forall i :: idx <= i < |entries| ==> !Less(entries[i].key, key))
  }

  /** sort.Search: the smallest index whose key is not less than the one sought. */
  method Search(entries: seq<Entry>, key: string) returns (idx: nat)
    requires SortedEntries(entries)
    ensures PlaceOf(entries, key, idx)
  {
    hide Less;
    var i, j := 0, |entries|;
    while i < j
      invariant 0 <= i <= j <= |entries|
      invariant forall k :: 0 <= k < i ==> Less(entries[k].key, key)
      invariant forall k :: j <= k < |entries| ==> !Less(entries[k].key, key)
    {
      var h := (i + j) / 2;
      if Less(entries[h].key, key) {
        forall k | 0 <= k < h ensures Less(entries[k].key, key) {
          LessTransitive(entries[k].key, entries[h].key, key);
        }
        i := h + 1;
      } else {
        forall k | h < k < |entries| ensures !Less(entries[k].key, key) {
          if Less(entries[k].key, key) { LessTransitive(entries[h].key, entries[k].key, key); }
        }
        j := h;
      }
    }
    idx := i;
  }

  /** Where a key is if it is there at all. */
  lemma PlaceFinds(entries: seq<Entry>, key: string, idx: nat)
    requires SortedEntries(entries) && PlaceOf(entries, key, idx)
    ensures key in MapOf(entries) <==> idx < |entries| && entries[idx].key == key
    ensures key in MapOf(entries) ==> MapOf(entries)[key] == entries[idx].value
  {
    MapAt(entries, key);
    LessIrreflexive(key);
    forall i: int | 0 <= i < |entries| && entries[i].key == key ensures i == idx {
      NotLaterKey(entries, key, idx, i);
    }
  }

  lemma KeysOrdered(entries: seq<Entry>, i: int, j: int)
    requires SortedEntries(entries) && 0 <= i < j < |entries|
    ensures Less(entries[i].key, entries[j].key)
  {
  }

  lemma NotLaterKey(entries: seq<Entry>, key: string, idx: int, i: int)
    requires SortedEntries(entries) && PlaceOf(entries, key, idx) && 0 <= i < |entries| && entries[i].key == key
    ensures i <= idx
  {
    if idx < i { KeysOrdered(entries, idx, i); }
  }

  /** The private copy after Set: the value replaced in place, or a new entry shifted in. */
  function Put(entries: seq<Entry>, idx: nat, key: string, value: Value, level: nat): seq<Entry>
    requires idx <= |entries|
  {
    if idx < |entries| && entries[idx].key == key then entries[idx := entries[idx].(value := value)]
    else entries[..idx] + [Entry(key, value, level)] + entries[idx..]
  }

  function Drop(entries: seq<Entry>, idx: nat): seq<Entry>
    requires idx < |entries|
  {
    entries[..idx] + entries[idx + 1..]
  }

  lemma PutSorted(entries: seq<Entry>, idx: nat, key: string, value: Value, level: nat)
    requires SortedEntries(entries) && PlaceOf(entries, key, idx)
    ensures SortedEntries(Put(entries, idx, key, value, level))
  {
    hide Less;
    if !(idx < |entries| && entries[idx].key == key) {
      forall i | idx <= i < |entries| ensures Less(key, entries[i].key) {
        LessTotal(key, entries[idx].key);
        if idx < i { LessTransitive(key, entries[idx].key, entries[i].key); }
      }
      var after := Put(entries, idx, key, value, level);
      assert forall i :: 0 <= i < |after| ==>
          after[i] == if i < idx then entries[i] else if i == idx then Entry(key, value, level) else entries[i - 1];
    }
  }

  lemma PutIndex(entries: seq<Entry>, idx: nat, key: string, value: Value, level: nat)
    requires idx <= |entries|
    ensures var after := Put(entries, idx, key, value, level);
            && idx < |after| && after[idx].key == key && after[idx].value == value
            && (forall i :: 0 <= i < idx ==> after[i] == entries[i])
            && (if |after| == |entries| then entries[idx].key == key && forall i :: idx < i < |entries| ==>
                after[i] == entries[i]
                else |after| == |entries| + 1 && forall i :: idx <= i < |entries| ==> after[i + 1] == entries[i])
  {
  }

  /** What was there still is, the key itself excepted. */
  lemma PutKeeps(entries: seq<Entry>, idx: nat, key: string, value: Value, level: nat, k: string)
    requires SortedEntries(entries) && PlaceOf(entries, key, idx) && k in MapOf(entries) && k != key
    ensures var after := MapOf(Put(entries, idx, key, value, level)); k in after && after[k] == MapOf(entries)[k]
  {
    PutSorted(entries, idx, key, value, level);
    PutIndex(entries, idx, key, value, level);
    hide Less, MapOf, SortedEntries, PlaceOf, Put;
    var after := Put(entries, idx, key, value, level);
    var i := EntryFor(entries, k);
    EntryInMap(after, if i < idx || |after| == |entries| then i else i + 1);
  }

  /** And nothing else is, the key itself excepted. */
  lemma PutOnlyKeeps(entries: seq<Entry>, idx: nat, key: string, value: Value, level: nat, k: string)
    requires SortedEntries(entries) && PlaceOf(entries, key, idx) && k in MapOf(Put(entries, idx, key, value, level))
        && k != key
    ensures k in MapOf(entries)
  {
    PutSorted(entries, idx, key, value, level);
    PutIndex(entries, idx, key, value, level);
    hide Less, MapOf, SortedEntries, PlaceOf, Put;
    var after := Put(entries, idx, key, value, level);
    var j := EntryFor(after, k);
    var i := if j < idx || |after| == |entries| then j else j - 1;
    assert j != idx;
    assert after[j] == entries[i];
    EntryInMap(entries, i);
  }

  lemma PutAt(entries: seq<Entry>, idx: nat, key: string, value: Value, level: nat, k: string)
    requires SortedEntries(entries) && PlaceOf(entries, key, idx)
    ensures var before, after := MapOf(entries), MapOf(Put(entries, idx, key, value, level));
            && (k in after <==> k == key || k in before)
            && (k in after ==> after[k] == if k == key then value else before[k])
  {
    PutSorted(entries, idx, key, value, level);
    PutIndex(entries, idx, key, value, level);
    hide Less, MapOf, SortedEntries, PlaceOf, Put;
    EntryInMap(Put(entries, idx, key, value, level), idx);
    if k != key && k in MapOf(entries) { PutKeeps(entries, idx, key, value, level, k); }
    if k != key && k in MapOf(Put(entries, idx, key, value, level)) {
      PutOnlyKeeps(entries, idx, key, value, level, k);
    }
  }

  /** The edited copy is in order and stands for the updated map. */
  lemma PutUpdates(entries: seq<Entry>, idx: nat, key: string, value: Value, level: nat)
    requires SortedEntries(entries) && PlaceOf(entries, key, idx)
    ensures SortedEntries(Put(entries, idx, key, value, level))
    ensures MapOf(Put(entries, idx, key, value, level)) == MapOf(entries)[key := value]
  {
    PutSorted(entries, idx, key, value, level);
    hide MapOf, PlaceOf, SortedEntries, Put;
    forall k ensures k in MapOf(Put(entries, idx, key, value, level)) <==> k in MapOf(entries)[key := value] {
      PutAt(entries, idx, key, value, level, k);
    }
    forall k | k in MapOf(entries)[key := value]
      ensures MapOf(Put(entries, idx, key, value, level))[k] == MapOf(entries)[key := value][k]
    {
      PutAt(entries, idx, key, value, level, k);
    }
  }

  lemma DropIndex(entries: seq<Entry>, idx: nat)
    requires idx < |entries|
    ensures |Drop(entries, idx)| == |entries| - 1
    ensures forall j :: 0 <= j < |entries| - 1 ==> Drop(entries, idx)[j] == entries[if j < idx then j else j + 1]
  {
  }

  lemma DropAt(entries: seq<Entry>, idx: nat, j: int)
    requires idx < |entries|
    ensures |Drop(entries, idx)| == |entries| - 1
    ensures 0 <= j < |entries| - 1 ==> Drop(entries, idx)[j] == entries[if j < idx then j else j + 1]
  {
    DropIndex(entries, idx);
  }

  lemma DropSorted(entries: seq<Entry>, idx: nat)
    requires SortedEntries(entries) && idx < |entries|
    ensures SortedEntries(Drop(entries, idx))
  {
    hide Less;
    DropIndex(entries, idx);
    hide Drop;
  }

  /** An entry other than the dropped one is still there. */
  lemma DropKeeps(entries: seq<Entry>, idx: nat, k: string)
    requires SortedEntries(entries) && idx < |entries| && k in MapOf(entries) && k != entries[idx].key
    ensures k in MapOf(Drop(entries, idx)) && MapOf(Drop(entries, idx))[k] == MapOf(entries)[k]
  {
    hide Less, MapOf, SortedEntries, Drop;
    DropSorted(entries, idx);
    var i := EntryFor(entries, k);
    assert i != idx;
    var j := if i < idx then i else i - 1;
    DropAt(entries, idx, j);
    EntryInMap(Drop(entries, idx), j);
  }

  /** And nothing else is. */
  lemma DropOnlyKeeps(entries: seq<Entry>, idx: nat, k: string)
    requires SortedEntries(entries) && idx < |entries| && k in MapOf(Drop(entries, idx))
    ensures k in MapOf(entries) && k != entries[idx].key
  {
    DropSorted(entries, idx);
    hide Less, MapOf, SortedEntries, Drop;
    var j := EntryFor(Drop(entries, idx), k);
    var i := if j < idx then j else j + 1;
    DropAt(entries, idx, j);
    EntryInMap(entries, i);
    if k == entries[idx].key { OneEntry(entries, i, idx); }
  }

  lemma OneEntry(entries: seq<Entry>, i: int, j: int)
    requires SortedEntries(entries) && 0 <= i < |entries| && 0 <= j < |entries| && entries[i].key == entries[j].key
    ensures i == j
  {
    hide Less;
    LessIrreflexive(entries[i].key);
    if i < j {
      KeysOrdered(entries, i, j);
    } else if j < i {
      KeysOrdered(entries, j, i);
    }
  }

  lemma DropRemoves(entries: seq<Entry>, idx: nat)
    requires SortedEntries(entries) && idx < |entries|
    ensures SortedEntries(Drop(entries, idx)) && MapOf(Drop(entries, idx)) == MapOf(entries) - {entries[idx].key}
  {
    DropSorted(entries, idx);
    hide MapOf, SortedEntries, Drop;
    forall k ensures k in MapOf(Drop(entries, idx)) <==> k in MapOf(entries) - {entries[idx].key} {
      if k in MapOf(Drop(entries, idx)) { DropOnlyKeeps(entries, idx, k); }
      if k in MapOf(entries) && k != entries[idx].key { DropKeeps(entries, idx, k); }
    }
    forall k | k in MapOf(Drop(entries, idx)) ensures MapOf(Drop(entries, idx))[k] == MapOf(entries)[k] {
      DropOnlyKeeps(entries, idx, k);
      DropKeeps(entries, idx, k);
    }
  }

  // ----- the two kinds of snapshot -------------------------------------------------------

  datatype Snap = Towers(entries: seq<Entry>) | Tree(keys: seq<string>, store: map<string, Value>)

  ghost predicate SnapOk(s: Snap) {
    match s
    case Towers(entries) => SortedEntries(entries)
    case Tree(keys, store) => Ascending(keys) && forall k :: k in keys <==> k in store
  }

  function ToMap(s: Snap): map<string, Value> {
    if s.Towers? then MapOf(s.entries) else s.store
  }

  datatype Op = Set(key: string, value: Value) | Get(key: string) | Delete(key: string)

  datatype Result = Done | Found(value: Option<Value>) | Deleted(ok: bool)

  /** The finite map both dictionaries are meant to be. */
  function Apply(m: map<string, Value>, op: Op): (map<string, Value>, Result) {
    match op
    case Set(key, value) => (m[key := value], Done)
    case Get(key) => (m, Found(Lookup(m, key)))
    case Delete(key) => (m - {key}, Deleted(key in m))
  }

  /** What a finite map is: a get finds what was set last under its key and nothing after a delete, a
      delete says whether there was something, and no other key notices. */
  lemma MapLaws(m: map<string, Value>, key: string, value: Value, other: string)
    ensures Apply(Apply(m, Set(key, value)).0, Get(key)).1 == Found(Some(value))
    ensures Apply(Apply(m, Delete(key)).0, Get(key)).1 == Found(None)
    ensures Apply(m, Delete(key)).1 == Deleted(Apply(m, Get(key)).1 != Found(None))
    ensures other != key ==> Apply(Apply(m, Set(key, value)).0, Get(other)).1 == Apply(m, Get(other)).1
    ensures other != key ==> Apply(Apply(m, Delete(key)).0, Get(other)).1 == Apply(m, Get(other)).1
    ensures Apply(m, Get(key)).0 == m
  {
  }

  function Lookup(m: map<string, Value>, key: string): Option<Value> {
    if key in m then Some(m[key]) else None
  }

  /** What the code reads in a snapshot: the entry at the key's place if it has the key, or the store. */
  ghost predicate Reads(s: Snap, key: string, value: Option<Value>) {
    match s
    case Towers(entries) => exists idx: nat :: PlaceOf(entries, key, idx) && value == EntryAt(entries, key, idx)
    case Tree(_, store) => value == Lookup(store, key)
  }

  function EntryAt(entries: seq<Entry>, key: string, idx: nat): Option<Value> {
    if idx < |entries| && entries[idx].key == key then Some(entries[idx].value) else None
  }

  /** Reading finds what the snapshot's map holds. */
  lemma ReadsFind(s: Snap, key: string, value: Option<Value>)
    requires SnapOk(s) && Reads(s, key, value)
    ensures value == Lookup(ToMap(s), key)
  {
    hide PlaceOf, MapOf, SortedEntries;
    if s.Towers? {
      var idx: nat :| PlaceOf(s.entries, key, idx) && value == EntryAt(s.entries, key, idx);
      PlaceFinds(s.entries, key, idx);
    }
  }

  /** A valid snapshot of the same kind for the map after the operation. */
  ghost predicate IsEdit(before: Snap, op: Op, after: Snap) {
    SnapOk(after) && after.Towers? == before.Towers? && ToMap(after) == Apply(ToMap(before), op).0
  }

  /** One attempt of Set on sorted towers, on its private copy. */
  method EditTowersSet(entries: seq<Entry>, key: string, value: Value, level: nat) returns (clone: seq<Entry>)
    requires SortedEntries(entries)
    ensures IsEdit(Towers(entries), Set(key, value), Towers(clone))
  {
    hide MapOf, SortedEntries, PlaceOf;
    clone := entries;
    var idx := Search(clone, key);
    PlaceBound(entries, key, idx);
    PutUpdates(entries, idx, key, value, level);
    if idx < |clone| && clone[idx].key == key {
      clone := clone[idx := clone[idx].(value := value)];
    } else {
      clone := clone[..idx] + [Entry(key, value, level)] + clone[idx..];
    }
  }

  lemma PlaceBound(entries: seq<Entry>, key: string, idx: int)
    requires PlaceOf(entries, key, idx)
    ensures 0 <= idx <= |entries|
  {
  }

  method GetTowers(entries: seq<Entry>, key: string) returns (value: Option<Value>)
    requires SortedEntries(entries)
    ensures Reads(Towers(entries), key, value)
    ensures Found(value) == Apply(MapOf(entries), Get(key)).1
  {
    hide MapOf, SortedEntries, PlaceOf;
    var idx := Search(entries, key);
    PlaceBound(entries, key, idx);
    PlaceFinds(entries, key, idx);
    value := None;
    if idx < |entries| && entries[idx].key == key {
      value := Some(entries[idx].value);
    }
    assert value == EntryAt(entries, key, idx);
  }

  /** One attempt of Delete: None when the key is not there, and then nothing is swapped in. */
  method EditTowersDelete(entries: seq<Entry>, key: string) returns (clone: Option<seq<Entry>>)
    requires SortedEntries(entries)
    ensures clone.None? <==> Reads(Towers(entries), key, None)
    ensures clone.None? <==> key !in MapOf(entries)
    ensures clone.Some? ==> IsEdit(Towers(entries), Delete(key), Towers(clone.value))
  {
    hide MapOf, SortedEntries, PlaceOf;
    var idx := Search(entries, key);
    PlaceBound(entries, key, idx);
    PlaceFinds(entries, key, idx);
    assert Reads(Towers(entries), key, EntryAt(entries, key, idx));
    if idx >= |entries| || entries[idx].key != key {
      return None;
    }
    if Reads(Towers(entries), key, None) { ReadsFind(Towers(entries), key, None); }
    DropRemoves(entries, idx);
    return Some(entries[..idx] + entries[idx + 1..]);
  }

  /** sort.Strings on distinct keys: there is one ascending arrangement, whatever the algorithm. */
  method SortKeys(keys: seq<string>) returns (out: seq<string>)
    requires forall i, j :: 0 <= i < j < |keys| ==> keys[i] != keys[j]
    ensures Ascending(out) && forall k :: k in out <==> k in keys
  {
    hide Less;
    out := [];
    for n := 0 to |keys|
      invariant Ascending(out) && forall k :: k in out <==> k in keys[..n]
    {
      assert keys[..n + 1] == keys[..n] + [keys[n]];
      var at := |out|;
      forall i | 0 <= i < |out| ensures out[i] != keys[n] {
        assert out[i] in keys[..n];
      }
      while at > 0 && Less(keys[n], out[at - 1])
        invariant 0 <= at <= |out| && forall i :: at <= i < |out| ==> Less(keys[n], out[i])
      {
        at := at - 1;
      }
      KeyFits(out, keys[n], at);
      out := out[..at] + [keys[n]] + out[at..];
    }
    assert keys[..|keys|] == keys;
  }

  lemma KeyFits(out: seq<string>, key: string, at: nat)
    requires Ascending(out) && at <= |out| && (forall i :: 0 <= i < |out| ==> out[i] != key)
    requires (forall i :: at <= i < |out| ==> Less(key, out[i])) && (at > 0 ==> !Less(key, out[at - 1]))
    ensures Ascending(out[..at] + [key] + out[at..])
    ensures forall k :: k in out[..at] + [key] + out[at..] <==> k in out || k == key
  {
    hide Less;
    assert out == out[..at] + out[at..];
    forall i | 0 <= i < at ensures Less(out[i], key) {
      LessTotal(key, out[at - 1]);
      if i < at - 1 { LessTransitive(out[i], out[at - 1], key); }
    }
  }

  lemma AscendingDistinct(keys: seq<string>)
    requires Ascending(keys)
    ensures forall i, j :: 0 <= i < j < |keys| ==> keys[i] != keys[j]
  {
    forall i, j | 0 <= i < j < |keys| ensures keys[i] != keys[j] {
      LessAsymmetric(keys[i], keys[j]);
    }
  }

  /** treeSnapshot.set on a private copy. */
  method EditTreeSet(keys: seq<string>, store: map<string, Value>, key: string, value: Value)
    returns (keys': seq<string>, store': map<string, Value>)
    requires SnapOk(Tree(keys, store))
    ensures IsEdit(Tree(keys, store), Set(key, value), Tree(keys', store'))
  {
    hide Ascending;
    keys', store' := keys, store;
    if key !in store' {
      AscendingDistinct(keys);
      keys' := keys' + [key];
      keys' := SortKeys(keys');
    }
    store' := store'[key := value];
  }

  /** Delete on a private copy: the key list is rebuilt from the store. */
  method EditTreeDelete(keys: seq<string>, store: map<string, Value>, key: string)
    returns (keys': seq<string>, store': map<string, Value>)
    requires SnapOk(Tree(keys, store)) && key in store
    ensures IsEdit(Tree(keys, store), Delete(key), Tree(keys', store'))
  {
    hide Ascending;
    store' := store - {key};
    keys' := [];
    var left := store'.Keys;
    while left != {}
      invariant left <= store'.Keys && forall k :: k in keys' <==> k in store' && k !in left
      invariant forall i, j :: 0 <= i < j < |keys'| ==> keys'[i] != keys'[j]
      decreases left
    {
      var k := NextKey(left);
      assert forall i :: 0 <= i < |keys'| ==> keys'[i] in keys';
      keys' := keys' + [k];
      left := left - {k};
    }
    keys' := SortKeys(keys');
  }

  // ----- threads and the atomic pointer --------------------------------------------------

  /** How far one attempt of a call has got, and with which snapshots. */
  datatype Pc =
    | Begun
    | Loaded(from: nat)
    | Copied(from: nat, copy: nat)
    | Ready(from: nat, copy: nat)
    | Answered(result: Result)

  /** One call. `start` is how many operations had taken effect when it began and `at` its own place
      among them, once it has one; neither is anything the code looks at. */
  datatype Thread = Thread(op: Op, call: nat, start: nat, at: Option<nat>, pc: Pc)

  /** One operation at the instant it took effect. What it gave is not recorded: the map says. */
  datatype Effect = Effect(call: nat, op: Op)

  /** A call that is over, with the result the code returned. */
  datatype Return = Return(op: Op, call: nat, start: nat, at: nat, end: nat, result: Result)

  /** `heap` holds every snapshot ever allocated, by address; `effects` the operations in the order in
      which they took effect; `over` the calls that are over. */
  datatype Sys = Sys(
    heap: seq<Snap>, ptr: nat, published: set<nat>, threads: map<nat, Thread>, calls: nat, effects: seq<Effect>,
        over: seq<Return>)

  ghost predicate Init(s: Sys) {
    && |s.heap| == 1 && SnapOk(s.heap[0]) && ToMap(s.heap[0]) == map[]
    && s.ptr == 0 && s.published == {0} && s.threads == map[] && s.calls == 0 && s.effects == [] && s.over == []
  }

  /** Answer is the code reading its snapshot and returning from that alone; CompareAndSwap returns
      when it succeeds. */
  datatype Step =
    | Begin(t: nat, op: Op)
    | Load(t: nat)
    | Answer(t: nat, value: Option<Value>)
    | Copy(t: nat, value: Option<Value>)
    | Edit(t: nat, value: Option<Value>, after: Snap)
    | CompareAndSwap(t: nat)
    | Finish(t: nat)

  predicate Has(s: Sys, id: nat) {
    id < |s.heap|
  }

  /** Get reads what it loaded. Delete reads what it loaded before copying it (the tree) or the copy it
      has just made (the towers), and goes on only when the key is there. */
  ghost predicate Enabled(s: Sys, step: Step) {
    match step
    case Begin(t, _) => t !in s.threads
    case Load(t) => t in s.threads && s.threads[t].pc.Begun?
    case Answer(t, value) =>
      && t in s.threads
      && var th := s.threads[t];
         && (th.pc.Loaded? || th.pc.Copied?) && Has(s, Examined(th.pc)) && !th.op.Set?
         && Reads(s.heap[Examined(th.pc)], th.op.key, value)
         && (if th.op.Get? then th.pc.Loaded? else value == None && (th.pc.Loaded? <==> s.heap[Examined(th.pc)].Tree?))
    case Copy(t, value) =>
      && t in s.threads
      && var th := s.threads[t];
         && th.pc.Loaded? && Has(s, th.pc.from) && !th.op.Get?
         && (th.op.Delete? && s.heap[th.pc.from].Tree? ==> value.Some? && Reads(s.heap[th.pc.from], th.op.key, value))
    case Edit(t, value, after) =>
      && t in s.threads
      && var th := s.threads[t];
         && th.pc.Copied? && Has(s, th.pc.copy)
         && (th.op.Delete? && s.heap[th.pc.copy].Towers? ==> value.Some? && Reads(s.heap[th.pc.copy], th.op.key, value))
         && IsEdit(s.heap[th.pc.copy], th.op, after)
    case CompareAndSwap(t) => t in s.threads && s.threads[t].pc.Ready?
    case Finish(t) => t in s.threads && s.threads[t].pc.Answered?
  }

  /** The snapshot a call reads next. */
  function Examined(pc: Pc): nat
    requires pc.Loaded? || pc.Copied?
  {
    if pc.Copied? then pc.copy else pc.from
  }

  function CurrentMap(s: Sys): map<string, Value> {
    if Has(s, s.ptr) then ToMap(s.heap[s.ptr]) else map[]
  }

  /** Whether the map answers the call without being changed: a Get, or a Delete of an absent key. */
  predicate ReadsOnly(m: map<string, Value>, op: Op) {
    op.Get? || (op.Delete? && op.key !in m)
  }

  function Next(s: Sys, step: Step): Sys {
    match step
    case Begin(t, op) => s.(threads := s.threads[t := Thread(op, s.calls, |s.effects|, None, Begun)],
        calls := s.calls + 1)
    case Load(t) => if t in s.threads then LoadStep(s, t, s.threads[t]) else s
    case Answer(t, value) => if t in s.threads then AnswerStep(s, t, s.threads[t], value) else s
    case Copy(t, _) => if t in s.threads && s.threads[t].pc.Loaded? then CopyStep(s, t, s.threads[t]) else s
    case Edit(t, _, after) => if t in s.threads && s.threads[t].pc.Copied? then EditStep(s, t, s.threads[t], after)
        else s
    case CompareAndSwap(t) => if t in s.threads && s.threads[t].pc.Ready? then SwapStep(s, t, s.threads[t]) else s
    case Finish(t) => if t in s.threads then FinishStep(s, t, s.threads[t]) else s
  }

  /** A call that the current map answers takes effect when it loads it, although it reads it later. */
  function LoadStep(s: Sys, t: nat, th: Thread): Sys {
    if ReadsOnly(CurrentMap(s), th.op)
    then s.(effects := s.effects + [Effect(th.call, th.op)],
            threads := s.threads[t := th.(pc := Loaded(s.ptr), at := Some(|s.effects|))])
    else s.(threads := s.threads[t := th.(pc := Loaded(s.ptr))])
  }

  function AnswerStep(s: Sys, t: nat, th: Thread, value: Option<Value>): Sys {
    s.(threads := s.threads[t := th.(pc := Answered(if th.op.Get? then Found(value) else Deleted(false)))])
  }

  function CopyStep(s: Sys, t: nat, th: Thread): Sys
    requires th.pc.Loaded?
  {
    if !Has(s, th.pc.from) then s
    else s.(heap := s.heap + [s.heap[th.pc.from]], threads := s.threads[t := th.(pc := Copied(th.pc.from, |s.heap|))])
  }

  function EditStep(s: Sys, t: nat, th: Thread, after: Snap): Sys
    requires th.pc.Copied?
  {
    if !Has(s, th.pc.copy) then s
    else s.(heap := s.heap[th.pc.copy := after], threads := s.threads[t := th.(pc := Ready(th.pc.from, th.pc.copy))])
  }

  /** Swap the copy in and return if the pointer still is what was loaded; start over otherwise. */
  function SwapStep(s: Sys, t: nat, th: Thread): Sys
    requires th.pc.Ready?
  {
    if s.ptr == th.pc.from
    then s.(ptr := th.pc.copy, published := s.published + {th.pc.copy}, effects := s.effects + [Effect(th.call, th.op)],
            threads := s.threads[t :=
                th.(pc := Answered(if th.op.Set? then Done else Deleted(true)), at := Some(|s.effects|))])
    else s.(threads := s.threads[t := th.(pc := Begun)])
  }

  function FinishStep(s: Sys, t: nat, th: Thread): Sys {
    if !th.pc.Answered? || th.at.None? then s
    else s.(threads := s.threads - {t},
            over := s.over + [Return(th.op, th.call, th.start, th.at.value, |s.effects|, th.pc.result)])
  }

  // ----- the invariant -------------------------------------------------------------------

  /** The map the effects, run one after the other on the empty map, come to. */
  function Replay(effects: seq<Effect>): map<string, Value> {
    if effects == [] then map[] else Apply(Replay(effects[..|effects| - 1]), effects[|effects| - 1].op).0
  }

  ghost predicate SnapshotsOk(s: Sys) {
    && s.ptr in s.published
    && (forall id :: id in s.published ==> Has(s, id) && SnapOk(s.heap[id]))
  }

  predicate Logged(effects: seq<Effect>, call: nat) {
    exists i :: 0 <= i < |effects| && effects[i].call == call
  }

  /** The effect of a call, at its place. */
  predicate EffectAt(effects: seq<Effect>, at: nat, call: nat, op: Op, start: nat) {
    start <= at < |effects| && effects[at] == Effect(call, op)
  }

  /** What the operation at place `at` gives on the map made by those before it. */
  function ResultAt(effects: seq<Effect>, at: nat, op: Op): Result
    requires at <= |effects|
  {
    Apply(Replay(effects[..at]), op).1
  }

  ghost predicate Placed(s: Sys, th: Thread) {
    && (th.at.Some? ==> EffectAt(s.effects, th.at.value, th.call, th.op, th.start))
    && (th.at.None? ==> !Logged(s.effects, th.call))
  }

  /** The loaded snapshot is published, and for a call already placed it is the map of that place. */
  ghost predicate FromOk(s: Sys, th: Thread, from: nat) {
    && from in s.published && Has(s, from)
    && (th.at.Some? <==> ReadsOnly(ToMap(s.heap[from]), th.op))
    && (th.at.Some? ==> th.at.value <= |s.effects| && ToMap(s.heap[from]) == Replay(s.effects[..th.at.value]))
  }

  /** A copy is private to its thread until it is swapped in. */
  ghost predicate ThreadOk(s: Sys, th: Thread) {
    && th.call < s.calls && th.start <= |s.effects| && Placed(s, th)
    && match th.pc
       case Begun => th.at.None?
       case Loaded(from) => FromOk(s, th, from)
       case Copied(from, copy) => FromOk(s, th, from) && Has(s, copy) && copy !in s.published
           && s.heap[copy] == s.heap[from]
                                && (th.at.Some? ==> th.op.Delete? && s.heap[copy].Towers?)
       case Ready(from, copy) =>
         && FromOk(s, th, from) && Has(s, copy) && copy !in s.published && th.at.None?
         && IsEdit(s.heap[from], th.op, s.heap[copy])
       case Answered(result) =>
           th.at.Some? && th.at.value <= |s.effects| && result == ResultAt(s.effects, th.at.value, th.op)
  }

  predicate HasCopy(th: Thread) {
    th.pc.Copied? || th.pc.Ready?
  }

  /** The call took effect within its time and returned what the map gave there. */
  ghost predicate ReturnOk(effects: seq<Effect>, r: Return) {
    EffectAt(effects, r.at, r.call, r.op, r.start) && r.at < r.end <= |effects|
        && r.result == ResultAt(effects, r.at, r.op)
  }

  ghost predicate Inv(s: Sys) {
    && SnapshotsOk(s) && Replay(s.effects) == CurrentMap(s)
    && (forall t :: t in s.threads ==> ThreadOk(s, s.threads[t]))
    && (forall t, u :: t in s.threads && u in s.threads && t != u ==> s.threads[t].call != s.threads[u].call)
    && (forall t, u :: t in s.threads && u in s.threads && t != u && HasCopy(s.threads[t]) && HasCopy(s.threads[u]) ==>
          s.threads[t].pc.copy != s.threads[u].pc.copy)
    && (forall i :: 0 <= i < |s.effects| ==> s.effects[i].call < s.calls)
    && (forall i, j :: 0 <= i < j < |s.effects| ==> s.effects[i].call != s.effects[j].call)
    && (forall r :: r in s.over ==> ReturnOk(s.effects, r))
  }
}
