/**
 internal/concurrency/dict/skiplist.go: the pointer skip list. `chain` is the bottom chain, head
 first; every forward pointer leads to the next node that is tall enough. Set, Get, Delete, Len
 and Range are proved to be those of a finite map, whatever levels the random draw returns.
 */
module SkipList {
  import opened Common
  import opened Keys

  const MAX_LEVEL: nat := 16

  class Node<V> {
    const key: string
    const height: nat
    var value: V
    var forward: seq<Node?<V>>

    constructor (key: string, value: V, height: nat)
      ensures this.key == key && this.value == value && this.height == height
      ensures forward == seq(height, _ => null)
    {
      this.key, this.value, this.height := key, value, height;
      forward := seq(height, _ => null);
    }
  }

  // ----- chains --------------------------------------------------------------------------

  /** The next node after index p that is taller than l. */
  ghost function NextAt<V>(chain: seq<Node<V>>, p: nat, l: nat): (n: Node?<V>)
    requires p < |chain|
    decreases |chain| - p
  {
    if p + 1 == |chain| then null
    else if chain[p + 1].height > l then chain[p + 1]
    else NextAt(chain, p + 1, l)
  }

  /** No node strictly between the two indices is taller than l. */
  ghost predicate LowBetween<V>(chain: seq<Node<V>>, p: nat, q: nat, l: nat) {
    forall j :: p < j < q && j < |chain| ==> chain[j].height <= l
  }

  lemma {:induction false} NextFound<V>(chain: seq<Node<V>>, p: nat, q: nat, l: nat)
    requires p < q < |chain| && chain[q].height > l && LowBetween(chain, p, q, l)
    ensures NextAt(chain, p, l) == chain[q]
    decreases q - p
  {
    if p + 1 < q { NextFound(chain, p + 1, q, l); }
  }

  lemma {:induction false} NextMissing<V>(chain: seq<Node<V>>, p: nat, l: nat)
    requires p < |chain| && LowBetween(chain, p, |chain|, l)
    ensures NextAt(chain, p, l) == null
    decreases |chain| - p
  {
    if p + 1 < |chain| { NextMissing(chain, p + 1, l); }
  }

  /** Where a forward pointer leads: the index, or |chain| for null. */
  lemma {:induction false} NextIndex<V>(chain: seq<Node<V>>, p: nat, l: nat) returns (q: nat)
    requires p < |chain|
    ensures p < q <= |chain| && LowBetween(chain, p, q, l)
    ensures if q == |chain| then NextAt(chain, p, l) == null
            else chain[q].height > l && NextAt(chain, p, l) == chain[q]
    decreases |chain| - p
  {
    if p + 1 == |chain| || chain[p + 1].height > l {
      q := p + 1;
    } else {
      q := NextIndex(chain, p + 1, l);
    }
  }

  ghost function Inserted<V>(chain: seq<Node<V>>, c: nat, node: Node<V>): (after: seq<Node<V>>)
    requires c <= |chain|
    ensures |after| == |chain| + 1 && after[c] == node
  {
    chain[..c] + [node] + chain[c..]
  }

  /** Where an old index ends up. */
  ghost function Shift(p: nat, c: nat): nat {
    if p < c then p else p + 1
  }

  /** The predecessor at level l of the place of insertion now leads to the new node. */
  lemma NextToInserted<V>(chain: seq<Node<V>>, c: nat, node: Node<V>, u: nat, l: nat)
    requires u < c <= |chain| && l < node.height && LowBetween(chain, u, c, l)
    ensures NextAt(Inserted(chain, c, node), u, l) == node
  {
    var after := Inserted(chain, c, node);
    assert forall j :: 0 <= j < c ==> after[j] == chain[j];
    NextFound(after, u, c, l);
  }

  /** A pointer that ends before the place of insertion is unaffected. */
  lemma NextBefore<V>(chain: seq<Node<V>>, c: nat, node: Node<V>, p: nat, u: nat, l: nat)
    requires p < u < c <= |chain| && chain[u].height > l
    ensures NextAt(Inserted(chain, c, node), p, l) == NextAt(chain, p, l)
  {
    var after := Inserted(chain, c, node);
    assert forall j :: 0 <= j < c ==> after[j] == chain[j];
    var q := NextIndex(chain, p, l);
    assert q <= u;
    NextFound(after, p, q, l);
  }

  /** So is a pointer that starts after it. */
  lemma NextAfter<V>(chain: seq<Node<V>>, c: nat, node: Node<V>, p: nat, l: nat)
    requires c <= p < |chain|
    ensures NextAt(Inserted(chain, c, node), p + 1, l) == NextAt(chain, p, l)
  {
    var after := Inserted(chain, c, node);
    assert forall j :: c < j < |after| ==> after[j] == chain[j - 1];
    var q := NextIndex(chain, p, l);
    if q == |chain| { NextMissing(after, p + 1, l); } else { NextFound(after, p + 1, q + 1, l); }
  }

  /** Inserting a node changes the pointers at level l of its predecessor at that level only. */
  lemma NextInserted<V>(chain: seq<Node<V>>, c: nat, node: Node<V>, p: nat, u: nat, l: nat)
    requires u < c <= |chain| && p < |chain| && l < node.height
    requires chain[u].height > l && chain[p].height > l && LowBetween(chain, u, c, l)
    ensures NextAt(Inserted(chain, c, node), Shift(p, c), l) == if p == u then node else NextAt(chain, p, l)
  {
    if p == u {
      NextToInserted(chain, c, node, u, l);
    } else if p < u {
      NextBefore(chain, c, node, p, u, l);
    } else {
      NextAfter(chain, c, node, p, l);
    }
  }

  /** The new node takes over its predecessor's pointer. */
  lemma NextOfInserted<V>(chain: seq<Node<V>>, c: nat, node: Node<V>, u: nat, l: nat)
    requires u < c <= |chain| && LowBetween(chain, u, c, l)
    ensures NextAt(Inserted(chain, c, node), c, l) == NextAt(chain, u, l)
  {
    var after := Inserted(chain, c, node);
    var q := NextIndex(chain, u, l);
    assert q >= c;
    assert forall j :: c <= j < |chain| ==> after[j + 1] == chain[j];
    assert forall j :: c < j < |after| ==> after[j] == chain[j - 1];
    assert LowBetween(after, c, q + 1, l);
    if q == |chain| { NextMissing(after, c, l); } else { NextFound(after, c, q + 1, l); }
  }
  /** A node too short for level l changes no pointer at that level. */
  lemma NextUntouched<V>(chain: seq<Node<V>>, c: nat, node: Node<V>, p: nat, l: nat)
    requires 0 < c <= |chain| && p < |chain| && node.height <= l
    ensures NextAt(Inserted(chain, c, node), Shift(p, c), l) == NextAt(chain, p, l)
  {
    var after := Inserted(chain, c, node);
    if c <= p {
      NextAfter(chain, c, node, p, l);
    } else {
      var q := NextIndex(chain, p, l);
      assert forall j :: 0 <= j < |after| ==>
          after[j] == if j < c then chain[j] else if j == c then node else chain[j - 1];
      assert LowBetween(after, p, Shift(q, c), l);
      if q == |chain| { NextMissing(after, p, l); } else { NextFound(after, p, Shift(q, c), l); }
    }
  }

  // ----- the wiring ----------------------------------------------------------------------

  ghost predicate Linked<V>(chain: seq<Node<V>>)
    reads chain
  {
    forall p :: 0 <= p < |chain| ==> Points(chain, p, chain[p].forward)
  }

  /** The pointers that node p of the chain should have. */
  ghost predicate Points<V>(chain: seq<Node<V>>, p: nat, forward: seq<Node?<V>>)
    requires p < |chain|
  {
    |forward| == chain[p].height && forall l :: 0 <= l < |forward| ==> forward[l] == NextAt(chain, p, l)
  }

  /** Halfway through an insertion or a removal of `node`: the levels from a to b include it,
      the others do not. */
  ghost predicate HalfWired<V>(rest: seq<Node<V>>, c: nat, node: Node<V>, a: nat, b: nat)
    requires c <= |rest|
    reads rest
  {
    forall p :: 0 <= p < |rest| ==> HalfPoints(rest, c, node, a, b, p, rest[p].forward)
  }

  ghost predicate HalfPoints<V>(rest: seq<Node<V>>, c: nat, node: Node<V>, a: nat, b: nat, p: nat,
      forward: seq<Node?<V>>)
    requires c <= |rest| && p < |rest|
  {
    && |forward| == rest[p].height
    && forall l :: 0 <= l < |forward| ==>
         forward[l] == if a <= l < b then NextAt(Inserted(rest, c, node), Shift(p, c), l) else NextAt(rest, p, l)
  }

  /** Heights: the head reaches every level, the others none at or above `level`. Nodes and keys
      are distinct and in key order. */
  ghost predicate Shaped<V>(chain: seq<Node<V>>, level: nat) {
    && |chain| >= 1 && chain[0].height == MAX_LEVEL && 1 <= level <= MAX_LEVEL
    && (forall p :: 1 <= p < |chain| ==> 1 <= chain[p].height <= level)
    && (forall p, q :: 1 <= p < q < |chain| ==> Less(chain[p].key, chain[q].key))
    && (forall p, q :: 0 <= p < q < |chain| ==> chain[p] != chain[q])
  }

  /** The keys before index c are smaller than `key` and no others are. */
  ghost predicate Cuts<V>(chain: seq<Node<V>>, key: string, c: nat) {
    && 1 <= c <= |chain|
    && (forall p :: 1 <= p < c ==> Less(chain[p].key, key))
    && (forall p :: c <= p < |chain| ==> !Less(chain[p].key, key))
  }

  lemma {:induction false} CutExists<V>(chain: seq<Node<V>>, level: nat, key: string, from: nat) returns (c: nat)
    requires Shaped(chain, level) && 1 <= from <= |chain| && forall p :: 1 <= p < from ==> Less(chain[p].key, key)
    ensures Cuts(chain, key, c)
    decreases |chain| - from
  {
    if from < |chain| && Less(chain[from].key, key) {
      c := CutExists(chain, level, key, from + 1);
    } else {
      c := from;
      forall p | c <= p < |chain| ensures !Less(chain[p].key, key) {
        if p > c && Less(chain[p].key, key) { LessTransitive(chain[c].key, chain[p].key, key); }
      }
    }
  }

  /** The last node before index c that reaches level i. */
  ghost predicate Pred<V>(chain: seq<Node<V>>, c: nat, i: nat, u: nat, node: Node?<V>) {
    u < c <= |chain| && node == chain[u] && chain[u].height > i && LowBetween(chain, u, c, i)
  }

  ghost function Values<V>(chain: seq<Node<V>>): (values: seq<V>)
    reads chain
    ensures |values| == |chain| && forall p :: 0 <= p < |chain| ==> values[p] == chain[p].value
  {
    seq(|chain|, p requires 0 <= p < |chain| reads chain => chain[p].value)
  }

  /** The chain's nodes after the head, with these values, are exactly the map's entries. */
  ghost predicate Holds<V>(chain: seq<Node<V>>, values: seq<V>, dict: map<string, V>)
    requires |values| == |chain|
  {
    && (forall p :: 1 <= p < |chain| ==> chain[p].key in dict && dict[chain[p].key] == values[p])
    && (forall k :: k in dict ==> exists p :: 1 <= p < |chain| && chain[p].key == k)
  }

  /** One level of an insertion: only the predecessor's pointer changes. */
  lemma InsertLevel<V>(rest: seq<Node<V>>, c: nat, node: Node<V>, i: nat, u: nat, p: nat, forward: seq<Node?<V>>)
    requires i < node.height && u < c <= |rest| && Pred(rest, c, i, u, rest[u]) && p < |rest|
    requires HalfPoints(rest, c, node, 0, i, p, forward)
    ensures HalfPoints(rest, c, node, 0, i + 1, p, if p == u then forward[i := node] else forward)
  {
    if rest[p].height > i { NextInserted(rest, c, node, p, u, i); }
  }

  /** One level of a removal. */
  lemma RemoveLevel<V>(rest: seq<Node<V>>, c: nat, node: Node<V>, i: nat, u: nat, p: nat, forward: seq<Node?<V>>,
      next: Node?<V>)
    requires i < node.height && u < c <= |rest| && Pred(rest, c, i, u, rest[u]) && p < |rest|
    requires HalfPoints(rest, c, node, i, node.height, p, forward) && next == NextAt(Inserted(rest, c, node), c, i)
    ensures HalfPoints(rest, c, node, i + 1, node.height, p, if p == u then forward[i := next] else forward)
  {
    NextOfInserted(rest, c, node, u, i);
    if rest[p].height > i { NextInserted(rest, c, node, p, u, i); }
  }

  /** Fully included: the chain with the node is linked if the node's own pointers are right. */
  lemma FullyWired<V>(rest: seq<Node<V>>, c: nat, node: Node<V>)
    requires 0 < c <= |rest| && HalfWired(rest, c, node, 0, node.height)
        && Points(Inserted(rest, c, node), c, node.forward)
    ensures Linked(Inserted(rest, c, node))
  {
    var chain := Inserted(rest, c, node);
    forall q | 0 <= q < |chain| ensures Points(chain, q, chain[q].forward) {
      if q != c {
        var p := if q < c then q else q - 1;
        assert chain[q] == rest[p] && Shift(p, c) == q;
        AllLevels(rest, c, node, p, rest[p].forward);
      }
    }
  }

  lemma AllLevels<V>(rest: seq<Node<V>>, c: nat, node: Node<V>, p: nat, forward: seq<Node?<V>>)
    requires 0 < c <= |rest| && p < |rest|
    ensures HalfPoints(rest, c, node, 0, node.height, p, forward) <==>
        Points(Inserted(rest, c, node), Shift(p, c), forward)
  {
    assert Inserted(rest, c, node)[Shift(p, c)] == rest[p];
    forall l | node.height <= l < |forward|
      ensures NextAt(Inserted(rest, c, node), Shift(p, c), l) == NextAt(rest, p, l)
    {
      NextUntouched(rest, c, node, p, l);
    }
  }

  lemma StartsWired<V>(rest: seq<Node<V>>, c: nat, node: Node<V>)
    requires 0 < c <= |rest|
    ensures Linked(rest) ==> HalfWired(rest, c, node, 0, 0)
    ensures HalfWired(rest, c, node, node.height, node.height) ==> Linked(rest)
    ensures Linked(Inserted(rest, c, node)) ==>
        HalfWired(rest, c, node, 0, node.height) && Points(Inserted(rest, c, node), c, node.forward)
  {
    var chain := Inserted(rest, c, node);
    assert Linked(rest) ==> forall p :: 0 <= p < |rest| ==> Points(rest, p, rest[p].forward);
    assert HalfWired(rest, c, node, node.height, node.height) ==> forall p :: 0 <= p < |rest| ==>
        Points(rest, p, rest[p].forward);
    if Linked(chain) {
      forall p | 0 <= p < |rest| ensures HalfPoints(rest, c, node, 0, node.height, p, rest[p].forward) {
        assert chain[Shift(p, c)] == rest[p];
        AllLevels(rest, c, node, p, rest[p].forward);
      }
      assert chain[c] == node;
    }
  }

  lemma KeysDiffer<V>(chain: seq<Node<V>>, level: nat, p: nat, q: nat)
    requires Shaped(chain, level) && 1 <= p < |chain| && 1 <= q < |chain| && p != q
    ensures chain[p].key != chain[q].key
  {
    LessIrreflexive(chain[p].key);
  }

  lemma LaterKey<V>(chain: seq<Node<V>>, level: nat, c: nat, p: nat)
    requires Shaped(chain, level) && 1 <= c <= p < |chain|
    ensures c < p ==> Less(chain[c].key, chain[p].key)
  {
  }

  lemma ShapeFacts<V>(chain: seq<Node<V>>, level: nat)
    requires Shaped(chain, level)
    ensures |chain| > 0 && forall p, q :: 0 <= p < q < |chain| ==> chain[p] != chain[q]
  {
  }

  /** A new node at the cut keeps the chain in order. */
  lemma Fits<V>(chain: seq<Node<V>>, level: nat, c: nat, node: Node<V>)
    requires Shaped(chain, level) && Cuts(chain, node.key, c) && node !in chain && 1 <= node.height <= level
    requires c < |chain| ==> chain[c].key != node.key
    ensures Shaped(Inserted(chain, c, node), level)
  {
    hide Less;
    var after := Inserted(chain, c, node);
    assert forall q :: 0 <= q < |after| ==>
        after[q] == if q < c then chain[q] else if q == c then node else chain[q - 1];
    forall p | c <= p < |chain| ensures Less(node.key, chain[p].key) {
      LessTotal(node.key, chain[c].key);
      if c < p { LessTransitive(node.key, chain[c].key, chain[p].key); }
    }
  }

  lemma InsertedMembers<V>(chain: seq<Node<V>>, c: nat, node: Node<V>)
    requires 1 <= c <= |chain|
    ensures forall n :: n in Inserted(chain, c, node) ==> n in chain || n == node
    ensures Inserted(chain, c, node)[0] == chain[0]
  {
  }

  lemma HoldsInserted<V>(chain: seq<Node<V>>, values: seq<V>, dict: map<string, V>, c: nat, node: Node<V>, value: V)
    requires |values| == |chain| && Holds(chain, values, dict) && 1 <= c <= |chain| && node.key !in dict
    ensures Holds(Inserted(chain, c, node), values[..c] + [value] + values[c..], dict[node.key := value])
  {
    var after, values', dict' := Inserted(chain, c, node), values[..c] + [value] + values[c..], dict[node.key := value];
    assert forall q :: 0 <= q < c ==> after[q] == chain[q] && values'[q] == values[q];
    assert forall q :: c < q < |after| ==> after[q] == chain[q - 1] && values'[q] == values[q - 1];
    forall k | k in dict' ensures exists q :: 1 <= q < |after| && after[q].key == k {
      if k == node.key {
        assert after[c].key == k;
      } else {
        var p :| 1 <= p < |chain| && chain[p].key == k;
        assert after[Shift(p, c)] == chain[p];
      }
    }
  }

  lemma ValuesInserted<V>(chain: seq<Node<V>>, c: nat, node: Node<V>)
    requires 1 <= c <= |chain|
    ensures Values(Inserted(chain, c, node)) == Values(chain)[..c] + [node.value] + Values(chain)[c..]
  {
  }

  /** While a removal is at level i, the predecessor there leads to the node exactly when the node
      reaches that level. */
  lemma LeadsToNode<V>(rest: seq<Node<V>>, c: nat, node: Node<V>, i: nat, u: nat, forward: seq<Node?<V>>)
    requires u < c <= |rest| && i <= node.height && node !in rest && Pred(rest, c, i, u, rest[u])
    requires HalfPoints(rest, c, node, i, node.height, u, forward)
    ensures i < |forward| && (forward[i] == node <==> i < node.height)
  {
    if i < node.height {
      NextInserted(rest, c, node, u, u, i);
    } else {
      var q := NextIndex(rest, u, i);
    }
  }

  lemma NodePointer<V>(rest: seq<Node<V>>, c: nat, node: Node<V>, forward: seq<Node?<V>>, i: nat)
    requires c <= |rest| && Points(Inserted(rest, c, node), c, forward) && i < node.height
    ensures i < |forward| && forward[i] == NextAt(Inserted(rest, c, node), c, i)
  {
  }

  /** The chain without its c-th node is in order, and inserting that node gives the chain back. */
  lemma Unfits<V>(chain: seq<Node<V>>, level: nat, c: nat, rest: seq<Node<V>>)
    requires Shaped(chain, level) && 1 <= c < |chain| && rest == chain[..c] + chain[c + 1..]
    ensures Shaped(rest, level) && Inserted(rest, c, chain[c]) == chain && chain[c] !in rest && 0 < c <= |rest|
    ensures 1 <= chain[c].height <= level && forall p, q :: 0 <= p < q < |rest| ==> rest[p] != rest[q]
  {
    hide Less;
    RestIndex(chain, c, rest);
    forall p, q | 0 <= p < q < |rest| ensures rest[p] != rest[q] {
      assert chain[Shift(p, c)] != chain[Shift(q, c)];
    }
    forall p, q | 1 <= p < q < |rest| ensures Less(rest[p].key, rest[q].key) {
      assert Less(chain[Shift(p, c)].key, chain[Shift(q, c)].key);
    }
  }

  lemma RestIndex<V>(chain: seq<Node<V>>, c: nat, rest: seq<Node<V>>)
    requires 1 <= c < |chain| && rest == chain[..c] + chain[c + 1..]
    ensures forall p :: 0 <= p < |rest| ==> rest[p] == chain[Shift(p, c)]
    ensures Inserted(rest, c, chain[c]) == chain
  {
  }

  lemma PredRest<V>(chain: seq<Node<V>>, c: nat, rest: seq<Node<V>>, i: nat, u: nat, node: Node?<V>)
    requires 1 <= c < |chain| && rest == chain[..c] + chain[c + 1..] && Pred(chain, c, i, u, node)
    ensures Pred(rest, c, i, u, node)
  {
    assert forall p :: 0 <= p < c ==> rest[p] == chain[p];
  }

  lemma KeyOnce<V>(chain: seq<Node<V>>, level: nat, c: nat)
    requires Shaped(chain, level) && 1 <= c < |chain|
    ensures forall q :: 1 <= q < |chain| && q != c ==> chain[q].key != chain[c].key
  {
    hide Less, Shaped;
    forall q | 1 <= q < |chain| && q != c ensures chain[q].key != chain[c].key {
      KeysDiffer(chain, level, q, c);
    }
  }

  lemma HoldsRemoved<V>(chain: seq<Node<V>>, values: seq<V>, dict: map<string, V>, level: nat, c: nat,
      rest: seq<Node<V>>)
    requires |values| == |chain| && Shaped(chain, level) && Holds(chain, values, dict) && 1 <= c < |chain|
    requires rest == chain[..c] + chain[c + 1..]
    ensures Holds(rest, values[..c] + values[c + 1..], dict - {chain[c].key})
  {
    KeyOnce(chain, level, c);
    RestIndex(chain, c, rest);
    hide Less, Shaped, Inserted;
    StillHeld(chain, values, dict, c, rest);
    StillReached(chain, values, dict, c, rest);
  }

  lemma StillHeld<V>(chain: seq<Node<V>>, values: seq<V>, dict: map<string, V>, c: nat, rest: seq<Node<V>>)
    requires |values| == |chain| && Holds(chain, values, dict) && 1 <= c < |chain| && |rest| == |chain| - 1
    requires forall p :: 0 <= p < |rest| ==> rest[p] == chain[Shift(p, c)]
    requires forall q :: 1 <= q < |chain| && q != c ==> chain[q].key != chain[c].key
    ensures forall p :: 1 <= p < |rest| ==>
              && rest[p].key in dict - {chain[c].key}
              && (dict - {chain[c].key})[rest[p].key] == (values[..c] + values[c + 1..])[p]
  {
    var values' := values[..c] + values[c + 1..];
    assert forall p :: 0 <= p < |rest| ==> values'[p] == values[Shift(p, c)];
  }

  lemma StillReached<V>(chain: seq<Node<V>>, values: seq<V>, dict: map<string, V>, c: nat, rest: seq<Node<V>>)
    requires |values| == |chain| && Holds(chain, values, dict) && 1 <= c < |chain| && |rest| == |chain| - 1
    requires forall p :: 0 <= p < |rest| ==> rest[p] == chain[Shift(p, c)]
    ensures forall k :: k in dict - {chain[c].key} ==> exists p :: 1 <= p < |rest| && rest[p].key == k
  {
    forall k | k in dict && k != chain[c].key ensures exists p :: 1 <= p < |rest| && rest[p].key == k {
      var q :| 1 <= q < |chain| && chain[q].key == k;
      assert Shift(if q < c then q else q - 1, c) == q;
      assert rest[if q < c then q else q - 1] == chain[q];
    }
  }

  lemma ValuesRemoved<V>(chain: seq<Node<V>>, c: nat, rest: seq<Node<V>>)
    requires 1 <= c < |chain| && rest == chain[..c] + chain[c + 1..]
    ensures Values(rest) == Values(chain)[..c] + Values(chain)[c + 1..]
  {
  }

  lemma EarlierKey<V>(chain: seq<Node<V>>, level: nat, p: nat, q: nat)
    requires Shaped(chain, level) && 1 <= p < |chain| && 1 <= q < |chain| && Less(chain[p].key, chain[q].key)
    ensures p < q
  {
    LessAsymmetric(chain[p].key, chain[q].key);
    if q <= p { LaterKey(chain, level, q, p); }
  }

  /** One key per node after the head. */
  lemma CountKeys<V>(chain: seq<Node<V>>, values: seq<V>, dict: map<string, V>, level: nat)
    requires Shaped(chain, level) && |values| == |chain| && Holds(chain, values, dict)
    ensures |dict| == |chain| - 1
  {
    CountPrefix(chain, level, |chain|);
    var keys := set p | 1 <= p < |chain| :: chain[p].key;
    assert dict.Keys == keys;
    assert |dict| == |dict.Keys|;
  }

  lemma {:induction false} CountPrefix<V>(chain: seq<Node<V>>, level: nat, n: nat)
    requires Shaped(chain, level) && 1 <= n <= |chain|
    ensures |set p | 1 <= p < n :: chain[p].key| == n - 1
  {
    hide Less;
    var keys := set p | 1 <= p < n :: chain[p].key;
    if n == 1 {
      assert keys == {};
    } else {
      CountPrefix(chain, level, n - 1);
      var fewer := set p | 1 <= p < n - 1 :: chain[p].key;
      var last := chain[n - 1].key;
      forall p | 1 <= p < n - 1 ensures chain[p].key != last {
        KeysDiffer(chain, level, p, n - 1);
      }
      assert last !in fewer;
      assert keys == fewer + {last};
    }
  }

  /** Entries of the map, each once, in ascending key order, with no smaller key left out. */
  ghost predicate FirstEntries<V>(visited: seq<(string, V)>, dict: map<string, V>) {
    && (forall i, j :: 0 <= i < j < |visited| ==> Less(visited[i].0, visited[j].0))
    && (forall i :: 0 <= i < |visited| ==> visited[i].0 in dict && dict[visited[i].0] == visited[i].1)
    && (forall i, k :: 0 <= i < |visited| && k in dict && Less(k, visited[i].0) ==>
        exists j :: 0 <= j < i && visited[j].0 == k)
  }

  ghost predicate AllEntries<V>(visited: seq<(string, V)>, dict: map<string, V>) {
    forall k :: k in dict ==> exists i :: 0 <= i < |visited| && visited[i].0 == k
  }

  ghost function Forwards<V>(rest: seq<Node<V>>): (f: seq<seq<Node?<V>>>)
    reads rest
  {
    seq(|rest|, p requires 0 <= p < |rest| reads rest => rest[p].forward)
  }

  lemma WasWired<V>(rest: seq<Node<V>>, c: nat, node: Node<V>, a: nat, b: nat)
    requires c <= |rest| && HalfWired(rest, c, node, a, b)
    ensures forall p :: 0 <= p < |rest| ==> HalfPoints(rest, c, node, a, b, p, Forwards(rest)[p])
  {
  }

  lemma NowWired<V>(rest: seq<Node<V>>, c: nat, node: Node<V>, a: nat, b: nat)
    requires c <= |rest| && forall p :: 0 <= p < |rest| ==> HalfPoints(rest, c, node, a, b, p, rest[p].forward)
    ensures HalfWired(rest, c, node, a, b)
  {
  }

  /** A pointer on a level that leaves the node out. */
  lemma RestPointer<V>(rest: seq<Node<V>>, c: nat, node: Node<V>, a: nat, b: nat, u: nat, forward: seq<Node?<V>>,
      i: nat)
    requires c <= |rest| && u < |rest| && HalfPoints(rest, c, node, a, b, u, forward) && i < rest[u].height
        && !(a <= i < b)
    ensures i < |forward| && forward[i] == NextAt(rest, u, i)
  {
  }

  lemma NodePoints<V>(rest: seq<Node<V>>, c: nat, node: Node<V>, forward: seq<Node?<V>>)
    requires c <= |rest| && |forward| == node.height
    requires forall l :: 0 <= l < node.height ==> forward[l] == NextAt(Inserted(rest, c, node), c, l)
    ensures Points(Inserted(rest, c, node), c, forward)
  {
  }

  class SkipListMap<V(0)> {
    const head: Node<V>
    var level: nat
    ghost var chain: seq<Node<V>>
    ghost var dict: map<string, V>

    ghost predicate Valid()
      reads this, chain
    {
      Shaped(chain, level) && chain[0] == head && Linked(chain) && Holds(chain, Values(chain), dict)
    }

    constructor ()
      ensures Valid() && dict == map[] && fresh(chain)
    {
      var nothing: V := *;
      head := new Node("", nothing, MAX_LEVEL);
      level := 1;
      dict := map[];
      new;
      chain := [head];
      forall l | 0 <= l < MAX_LEVEL ensures head.forward[l] == NextAt(chain, 0, l) {
        NextMissing(chain, 0, l);
      }
    }

    /** Levels at or above `level` are empty, and every pointer skips only nodes too short for it. */
    lemma PointerSkips(p: nat, l: nat) returns (q: nat)
      requires Valid() && p < |chain| && l < chain[p].height
      ensures l < |chain[p].forward| && p < q <= |chain| && LowBetween(chain, p, q, l)
      ensures chain[p].forward[l] == (if q == |chain| then null else chain[q]) && (q < |chain| ==> chain[q].height > l)
      ensures level <= l ==> chain[p].forward[l] == null
    {
      q := NextIndex(chain, p, l);
      assert Points(chain, p, chain[p].forward);
    }

    /** Any number of levels the random draw may give. */
    method RandomLevel() returns (lvl: nat)
      ensures 1 <= lvl <= MAX_LEVEL
    {
      lvl := 1;
      while lvl < MAX_LEVEL
        invariant 1 <= lvl <= MAX_LEVEL
      {
        var tails: bool := *;
        if tails {
          return;
        }
        lvl := lvl + 1;
      }
    }

    /** Walk right on level i to the last node before the key. */
    method Advance(from: Node<V>, key: string, i: nat, ghost p: nat, ghost c: nat)
        returns (current: Node<V>, ghost u: nat)
      requires Valid() && Cuts(chain, key, c) && p < c && from == chain[p] && from.height > i
      ensures u < c && current == chain[u] && current.height > i && LowBetween(chain, u, c, i)
    {
      hide Holds, Shaped, LowBetween;
      current, u := from, p;
      ghost var q := NextIndex(chain, u, i);
      assert Points(chain, u, current.forward);
      while current.forward[i] != null && Less(current.forward[i].key, key)
        invariant u < c && current == chain[u] && current.height > i && |current.forward| == current.height
        invariant u < q <= |chain| && LowBetween(chain, u, q, i) && (q < |chain| ==> chain[q].height > i)
        invariant current.forward[i] == (if q == |chain| then null else chain[q])
        decreases |chain| - u
      {
        current, u := current.forward[i], q;
        q := NextIndex(chain, u, i);
        assert Points(chain, u, current.forward);
      }
      assert q >= c;
      LowPrefix(chain, u, q, c, i);
    }

    /** Walk down the levels to the last node before the key, noting the predecessor at each level. */
    method Descend(key: string) returns (current: Node<V>, update: seq<Node?<V>>, ghost c: nat, ghost at: seq<nat>)
      requires Valid()
      ensures Cuts(chain, key, c) && |update| == MAX_LEVEL && |at| == MAX_LEVEL
      ensures forall i :: 0 <= i < level ==> Pred(chain, c, i, at[i], update[i])
      ensures current == update[0] && |current.forward| > 0
      ensures current.forward[0] == (if c < |chain| then chain[c] else null)
    {
      hide Holds, Linked, Points, NextAt, LowBetween, Cuts, Less;
      c := CutExists(chain, level, key, 1);
      CutBounds(c, key);
      update := seq(MAX_LEVEL, _ => null);
      at := seq(MAX_LEVEL, _ => 0);
      current := head;
      ghost var p: nat := 0;
      var i := level;
      while i > 0
        invariant 0 <= i <= level && |update| == MAX_LEVEL && |at| == MAX_LEVEL
        invariant p < c <= |chain| && current == chain[p] && current.height >= i
        invariant forall j :: i <= j < level ==> Pred(chain, c, j, at[j], update[j])
        invariant i < level ==> current == update[i] && p == at[i] && LowBetween(chain, p, c, i)
      {
        i := i - 1;
        current, p := Advance(current, key, i, p, c);
        update, at := update[i := current], at[i := p];
      }
      BottomNext(p, c);
    }

    // ----- inserting ---------------------------------------------------------------------

    /** Hook a new node into every level it reaches. */
    static method Splice(ghost rest: seq<Node<V>>, node: Node<V>, update: seq<Node?<V>>, ghost at: seq<nat>,
        ghost c: nat)
      requires 0 < c <= |rest| && Linked(rest) && node !in rest && |node.forward| == node.height
      requires forall p, q :: 0 <= p < q < |rest| ==> rest[p] != rest[q]
      requires |update| >= node.height && |at| == |update|
      requires forall i :: 0 <= i < node.height ==> Pred(rest, c, i, at[i], update[i])
      modifies node`forward, rest
      ensures Linked(Inserted(rest, c, node))
      ensures Values(rest) == old(Values(rest))
    {
      hide Linked, Points, NextAt, LowBetween, HalfWired, Inserted, HalfPoints;
      StartsWired(rest, c, node);
      for i := 0 to node.height
        invariant |node.forward| == node.height && HalfWired(rest, c, node, 0, i)
        invariant forall l :: 0 <= l < i ==> node.forward[l] == NextAt(Inserted(rest, c, node), c, l)
        invariant Values(rest) == old(Values(rest))
      {
        ghost var u, was := at[i], Forwards(rest);
        WasWired(rest, c, node, 0, i);
        RestPointer(rest, c, node, 0, i, u, was[u], i);
        NextOfInserted(rest, c, node, u, i);
        node.forward := node.forward[i := update[i].forward[i]];
        update[i].forward := update[i].forward[i := node];
        forall p | 0 <= p < |rest| ensures HalfPoints(rest, c, node, 0, i + 1, p, rest[p].forward) {
          InsertLevel(rest, c, node, i, u, p, was[p]);
        }
        NowWired(rest, c, node, 0, i + 1);
      }
      NodePoints(rest, c, node, node.forward);
      FullyWired(rest, c, node);
    }

    /** A node with the key is the first one not before it. */
    lemma FoundAt(c: nat, key: string)
      requires Valid() && Cuts(chain, key, c)
      ensures key in dict <==> c < |chain| && chain[c].key == key
    {
      if key in dict {
        var p :| 1 <= p < |chain| && chain[p].key == key;
        LessIrreflexive(key);
        assert p >= c;
        LaterKey(chain, level, c, p);
      }
    }

    method Replace(node: Node<V>, key: string, value: V, ghost c: nat)
      requires Valid() && 1 <= c < |chain| && node == chain[c] && node.key == key
      modifies node`value, this`dict
      ensures Valid() && dict == old(dict)[key := value]
    {
      hide NextAt, Less;
      node.value := value;
      dict := dict[key := value];
      forall p | 1 <= p < |chain| && p != c ensures chain[p].key != key {
        KeysDiffer(chain, level, p, c);
      }
    }

    /** Above the old top level every predecessor is the head. */
    method Raise(update: seq<Node?<V>>, ghost at: seq<nat>, lvl: nat, ghost c: nat)
        returns (raised: seq<Node?<V>>, ghost from: seq<nat>)
      requires Shaped(chain, level) && chain[0] == head && 1 <= c <= |chain| && |update| == MAX_LEVEL
          && |at| == MAX_LEVEL
      requires level < lvl <= MAX_LEVEL && forall i :: 0 <= i < level ==> Pred(chain, c, i, at[i], update[i])
      modifies this`level
      ensures level == lvl && Shaped(chain, level) && |raised| == MAX_LEVEL && |from| == MAX_LEVEL
      ensures forall i :: 0 <= i < lvl ==> Pred(chain, c, i, from[i], raised[i])
    {
      hide Less;
      raised, from := update, at;
      for i := level to lvl
        invariant |raised| == MAX_LEVEL && |from| == MAX_LEVEL
        invariant forall j :: 0 <= j < i ==> Pred(chain, c, j, from[j], raised[j])
      {
        raised, from := raised[i := head], from[i := 0];
      }
      level := lvl;
    }

    /** Insert a key that is not there. */
    method Add(key: string, value: V, update: seq<Node?<V>>, ghost at: seq<nat>, ghost c: nat)
      requires Valid() && Cuts(chain, key, c) && key !in dict && (c < |chain| ==> chain[c].key != key)
      requires |update| == MAX_LEVEL && |at| == MAX_LEVEL
      requires forall i :: 0 <= i < level ==> Pred(chain, c, i, at[i], update[i])
      modifies this, chain
      ensures Valid() && dict == old(dict)[key := value]
      ensures forall n :: n in chain ==> n in old(chain) || fresh(n)
    {
      hide Linked, Points, NextAt, LowBetween, HalfWired, Inserted, Shaped, Cuts, Pred, Holds, Values;
      CutBounds(c, key);
      var lvl := RandomLevel();
      var raised := update;
      ghost var from := at;
      if lvl > level {
        raised, from := Raise(update, at, lvl, c);
      }
      var node := new Node(key, value, lvl);
      Fits(chain, level, c, node);
      ShapeFacts(chain, level);
      InsertedMembers(chain, c, node);
      HoldsInserted(chain, Values(chain), dict, c, node, value);
      Splice(chain, node, raised, from, c);
      ValuesInserted(chain, c, node);
      chain := Inserted(chain, c, node);
      dict := dict[key := value];
    }

    /** Insert or replace a key. */
    method Set(key: string, value: V)
      requires Valid()
      modifies this, chain
      ensures Valid() && dict == old(dict)[key := value]
      ensures forall n :: n in chain ==> n in old(chain) || fresh(n)
    {
      hide Linked, Points, NextAt, LowBetween, Holds, Inserted, Shaped, Cuts, Pred, Less;
      var current, update;
      ghost var c, at;
      current, update, c, at := Descend(key);
      FoundAt(c, key);
      CutBounds(c, key);
      var next := current.forward[0];
      if next != null && next.key == key {
        Replace(next, key, value, c);
      } else {
        Add(key, value, update, at, c);
      }
    }

    // ----- removing ----------------------------------------------------------------------

    /** Unhook a node from every level it reaches. */
    static method Unsplice(ghost rest: seq<Node<V>>, node: Node<V>, update: seq<Node?<V>>, ghost at: seq<nat>,
        ghost c: nat, level: nat)
      requires 0 < c <= |rest| && Linked(Inserted(rest, c, node)) && node !in rest && node.height <= level <= |update|
      requires (forall p, q :: 0 <= p < q < |rest| ==> rest[p] != rest[q]) && |at| == |update|
      requires forall i :: 0 <= i < level ==> Pred(rest, c, i, at[i], update[i])
      modifies rest
      ensures Linked(rest)
      ensures Values(rest) == old(Values(rest))
    {
      hide Linked, Points, NextAt, LowBetween, HalfWired, Inserted, HalfPoints;
      StartsWired(rest, c, node);
      ghost var mine := node.forward;
      var i := 0;
      while i < level
        invariant 0 <= i <= node.height && node.forward == mine && HalfWired(rest, c, node, i, node.height)
        invariant Values(rest) == old(Values(rest))
        decreases level - i
      {
        ghost var u, was := at[i], Forwards(rest);
        WasWired(rest, c, node, i, node.height);
        LeadsToNode(rest, c, node, i, u, was[u]);
        if update[i].forward[i] != node {
          break;
        }
        NodePointer(rest, c, node, mine, i);
        update[i].forward := update[i].forward[i := node.forward[i]];
        forall p | 0 <= p < |rest| ensures HalfPoints(rest, c, node, i + 1, node.height, p, rest[p].forward) {
          RemoveLevel(rest, c, node, i, u, p, was[p], mine[i]);
        }
        NowWired(rest, c, node, i + 1, node.height);
        i := i + 1;
      }
      StartsWired(rest, c, node);
    }

    /** Remove a key. */
    method Delete(key: string) returns (ok: bool)
      requires Valid()
      modifies this, chain
      ensures Valid() && ok == (key in old(dict)) && dict == old(dict) - {key}
      ensures forall n :: n in chain ==> n in old(chain)
    {
      hide Linked, Points, NextAt, LowBetween, HalfWired, Inserted, Shaped, Cuts, Pred, Less, Holds, Values;
      var current, update;
      ghost var c, at;
      current, update, c, at := Descend(key);
      FoundAt(c, key);
      CutBounds(c, key);
      var next := current.forward[0];
      if next == null || next.key != key {
        return false;
      }
      ghost var rest := chain[..c] + chain[c + 1..];
      Unfits(chain, level, c, rest);
      forall i | 0 <= i < level ensures Pred(rest, c, i, at[i], update[i]) {
        PredRest(chain, c, rest, i, at[i], update[i]);
      }
      HoldsRemoved(chain, Values(chain), dict, level, c, rest);
      ValuesRemoved(chain, c, rest);
      Unsplice(rest, next, update, at, c, level);
      chain := rest;
      dict := dict - {key};
      Shrink();
      return true;
    }

    /** Drop empty top levels. */
    method Shrink()
      requires Shaped(chain, level) && chain[0] == head && Linked(chain)
      modifies this`level
      ensures Shaped(chain, level)
    {
      hide NextAt, Less;
      while level > 1 && head.forward[level - 1] == null
        invariant Shaped(chain, level)
      {
        assert Points(chain, 0, head.forward);
        ghost var q := NextIndex(chain, 0, level - 1);
        level := level - 1;
      }
    }

    // ----- reading -----------------------------------------------------------------------

    method Get(key: string) returns (value: Option<V>)
      requires Valid()
      ensures value == if key in dict then Some(dict[key]) else None
    {
      hide Linked, Points, NextAt, LowBetween, Inserted, Cuts, Pred, Less;
      var current, update;
      ghost var c, at;
      current, update, c, at := Descend(key);
      FoundAt(c, key);
      CutBounds(c, key);
      var next := current.forward[0];
      if next != null && next.key == key {
        return Some(next.value);
      }
      return None;
    }

    /** The bottom pointer leads to the next node of the chain. */
    lemma BottomStep(p: nat)
      requires Valid() && p < |chain|
      ensures |chain[p].forward| > 0 && chain[p].forward[0] == (if p + 1 < |chain| then chain[p + 1] else null)
    {
      assert Points(chain, p, chain[p].forward);
      assert p + 1 < |chain| ==> chain[p + 1].height >= 1;
    }

    /** The number of keys, counted along the bottom chain. */
    method Len() returns (count: nat)
      requires Valid()
      ensures count == |dict|
    {
      hide Linked, Points, NextAt, Less;
      count := 0;
      BottomStep(0);
      var n := head.forward[0];
      while n != null
        invariant count < |chain| && n == (if count + 1 < |chain| then chain[count + 1] else null)
        decreases |chain| - count
      {
        BottomStep(count + 1);
        count := count + 1;
        n := n.forward[0];
      }
      CountKeys(chain, Values(chain), dict, level);
    }

    /** Visit entries in ascending key order until the callback says stop. */
    method Range(fn: (string, V) -> bool) returns (visited: seq<(string, V)>)
      requires Valid()
      ensures FirstEntries(visited, dict)
      ensures forall i :: 0 <= i < |visited| - 1 ==> fn(visited[i].0, visited[i].1)
      ensures (forall i :: 0 <= i < |visited| ==> fn(visited[i].0, visited[i].1)) ==> AllEntries(visited, dict)
    {
      hide Linked, Points, NextAt, Less, Shaped, Holds, FirstEntries, AllEntries;
      visited := [];
      ShapeFacts(chain, level);
      BottomStep(0);
      var n := head.forward[0];
      while n != null
        invariant Prefix(visited) && n == (if |visited| + 1 < |chain| then chain[|visited| + 1] else null)
        invariant forall i :: 0 <= i < |visited| ==> fn(visited[i].0, visited[i].1)
        decreases |chain| - |visited|
      {
        visited := visited + [(n.key, n.value)];
        if !fn(n.key, n.value) {
          assert !fn(visited[|visited| - 1].0, visited[|visited| - 1].1);
          PrefixSorted(visited);
          return;
        }
        BottomStep(|visited|);
        n := n.forward[0];
      }
      PrefixSorted(visited);
    }

    /** The entries visited so far are the first ones of the chain. */
    ghost predicate Prefix(visited: seq<(string, V)>)
      reads this, chain
    {
      |visited| < |chain| && forall i :: 0 <= i < |visited| ==> visited[i] == (chain[i + 1].key, chain[i + 1].value)
    }

    lemma PrefixSorted(visited: seq<(string, V)>)
      requires Valid() && Prefix(visited)
      ensures FirstEntries(visited, dict)
      ensures |visited| + 1 == |chain| ==> AllEntries(visited, dict)
    {
      hide Linked, Less;
      forall i, k | 0 <= i < |visited| && k in dict && Less(k, visited[i].0)
        ensures exists j :: 0 <= j < i && visited[j].0 == k
      {
        var p :| 1 <= p < |chain| && chain[p].key == k;
        EarlierKey(chain, level, p, i + 1);
        assert visited[p - 1].0 == k;
      }
      if |visited| + 1 == |chain| {
        forall k | k in dict ensures exists i :: 0 <= i < |visited| && visited[i].0 == k {
          var p :| 1 <= p < |chain| && chain[p].key == k;
          assert visited[p - 1].0 == k;
        }
      }
    }

    lemma CutBounds(c: nat, key: string)
      requires Valid() && Cuts(chain, key, c)
      ensures 0 < c <= |chain| && 1 <= level <= MAX_LEVEL && chain[0] == head && head.height == MAX_LEVEL
      ensures Shaped(chain, level)
    {
    }

    lemma BottomNext(p: nat, c: nat)
      requires Valid() && p < c <= |chain| && LowBetween(chain, p, c, 0)
      ensures |chain[p].forward| > 0 && chain[p].forward[0] == (if c < |chain| then chain[c] else null)
    {
      assert Points(chain, p, chain[p].forward);
      assert p + 1 < |chain| ==> chain[p + 1].height >= 1;
    }
  }

  lemma LowPrefix<V>(chain: seq<Node<V>>, p: nat, q: nat, c: nat, l: nat)
    requires LowBetween(chain, p, q, l) && c <= q
    ensures LowBetween(chain, p, c, l)
  {
  }
}
