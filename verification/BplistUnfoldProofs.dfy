/** The budgeted unfolding succeeds with `v` exactly when `v` is the unfolding and fits the limits. */
module BplistUnfoldProofs {
  import opened BplistModel
  import opened BplistWire
  import opened BplistGraph
  import opened BplistUnfold

  ghost predicate Fits(v: Value, depth: nat) {
    WellFormed(v) && IntegersInRange(v) && depth + Depth(v) <= MAX_DEPTH
  }

  ghost predicate AllFit(values: seq<Value>, depth: nat) {
    forall i {:trigger Fits(values[i], depth)} :: 0 <= i < |values| ==> Fits(values[i], depth)
  }

  ghost predicate WithinLimits(b: Budget) {
    b.nodes <= MAX_DECODED_NODES && b.bytes <= MAX_VALUE_BYTES
  }

  ghost predicate Affords(b: Budget, nodes: nat, bytes: nat) {
    b.nodes + nodes <= MAX_DECODED_NODES && b.bytes + bytes <= MAX_VALUE_BYTES
  }

  function Spend(b: Budget, nodes: nat, bytes: nat): Budget {
    Budget(b.nodes + nodes, b.bytes + bytes)
  }

  lemma ArrayFits(items: seq<Value>, depth: nat)
    requires depth <= MAX_DEPTH && AllFit(items, depth + 1)
    ensures Fits(Array(items), depth)
  {
    forall i | 0 <= i < |items|
      ensures WellFormed(items[i]) && IntegersInRange(items[i]) && 1 + Depth(items[i]) <= MAX_DEPTH - depth
    {
      assert Fits(items[i], depth + 1);
    }
    DepthUpToAtMost(items, |items|, MAX_DEPTH - depth);
  }

  lemma DictionaryFits(v: Value, depth: nat)
    requires v.Dictionary? && |v.keys| == |v.values| && Ascending(v.keys)
    requires depth <= MAX_DEPTH && AllFit(v.values, depth + 1)
    ensures Fits(v, depth)
  {
    var values := v.values;
    forall i | 0 <= i < |values|
      ensures WellFormed(values[i]) && IntegersInRange(values[i]) && 1 + Depth(values[i]) <= MAX_DEPTH - depth
    {
      assert Fits(values[i], depth + 1);
    }
    DepthUpToAtMost(values, |values|, MAX_DEPTH - depth);
  }

  lemma FitsInsert(values: seq<Value>, at: nat, x: Value, depth: nat)
    requires at <= |values| && AllFit(values, depth) && Fits(x, depth)
    ensures AllFit(Insert(values, at, x), depth)
  {
    var values' := Insert(values, at, x);
    forall i | 0 <= i < |values'|
      ensures Fits(values'[i], depth)
    {
      if i < at {
        assert Fits(values[i], depth);
      } else if i > at {
        assert Fits(values[i - 1], depth);
      }
    }
  }

  // -------------------------------------------------------------------------
  // Soundness

  /** What one successful unfolding from budget `b` to `b'` has established. */
  ghost predicate Unfolded(objects: seq<Object>, index: nat, v: Value, depth: nat, b: Budget, b': Budget) {
    && IsUnfolding(objects, index, v)
    && Fits(v, depth)
    && WithinLimits(b')
    && b' == Spend(b, Nodes(v), WireBytes(objects, index, v))
  }

  lemma {:induction false} UnfoldSound(
    objects: seq<Object>, index: nat, depth: nat, b: Budget, v: Value, b': Budget)
    requires Closed(objects) && index < |objects| && depth <= MAX_DEPTH + 1 && WithinLimits(b)
    requires Unfold(objects, index, depth, b) == Ok((v, b'))
    ensures Unfolded(objects, index, v, depth, b, b')
    decreases MAX_DEPTH + 1 - depth, 1, 0
  {
    var b1, o := Budget(b.nodes + 1, b.bytes), objects[index];
    assert ClosedAt(objects, index);
    if o.OArray? {
      var (items, b2) := UnfoldItems(objects, o.refs, 0, [], depth + 1, b1).value;
      UnfoldItemsSound(objects, o.refs, 0, [], depth + 1, b1, items, b2);
      ArrayUnfolded(objects, index, v, depth, b, b');
    } else if o.ODictionary? {
      UnfoldEntriesSound(objects, o.refs, 0, [], [], depth + 1, b1, v, b');
      DictionaryUnfolded(objects, index, v, depth, b, b');
    }
  }

  ghost predicate ItemsUnfold(objects: seq<Object>, refs: seq<nat>, items: seq<Value>, i: nat) {
    && |items| == |refs|
    && forall j {:trigger IsUnfolding(objects, refs[j], items[j])} ::
         i <= j < |refs| ==> IsUnfolding(objects, refs[j], items[j])
  }

  lemma ArrayUnfolded(objects: seq<Object>, index: nat, v: Value, depth: nat, b: Budget, b': Budget)
    requires index < |objects| && objects[index].OArray? && depth <= MAX_DEPTH && v.Array?
    requires ItemsUnfold(objects, objects[index].refs, v.items, 0) && AllFit(v.items, depth + 1)
    requires WithinLimits(b')
    requires b' == Spend(b, 1 + NodesOf(v.items), ItemBytes(objects, objects[index].refs, v, 0))
    ensures Unfolded(objects, index, v, depth, b, b')
  {
    ArrayFits(v.items, depth);
  }

  lemma {:induction false} UnfoldItemsSound(
    objects: seq<Object>, refs: seq<nat>, i: nat, items: seq<Value>, depth: nat, b: Budget,
    all: seq<Value>, b': Budget)
    requires Closed(objects) && Below(refs, |objects|) && i == |items| <= |refs| && depth <= MAX_DEPTH + 1
    requires WithinLimits(b) && AllFit(items, depth)
    requires UnfoldItems(objects, refs, i, items, depth, b) == Ok((all, b'))
    ensures ItemsUnfold(objects, refs, all, i) && items <= all && AllFit(all, depth) && WithinLimits(b')
    ensures b'.nodes + NodesOf(items) == b.nodes + NodesOf(all)
    ensures b'.bytes == b.bytes + ItemBytes(objects, refs, Array(all), i)
    decreases MAX_DEPTH + 1 - depth, 2, |refs| - i
  {
    if i < |refs| {
      var (x, b1) := Unfold(objects, refs[i], depth, b).value;
      UnfoldSound(objects, refs[i], depth, b, x, b1);
      FitsAppend(items, x, depth);
      UnfoldItemsSound(objects, refs, i + 1, items + [x], depth, b1, all, b');
      NodesOfAppend(items, x);
      assert all[i] == x;
    }
  }

  lemma FitsAppend(items: seq<Value>, x: Value, depth: nat)
    requires AllFit(items, depth) && Fits(x, depth)
    ensures AllFit(items + [x], depth)
  {
    forall i | 0 <= i < |items + [x]|
      ensures Fits((items + [x])[i], depth)
    {
      if i < |items| {
        assert Fits(items[i], depth);
      }
    }
  }

  ghost predicate EntriesUnfold(objects: seq<Object>, refs: seq<nat>, v: Value, i: nat) {
    && v.Dictionary? && |v.keys| == |v.values|
    && forall j :: i <= j < |refs| / 2 ==> IsEntry(objects, refs, j, v)
  }

  ghost predicate KeysFresh(objects: seq<Object>, refs: seq<nat>, i: nat, keys: seq<string>) {
    forall j {:trigger KeyIn(objects, refs[j], keys)} :: i <= j < |refs| / 2 ==> !KeyIn(objects, refs[j], keys)
  }

  ghost predicate KeysDifferFrom(objects: seq<Object>, refs: seq<nat>, i: nat) {
    forall j, k {:trigger SameKey(objects, refs[j], refs[k])} ::
      i <= j < k < |refs| / 2 ==> !SameKey(objects, refs[j], refs[k])
  }

  lemma DictionaryUnfolded(objects: seq<Object>, index: nat, v: Value, depth: nat, b: Budget, b': Budget)
    requires index < |objects| && objects[index].ODictionary? && Encodable(objects[index]) && depth <= MAX_DEPTH
    requires var refs := objects[index].refs;
             && EntriesUnfold(objects, refs, v, 0) && |refs| == 2 * |v.keys| && KeysDifferFrom(objects, refs, 0)
             && Ascending(v.keys) && AllFit(v.values, depth + 1) && WithinLimits(b')
             && b' == Spend(b, 1 + |v.keys| + NodesOf(v.values), EntryBytes(objects, refs, v, 0))
    ensures Unfolded(objects, index, v, depth, b, b')
  {
    DictionaryFits(v, depth);
  }

  lemma {:induction false} UnfoldEntriesSound(
    objects: seq<Object>, refs: seq<nat>, i: nat, keys: seq<string>, values: seq<Value>, depth: nat, b: Budget,
    v: Value, b': Budget)
    requires Closed(objects) && Below(refs, |objects|) && |refs| % 2 == 0
    requires i <= |refs| / 2 && |keys| == |values| && depth <= MAX_DEPTH + 1
    requires WithinLimits(b) && Ascending(keys) && AllFit(values, depth)
    requires UnfoldEntries(objects, refs, i, keys, values, depth, b) == Ok((v, b'))
    ensures EntriesUnfold(objects, refs, v, i) && |v.keys| == |keys| + |refs| / 2 - i
    ensures Ascending(v.keys) && Extends(keys, values, v.keys, v.values) && AllFit(v.values, depth)
    ensures KeysFresh(objects, refs, i, keys) && KeysDifferFrom(objects, refs, i)
    ensures WithinLimits(b')
    ensures b'.nodes + NodesOf(values) == b.nodes + (|refs| / 2 - i) + NodesOf(v.values)
    ensures b'.bytes == b.bytes + EntryBytes(objects, refs, v, i)
    decreases MAX_DEPTH + 1 - depth, 2, |refs| - i
  {
    var n := |refs| / 2;
    if i == n {
      ExtendsReflexive(keys, values);
    } else {
      var (k, b1) := Unfold(objects, refs[i], depth, b).value;
      UnfoldSound(objects, refs[i], depth, b, k, b1);
      var (x, b2) := Unfold(objects, refs[n + i], depth, b1).value;
      UnfoldSound(objects, refs[n + i], depth, b1, x, b2);
      var at := Position(keys, k.text);
      InsertExtends(keys, values, k.text, x);
      FitsInsert(values, at, x, depth);
      UnfoldEntriesSound(
        objects, refs, i + 1, Insert(keys, at, k.text), Insert(values, at, x), depth, b2, v, b');
      KeyUnfolded(objects, refs[i], k, depth, b, b1);
      EntrySound(objects, refs, i, keys, values, v, k.text, x);
      NodesOfInsert(values, at, x);
    }
  }

  /** A text value comes from a text object, and costs one node and its payload. */
  lemma KeyUnfolded(objects: seq<Object>, index: nat, k: Value, depth: nat, b: Budget, b1: Budget)
    requires Unfolded(objects, index, k, depth, b, b1) && k.Text?
    ensures objects[index].OText? && objects[index].text == k.text
    ensures b1 == Spend(b, 1, Payload(objects[index]))
  {
  }

  /** What the entry at `i` adds to what holds of the entries after it. */
  lemma EntrySound(
    objects: seq<Object>, refs: seq<nat>, i: nat, keys: seq<string>, values: seq<Value>, v: Value,
    k: string, x: Value)
    requires i < |refs| / 2 && |keys| == |values| && Ascending(keys) && k !in keys
    requires refs[i] < |objects| && objects[refs[i]].OText? && objects[refs[i]].text == k
    requires IsUnfolding(objects, refs[|refs| / 2 + i], x)
    requires EntriesUnfold(objects, refs, v, i + 1) && KeysDifferFrom(objects, refs, i + 1)
    requires var at := Position(keys, k);
             && Extends(Insert(keys, at, k), Insert(values, at, x), v.keys, v.values)
             && KeysFresh(objects, refs, i + 1, Insert(keys, at, k))
    ensures Extends(keys, values, v.keys, v.values)
    ensures EntriesUnfold(objects, refs, v, i) && KeyIn(objects, refs[i], v.keys)
    ensures EntryValue(objects, refs[i], v) == x
    ensures KeysFresh(objects, refs, i, keys) && KeysDifferFrom(objects, refs, i)
  {
    var at := Position(keys, k);
    var keys', values' := Insert(keys, at, k), Insert(values, at, x);
    InsertExtends(keys, values, k, x);
    ExtendsTransitive(keys, values, keys', values', v.keys, v.values);
    assert keys'[at] == k && values'[at] == x;
    assert Holds(v.keys, v.values, keys'[at], values'[at]);
    FreshBefore(objects, refs, i, keys, k);
  }

  lemma FreshBefore(objects: seq<Object>, refs: seq<nat>, i: nat, keys: seq<string>, k: string)
    requires i < |refs| / 2 && k !in keys
    requires refs[i] < |objects| && objects[refs[i]].OText? && objects[refs[i]].text == k
    requires KeysDifferFrom(objects, refs, i + 1)
    requires KeysFresh(objects, refs, i + 1, Insert(keys, Position(keys, k), k))
    ensures KeysFresh(objects, refs, i, keys) && KeysDifferFrom(objects, refs, i)
  {
    var at := Position(keys, k);
    InsertMembers(keys, at, k);
    forall j | i < j < |refs| / 2
      ensures !KeyIn(objects, refs[j], keys) && !SameKey(objects, refs[i], refs[j])
    {
      assert !KeyIn(objects, refs[j], Insert(keys, at, k));
    }
  }

  // -------------------------------------------------------------------------
  // Completeness

  lemma {:induction false} UnfoldComplete(
    objects: seq<Object>, index: nat, v: Value, depth: nat, b: Budget, r: Result<(Value, Budget)>)
    requires Closed(objects) && IsUnfolding(objects, index, v)
    requires WellFormed(v) && depth + Depth(v) <= MAX_DEPTH
    requires Affords(b, Nodes(v), WireBytes(objects, index, v))
    requires r == Unfold(objects, index, depth, b)
    ensures r == Ok((v, Spend(b, Nodes(v), WireBytes(objects, index, v))))
    decreases v, 2, 0
  {
    var o := objects[index];
    if o.OArray? {
      UnfoldArrayComplete(objects, index, v, depth, b, r);
    } else if o.ODictionary? {
      UnfoldDictionaryComplete(objects, index, v, depth, b, r);
    }
  }

  lemma {:induction false} UnfoldArrayComplete(
    objects: seq<Object>, index: nat, v: Value, depth: nat, b: Budget, r: Result<(Value, Budget)>)
    requires Closed(objects) && IsUnfolding(objects, index, v) && objects[index].OArray?
    requires WellFormed(v) && depth + Depth(v) <= MAX_DEPTH
    requires Affords(b, Nodes(v), WireBytes(objects, index, v))
    requires r == Unfold(objects, index, depth, b)
    ensures r == Ok((v, Spend(b, Nodes(v), WireBytes(objects, index, v))))
    decreases v, 1, 0
  {
    var o, b1 := objects[index], Budget(b.nodes + 1, b.bytes);
    assert ClosedAt(objects, index);
    var nodes, bytes := NodesOf(v.items), ItemBytes(objects, o.refs, v, 0);
    UnfoldItemsComplete(
      objects, o.refs, 0, v, [], depth + 1, b1, nodes, bytes, UnfoldItems(objects, o.refs, 0, [], depth + 1, b1));
    assert Spend(b1, nodes, bytes) == Spend(b, 1 + nodes, bytes);
  }

  lemma {:induction false} UnfoldDictionaryComplete(
    objects: seq<Object>, index: nat, v: Value, depth: nat, b: Budget, r: Result<(Value, Budget)>)
    requires Closed(objects) && IsUnfolding(objects, index, v) && objects[index].ODictionary?
    requires WellFormed(v) && depth + Depth(v) <= MAX_DEPTH
    requires Affords(b, Nodes(v), WireBytes(objects, index, v))
    requires r == Unfold(objects, index, depth, b)
    ensures r == Ok((v, Spend(b, Nodes(v), WireBytes(objects, index, v))))
    decreases v, 1, 0
  {
    var o, b1 := objects[index], Budget(b.nodes + 1, b.bytes);
    assert ClosedAt(objects, index);
    DictionaryParts(objects, index, v);
    EntryNodesSum(objects, o.refs, 0, [], [], v);
    var nodes, bytes := EntryNodes(objects, o.refs, v, 0), EntryBytes(objects, o.refs, v, 0);
    UnfoldEntriesComplete(objects, o.refs, 0, [], [], v, depth + 1, b1, nodes, bytes, r);
    assert Spend(b1, nodes, bytes) == Spend(b, 1 + nodes, bytes);
  }

  /** One step of the item loop. */
  lemma UnfoldItemsStep(
    objects: seq<Object>, refs: seq<nat>, i: nat, items: seq<Value>, depth: nat, b: Budget, x: Value, b1: Budget,
    r: Result<(seq<Value>, Budget)>)
    requires Closed(objects) && Below(refs, |objects|) && i < |refs| && depth <= MAX_DEPTH + 1
    requires Unfold(objects, refs[i], depth, b) == Ok((x, b1))
    requires r == UnfoldItems(objects, refs, i, items, depth, b)
    ensures r == UnfoldItems(objects, refs, i + 1, items + [x], depth, b1)
  {
  }

  lemma ItemBytesStep(objects: seq<Object>, refs: seq<nat>, v: Value, i: nat)
    requires v.Array? && i < |refs| && ItemsUnfold(objects, refs, v.items, 0)
    ensures IsUnfolding(objects, refs[i], v.items[i])
    ensures ItemBytes(objects, refs, v, i)
         == WireBytes(objects, refs[i], v.items[i]) + ItemBytes(objects, refs, v, i + 1)
  {
  }

  lemma {:induction false} UnfoldItemsComplete(
    objects: seq<Object>, refs: seq<nat>, i: nat, v: Value, items: seq<Value>, depth: nat, b: Budget,
    nodes: nat, bytes: nat, r: Result<(seq<Value>, Budget)>)
    requires Closed(objects) && Below(refs, |objects|) && v.Array? && i <= |refs|
    requires ItemsUnfold(objects, refs, v.items, 0) && items == v.items[..i]
    requires WellFormed(v) && 0 < depth <= MAX_DEPTH + 1 && depth - 1 + DepthOf(v.items) <= MAX_DEPTH
    requires nodes + NodesUpTo(v.items, i) == NodesOf(v.items) && bytes == ItemBytes(objects, refs, v, i)
    requires Affords(b, nodes, bytes)
    requires r == UnfoldItems(objects, refs, i, items, depth, b)
    ensures r == Ok((v.items, Spend(b, nodes, bytes)))
    decreases v, 0, |refs| - i
  {
    if i == |refs| {
      assert v.items[..i] == v.items;
    } else {
      var x := v.items[i];
      DepthUpToAtLeast(v.items, |v.items|, i);
      NodesUpToMonotone(v.items, i, |v.items|);
      ItemBytesStep(objects, refs, v, i);
      assert WellFormed(v.items[i]);
      UnfoldComplete(objects, refs[i], x, depth, b, Unfold(objects, refs[i], depth, b));
      var b1 := Spend(b, Nodes(x), WireBytes(objects, refs[i], x));
      UnfoldItemsStep(objects, refs, i, items, depth, b, x, b1, r);
      assert items + [x] == v.items[..i + 1];
      UnfoldItemsComplete(
        objects, refs, i + 1, v, items + [x], depth, b1,
        nodes - Nodes(x), ItemBytes(objects, refs, v, i + 1), r);
    }
  }

  /** `keys`/`values` hold some entries of `v`, and none of those from `i` on. */
  ghost predicate PartOf(
    objects: seq<Object>, refs: seq<nat>, i: nat, keys: seq<string>, values: seq<Value>, v: Value)
  {
    && v.Dictionary? && |v.keys| == |v.values| && |refs| == 2 * |v.keys|
    && Ascending(keys) && Ascending(v.keys)
    && |keys| == |values| == i <= |v.keys|
    && Extends(keys, values, v.keys, v.values)
    && KeysIn(objects, refs, i, v.keys)
    && KeysFresh(objects, refs, i, keys)
    && KeysDifferFrom(objects, refs, i)
  }

  ghost predicate KeysIn(objects: seq<Object>, refs: seq<nat>, i: nat, keys: seq<string>) {
    forall j {:trigger KeyIn(objects, refs[j], keys)} :: i <= j < |refs| / 2 ==> KeyIn(objects, refs[j], keys)
  }

  lemma DictionaryParts(objects: seq<Object>, index: nat, v: Value)
    requires IsUnfolding(objects, index, v) && WellFormed(v) && objects[index].ODictionary?
    ensures PartOf(objects, objects[index].refs, 0, [], [], v)
    ensures EntriesUnfold(objects, objects[index].refs, v, 0)
  {
    var refs := objects[index].refs;
    forall j | 0 <= j < |refs| / 2
      ensures KeyIn(objects, refs[j], v.keys)
    {
      assert IsEntry(objects, refs, j, v);
    }
  }

  /** The entry at `i` moves from the rest into the part already read. */
  lemma PartOfStep(
    objects: seq<Object>, refs: seq<nat>, i: nat, keys: seq<string>, values: seq<Value>, v: Value,
    k: string, x: Value)
    requires PartOf(objects, refs, i, keys, values, v) && i < |refs| / 2
    requires KeyIn(objects, refs[i], v.keys) && k == objects[refs[i]].text && x == EntryValue(objects, refs[i], v)
    ensures k !in keys
    ensures PartOf(objects, refs, i + 1, Insert(keys, Position(keys, k), k), Insert(values, Position(keys, k), x), v)
  {
    assert !KeyIn(objects, refs[i], keys);
    var at := Position(keys, k);
    InsertExtends(keys, values, k, x);
    var keys', values' := Insert(keys, at, k), Insert(values, at, x);
    forall p | 0 <= p < |keys'|
      ensures Holds(v.keys, v.values, keys'[p], values'[p])
    {
      if p != at {
        var q := if p < at then p else p - 1;
        assert Holds(v.keys, v.values, keys[q], values[q]);
      }
    }
    FreshAfter(objects, refs, i, keys, k);
  }

  lemma FreshAfter(objects: seq<Object>, refs: seq<nat>, i: nat, keys: seq<string>, k: string)
    requires i < |refs| / 2 && KeysFresh(objects, refs, i, keys) && KeysDifferFrom(objects, refs, i)
    requires refs[i] < |objects| && objects[refs[i]].OText? && objects[refs[i]].text == k
    ensures KeysFresh(objects, refs, i + 1, Insert(keys, Position(keys, k), k))
  {
    var at := Position(keys, k);
    InsertMembers(keys, at, k);
    forall j | i + 1 <= j < |refs| / 2
      ensures !KeyIn(objects, refs[j], Insert(keys, at, k))
    {
      assert !KeyIn(objects, refs[j], keys) && !SameKey(objects, refs[i], refs[j]);
    }
  }

  /** Of two ascending sequences, one inside the other, the n-th of the inner is at `n` or later. */
  lemma {:induction false} AscendingInside(a: seq<string>, b: seq<string>, n: nat, k: nat)
    requires PairwiseLess(a) && PairwiseLess(b) && n < |a| && k < |b| && a[n] == b[k]
    requires forall i :: 0 <= i < |a| ==> a[i] in b
    ensures n <= k
    decreases n
  {
    if n > 0 {
      var k0 := IndexOf(b, a[n - 1]);
      AscendingInside(a, b, n - 1, k0);
      assert Less(a[n - 1], a[n]);
      if k <= k0 {
        if k < k0 {
          assert Less(b[k], b[k0]);
          LessTransitive(a[n], a[n - 1], a[n]);
        }
        LessIrreflexive(a[n]);
      }
    }
  }

  lemma {:induction false} AscendingAtMost(a: seq<string>, b: seq<string>, n: nat, k: nat)
    requires PairwiseLess(a) && PairwiseLess(b) && n < |a| == |b| && k < |b| && a[n] == b[k]
    requires forall i :: 0 <= i < |a| ==> a[i] in b
    ensures k <= n
    decreases |a| - n
  {
    if n + 1 < |a| {
      var k1 := IndexOf(b, a[n + 1]);
      AscendingAtMost(a, b, n + 1, k1);
      assert Less(a[n], a[n + 1]);
      if k1 <= k {
        if k1 < k {
          assert Less(b[k1], b[k]);
          LessTransitive(a[n], a[n + 1], a[n]);
        }
        LessIrreflexive(a[n]);
      }
    }
  }

  /** Two ascending sequences of the same length, one inside the other, are equal. */
  lemma AscendingSame(a: seq<string>, b: seq<string>)
    requires Ascending(a) && Ascending(b) && |a| == |b|
    requires forall i :: 0 <= i < |a| ==> a[i] in b
    ensures a == b
  {
    AscendingIsPairwise(a);
    AscendingIsPairwise(b);
    forall n | 0 <= n < |a|
      ensures a[n] == b[n]
    {
      var k := IndexOf(b, a[n]);
      AscendingInside(a, b, n, k);
      AscendingAtMost(a, b, n, k);
    }
  }

  lemma PartOfAll(objects: seq<Object>, refs: seq<nat>, keys: seq<string>, values: seq<Value>, v: Value)
    requires PartOf(objects, refs, |refs| / 2, keys, values, v)
    ensures v == Dictionary(keys, values)
  {
    forall p | 0 <= p < |keys|
      ensures keys[p] in v.keys
    {
      assert Holds(v.keys, v.values, keys[p], values[p]);
    }
    AscendingSame(keys, v.keys);
    forall p | 0 <= p < |keys|
      ensures values[p] == v.values[p]
    {
      assert Holds(v.keys, v.values, keys[p], values[p]);
      AscendingDistinct(v.keys, IndexOf(v.keys, keys[p]), p);
    }
  }

  /** Nodes of the entries from `i` on. */
  ghost function EntryNodes(objects: seq<Object>, refs: seq<nat>, v: Value, i: nat): nat
    requires v.Dictionary? && |v.keys| == |v.values| && i <= |refs| / 2
    requires KeysIn(objects, refs, i, v.keys)
    decreases |refs| - i
  {
    if i == |refs| / 2 then 0
    else
      assert KeyIn(objects, refs[i], v.keys);
      1 + Nodes(EntryValue(objects, refs[i], v)) + EntryNodes(objects, refs, v, i + 1)
  }

  lemma {:induction false} EntryNodesSum(
    objects: seq<Object>, refs: seq<nat>, i: nat, keys: seq<string>, values: seq<Value>, v: Value)
    requires PartOf(objects, refs, i, keys, values, v)
    ensures EntryNodes(objects, refs, v, i) + NodesOf(values) == |refs| / 2 - i + NodesOf(v.values)
    decreases |refs| - i
  {
    if i == |refs| / 2 {
      PartOfAll(objects, refs, keys, values, v);
    } else {
      assert KeyIn(objects, refs[i], v.keys);
      var k, x := objects[refs[i]].text, EntryValue(objects, refs[i], v);
      PartOfStep(objects, refs, i, keys, values, v, k, x);
      NodesOfInsert(values, Position(keys, k), x);
      EntryNodesSum(objects, refs, i + 1, Insert(keys, Position(keys, k), k), Insert(values, Position(keys, k), x), v);
    }
  }

  /** One step of the entry loop. */
  lemma UnfoldEntriesStep(
    objects: seq<Object>, refs: seq<nat>, i: nat, keys: seq<string>, values: seq<Value>, depth: nat, b: Budget,
    k: string, b1: Budget, x: Value, b2: Budget, r: Result<(Value, Budget)>)
    requires Closed(objects) && Below(refs, |objects|) && |refs| % 2 == 0
    requires i < |refs| / 2 && |keys| == |values| && depth <= MAX_DEPTH + 1 && k !in keys
    requires Unfold(objects, refs[i], depth, b) == Ok((Text(k), b1))
    requires Unfold(objects, refs[|refs| / 2 + i], depth, b1) == Ok((x, b2))
    requires r == UnfoldEntries(objects, refs, i, keys, values, depth, b)
    ensures r == UnfoldEntries(objects, refs, i + 1, Insert(keys, Position(keys, k), k),
                               Insert(values, Position(keys, k), x), depth, b2)
  {
  }

  lemma UnfoldEntriesEnd(
    objects: seq<Object>, refs: seq<nat>, keys: seq<string>, values: seq<Value>, depth: nat, b: Budget,
    r: Result<(Value, Budget)>)
    requires Closed(objects) && Below(refs, |objects|) && |refs| % 2 == 0
    requires |keys| == |values| && depth <= MAX_DEPTH + 1
    requires r == UnfoldEntries(objects, refs, |refs| / 2, keys, values, depth, b)
    ensures r == Ok((Dictionary(keys, values), b))
  {
  }

  lemma EntrySumsStep(objects: seq<Object>, refs: seq<nat>, v: Value, i: nat)
    requires i < |refs| / 2 && EntriesUnfold(objects, refs, v, i) && KeysIn(objects, refs, i, v.keys)
    ensures IsEntry(objects, refs, i, v)
    ensures var x := EntryValue(objects, refs[i], v);
            && EntryNodes(objects, refs, v, i) == 1 + Nodes(x) + EntryNodes(objects, refs, v, i + 1)
            && EntryBytes(objects, refs, v, i)
            == Payload(objects[refs[i]]) + WireBytes(objects, refs[|refs| / 2 + i], x)
               + EntryBytes(objects, refs, v, i + 1)
  {
  }

  lemma EntryValueFits(objects: seq<Object>, index: nat, v: Value)
    requires v.Dictionary? && WellFormed(v) && KeyIn(objects, index, v.keys)
    ensures WellFormed(EntryValue(objects, index, v))
    ensures 1 + Depth(EntryValue(objects, index, v)) <= DepthOf(v.values)
  {
    var p := IndexOf(v.keys, objects[index].text);
    DepthUpToAtLeast(v.values, |v.values|, p);
    assert WellFormed(v.values[p]);
  }

  lemma {:induction false} UnfoldEntriesComplete(
    objects: seq<Object>, refs: seq<nat>, i: nat, keys: seq<string>, values: seq<Value>, v: Value,
    depth: nat, b: Budget, nodes: nat, bytes: nat, r: Result<(Value, Budget)>)
    requires Closed(objects) && Below(refs, |objects|) && PartOf(objects, refs, i, keys, values, v)
    requires EntriesUnfold(objects, refs, v, i)
    requires WellFormed(v) && 0 < depth <= MAX_DEPTH + 1 && depth - 1 + DepthOf(v.values) <= MAX_DEPTH
    requires nodes == EntryNodes(objects, refs, v, i) && bytes == EntryBytes(objects, refs, v, i)
    requires Affords(b, nodes, bytes)
    requires r == UnfoldEntries(objects, refs, i, keys, values, depth, b)
    ensures r == Ok((v, Spend(b, nodes, bytes)))
    decreases v, 0, 2 + |refs| - i
  {
    var n := |refs| / 2;
    if i == n {
      PartOfAll(objects, refs, keys, values, v);
      UnfoldEntriesEnd(objects, refs, keys, values, depth, b, r);
      assert b == Spend(b, nodes, bytes);
    } else {
      var k, b1, x, b2, nodes', bytes' := NextEntry(objects, refs, i, v, b, nodes, bytes);
      PartOfStep(objects, refs, i, keys, values, v, k, x);
      UnfoldEntriesAdvance(objects, refs, i, keys, values, v, depth, b, k, b1, x, b2, r);
      UnfoldEntriesComplete(
        objects, refs, i + 1, Insert(keys, Position(keys, k), k), Insert(values, Position(keys, k), x), v,
        depth, b2, nodes', bytes', r);
    }
  }

  /** The entry at `i`, the budgets around it, and what is left to spend after it. */
  lemma NextEntry(objects: seq<Object>, refs: seq<nat>, i: nat, v: Value, b: Budget, nodes: nat, bytes: nat)
    returns (k: string, b1: Budget, x: Value, b2: Budget, nodes': nat, bytes': nat)
    requires i < |refs| / 2 && EntriesUnfold(objects, refs, v, i) && KeysIn(objects, refs, i, v.keys)
    requires nodes == EntryNodes(objects, refs, v, i) && bytes == EntryBytes(objects, refs, v, i)
    requires Affords(b, nodes, bytes)
    ensures IsEntry(objects, refs, i, v) && k == objects[refs[i]].text && x == EntryValue(objects, refs[i], v)
    ensures b1 == Spend(b, 1, Payload(objects[refs[i]]))
    ensures b2 == Spend(b1, Nodes(x), WireBytes(objects, refs[|refs| / 2 + i], x))
    ensures nodes' == EntryNodes(objects, refs, v, i + 1) && bytes' == EntryBytes(objects, refs, v, i + 1)
    ensures WithinLimits(b2) && Affords(b2, nodes', bytes') && Spend(b2, nodes', bytes') == Spend(b, nodes, bytes)
  {
    EntrySumsStep(objects, refs, v, i);
    k, x := objects[refs[i]].text, EntryValue(objects, refs[i], v);
    b1 := Spend(b, 1, Payload(objects[refs[i]]));
    b2 := Spend(b1, Nodes(x), WireBytes(objects, refs[|refs| / 2 + i], x));
    nodes', bytes' := EntryNodes(objects, refs, v, i + 1), EntryBytes(objects, refs, v, i + 1);
  }

  lemma {:induction false} UnfoldEntriesAdvance(
    objects: seq<Object>, refs: seq<nat>, i: nat, keys: seq<string>, values: seq<Value>, v: Value,
    depth: nat, b: Budget, k: string, b1: Budget, x: Value, b2: Budget, r: Result<(Value, Budget)>)
    requires Closed(objects) && Below(refs, |objects|) && |refs| % 2 == 0 && v.Dictionary? && i < |refs| / 2
    requires WellFormed(v) && 0 < depth <= MAX_DEPTH + 1 && depth - 1 + DepthOf(v.values) <= MAX_DEPTH
    requires IsEntry(objects, refs, i, v) && k == objects[refs[i]].text && x == EntryValue(objects, refs[i], v)
    requires |keys| == |values| && k !in keys
    requires b1 == Spend(b, 1, Payload(objects[refs[i]]))
    requires b2 == Spend(b1, Nodes(x), WireBytes(objects, refs[|refs| / 2 + i], x)) && WithinLimits(b2)
    requires r == UnfoldEntries(objects, refs, i, keys, values, depth, b)
    ensures r == UnfoldEntries(objects, refs, i + 1, Insert(keys, Position(keys, k), k),
                               Insert(values, Position(keys, k), x), depth, b2)
    decreases v, 0, 1
  {
    UnfoldEntryComplete(objects, refs, i, v, depth, b, k, b1, x);
    UnfoldEntriesStep(objects, refs, i, keys, values, depth, b, k, b1, x, b2, r);
  }

  /** Both sides of one entry unfold. */
  lemma {:induction false} UnfoldEntryComplete(
    objects: seq<Object>, refs: seq<nat>, i: nat, v: Value, depth: nat, b: Budget, k: string, b1: Budget, x: Value)
    requires Closed(objects) && Below(refs, |objects|) && v.Dictionary? && i < |refs| / 2
    requires WellFormed(v) && 0 < depth <= MAX_DEPTH + 1 && depth - 1 + DepthOf(v.values) <= MAX_DEPTH
    requires IsEntry(objects, refs, i, v) && k == objects[refs[i]].text && x == EntryValue(objects, refs[i], v)
    requires b1 == Spend(b, 1, Payload(objects[refs[i]]))
    requires Affords(b1, Nodes(x), WireBytes(objects, refs[|refs| / 2 + i], x))
    ensures Unfold(objects, refs[i], depth, b) == Ok((Text(k), b1))
    ensures Unfold(objects, refs[|refs| / 2 + i], depth, b1)
         == Ok((x, Spend(b1, Nodes(x), WireBytes(objects, refs[|refs| / 2 + i], x))))
    decreases v, 0, 0
  {
    var n := |refs| / 2;
    EntryValueFits(objects, refs[i], v);
    UnfoldKeyComplete(objects, refs[i], depth, b);
    UnfoldComplete(objects, refs[n + i], x, depth, b1, Unfold(objects, refs[n + i], depth, b1));
  }

  lemma UnfoldKeyComplete(objects: seq<Object>, index: nat, depth: nat, b: Budget)
    requires Closed(objects) && index < |objects| && objects[index].OText? && depth <= MAX_DEPTH
    requires Affords(b, 1, Payload(objects[index]))
    ensures Unfold(objects, index, depth, b)
         == Ok((Text(objects[index].text), Spend(b, 1, Payload(objects[index]))))
  {
  }
}
