/** What the decoder's checks need to know of a flattened table: its payload, its references, and that
    the cycle check accepts it. */
module BplistFlattenProofs {
  import opened BplistModel
  import opened BplistWire
  import opened BplistGraph
  import opened BplistUnfold
  import opened BplistFlatten

  // -------------------------------------------------------------------------
  // Sums over a table

  /** `sum[n]` is the payload of the first `n` objects. */
  ghost predicate PayloadSums(sum: seq<nat>, objects: seq<Object>) {
    && |sum| == |objects| + 1 && sum[0] == 0
    && forall n {:trigger AddsPayload(sum, objects, n)} :: 0 <= n < |objects| ==> AddsPayload(sum, objects, n)
  }

  ghost predicate AddsPayload(sum: seq<nat>, objects: seq<Object>, n: nat)
    requires |sum| == |objects| + 1 && n < |objects|
  {
    sum[n + 1] == sum[n] + Payload(objects[n])
  }

  /** `sum[n]` counts the references that the first `n` objects hold. */
  ghost predicate RefSums(sum: seq<nat>, objects: seq<Object>) {
    && |sum| == |objects| + 1 && sum[0] == 0
    && forall n {:trigger AddsRefs(sum, objects, n)} :: 0 <= n < |objects| ==> AddsRefs(sum, objects, n)
  }

  ghost predicate AddsRefs(sum: seq<nat>, objects: seq<Object>, n: nat)
    requires |sum| == |objects| + 1 && n < |objects|
  {
    sum[n + 1] == sum[n] + |Children(objects[n])|
  }

  /** Unfolding a flattened value costs exactly the payload of its part of the table. */
  lemma {:induction false} LaidOutBytes(objects: seq<Object>, sum: seq<nat>, v: Value, base: nat)
    requires WellFormed(v) && LaidOut(objects, v, base) && PayloadSums(sum, objects)
    ensures IsUnfolding(objects, base, v)
    ensures sum[base] + WireBytes(objects, base, v) == sum[base + Nodes(v)]
    decreases v, 1, 0
  {
    LaidOutUnfolds(objects, v, base);
    assert AddsPayload(sum, objects, base);
    if v.Array? {
      ItemBytesSum(objects, sum, v, base, 0, ItemBytes(objects, objects[base].refs, v, 0));
    } else if v.Dictionary? {
      EntryBytesSum(objects, sum, v, base, 0, EntryBytes(objects, objects[base].refs, v, 0));
    }
  }

  lemma {:induction false} ItemBytesSum(
    objects: seq<Object>, sum: seq<nat>, v: Value, base: nat, i: nat, rest: nat)
    requires WellFormed(v) && v.Array? && LaidOut(objects, v, base) && PayloadSums(sum, objects)
    requires i <= |v.items| && IsUnfolding(objects, base, v)
    requires rest == ItemBytes(objects, objects[base].refs, v, i)
    ensures ItemStart(v.items, i, base + 1) <= |objects|
    ensures sum[ItemStart(v.items, i, base + 1)] + rest == sum[base + Nodes(v)]
    decreases v, 0, |v.items| - i
  {
    if i < |v.items| {
      assert ItemLaidOut(objects, objects[base].refs, v.items, i, base + 1);
      LaidOutBytes(objects, sum, v.items[i], ItemStart(v.items, i, base + 1));
      ItemBytesSum(objects, sum, v, base, i + 1, ItemBytes(objects, objects[base].refs, v, i + 1));
    }
  }

  lemma {:induction false} EntryBytesSum(
    objects: seq<Object>, sum: seq<nat>, v: Value, base: nat, i: nat, rest: nat)
    requires WellFormed(v) && v.Dictionary? && LaidOut(objects, v, base) && PayloadSums(sum, objects)
    requires i <= |v.values| && IsUnfolding(objects, base, v)
    requires rest == EntryBytes(objects, objects[base].refs, v, i)
    ensures EntryStart(v.values, i, base + 1) <= |objects|
    ensures sum[EntryStart(v.values, i, base + 1)] + rest == sum[base + Nodes(v)]
    decreases v, 0, |v.values| - i + 1
  {
    if i < |v.values| {
      var refs := objects[base].refs;
      EntryPart(objects, sum, v, base, i);
      EntryBytesStep(objects, refs, v, i);
      EntryBytesSum(objects, sum, v, base, i + 1, EntryBytes(objects, refs, v, i + 1));
    }
  }

  /** What one entry takes. */
  lemma {:induction false} EntryPart(objects: seq<Object>, sum: seq<nat>, v: Value, base: nat, i: nat)
    requires WellFormed(v) && v.Dictionary? && LaidOut(objects, v, base) && PayloadSums(sum, objects)
    requires i < |v.values| && |objects[base].refs| == 2 * |v.values|
    ensures EntryStart(v.values, i + 1, base + 1) <= |objects|
    ensures var refs := objects[base].refs;
            && refs[i] < |objects| && objects[refs[i]] == TextObject(v.keys[i])
            && IsUnfolding(objects, refs[|v.values| + i], v.values[i])
            && sum[EntryStart(v.values, i, base + 1)] + Payload(objects[refs[i]])
               + WireBytes(objects, refs[|v.values| + i], v.values[i])
               == sum[EntryStart(v.values, i + 1, base + 1)]
    decreases v, 0, 0
  {
    var start := EntryStart(v.values, i, base + 1);
    assert EntryLaidOut(objects, objects[base].refs, v.keys, v.values, i, base + 1);
    assert AddsPayload(sum, objects, start);
    LaidOutBytes(objects, sum, v.values[i], start + 1);
  }

  lemma EntryBytesStep(objects: seq<Object>, refs: seq<nat>, v: Value, i: nat)
    requires v.Dictionary? && WellFormed(v) && |refs| == 2 * |v.values| && i < |v.values|
    requires forall j :: i <= j < |refs| / 2 ==> IsEntry(objects, refs, j, v)
    requires refs[i] < |objects| && objects[refs[i]] == TextObject(v.keys[i])
    ensures IsUnfolding(objects, refs[|v.values| + i], v.values[i])
    ensures EntryBytes(objects, refs, v, i)
         == Payload(objects[refs[i]]) + WireBytes(objects, refs[|v.values| + i], v.values[i])
            + EntryBytes(objects, refs, v, i + 1)
  {
    assert IsEntry(objects, refs, i, v);
    AscendingDistinct(v.keys, IndexOf(v.keys, v.keys[i]), i);
  }

  /** Everything but the root is referred to exactly once. */
  lemma {:induction false} LaidOutRefs(objects: seq<Object>, sum: seq<nat>, v: Value, base: nat)
    requires WellFormed(v) && LaidOut(objects, v, base) && RefSums(sum, objects)
    ensures sum[base] + Nodes(v) - 1 == sum[base + Nodes(v)]
    decreases v, 1, 0
  {
    if v.Array? {
      ItemRefsSum(objects, sum, v, base, |v.items|);
    } else if v.Dictionary? {
      EntryRefsSum(objects, sum, v, base, |v.values|);
    } else {
      assert AddsRefs(sum, objects, base);
    }
  }

  lemma {:induction false} ItemRefsSum(objects: seq<Object>, sum: seq<nat>, v: Value, base: nat, n: nat)
    requires WellFormed(v) && v.Array? && LaidOut(objects, v, base) && RefSums(sum, objects) && n <= |v.items|
    ensures ItemStart(v.items, n, base + 1) <= |objects|
    ensures sum[ItemStart(v.items, n, base + 1)] + n == sum[base] + |v.items| + NodesUpTo(v.items, n)
    decreases v, 0, n
  {
    if n == 0 {
      assert AddsRefs(sum, objects, base);
    } else {
      assert ItemLaidOut(objects, objects[base].refs, v.items, n - 1, base + 1);
      ItemRefsSum(objects, sum, v, base, n - 1);
      LaidOutRefs(objects, sum, v.items[n - 1], ItemStart(v.items, n - 1, base + 1));
    }
  }

  lemma {:induction false} EntryRefsSum(objects: seq<Object>, sum: seq<nat>, v: Value, base: nat, n: nat)
    requires WellFormed(v) && v.Dictionary? && LaidOut(objects, v, base) && RefSums(sum, objects) && n <= |v.values|
    ensures EntryStart(v.values, n, base + 1) <= |objects|
    ensures sum[EntryStart(v.values, n, base + 1)] + n == sum[base] + 2 * |v.values| + NodesUpTo(v.values, n)
    decreases v, 0, n
  {
    if n == 0 {
      assert AddsRefs(sum, objects, base);
    } else {
      var start := EntryStart(v.values, n - 1, base + 1);
      assert EntryLaidOut(objects, objects[base].refs, v.keys, v.values, n - 1, base + 1);
      assert AddsRefs(sum, objects, start);
      EntryRefsSum(objects, sum, v, base, n - 1);
      LaidOutRefs(objects, sum, v.values[n - 1], start + 1);
    }
  }

  // -------------------------------------------------------------------------
  // Every object of the table is well formed

  /** Object `a` has a byte form, refers only into the table, and its keys are text. */
  ghost predicate Fine(objects: seq<Object>, a: nat) {
    && a < |objects|
    && Encodable(objects[a])
    && Below(Children(objects[a]), |objects|)
    && forall k :: 0 <= k < KeyCount(objects[a]) ==> objects[Children(objects[a])[k]].OText?
  }

  ghost predicate AllFine(objects: seq<Object>, from: nat, to: nat) {
    forall a {:trigger Fine(objects, a)} :: from <= a < to ==> Fine(objects, a)
  }

  lemma {:induction false} LaidOutFine(objects: seq<Object>, v: Value, base: nat)
    requires WellFormed(v) && IntegersInRange(v) && LaidOut(objects, v, base)
    ensures AllFine(objects, base, base + Nodes(v))
    decreases v, 1, 0
  {
    if v.Array? {
      ItemsFine(objects, v, base, |v.items|);
      ItemRefsBelow(objects, v, base);
    } else if v.Dictionary? {
      EntriesFine(objects, v, base, |v.values|);
      EntryRefsBelow(objects, v, base);
    }
    assert Fine(objects, base);
  }

  lemma ItemRefsBelow(objects: seq<Object>, v: Value, base: nat)
    requires v.Array? && LaidOut(objects, v, base)
    ensures Below(objects[base].refs, |objects|)
  {
    forall k | 0 <= k < |v.items|
      ensures objects[base].refs[k] < |objects|
    {
      assert ItemLaidOut(objects, objects[base].refs, v.items, k, base + 1);
    }
  }

  lemma EntryRefsBelow(objects: seq<Object>, v: Value, base: nat)
    requires WellFormed(v) && v.Dictionary? && LaidOut(objects, v, base)
    ensures var refs := objects[base].refs;
            Below(refs, |objects|) && forall k :: 0 <= k < |v.values| ==> objects[refs[k]].OText?
  {
    var refs := objects[base].refs;
    forall k | 0 <= k < |refs|
      ensures refs[k] < |objects| && (k < |v.values| ==> objects[refs[k]].OText?)
    {
      var j := if k < |v.values| then k else k - |v.values|;
      assert EntryLaidOut(objects, objects[base].refs, v.keys, v.values, j, base + 1);
    }
  }

  lemma {:induction false} ItemsFine(objects: seq<Object>, v: Value, base: nat, n: nat)
    requires WellFormed(v) && IntegersInRange(v) && v.Array? && LaidOut(objects, v, base) && n <= |v.items|
    ensures AllFine(objects, base + 1, ItemStart(v.items, n, base + 1))
    decreases v, 0, n
  {
    if n > 0 {
      assert ItemLaidOut(objects, objects[base].refs, v.items, n - 1, base + 1) && IntegersInRange(v.items[n - 1]);
      ItemsFine(objects, v, base, n - 1);
      LaidOutFine(objects, v.items[n - 1], ItemStart(v.items, n - 1, base + 1));
    }
  }

  lemma {:induction false} EntriesFine(objects: seq<Object>, v: Value, base: nat, n: nat)
    requires WellFormed(v) && IntegersInRange(v) && v.Dictionary? && LaidOut(objects, v, base) && n <= |v.values|
    ensures AllFine(objects, base + 1, EntryStart(v.values, n, base + 1))
    decreases v, 0, n
  {
    if n > 0 {
      var start := EntryStart(v.values, n - 1, base + 1);
      assert EntryLaidOut(objects, objects[base].refs, v.keys, v.values, n - 1, base + 1);
      assert IntegersInRange(v.values[n - 1]);
      EntriesFine(objects, v, base, n - 1);
      LaidOutFine(objects, v.values[n - 1], start + 1);
      assert Fine(objects, start);
    }
  }

  // -------------------------------------------------------------------------
  // The cycle check walks the table like the value

  ghost predicate WhiteIn(colors: seq<Color>, from: nat, to: nat) {
    to <= |colors| && forall a :: from <= a < to ==> colors[a].White?
  }

  ghost predicate BlackIn(colors: seq<Color>, from: nat, to: nat) {
    to <= |colors| && forall a :: from <= a < to ==> colors[a].Black?
  }

  /** Outside `[from, to)` nothing is repainted, and inside it what was black stays so. */
  ghost predicate Repaints(before: seq<Color>, after: seq<Color>, from: nat, to: nat) {
    && |before| == |after|
    && forall a :: 0 <= a < |before| ==> after[a] == before[a] || (from <= a < to && after[a].Black?)
  }

  /** The visit of a flattened value paints its part of the table and nothing else. */
  lemma {:induction false} VisitLaidOut(
    objects: seq<Object>, v: Value, base: nat, colors: seq<Color>, depth: nat, r: Result<seq<Color>>)
    requires Closed(objects) && LaidOut(objects, v, base) && |colors| == |objects|
    requires WellFormed(v) && WhiteIn(colors, base, base + Nodes(v)) && depth + Depth(v) <= MAX_DEPTH
    requires r == Visit(objects, base, colors, depth)
    ensures r.Ok? && Repaints(colors, r.value, base, base + Nodes(v)) && BlackIn(r.value, base, base + Nodes(v))
    decreases v, 2, 0
  {
    assert ClosedAt(objects, base);
    var refs, grey := Children(objects[base]), colors[base := Grey];
    var rest := VisitFrom(objects, refs, 0, grey, depth + 1);
    if v.Array? {
      VisitItems(objects, v, base, 0, grey, depth + 1, rest);
    } else if v.Dictionary? {
      forall j | 0 <= j < |v.values|
        ensures Unvisited(grey, v.values, j, base)
      {
        EntryStartsOrdered(v.values, j + 1, |v.values|, base + 1);
      }
      VisitKeys(objects, v, base, 0, grey, depth + 1, rest);
    }
  }

  lemma {:induction false} VisitItems(
    objects: seq<Object>, v: Value, base: nat, i: nat, colors: seq<Color>, depth: nat, r: Result<seq<Color>>)
    requires Closed(objects) && WellFormed(v) && v.Array? && LaidOut(objects, v, base)
    requires |colors| == |objects| && i <= |v.items|
    requires BlackIn(colors, base + 1, ItemStart(v.items, i, base + 1))
    requires WhiteIn(colors, ItemStart(v.items, i, base + 1), base + Nodes(v))
    requires 0 < depth && depth - 1 + Depth(v) <= MAX_DEPTH && Below(objects[base].refs, |objects|)
    requires r == VisitFrom(objects, objects[base].refs, i, colors, depth)
    ensures r.Ok? && Repaints(colors, r.value, base + 1, base + Nodes(v))
    ensures BlackIn(r.value, base + 1, base + Nodes(v))
    decreases v, 1, |v.items| - i
  {
    if i < |v.items| {
      var refs, x := objects[base].refs, v.items[i];
      assert ItemLaidOut(objects, refs, v.items, i, base + 1);
      NodesUpToMonotone(v.items, i + 1, |v.items|);
      DepthUpToAtLeast(v.items, |v.items|, i);
      var step := Visit(objects, refs[i], colors, depth);
      VisitLaidOut(objects, x, refs[i], colors, depth, step);
      VisitItems(objects, v, base, i + 1, step.value, depth, r);
    }
  }

  /** Nothing of entry `j` has been visited. */
  ghost predicate Unvisited(colors: seq<Color>, values: seq<Value>, j: nat, base: nat)
    requires j < |values|
  {
    WhiteIn(colors, EntryStart(values, j, base + 1), EntryStart(values, j + 1, base + 1))
  }

  /** The key of entry `j` has been visited and nothing of its value has. */
  ghost predicate KeyVisited(colors: seq<Color>, values: seq<Value>, j: nat, base: nat)
    requires j < |values|
  {
    && WhiteIn(colors, EntryStart(values, j, base + 1) + 1, EntryStart(values, j + 1, base + 1))
    && BlackIn(colors, EntryStart(values, j, base + 1), EntryStart(values, j, base + 1) + 1)
  }

  lemma EntryStartsOrdered(values: seq<Value>, i: nat, j: nat, base: nat)
    requires i <= j <= |values|
    ensures EntryStart(values, i, base) <= EntryStart(values, j, base)
  {
    NodesUpToMonotone(values, i, j);
  }

  /** Visiting a key paints that one object. */
  lemma VisitKey(objects: seq<Object>, v: Value, base: nat, i: nat, colors: seq<Color>, depth: nat)
    requires Closed(objects) && v.Dictionary? && LaidOut(objects, v, base) && |colors| == |objects|
    requires i < |v.values| && Unvisited(colors, v.values, i, base) && depth <= MAX_DEPTH
    ensures var key := EntryStart(v.values, i, base + 1);
            key < |objects| && objects[base].refs[i] == key
            && Visit(objects, key, colors, depth) == Ok(colors[key := Black])
  {
    var key := EntryStart(v.values, i, base + 1);
    assert EntryLaidOut(objects, objects[base].refs, v.keys, v.values, i, base + 1);
    assert ClosedAt(objects, key);
    assert VisitFrom(objects, [], 0, colors[key := Grey], depth + 1) == Ok(colors[key := Grey]);
    assert colors[key := Grey][key := Black] == colors[key := Black];
  }

  /** Painting one key leaves the keys before it and the entries after it alone. */
  lemma OneKeyVisited(colors: seq<Color>, values: seq<Value>, i: nat, base: nat)
    requires i < |values| && EntryStart(values, i, base + 1) < |colors|
    requires forall j :: 0 <= j < i ==> KeyVisited(colors, values, j, base)
    requires forall j :: i <= j < |values| ==> Unvisited(colors, values, j, base)
    ensures var next := colors[EntryStart(values, i, base + 1) := Black];
            && (forall j :: 0 <= j <= i ==> KeyVisited(next, values, j, base))
            && (forall j :: i + 1 <= j < |values| ==> Unvisited(next, values, j, base))
  {
    var next := colors[EntryStart(values, i, base + 1) := Black];
    forall j | 0 <= j <= i
      ensures KeyVisited(next, values, j, base)
    {
      if j < i {
        assert KeyVisited(colors, values, j, base);
        EntryStartsOrdered(values, j + 1, i, base + 1);
      } else {
        assert Unvisited(colors, values, j, base);
      }
    }
    forall j | i + 1 <= j < |values|
      ensures Unvisited(next, values, j, base)
    {
      assert Unvisited(colors, values, j, base);
      EntryStartsOrdered(values, i + 1, j, base + 1);
    }
  }

  lemma {:induction false} VisitKeys(
    objects: seq<Object>, v: Value, base: nat, i: nat, colors: seq<Color>, depth: nat, r: Result<seq<Color>>)
    requires Closed(objects) && WellFormed(v) && v.Dictionary? && LaidOut(objects, v, base)
    requires |colors| == |objects| && i <= |v.values|
    requires forall j :: 0 <= j < i ==> KeyVisited(colors, v.values, j, base)
    requires forall j :: i <= j < |v.values| ==> Unvisited(colors, v.values, j, base)
    requires 0 < depth && depth - 1 + Depth(v) <= MAX_DEPTH && Below(objects[base].refs, |objects|)
    requires r == VisitFrom(objects, objects[base].refs, i, colors, depth)
    ensures r.Ok? && Repaints(colors, r.value, base + 1, base + Nodes(v))
    ensures BlackIn(r.value, base + 1, base + Nodes(v))
    decreases v, 1, 2 * |v.values| + 1 - i
  {
    if i == |v.values| {
      VisitValues(objects, v, base, 0, colors, depth, r);
    } else {
      DepthUpToAtLeast(v.values, |v.values|, i);
      VisitKey(objects, v, base, i, colors, depth);
      var key := EntryStart(v.values, i, base + 1);
      var next := colors[key := Black];
      OneKeyVisited(colors, v.values, i, base);
      VisitKeys(objects, v, base, i + 1, next, depth, r);
      EntryStartsOrdered(v.values, i + 1, |v.values|, base + 1);
    }
  }

  lemma KeysStayVisited(colors: seq<Color>, after: seq<Color>, values: seq<Value>, i: nat, base: nat)
    requires i < |values|
    requires Repaints(colors, after, EntryStart(values, i, base + 1), EntryStart(values, i + 1, base + 1))
    requires forall j :: i <= j < |values| ==> KeyVisited(colors, values, j, base)
    ensures forall j :: i + 1 <= j < |values| ==> KeyVisited(after, values, j, base)
  {
    forall j | i + 1 <= j < |values|
      ensures KeyVisited(after, values, j, base)
    {
      assert KeyVisited(colors, values, j, base);
      EntryStartsOrdered(values, i + 1, j, base + 1);
    }
  }

  lemma {:induction false} VisitValues(
    objects: seq<Object>, v: Value, base: nat, i: nat, colors: seq<Color>, depth: nat, r: Result<seq<Color>>)
    requires Closed(objects) && WellFormed(v) && v.Dictionary? && LaidOut(objects, v, base)
    requires |colors| == |objects| && i <= |v.values|
    requires BlackIn(colors, base + 1, EntryStart(v.values, i, base + 1))
    requires forall j :: i <= j < |v.values| ==> KeyVisited(colors, v.values, j, base)
    requires 0 < depth && depth - 1 + Depth(v) <= MAX_DEPTH && Below(objects[base].refs, |objects|)
    requires r == VisitFrom(objects, objects[base].refs, |v.values| + i, colors, depth)
    ensures r.Ok? && Repaints(colors, r.value, base + 1, base + Nodes(v))
    ensures BlackIn(r.value, base + 1, base + Nodes(v))
    decreases v, 1, |v.values| - i
  {
    if i < |v.values| {
      var refs, x := objects[base].refs, v.values[i];
      assert EntryLaidOut(objects, refs, v.keys, v.values, i, base + 1);
      assert KeyVisited(colors, v.values, i, base);
      DepthUpToAtLeast(v.values, |v.values|, i);
      EntryStartsOrdered(v.values, i + 1, |v.values|, base + 1);
      var step := Visit(objects, refs[i] + 1, colors, depth);
      VisitLaidOut(objects, x, refs[i] + 1, colors, depth, step);
      KeysStayVisited(colors, step.value, v.values, i, base);
      VisitValues(objects, v, base, i + 1, step.value, depth, r);
    }
  }
}
