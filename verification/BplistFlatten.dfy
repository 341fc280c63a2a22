/** Flattening a value into the object table, parents before children, nothing shared. */
module BplistFlatten {
  import opened Bytes
  import opened BplistModel
  import opened BplistWire
  import opened BplistUnfold

  function TextObject(text: string): Object { OText(text, !IsAscii(text)) }

  function LeafObject(v: Value): Object
    requires !v.Array? && !v.Dictionary?
  {
    match v
    case Null => ONull
    case Boolean(flag) => OBoolean(flag)
    case Integer(n) => OInteger(n)
    case Data(bytes) => OData(bytes)
    case Text(text) => TextObject(text)
  }

  /** Where item `j` lands when the first is at `base`. */
  function ItemStart(items: seq<Value>, j: nat, base: nat): nat
    requires j <= |items|
  {
    base + NodesUpTo(items, j)
  }

  /** Where the key of entry `j` lands when the first is at `base`; its value follows it. */
  function EntryStart(values: seq<Value>, j: nat, base: nat): nat
    requires j <= |values|
  {
    base + j + NodesUpTo(values, j)
  }

  function ItemRefs(items: seq<Value>, base: nat): (refs: seq<nat>)
    ensures |refs| == |items|
  {
    seq(|items|, j requires 0 <= j < |items| => ItemStart(items, j, base))
  }

  /** The keys first and then the values. */
  function EntryRefs(values: seq<Value>, base: nat): (refs: seq<nat>)
    ensures |refs| == 2 * |values|
  {
    seq(2 * |values|, j requires 0 <= j < 2 * |values| =>
      if j < |values| then EntryStart(values, j, base) else EntryStart(values, j - |values|, base) + 1)
  }

  ghost predicate AllWellFormed(values: seq<Value>) {
    forall i {:trigger WellFormed(values[i])} :: 0 <= i < |values| ==> WellFormed(values[i])
  }

  function Flatten(v: Value, base: nat): (objects: seq<Object>)
    requires WellFormed(v)
    ensures |objects| == Nodes(v)
    decreases v, 1, 0
  {
    match v
    case Array(items) =>
      [OArray(ItemRefs(items, base + 1))] + FlattenItems(items, |items|, base + 1)
    case Dictionary(keys, values) =>
      [ODictionary(EntryRefs(values, base + 1))] + FlattenEntries(keys, values, |values|, base + 1)
    case _ => [LeafObject(v)]
  }

  /** The tables of the first `n` items, one after the other. */
  function FlattenItems(items: seq<Value>, n: nat, base: nat): (objects: seq<Object>)
    requires AllWellFormed(items) && n <= |items|
    ensures |objects| == NodesUpTo(items, n)
    decreases items, 0, n
  {
    if n == 0 then []
    else
      assert WellFormed(items[n - 1]);
      FlattenItems(items, n - 1, base) + Flatten(items[n - 1], ItemStart(items, n - 1, base))
  }

  /** The first `n` entries, each key before its value's table. */
  function FlattenEntries(keys: seq<string>, values: seq<Value>, n: nat, base: nat): (objects: seq<Object>)
    requires AllWellFormed(values) && n <= |keys| == |values|
    ensures |objects| == n + NodesUpTo(values, n)
    decreases values, 0, n
  {
    if n == 0 then []
    else
      assert WellFormed(values[n - 1]);
      FlattenEntries(keys, values, n - 1, base)
      + ([TextObject(keys[n - 1])] + Flatten(values[n - 1], EntryStart(values, n - 1, base) + 1))
  }

  // -------------------------------------------------------------------------
  // The same layout said of a table that may hold more

  /** The table holds the flattened `v` from `base` on. */
  ghost predicate LaidOut(objects: seq<Object>, v: Value, base: nat)
    ensures LaidOut(objects, v, base) ==> base + Nodes(v) <= |objects|
    decreases v, 1
  {
    && base + Nodes(v) <= |objects|
    && match v
       case Array(items) =>
         && objects[base].OArray?
         && |objects[base].refs| == |items|
         && forall j {:trigger ItemLaidOut(objects, objects[base].refs, items, j, base + 1)} ::
              0 <= j < |items| ==> ItemLaidOut(objects, objects[base].refs, items, j, base + 1)
       case Dictionary(keys, values) =>
         && |keys| == |values|
         && objects[base].ODictionary?
         && |objects[base].refs| == 2 * |values|
         && forall j {:trigger EntryLaidOut(objects, objects[base].refs, keys, values, j, base + 1)} ::
              0 <= j < |values| ==> EntryLaidOut(objects, objects[base].refs, keys, values, j, base + 1)
       case _ => objects[base] == LeafObject(v)
  }

  ghost predicate ItemLaidOut(objects: seq<Object>, refs: seq<nat>, items: seq<Value>, j: nat, base: nat)
    requires j < |items| == |refs|
    decreases items, 0
  {
    refs[j] == ItemStart(items, j, base) && LaidOut(objects, items[j], refs[j])
  }

  ghost predicate EntryLaidOut(
    objects: seq<Object>, refs: seq<nat>, keys: seq<string>, values: seq<Value>, j: nat, base: nat)
    requires j < |keys| == |values| && |refs| == 2 * |values|
    decreases values, 0
  {
    && refs[j] == EntryStart(values, j, base) < |objects|
    && refs[|values| + j] == refs[j] + 1
    && objects[refs[j]] == TextObject(keys[j])
    && LaidOut(objects, values[j], refs[j] + 1)
  }

  lemma {:induction false} FlattenIsLaidOut(objects: seq<Object>, v: Value, base: nat)
    requires WellFormed(v) && At(objects, base, Flatten(v, base))
    ensures LaidOut(objects, v, base)
    decreases v, 1, 0
  {
    if v.Array? {
      var root, rest := OArray(ItemRefs(v.items, base + 1)), FlattenItems(v.items, |v.items|, base + 1);
      AtConcat(objects, base, [root], rest);
      AtHead(objects, base, root);
      ItemsAreLaidOut(objects, v.items, |v.items|, base + 1);
    } else if v.Dictionary? {
      var root := ODictionary(EntryRefs(v.values, base + 1));
      AtConcat(objects, base, [root], FlattenEntries(v.keys, v.values, |v.values|, base + 1));
      AtHead(objects, base, root);
      EntriesAreLaidOut(objects, v.keys, v.values, |v.values|, base + 1);
    } else {
      AtHead(objects, base, LeafObject(v));
    }
  }

  lemma {:induction false} ItemsAreLaidOut(objects: seq<Object>, items: seq<Value>, n: nat, base: nat)
    requires AllWellFormed(items) && n <= |items| && At(objects, base, FlattenItems(items, n, base))
    ensures forall j :: 0 <= j < n ==> ItemLaidOut(objects, ItemRefs(items, base), items, j, base)
    decreases items, 0, n
  {
    if n > 0 {
      assert WellFormed(items[n - 1]);
      var start := ItemStart(items, n - 1, base);
      AtConcat(objects, base, FlattenItems(items, n - 1, base), Flatten(items[n - 1], start));
      ItemsAreLaidOut(objects, items, n - 1, base);
      FlattenIsLaidOut(objects, items[n - 1], start);
    }
  }

  lemma {:induction false} EntriesAreLaidOut(
    objects: seq<Object>, keys: seq<string>, values: seq<Value>, n: nat, base: nat)
    requires AllWellFormed(values) && n <= |keys| == |values|
    requires At(objects, base, FlattenEntries(keys, values, n, base))
    ensures forall j :: 0 <= j < n ==> EntryLaidOut(objects, EntryRefs(values, base), keys, values, j, base)
    decreases values, 0, n
  {
    if n > 0 {
      assert WellFormed(values[n - 1]);
      var start := EntryStart(values, n - 1, base);
      var key, table := TextObject(keys[n - 1]), Flatten(values[n - 1], start + 1);
      AtConcat(objects, base, FlattenEntries(keys, values, n - 1, base), [key] + table);
      AtConcat(objects, start, [key], table);
      AtHead(objects, start, key);
      EntriesAreLaidOut(objects, keys, values, n - 1, base);
      FlattenIsLaidOut(objects, values[n - 1], start + 1);
    }
  }

  // -------------------------------------------------------------------------
  // The table unfolds back to the value

  lemma {:induction false} LaidOutUnfolds(objects: seq<Object>, v: Value, base: nat)
    requires WellFormed(v) && LaidOut(objects, v, base)
    ensures IsUnfolding(objects, base, v)
    decreases v
  {
    var refs := Children(objects[base]);
    if v.Array? {
      forall j | 0 <= j < |refs|
        ensures IsUnfolding(objects, refs[j], v.items[j])
      {
        assert ItemLaidOut(objects, refs, v.items, j, base + 1);
        LaidOutUnfolds(objects, v.items[j], refs[j]);
      }
    } else if v.Dictionary? {
      forall j | 0 <= j < |v.keys|
        ensures IsEntry(objects, refs, j, v)
      {
        assert EntryLaidOut(objects, refs, v.keys, v.values, j, base + 1);
        LaidOutUnfolds(objects, v.values[j], refs[|v.values| + j]);
        AscendingDistinct(v.keys, IndexOf(v.keys, v.keys[j]), j);
      }
      KeysLaidOutDiffer(objects, v, base);
    }
  }

  lemma KeysLaidOutDiffer(objects: seq<Object>, v: Value, base: nat)
    requires WellFormed(v) && v.Dictionary? && LaidOut(objects, v, base)
    ensures KeysDiffer(objects, objects[base].refs)
  {
    var refs := objects[base].refs;
    forall i, j | 0 <= i < j < |refs| / 2
      ensures !SameKey(objects, refs[i], refs[j])
    {
      assert EntryLaidOut(objects, refs, v.keys, v.values, i, base + 1);
      assert EntryLaidOut(objects, refs, v.keys, v.values, j, base + 1);
      if v.keys[i] == v.keys[j] {
        AscendingDistinct(v.keys, i, j);
      }
    }
  }
}
