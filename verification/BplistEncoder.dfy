/** The encoder: flattening under limits, then writing into a bounded buffer. */
module BplistEncoder {
  import opened BplistModel
  import opened BplistWire
  import opened BplistUnfold
  import opened BplistFlatten

  /** Bytes charged for a value: data as it is and text as UTF-8, keys included. */
  function ValueBytes(v: Value): nat
    decreases v, 1, 0
  {
    match v
    case Data(bytes) => |bytes|
    case Text(text) => Utf8Length(text)
    case Array(items) => ItemValueBytes(items, |items|)
    case Dictionary(keys, values) => if |keys| == |values| then EntryValueBytes(keys, values, |values|) else 0
    case _ => 0
  }

  function ItemValueBytes(items: seq<Value>, n: nat): nat
    requires n <= |items|
    decreases items, 0, n
  {
    if n == 0 then 0 else ItemValueBytes(items, n - 1) + ValueBytes(items[n - 1])
  }

  function EntryValueBytes(keys: seq<string>, values: seq<Value>, n: nat): nat
    requires n <= |keys| == |values|
    decreases values, 0, n
  {
    if n == 0 then 0
    else EntryValueBytes(keys, values, n - 1) + Utf8Length(keys[n - 1]) + ValueBytes(values[n - 1])
  }

  /** What one value may still add. */
  datatype Room = Room(depth: nat, objects: nat, references: nat, bytes: nat)

  ghost predicate WithinRoom(v: Value, at: Room) {
    && at.depth + Depth(v) <= MAX_DEPTH
    && at.objects + Nodes(v) <= MAX_OBJECTS
    && at.references + Nodes(v) - 1 <= MAX_REFERENCES
    && at.bytes + ValueBytes(v) <= MAX_VALUE_BYTES
  }

  /** The first `n` items of an array at `at`, whose own object and references are in `at` already. */
  ghost predicate ItemsWithinRoom(items: seq<Value>, n: nat, at: Room)
    requires n <= |items|
  {
    && at.depth + DepthUpTo(items, n) <= MAX_DEPTH
    && at.objects + NodesUpTo(items, n) <= MAX_OBJECTS
    && at.references + NodesUpTo(items, n) - n <= MAX_REFERENCES
    && at.bytes + ItemValueBytes(items, n) <= MAX_VALUE_BYTES
  }

  ghost function RoomAtItem(items: seq<Value>, n: nat, at: Room): Room
    requires n <= |items|
  {
    NodesUpToMonotone(items, 0, n);
    Room(at.depth + 1, at.objects + NodesUpTo(items, n), at.references + NodesUpTo(items, n) - n,
         at.bytes + ItemValueBytes(items, n))
  }

  lemma ItemStep(items: seq<Value>, n: nat, at: Room)
    requires n < |items| && ItemsWithinRoom(items, n, at)
    ensures WithinRoom(items[n], RoomAtItem(items, n, at)) <==> ItemsWithinRoom(items, n + 1, at)
  {
  }

  lemma {:induction false} ItemsMonotone(items: seq<Value>, i: nat, n: nat, at: Room)
    requires i <= n <= |items| && ItemsWithinRoom(items, n, at)
    ensures ItemsWithinRoom(items, i, at)
    decreases n
  {
    if i < n {
      ItemsMonotone(items, i, n - 1, at);
    }
  }

  lemma ItemAppended(before: seq<Object>, mid: seq<Object>, after: seq<Object>, items: seq<Value>, n: nat)
    requires AllWellFormed(items) && n < |items| && mid == before + FlattenItems(items, n, |before|)
    requires WellFormed(items[n]) && after == mid + Flatten(items[n], |mid|)
    ensures after == before + FlattenItems(items, n + 1, |before|)
  {
    assert FlattenItems(items, n + 1, |before|) == FlattenItems(items, n, |before|) + Flatten(items[n], |mid|);
  }

  lemma EntryAppended(
    before: seq<Object>, mid: seq<Object>, after: seq<Object>, keys: seq<string>, values: seq<Value>, n: nat)
    requires AllWellFormed(values) && n < |keys| == |values|
    requires mid == before + FlattenEntries(keys, values, n, |before|)
    requires WellFormed(values[n]) && after == mid + [TextObject(keys[n])] + Flatten(values[n], |mid| + 1)
    ensures after == before + FlattenEntries(keys, values, n + 1, |before|)
  {
    assert FlattenEntries(keys, values, n + 1, |before|)
        == FlattenEntries(keys, values, n, |before|) + ([TextObject(keys[n])] + Flatten(values[n], |mid| + 1));
  }

  /** Filling in the object that was kept free for the root. */
  lemma RootWritten(before: seq<Object>, rest: seq<Object>, root: Object)
    ensures (before + [ONull] + rest)[|before| := root] == before + ([root] + rest)
  {
  }

  /** Where the first entries went. */
  ghost predicate Placed(keyRefs: seq<nat>, valueRefs: seq<nat>, values: seq<Value>, base: nat) {
    && |keyRefs| == |valueRefs| <= |values|
    && forall j {:trigger PlacedAt(keyRefs, valueRefs, values, base, j)} ::
         0 <= j < |keyRefs| ==> PlacedAt(keyRefs, valueRefs, values, base, j)
  }

  ghost predicate PlacedAt(keyRefs: seq<nat>, valueRefs: seq<nat>, values: seq<Value>, base: nat, j: nat)
    requires j < |keyRefs| == |valueRefs| <= |values|
  {
    keyRefs[j] == EntryStart(values, j, base) && valueRefs[j] == EntryStart(values, j, base) + 1
  }

  lemma PlacedStep(keyRefs: seq<nat>, valueRefs: seq<nat>, values: seq<Value>, base: nat, start: nat)
    requires Placed(keyRefs, valueRefs, values, base) && |keyRefs| < |values|
    requires start == EntryStart(values, |keyRefs|, base)
    ensures Placed(keyRefs + [start], valueRefs + [start + 1], values, base)
  {
    var keyRefs', valueRefs' := keyRefs + [start], valueRefs + [start + 1];
    forall j | 0 <= j < |keyRefs'|
      ensures PlacedAt(keyRefs', valueRefs', values, base, j)
    {
      if j < |keyRefs| {
        assert PlacedAt(keyRefs, valueRefs, values, base, j);
      }
    }
  }

  lemma EntryRefsFrom(keyRefs: seq<nat>, valueRefs: seq<nat>, values: seq<Value>, base: nat)
    requires Placed(keyRefs, valueRefs, values, base) && |keyRefs| == |values|
    ensures keyRefs + valueRefs == EntryRefs(values, base)
  {
    var refs := EntryRefs(values, base);
    forall j | 0 <= j < |refs|
      ensures (keyRefs + valueRefs)[j] == refs[j]
    {
      assert PlacedAt(keyRefs, valueRefs, values, base, if j < |values| then j else j - |values|);
      if j < |values| {
        assert (keyRefs + valueRefs)[j] == keyRefs[j];
      } else {
        assert (keyRefs + valueRefs)[j] == valueRefs[j - |values|];
      }
    }
  }

  /** The first `n` entries of a dictionary at `at`, whose own object and references are in `at` already. */
  ghost predicate EntriesWithinRoom(keys: seq<string>, values: seq<Value>, n: nat, at: Room)
    requires n <= |keys| == |values|
  {
    && at.depth + DepthUpTo(values, n) <= MAX_DEPTH
    && at.objects + n + NodesUpTo(values, n) <= MAX_OBJECTS
    && at.references + NodesUpTo(values, n) - n <= MAX_REFERENCES
    && at.bytes + EntryValueBytes(keys, values, n) <= MAX_VALUE_BYTES
  }

  /** What is used up just before value `n`, its key included. */
  ghost function RoomAtValue(keys: seq<string>, values: seq<Value>, n: nat, at: Room): Room
    requires n < |keys| == |values|
  {
    NodesUpToMonotone(values, 0, n);
    Room(at.depth + 1, at.objects + n + NodesUpTo(values, n) + 1, at.references + NodesUpTo(values, n) - n,
         at.bytes + EntryValueBytes(keys, values, n) + Utf8Length(keys[n]))
  }

  lemma EntryStep(keys: seq<string>, values: seq<Value>, n: nat, at: Room)
    requires n < |keys| == |values| && EntriesWithinRoom(keys, values, n, at)
    ensures WithinRoom(values[n], RoomAtValue(keys, values, n, at)) <==> EntriesWithinRoom(keys, values, n + 1, at)
  {
  }

  lemma {:induction false} EntriesMonotone(keys: seq<string>, values: seq<Value>, i: nat, n: nat, at: Room)
    requires i <= n <= |keys| == |values| && EntriesWithinRoom(keys, values, n, at)
    ensures EntriesWithinRoom(keys, values, i, at)
    decreases n
  {
    if i < n {
      EntriesMonotone(keys, values, i, n - 1, at);
    }
  }

  class Encoder {
    var objects: seq<Object>
    var references: nat
    var valueBytes: nat

    constructor ()
      ensures objects == [] && references == 0 && valueBytes == 0
    {
      objects, references, valueBytes := [], 0, 0;
    }

    ghost predicate Valid()
      reads this
    {
      references <= MAX_REFERENCES && valueBytes <= MAX_VALUE_BYTES
    }

    ghost function Used(depth: nat): Room
      reads this
    {
      Room(depth, |objects|, references, valueBytes)
    }

    method ChargeReferences(count: nat) returns (ok: bool)
      modifies this`references
      ensures references == old(references) + count
      ensures ok <==> references <= MAX_REFERENCES
    {
      references := references + count;
      ok := references <= MAX_REFERENCES;
    }

    method ChargeBytes(count: nat) returns (ok: bool)
      modifies this`valueBytes
      ensures valueBytes == old(valueBytes) + count
      ensures ok <==> valueBytes <= MAX_VALUE_BYTES
    {
      valueBytes := valueBytes + count;
      ok := valueBytes <= MAX_VALUE_BYTES;
    }

    /** The state after `v` has been added. */
    twostate predicate Added(v: Value, index: nat)
      requires WellFormed(v)
      reads this
    {
      && index == old(|objects|)
      && objects == old(objects) + Flatten(v, index)
      && references == old(references) + Nodes(v) - 1
      && valueBytes == old(valueBytes) + ValueBytes(v)
      && Valid()
    }

    /** Adds `v` and everything inside it, and returns its index. */
    method Add(v: Value, depth: nat) returns (r: Result<nat>)
      requires Valid() && WellFormed(v)
      modifies this
      ensures r.Ok? ==> Added(v, r.value)
      ensures r.Ok? <==> IntegersInRange(v) && WithinRoom(v, old(Used(depth)))
      ensures r.Err? ==> r.error == IntegerOutOfRange || r.error == LimitExceeded
      ensures r == Err(IntegerOutOfRange) ==> !IntegersInRange(v)
      ensures r == Err(LimitExceeded) ==> !WithinRoom(v, old(Used(depth)))
      decreases v, 1, 0
    {
      if depth > MAX_DEPTH || |objects| >= MAX_OBJECTS {
        return Err(LimitExceeded);
      }
      if v.Array? {
        r := AddArray(v, depth);
      } else if v.Dictionary? {
        r := AddDictionary(v, depth);
      } else {
        var index := |objects|;
        var leaf :- LeafOf(v);
        objects := objects + [leaf];
        r := Ok(index);
      }
    }

    method AddArray(v: Value, depth: nat) returns (r: Result<nat>)
      requires Valid() && WellFormed(v) && v.Array? && depth <= MAX_DEPTH && |objects| < MAX_OBJECTS
      modifies this
      ensures r.Ok? ==> Added(v, r.value)
      ensures r.Ok? <==> IntegersInRange(v) && WithinRoom(v, old(Used(depth)))
      ensures r.Err? ==> r.error == IntegerOutOfRange || r.error == LimitExceeded
      ensures r == Err(IntegerOutOfRange) ==> !IntegersInRange(v)
      ensures r == Err(LimitExceeded) ==> !WithinRoom(v, old(Used(depth)))
      decreases v, 0, 0
    {
      var index := |objects|;
      objects := objects + [ONull];
      NodesUpToMonotone(v.items, 0, |v.items|);
      var ok := ChargeReferences(|v.items|);
      if !ok {
        return Err(LimitExceeded);
      }
      var children :- AddItems(v.items, depth);
      RootWritten(old(objects), FlattenItems(v.items, |v.items|, index + 1), OArray(children));
      objects := objects[index := OArray(children)];
      r := Ok(index);
    }

    method AddDictionary(v: Value, depth: nat) returns (r: Result<nat>)
      requires Valid() && WellFormed(v) && v.Dictionary? && depth <= MAX_DEPTH && |objects| < MAX_OBJECTS
      modifies this
      ensures r.Ok? ==> Added(v, r.value)
      ensures r.Ok? <==> IntegersInRange(v) && WithinRoom(v, old(Used(depth)))
      ensures r.Err? ==> r.error == IntegerOutOfRange || r.error == LimitExceeded
      ensures r == Err(IntegerOutOfRange) ==> !IntegersInRange(v)
      ensures r == Err(LimitExceeded) ==> !WithinRoom(v, old(Used(depth)))
      decreases v, 0, 0
    {
      var index := |objects|;
      objects := objects + [ONull];
      NodesUpToMonotone(v.values, 0, |v.values|);
      var ok := ChargeReferences(2 * |v.values|);
      if !ok {
        return Err(LimitExceeded);
      }
      var children :- AddEntries(v.keys, v.values, depth);
      RootWritten(old(objects), FlattenEntries(v.keys, v.values, |v.values|, index + 1), ODictionary(children));
      objects := objects[index := ODictionary(children)];
      r := Ok(index);
    }

    /** The object of a value without children; its bytes are charged. */
    method LeafOf(v: Value) returns (r: Result<Object>)
      requires Valid() && !v.Array? && !v.Dictionary?
      modifies this`valueBytes
      ensures r.Ok? ==> r.value == LeafObject(v) && valueBytes == old(valueBytes) + ValueBytes(v)
      ensures r.Ok? <==> IntegersInRange(v) && old(valueBytes) + ValueBytes(v) <= MAX_VALUE_BYTES
      ensures r.Err? ==> r.error == if v.Integer? then IntegerOutOfRange else LimitExceeded
    {
      match v
      case Null => r := Ok(ONull);
      case Boolean(flag) => r := Ok(OBoolean(flag));
      case Integer(n) =>
        if n < MIN_INTEGER || n > MAX_INTEGER {
          return Err(IntegerOutOfRange);
        }
        r := Ok(OInteger(n));
      case Data(bytes) =>
        var ok := ChargeBytes(|bytes|);
        r := if ok then Ok(OData(bytes)) else Err(LimitExceeded);
      case Text(text) =>
        var ok := ChargeBytes(Utf8Length(text));
        r := if ok then Ok(TextObject(text)) else Err(LimitExceeded);
    }

    /** Adds the items of an array at `depth` in turn and returns where they went. */
    method AddItems(items: seq<Value>, depth: nat) returns (r: Result<seq<nat>>)
      requires Valid() && AllWellFormed(items) && |objects| <= MAX_OBJECTS && depth <= MAX_DEPTH
      modifies this
      ensures r.Ok? ==> Valid() && r.value == ItemRefs(items, old(|objects|))
      ensures r.Ok? ==> objects == old(objects) + FlattenItems(items, |items|, old(|objects|))
      ensures r.Ok? ==> Used(depth + 1) == RoomAtItem(items, |items|, old(Used(depth)))
      ensures r.Ok? <==> AllInRange(items) && ItemsWithinRoom(items, |items|, old(Used(depth)))
      ensures r.Err? ==> r.error == IntegerOutOfRange || r.error == LimitExceeded
      ensures r == Err(IntegerOutOfRange) ==> !AllInRange(items)
      ensures r == Err(LimitExceeded) ==> !ItemsWithinRoom(items, |items|, old(Used(depth)))
      decreases items, 0, 0
    {
      ghost var start := Used(depth);
      var children := [];
      for i := 0 to |items|
        invariant Valid() && ItemsWithinRoom(items, i, start)
        invariant Used(depth + 1) == RoomAtItem(items, i, start)
        invariant objects == old(objects) + FlattenItems(items, i, old(|objects|))
        invariant |children| == i && forall j :: 0 <= j < i ==> children[j] == ItemStart(items, j, old(|objects|))
        invariant forall j {:trigger IntegersInRange(items[j])} :: 0 <= j < i ==> IntegersInRange(items[j])
      {
        assert WellFormed(items[i]);
        ItemStep(items, i, start);
        ghost var mid := objects;
        var added := Add(items[i], depth + 1);
        if added.Err? {
          if ItemsWithinRoom(items, |items|, start) {
            ItemsMonotone(items, i + 1, |items|, start);
          }
          return Err(added.error);
        }
        ItemAppended(old(objects), mid, objects, items, i);
        children := children + [added.value];
      }
      r := Ok(children);
    }

    /** The first `n` entries have been added after `before`, where `start` was used up. */
    ghost predicate EntriesDone(keys: seq<string>, values: seq<Value>, n: nat, start: Room, before: seq<Object>)
      requires AllWellFormed(values) && n <= |keys| == |values|
      reads this
    {
      && Valid()
      && EntriesWithinRoom(keys, values, n, start)
      && start.objects == |before|
      && objects == before + FlattenEntries(keys, values, n, |before|)
      && references == start.references + NodesUpTo(values, n) - n
      && valueBytes == start.bytes + EntryValueBytes(keys, values, n)
    }

    /** Adds the key of entry `i` and then its value. */
    method AddEntry(
      keys: seq<string>, values: seq<Value>, i: nat, depth: nat, ghost start: Room, ghost before: seq<Object>)
      returns (r: Result<(nat, nat)>)
      requires AllWellFormed(values) && i < |keys| == |values| && depth == start.depth + 1
      requires EntriesDone(keys, values, i, start, before)
      modifies this
      ensures r.Ok? ==> EntriesDone(keys, values, i + 1, start, before) && IntegersInRange(values[i])
      ensures r.Ok? ==> r.value == (EntryStart(values, i, |before|), EntryStart(values, i, |before|) + 1)
      ensures r.Err? ==> r.error == IntegerOutOfRange || r.error == LimitExceeded
      ensures r == Err(IntegerOutOfRange) ==> !IntegersInRange(values[i])
      ensures r == Err(LimitExceeded) ==> !EntriesWithinRoom(keys, values, i + 1, start)
      decreases values, 0, 0
    {
      assert WellFormed(values[i]);
      EntryStep(keys, values, i, start);
      ghost var mid := objects;
      var ok := ChargeBytes(Utf8Length(keys[i]));
      if !ok || |objects| >= MAX_OBJECTS {
        return Err(LimitExceeded);
      }
      var keyIndex := |objects|;
      objects := objects + [TextObject(keys[i])];
      var valueIndex :- Add(values[i], depth);
      EntryAppended(before, mid, objects, keys, values, i);
      r := Ok((keyIndex, valueIndex));
    }

    /** Adds each key and then its value, and returns where the keys and then the values went. */
    method AddEntries(keys: seq<string>, values: seq<Value>, depth: nat) returns (r: Result<seq<nat>>)
      requires Valid() && AllWellFormed(values) && |keys| == |values|
      requires |objects| <= MAX_OBJECTS && depth <= MAX_DEPTH
      modifies this
      ensures r.Ok? ==> EntriesDone(keys, values, |values|, old(Used(depth)), old(objects))
      ensures r.Ok? ==> r.value == EntryRefs(values, old(|objects|)) && AllInRange(values)
      ensures r.Err? ==> r.error == IntegerOutOfRange || r.error == LimitExceeded
      ensures r == Err(IntegerOutOfRange) ==> !AllInRange(values)
      ensures r == Err(LimitExceeded) ==> !EntriesWithinRoom(keys, values, |values|, old(Used(depth)))
      decreases values, 0, 1
    {
      ghost var start, before := Used(depth), objects;
      var keyRefs, valueRefs := [], [];
      for i := 0 to |values|
        invariant EntriesDone(keys, values, i, start, before)
        invariant |keyRefs| == i && Placed(keyRefs, valueRefs, values, |before|)
        invariant forall j {:trigger IntegersInRange(values[j])} :: 0 <= j < i ==> IntegersInRange(values[j])
      {
        var added := AddEntry(keys, values, i, depth + 1, start, before);
        if added.Err? {
          if EntriesWithinRoom(keys, values, |values|, start) {
            EntriesMonotone(keys, values, i + 1, |values|, start);
          }
          return Err(added.error);
        }
        PlacedStep(keyRefs, valueRefs, values, |before|, added.value.0);
        keyRefs, valueRefs := keyRefs + [added.value.0], valueRefs + [added.value.1];
      }
      EntryRefsFrom(keyRefs, valueRefs, values, |before|);
      r := Ok(keyRefs + valueRefs);
    }
  }

  ghost predicate AllInRange(values: seq<Value>) {
    forall j {:trigger IntegersInRange(values[j])} :: 0 <= j < |values| ==> IntegersInRange(values[j])
  }
}
