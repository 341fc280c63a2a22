/** Unfolding the object graph into a value, and exactly which graphs unfold within the limits. */
module BplistUnfold {
  import opened BplistModel
  import opened BplistWire
  import opened BplistGraph

  // -------------------------------------------------------------------------
  // Sizes of a value

  /** Objects a value takes when nothing is shared; dictionary keys count too. */
  function Nodes(v: Value): (n: nat)
    ensures n >= 1
    decreases v, 1, 0
  {
    match v
    case Array(items) => 1 + NodesUpTo(items, |items|)
    case Dictionary(keys, values) => 1 + |keys| + NodesUpTo(values, |values|)
    case _ => 1
  }

  /** Nodes of the first `n` values. */
  function NodesUpTo(values: seq<Value>, n: nat): nat
    requires n <= |values|
    decreases values, 0, n
  {
    if n == 0 then 0 else NodesUpTo(values, n - 1) + Nodes(values[n - 1])
  }

  function NodesOf(values: seq<Value>): nat { NodesUpTo(values, |values|) }

  /** Nesting below the value itself. */
  function Depth(v: Value): nat
    decreases v, 1, 0
  {
    match v
    case Array(items) => DepthUpTo(items, |items|)
    case Dictionary(_, values) => DepthUpTo(values, |values|)
    case _ => 0
  }

  /** One more than the deepest of the first `n` values, or zero when there are none. */
  function DepthUpTo(values: seq<Value>, n: nat): nat
    requires n <= |values|
    decreases values, 0, n
  {
    if n == 0 then 0
    else
      var before, last := DepthUpTo(values, n - 1), 1 + Depth(values[n - 1]);
      if before < last then last else before
  }

  function DepthOf(values: seq<Value>): nat { DepthUpTo(values, |values|) }

  predicate IntegersInRange(v: Value) {
    match v
    case Integer(n) => MIN_INTEGER <= n <= MAX_INTEGER
    case Array(items) => forall i {:trigger IntegersInRange(items[i])} :: 0 <= i < |items| ==> IntegersInRange(items[i])
    case Dictionary(_, values) =>
      forall i {:trigger IntegersInRange(values[i])} :: 0 <= i < |values| ==> IntegersInRange(values[i])
    case _ => true
  }

  // -------------------------------------------------------------------------
  // Unfolding under budgets

  datatype Budget = Budget(nodes: nat, bytes: nat)

  function Charge(b: Budget, amount: nat): Result<Budget> {
    if b.bytes + amount > MAX_VALUE_BYTES then Err(LimitExceeded)
    else Ok(Budget(b.nodes, b.bytes + amount))
  }

  function Position(keys: seq<string>, k: string): (p: nat)
    ensures p <= |keys|
  {
    if keys == [] || !Less(keys[0], k) then 0 else 1 + Position(keys[1..], k)
  }

  function Insert<T>(s: seq<T>, at: nat, x: T): (r: seq<T>)
    requires at <= |s|
    ensures |r| == |s| + 1
  {
    seq(|s| + 1, i requires 0 <= i <= |s| => if i < at then s[i] else if i == at then x else s[i - 1])
  }

  function UnfoldLeaf(o: Object): Value
    requires !IsContainer(o)
  {
    match o
    case ONull => Null
    case OBoolean(flag) => Boolean(flag)
    case OInteger(n) => Integer(n)
    case OData(bytes) => Data(bytes)
    case OText(text, _) => Text(text)
  }

  function Unfold(objects: seq<Object>, index: nat, depth: nat, b: Budget): (r: Result<(Value, Budget)>)
    requires Closed(objects) && index < |objects| && depth <= MAX_DEPTH + 1
    decreases MAX_DEPTH + 1 - depth, 0, 0
  {
    if depth > MAX_DEPTH || b.nodes + 1 > MAX_DECODED_NODES then Err(LimitExceeded)
    else
      var b1, o := Budget(b.nodes + 1, b.bytes), objects[index];
      assert ClosedAt(objects, index);
      if o.OArray? then
        var (items, b2) :- UnfoldItems(objects, o.refs, 0, [], depth + 1, b1);
        Ok((Array(items), b2))
      else if o.ODictionary? then
        UnfoldEntries(objects, o.refs, 0, [], [], depth + 1, b1)
      else
        var b2 :- Charge(b1, Payload(o));
        Ok((UnfoldLeaf(o), b2))
  }

  /** Unfolds `refs[i..]` after the values already in `items`. */
  function UnfoldItems(
    objects: seq<Object>, refs: seq<nat>, i: nat, items: seq<Value>, depth: nat, b: Budget)
    : Result<(seq<Value>, Budget)>
    requires Closed(objects) && Below(refs, |objects|) && i <= |refs| && depth <= MAX_DEPTH + 1
    decreases MAX_DEPTH + 1 - depth, 1, |refs| - i
  {
    if i == |refs| then Ok((items, b))
    else
      var (v, b1) :- Unfold(objects, refs[i], depth, b);
      UnfoldItems(objects, refs, i + 1, items + [v], depth, b1)
  }

  /** Unfolds the entries from `i` on into the ordered map `keys`/`values`. */
  function UnfoldEntries(
    objects: seq<Object>, refs: seq<nat>, i: nat, keys: seq<string>, values: seq<Value>, depth: nat, b: Budget)
    : Result<(Value, Budget)>
    requires Closed(objects) && Below(refs, |objects|) && |refs| % 2 == 0
    requires i <= |refs| / 2 && |keys| == |values| && depth <= MAX_DEPTH + 1
    decreases MAX_DEPTH + 1 - depth, 1, |refs| - i
  {
    var n := |refs| / 2;
    if i == n then Ok((Dictionary(keys, values), b))
    else
      var (k, b1) :- Unfold(objects, refs[i], depth, b);
      if !k.Text? then Err(Malformed)
      else
        var (v, b2) :- Unfold(objects, refs[n + i], depth, b1);
        if k.text in keys then Err(Malformed)
        else
          var at := Position(keys, k.text);
          UnfoldEntries(objects, refs, i + 1, Insert(keys, at, k.text), Insert(values, at, v), depth, b2)
  }

  // -------------------------------------------------------------------------
  // What the unfolding of an object is, without budgets

  /** `v` is what object `index` stands for. The entries of a dictionary may be listed in any
      order in the graph; no two of them have the same key. */
  ghost predicate IsUnfolding(objects: seq<Object>, index: nat, v: Value)
    decreases v, 1
  {
    && index < |objects|
    && var o := objects[index];
       if o.OArray? then
         && v.Array?
         && |v.items| == |o.refs|
         && forall i {:trigger IsUnfolding(objects, o.refs[i], v.items[i])} ::
              0 <= i < |o.refs| ==> IsUnfolding(objects, o.refs[i], v.items[i])
       else if o.ODictionary? then
         && v.Dictionary?
         && |v.keys| == |v.values| && |o.refs| == 2 * |v.keys|
         && (forall i :: 0 <= i < |v.keys| ==> IsEntry(objects, o.refs, i, v))
         && KeysDiffer(objects, o.refs)
       else v == UnfoldLeaf(o)
  }

  ghost function IndexOf(keys: seq<string>, k: string): (i: nat)
    requires k in keys
    ensures i < |keys| && keys[i] == k
  {
    var i :| 0 <= i < |keys| && keys[i] == k;
    i
  }

  /** Entry `i` of the graph is in the ordered map `v`: its key's text, with what its value reference
      stands for. */
  ghost predicate IsEntry(objects: seq<Object>, refs: seq<nat>, i: nat, v: Value)
    requires v.Dictionary? && |v.keys| == |v.values| && i < |refs| / 2
    decreases v, 0
  {
    && KeyIn(objects, refs[i], v.keys)
    && IsUnfolding(objects, refs[|refs| / 2 + i], EntryValue(objects, refs[i], v))
  }

  ghost predicate KeyIn(objects: seq<Object>, index: nat, keys: seq<string>) {
    index < |objects| && objects[index].OText? && objects[index].text in keys
  }

  /** The value that the ordered map `v` holds for the key at `index`. */
  ghost function EntryValue(objects: seq<Object>, index: nat, v: Value): (x: Value)
    requires v.Dictionary? && |v.keys| == |v.values| && KeyIn(objects, index, v.keys)
    ensures x in v.values
    ensures x < v
  {
    v.values[IndexOf(v.keys, objects[index].text)]
  }

  ghost predicate KeysDiffer(objects: seq<Object>, refs: seq<nat>) {
    forall i, j {:trigger SameKey(objects, refs[i], refs[j])} ::
      0 <= i < j < |refs| / 2 ==> !SameKey(objects, refs[i], refs[j])
  }

  ghost predicate SameKey(objects: seq<Object>, a: nat, b: nat) {
    && a < |objects| && b < |objects|
    && objects[a].OText? && objects[b].OText?
    && objects[a].text == objects[b].text
  }

  /** Wire payload of the unfolding, a shared object counted once for each use. */
  ghost function WireBytes(objects: seq<Object>, index: nat, v: Value): nat
    requires IsUnfolding(objects, index, v)
    decreases v, 1, 0
  {
    var o := objects[index];
    if o.OArray? then ItemBytes(objects, o.refs, v, 0)
    else if o.ODictionary? then EntryBytes(objects, o.refs, v, 0)
    else Payload(o)
  }

  /** Wire payload of the items from `i` on. */
  ghost function ItemBytes(objects: seq<Object>, refs: seq<nat>, v: Value, i: nat): nat
    requires v.Array? && i <= |refs| == |v.items|
    requires forall j {:trigger IsUnfolding(objects, refs[j], v.items[j])} ::
               i <= j < |refs| ==> IsUnfolding(objects, refs[j], v.items[j])
    decreases v, 0, |refs| - i
  {
    if i == |refs| then 0
    else WireBytes(objects, refs[i], v.items[i]) + ItemBytes(objects, refs, v, i + 1)
  }

  /** Wire payload of the entries from `i` on. */
  ghost function EntryBytes(objects: seq<Object>, refs: seq<nat>, v: Value, i: nat): nat
    requires v.Dictionary? && |v.keys| == |v.values| && i <= |refs| / 2
    requires forall j :: i <= j < |refs| / 2 ==> IsEntry(objects, refs, j, v)
    decreases v, 0, |refs| - i
  {
    if i == |refs| / 2 then 0
    else
      assert IsEntry(objects, refs, i, v);
      Payload(objects[refs[i]])
      + WireBytes(objects, refs[|refs| / 2 + i], EntryValue(objects, refs[i], v))
      + EntryBytes(objects, refs, v, i + 1)
  }

  // -------------------------------------------------------------------------
  // Small facts about sizes and ordered maps

  lemma {:induction false} NodesUpToSame(a: seq<Value>, b: seq<Value>, n: nat)
    requires n <= |a| && n <= |b|
    requires forall i :: 0 <= i < n ==> a[i] == b[i]
    ensures NodesUpTo(a, n) == NodesUpTo(b, n)
  {
    if n > 0 {
      NodesUpToSame(a, b, n - 1);
    }
  }

  lemma NodesOfAppend(values: seq<Value>, x: Value)
    ensures NodesOf(values + [x]) == NodesOf(values) + Nodes(x)
  {
    NodesUpToSame(values, values + [x], |values|);
  }

  lemma {:induction false} NodesUpToInsert(values: seq<Value>, at: nat, x: Value, n: nat)
    requires at <= n <= |values|
    ensures NodesUpTo(Insert(values, at, x), n + 1) == NodesUpTo(values, n) + Nodes(x)
    decreases n
  {
    if n == at {
      NodesUpToSame(values, Insert(values, at, x), n);
    } else {
      NodesUpToInsert(values, at, x, n - 1);
    }
  }

  lemma NodesOfInsert(values: seq<Value>, at: nat, x: Value)
    requires at <= |values|
    ensures NodesOf(Insert(values, at, x)) == NodesOf(values) + Nodes(x)
  {
    NodesUpToInsert(values, at, x, |values|);
  }

  lemma {:induction false} NodesUpToMonotone(values: seq<Value>, i: nat, n: nat)
    requires i <= n <= |values|
    ensures NodesUpTo(values, i) + (n - i) <= NodesUpTo(values, n)
    ensures i < n ==> NodesUpTo(values, i) + Nodes(values[i]) <= NodesUpTo(values, n)
    decreases n
  {
    if i < n {
      NodesUpToMonotone(values, i, n - 1);
    }
  }

  lemma {:induction false} DepthUpToAtMost(values: seq<Value>, n: nat, m: nat)
    requires n <= |values|
    requires forall i :: 0 <= i < n ==> 1 + Depth(values[i]) <= m
    ensures DepthUpTo(values, n) <= m
  {
    if n > 0 {
      DepthUpToAtMost(values, n - 1, m);
    }
  }

  lemma {:induction false} DepthUpToAtLeast(values: seq<Value>, n: nat, i: nat)
    requires i < n <= |values|
    ensures 1 + Depth(values[i]) <= DepthUpTo(values, n)
  {
    if i < n - 1 {
      DepthUpToAtLeast(values, n - 1, i);
    }
  }

  lemma InsertMembers(keys: seq<string>, at: nat, k: string)
    requires at <= |keys|
    ensures forall x :: x in Insert(keys, at, k) <==> x == k || x in keys
  {
    var all := Insert(keys, at, k);
    forall x | x == k || x in keys
      ensures x in all
    {
      if x == k {
        assert all[at] == k;
      } else {
        var p :| 0 <= p < |keys| && keys[p] == x;
        assert all[if p < at then p else p + 1] == x;
      }
    }
  }

  lemma {:induction false} PositionSplits(keys: seq<string>, k: string)
    requires PairwiseLess(keys) && k !in keys
    ensures forall i :: 0 <= i < Position(keys, k) ==> Less(keys[i], k)
    ensures forall i :: Position(keys, k) <= i < |keys| ==> Less(k, keys[i])
  {
    if keys != [] {
      if Less(keys[0], k) {
        PositionSplits(keys[1..], k);
      } else {
        LessTotal(keys[0], k);
        forall i | 0 <= i < |keys|
          ensures Less(k, keys[i])
        {
          if i > 0 {
            LessTransitive(k, keys[0], keys[i]);
          }
        }
      }
    }
  }

  lemma InsertAscending(keys: seq<string>, k: string)
    requires Ascending(keys) && k !in keys
    ensures Ascending(Insert(keys, Position(keys, k), k))
  {
    AscendingIsPairwise(keys);
    PositionSplits(keys, k);
    AscendingIsPairwise(Insert(keys, Position(keys, k), k));
  }

  lemma {:induction false} AscendingDistinct(keys: seq<string>, i: nat, j: nat)
    requires Ascending(keys) && i < |keys| && j < |keys| && keys[i] == keys[j]
    ensures i == j
  {
    AscendingIsPairwise(keys);
    LessIrreflexive(keys[i]);
  }

  ghost predicate Extends(keys: seq<string>, values: seq<Value>, keys': seq<string>, values': seq<Value>)
    requires |keys| == |values| && |keys'| == |values'|
  {
    forall i {:trigger Holds(keys', values', keys[i], values[i])} ::
      0 <= i < |keys| ==> Holds(keys', values', keys[i], values[i])
  }

  ghost predicate Holds(keys: seq<string>, values: seq<Value>, k: string, x: Value)
    requires |keys| == |values|
  {
    k in keys && values[IndexOf(keys, k)] == x
  }

  /** Where the keys are distinct, holding an entry is having it at some position. */
  lemma HoldsAt(keys: seq<string>, values: seq<Value>, i: nat)
    requires |keys| == |values| && Ascending(keys) && i < |keys|
    ensures Holds(keys, values, keys[i], values[i])
  {
    AscendingDistinct(keys, IndexOf(keys, keys[i]), i);
  }

  /** Inserting a fresh key keeps every lookup and adds its own. */
  lemma InsertExtends(keys: seq<string>, values: seq<Value>, k: string, x: Value)
    requires |keys| == |values| && Ascending(keys) && k !in keys
    ensures var at := Position(keys, k);
            && Ascending(Insert(keys, at, k))
            && Extends(keys, values, Insert(keys, at, k), Insert(values, at, x))
            && Holds(Insert(keys, at, k), Insert(values, at, x), k, x)
  {
    InsertAscending(keys, k);
    var at := Position(keys, k);
    var keys', values' := Insert(keys, at, k), Insert(values, at, x);
    HoldsAt(keys', values', at);
    forall i | 0 <= i < |keys|
      ensures Holds(keys', values', keys[i], values[i])
    {
      HoldsAt(keys', values', if i < at then i else i + 1);
    }
  }

  lemma ExtendsTransitive(
    k1: seq<string>, v1: seq<Value>, k2: seq<string>, v2: seq<Value>, k3: seq<string>, v3: seq<Value>)
    requires |k1| == |v1| && |k2| == |v2| && |k3| == |v3|
    requires Extends(k1, v1, k2, v2) && Extends(k2, v2, k3, v3)
    ensures Extends(k1, v1, k3, v3)
  {
    forall i | 0 <= i < |k1|
      ensures Holds(k3, v3, k1[i], v1[i])
    {
      assert Holds(k2, v2, k1[i], v1[i]);
      var j := IndexOf(k2, k1[i]);
      assert Holds(k3, v3, k2[j], v2[j]);
    }
  }

  lemma ExtendsReflexive(keys: seq<string>, values: seq<Value>)
    requires |keys| == |values| && Ascending(keys)
    ensures Extends(keys, values, keys, values)
  {
    forall i | 0 <= i < |keys|
      ensures Holds(keys, values, keys[i], values[i])
    {
      HoldsAt(keys, values, i);
    }
  }
}
