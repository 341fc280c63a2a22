/** What the limit on depth refuses: long paths from the top object, but not long paths elsewhere. */
module BplistDeep {
  import opened Bytes
  import opened BplistModel
  import opened BplistWire
  import opened BplistGraph
  import opened BplistHeights
  import opened BplistUnfold
  import opened BplistDocument
  import opened BplistDecodeProofs
  import opened BplistFlattenProofs
  import opened BplistLayout
  import opened BplistRoundTrip

  /** Without long paths the check on cycles decides nothing: an input decodes to `v` exactly when its top object
      is the root of `v`. */
  lemma DecodesShallow(input: seq<byte>, v: Value)
    requires ReadTable(input).Ok? && Shallow(ReadTable(input).value.objects)
    ensures DecodeDocument(input) == Ok(v)
       <==> Means(ReadTable(input).value.objects, ReadTable(input).value.trailer.top, v)
  {
    DecodesExactly(input, v);
    ShallowIsAccepted(ReadTable(input).value.objects);
  }

  /** A path from the top object is no longer than the value is deep. */
  lemma {:induction false} PathFitsDepth(objects: seq<Object>, index: nat, v: Value, p: seq<nat>)
    requires Closed(objects) && IsUnfolding(objects, index, v) && PathFrom(objects, index, p)
    ensures |p| <= Depth(v) + 1
    decreases |p|, 0
  {
    if |p| > 1 {
      assert Edge(objects, p[0], p[0 + 1]);
      var rest := p[1..];
      forall k | 0 <= k < |rest| - 1
        ensures Edge(objects, rest[k], rest[k + 1])
      {
        assert Edge(objects, p[k + 1], p[k + 1 + 1]);
      }
      var o := objects[index];
      var j :| 0 <= j < |Children(o)| && Children(o)[j] == p[1];
      if o.OArray? {
        assert IsUnfolding(objects, o.refs[j], v.items[j]);
        PathFitsDepth(objects, p[1], v.items[j], rest);
        DepthUpToAtLeast(v.items, |v.items|, j);
      } else {
        assert ClosedAt(objects, index);
        EntryFitsDepth(objects, o, v, j, rest);
      }
    }
  }

  /** The same for a path that starts inside a dictionary. */
  lemma EntryFitsDepth(objects: seq<Object>, o: Object, v: Value, j: nat, rest: seq<nat>)
    requires Closed(objects) && o.ODictionary? && v.Dictionary? && |v.keys| == |v.values| && |o.refs| == 2 * |v.keys|
    requires forall i :: 0 <= i < |v.keys| ==> IsEntry(objects, o.refs, i, v)
    requires j < |o.refs| && PathFrom(objects, o.refs[j], rest)
    ensures |rest| <= Depth(v)
    decreases |rest|, 1
  {
    var half := |o.refs| / 2;
    var i := if j < half then j else j - half;
    assert IsEntry(objects, o.refs, i, v) && KeyIn(objects, o.refs[i], v.keys);
    var at := IndexOf(v.keys, objects[o.refs[i]].text);
    DepthUpToAtLeast(v.values, |v.values|, at);
    if j < half {
      assert |rest| > 1 ==> Edge(objects, rest[0], rest[0 + 1]);
    } else {
      PathFitsDepth(objects, o.refs[j], EntryValue(objects, o.refs[i], v), rest);
    }
  }

  /** An accepted document has no path from its top object that is too long. */
  lemma DeepTopIsRefused(input: seq<byte>, v: Value, p: seq<nat>)
    requires DecodeDocument(input) == Ok(v)
    ensures ReadTable(input).Ok?
    ensures var table := ReadTable(input).value;
            PathFrom(table.objects, table.trailer.top, p) ==> |p| <= MAX_DEPTH + 1
  {
    DecodesExactly(input, v);
    var table := ReadTable(input).value;
    if PathFrom(table.objects, table.trailer.top, p) {
      PathFitsDepth(table.objects, table.trailer.top, v, p);
    }
  }

  // -------------------------------------------------------------------------
  // A table that is as deep as one likes

  /** Nothing, an array of that, an array of that array, and so on. */
  ghost function Tower(n: nat): (objects: seq<Object>)
    ensures |objects| == n
  {
    seq(n, i requires 0 <= i < n => if i == 0 then ONull else OArray([i - 1]))
  }

  ghost function Nest(k: nat): Value { if k == 0 then Null else Array([Nest(k - 1)]) }

  lemma TowerIsClosed(n: nat)
    ensures Closed(Tower(n)) && KeysAreText(Tower(n))
  {
  }

  /** From the bottom up, every object is visited after what it refers to. */
  lemma {:induction false} TowerPasses(n: nat, i: nat, colors: seq<Color>)
    requires i <= n && |colors| == n && Closed(Tower(n))
    requires forall j :: 0 <= j < n ==> colors[j] == if j < i then Black else White
    ensures VisitAll(Tower(n), i, colors).Ok?
    decreases n - i
  {
    if i < n {
      var objects := Tower(n);
      var children := Children(objects[i]);
      var grey := colors[i := Grey];
      assert ClosedAt(objects, i);
      if i > 0 {
        assert Visit(objects, children[0], grey, 1) == Ok(grey);
        assert VisitFrom(objects, children, 1, grey, 1) == Ok(grey);
      }
      assert VisitFrom(objects, children, 0, grey, 1) == Ok(grey);
      TowerPasses(n, i + 1, grey[i := Black]);
    }
  }

  lemma TowerIsDeep(n: nat)
    requires n > MAX_DEPTH + 1
    ensures !Shallow(Tower(n))
  {
    var p := seq(n, i requires 0 <= i < n => n - 1 - i);
    assert PathFrom(Tower(n), n - 1, p);
  }

  /** Object `k` stands for `k` arrays around nothing, and for nothing else. */
  lemma {:induction false} TowerUnfolds(n: nat, k: nat, v: Value)
    requires k < n
    ensures IsUnfolding(Tower(n), k, v) <==> v == Nest(k)
    decreases k
  {
    if k > 0 {
      TowerUnfolds(n, k - 1, Nest(k - 1));
      var refs := Tower(n)[k].refs;
      assert refs == [k - 1];
      if v.Array? && |v.items| == 1 {
        TowerUnfolds(n, k - 1, v.items[0]);
        assert IsUnfolding(Tower(n), k, v) ==> IsUnfolding(Tower(n), refs[0], v.items[0]);
        assert v.items[0] == Nest(k - 1) ==> v.items == [Nest(k - 1)];
      }
    }
  }

  lemma OneItemBytes(objects: seq<Object>, refs: seq<nat>, v: Value)
    requires v.Array? && |refs| == |v.items| == 1 && IsUnfolding(objects, refs[0], v.items[0])
    ensures ItemBytes(objects, refs, v, 0) == WireBytes(objects, refs[0], v.items[0])
  {
    assert ItemBytes(objects, refs, v, 1) == 0;
  }

  /** Arrays have no bytes of their own. */
  lemma {:induction false} TowerCosts(n: nat, k: nat)
    requires k < n
    ensures IsUnfolding(Tower(n), k, Nest(k)) && WireBytes(Tower(n), k, Nest(k)) == 0
    decreases k
  {
    TowerUnfolds(n, k, Nest(k));
    if k > 0 {
      TowerCosts(n, k - 1);
      OneItemBytes(Tower(n), Tower(n)[k].refs, Nest(k));
    }
  }

  lemma {:induction false} NestSizes(k: nat)
    ensures Depth(Nest(k)) == k && Nodes(Nest(k)) == k + 1 && WellFormed(Nest(k))
  {
    if k > 0 {
      NestSizes(k - 1);
      var items := [Nest(k - 1)];
      assert DepthUpTo(items, 1) == 1 + Depth(items[0]);
      assert NodesUpTo(items, 1) == Nodes(items[0]);
    }
  }

  /** However deep the table, it means what its top object stands for, if and only if that is not too deep itself. */
  lemma TowerStandsFor(n: nat, top: nat, v: Value)
    requires top < n
    ensures Closed(Tower(n))
    ensures StandsFor(Tower(n), top, v) <==> top <= MAX_DEPTH && v == Nest(top)
    ensures n > MAX_DEPTH + 1 ==> !Shallow(Tower(n))
  {
    if n > MAX_DEPTH + 1 {
      TowerIsDeep(n);
    }
    TowerIsClosed(n);
    TowerPasses(n, 0, AllWhite(n));
    TowerUnfolds(n, top, v);
    TowerCosts(n, top);
    NestSizes(top);
  }

  // -------------------------------------------------------------------------
  // Its document

  lemma TowerEncodable(n: nat)
    ensures AllEncodable(Tower(n))
  {
  }

  ghost function TowerDocument(n: nat, top: nat): seq<byte>
    requires n >= 1
  {
    TowerEncodable(n);
    Laid(Parts(Tower(n), RefSize(n)), RefSize(n), top)
  }

  lemma TowerReadable(n: nat)
    requires 1 <= n <= MAX_OBJECTS
    ensures AllReadable(Tower(n), RefSize(n))
  {
    forall i | 0 <= i < n
      ensures Readable(Tower(n)[i], RefSize(n), n)
    {
      assert i > 0 ==> Children(Tower(n)[i]) == [i - 1];
    }
  }

  /** The first `i` objects hold one reference each, but for the very first. */
  lemma TowerRefs(n: nat) returns (sum: seq<nat>)
    ensures RefSums(sum, Tower(n)) && forall k :: 0 <= k < |sum| ==> sum[k] <= n
  {
    sum := seq(n + 1, i requires 0 <= i <= n => if i == 0 then 0 else i - 1);
    forall k | 0 <= k < n
      ensures AddsRefs(sum, Tower(n), k)
    {
      assert k > 0 ==> Children(Tower(n)[k]) == [k - 1];
    }
  }

  /** An object takes up nine bytes at most. */
  lemma {:induction false} TowerFits(parts: seq<seq<byte>>, n: nat, refSize: nat, i: nat)
    requires IsParts(parts, Tower(n), refSize) && refSize <= 8 && i <= n
    ensures Offset(parts, i) <= HEADER_SIZE + 9 * i
    decreases i
  {
    if i > 0 {
      TowerFits(parts, n, refSize, i - 1);
      assert IsPart(parts, Tower(n), refSize, i - 1);
    }
  }

  /** It is not too long. */
  lemma TowerLength(s: seq<byte>, parts: seq<seq<byte>>, t: Trailer, n: nat)
    requires Pieces(s, parts, t) && IsParts(parts, Tower(n), t.refSize) && n <= MAX_OBJECTS
    ensures |s| <= MAX_PLIST_SIZE
  {
    TowerFits(parts, n, t.refSize, n);
    AtMostEight(n, t.offsetSize);
  }

  lemma AtMostEight(n: nat, size: nat)
    requires size <= 8
    ensures n * size <= 8 * n
  {
  }

  /** It reads back. */
  lemma TowerReadsBack(s: seq<byte>, parts: seq<seq<byte>>, t: Trailer, n: nat)
    requires Pieces(s, parts, t) && NonEmpty(parts) && IsParts(parts, Tower(n), t.refSize)
    requires t.top < n <= MAX_OBJECTS && t.refSize == RefSize(n)
    ensures ReadTable(s) == Ok(Table(t, Offsets(parts), Tower(n)))
  {
    TowerLength(s, parts, t, n);
    TowerReadable(n);
    var sum := TowerRefs(n);
    TableReadsBack(s, parts, t, Tower(n), sum);
  }

  /** As bytes: a document may hold a table of any depth, and decodes to what its top object stands for if and only if
      that is not too deep itself. */
  lemma DeepDocumentDecodes(n: nat, top: nat, v: Value)
    requires top < n <= MAX_OBJECTS
    ensures ReadTable(TowerDocument(n, top)).Ok? && ReadTable(TowerDocument(n, top)).value.objects == Tower(n)
    ensures n > MAX_DEPTH + 1 ==> !Shallow(Tower(n))
    ensures DecodeDocument(TowerDocument(n, top)) == Ok(v) <==> top <= MAX_DEPTH && v == Nest(top)
  {
    var refSize, s := RefSize(n), TowerDocument(n, top);
    TowerEncodable(n);
    var parts := Parts(Tower(n), refSize);
    LaidPieces(parts, refSize, top);
    PartsAreParts(Tower(n), refSize);
    TowerReadsBack(s, parts, TrailerOf(parts, refSize, top), n);
    TowerStandsFor(n, top, v);
    DecodesExactly(s, v);
  }
}
