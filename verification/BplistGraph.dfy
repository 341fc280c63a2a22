/** The object graph: the depth-first cycle check. */
module BplistGraph {
  import opened BplistModel
  import opened BplistWire

  /** Every reference stays inside the table. */
  ghost predicate Closed(objects: seq<Object>) {
    forall i :: 0 <= i < |objects| ==> ClosedAt(objects, i)
  }

  ghost predicate ClosedAt(objects: seq<Object>, i: nat)
    requires i < |objects|
  {
    Encodable(objects[i]) && Below(Children(objects[i]), |objects|)
  }

  ghost predicate KeysAreText(objects: seq<Object>)
    requires Closed(objects)
  {
    forall i :: 0 <= i < |objects| ==> ObjectKeysAreText(objects, i)
  }

  ghost predicate ObjectKeysAreText(objects: seq<Object>, i: nat)
    requires Closed(objects) && i < |objects|
  {
    assert ClosedAt(objects, i);
    forall k :: 0 <= k < KeyCount(objects[i]) ==> objects[Children(objects[i])[k]].OText?
  }

  // -------------------------------------------------------------------------
  // Cycle check

  datatype Color = White | Grey | Black

  function Visit(objects: seq<Object>, index: nat, colors: seq<Color>, depth: nat): (r: Result<seq<Color>>)
    requires Closed(objects) && |colors| == |objects| && index < |objects| && depth <= MAX_DEPTH + 1
    ensures r.Ok? ==> |r.value| == |objects|
    decreases MAX_DEPTH + 1 - depth, 0, 0
  {
    if depth > MAX_DEPTH then Err(LimitExceeded)
    else if colors[index].Grey? then Err(Malformed)
    else if colors[index].Black? then Ok(colors)
    else
      assert ClosedAt(objects, index);
      var after :- VisitFrom(objects, Children(objects[index]), 0, colors[index := Grey], depth + 1);
      Ok(after[index := Black])
  }

  /** Visits `children[i..]` in turn. */
  function VisitFrom(objects: seq<Object>, children: seq<nat>, i: nat, colors: seq<Color>, depth: nat)
    : (r: Result<seq<Color>>)
    requires Closed(objects) && |colors| == |objects| && Below(children, |objects|)
    requires i <= |children| && depth <= MAX_DEPTH + 1
    ensures r.Ok? ==> |r.value| == |objects|
    decreases MAX_DEPTH + 1 - depth, 1, |children| - i
  {
    if i == |children| then Ok(colors)
    else
      var after :- Visit(objects, children[i], colors, depth);
      VisitFrom(objects, children, i + 1, after, depth)
  }

  /** Visits every object not yet reached, from index `i` on. */
  function VisitAll(objects: seq<Object>, i: nat, colors: seq<Color>): (r: Result<seq<Color>>)
    requires Closed(objects) && |colors| == |objects| && i <= |objects|
    ensures r.Ok? ==> |r.value| == |objects|
    decreases |objects| - i
  {
    if i == |objects| then Ok(colors)
    else
      var after :- Visit(objects, i, colors, 0);
      VisitAll(objects, i + 1, after)
  }

  function AllWhite(n: nat): (colors: seq<Color>)
    ensures |colors| == n && forall i :: 0 <= i < n ==> colors[i] == White
  {
    seq(n, _ => White)
  }

  ghost predicate Edge(objects: seq<Object>, a: nat, b: nat) {
    a < |objects| && b < |objects| && b in Children(objects[a])
  }

  ghost predicate IsPath(objects: seq<Object>, p: seq<nat>) {
    forall k :: 0 <= k < |p| - 1 ==> Edge(objects, p[k], p[k + 1])
  }

  /** No path of one edge or more leads back to where it started. */
  ghost predicate Acyclic(objects: seq<Object>) {
    forall p: seq<nat> :: |p| >= 2 && IsPath(objects, p) ==> p[0] != p[|p| - 1]
  }

  /** `rank` drops along every edge. */
  ghost predicate Ranked(objects: seq<Object>, rank: seq<nat>) {
    && |rank| == |objects|
    && Closed(objects)
    && forall a: nat, b: nat {:trigger Edge(objects, a, b)} :: Edge(objects, a, b) ==> rank[b] < rank[a]
  }

  lemma {:induction false} PathDescends(objects: seq<Object>, rank: seq<nat>, p: seq<nat>)
    requires Ranked(objects, rank) && |p| >= 2 && IsPath(objects, p)
    ensures p[0] < |objects| && p[|p| - 1] < |objects|
    ensures rank[p[|p| - 1]] < rank[p[0]]
  {
    assert Edge(objects, p[0], p[1]) && ClosedAt(objects, p[0]);
    if |p| > 2 {
      var rest := p[1..];
      forall k | 0 <= k < |rest| - 1
        ensures Edge(objects, rest[k], rest[k + 1])
      {
        assert Edge(objects, p[k + 1], p[k + 1 + 1]);
      }
      PathDescends(objects, rank, rest);
    }
  }

  lemma RankedIsAcyclic(objects: seq<Object>, rank: seq<nat>)
    requires Ranked(objects, rank)
    ensures Acyclic(objects)
  {
    forall p | |p| >= 2 && IsPath(objects, p)
      ensures p[0] != p[|p| - 1]
    {
      PathDescends(objects, rank, p);
    }
  }

  /** `order` lists the black objects, each after everything it refers to. */
  ghost predicate Finished(objects: seq<Object>, colors: seq<Color>, order: seq<nat>)
    requires |colors| == |objects|
  {
    && Closed(objects)
    && (forall k :: 0 <= k < |order| ==> order[k] < |objects|)
    && (forall n :: 0 <= n < |objects| ==> (colors[n].Black? <==> n in order))
    && (forall k, b: nat :: 0 <= k < |order| && Edge(objects, order[k], b) ==> b in order[..k])
  }

  /** A visit only paints black, and leaves the grey ones as they were. */
  ghost predicate Progress(before: seq<Color>, after: seq<Color>) {
    && |before| == |after|
    && (forall n :: 0 <= n < |before| && before[n].Black? ==> after[n].Black?)
    && (forall n :: 0 <= n < |before| ==> (before[n].Grey? <==> after[n].Grey?))
  }

  lemma {:induction false} VisitSound(
    objects: seq<Object>, index: nat, colors: seq<Color>, depth: nat, order: seq<nat>)
    returns (order': seq<nat>)
    requires index < |objects| == |colors| && Finished(objects, colors, order) && depth <= MAX_DEPTH + 1
    requires Visit(objects, index, colors, depth).Ok?
    ensures var after := Visit(objects, index, colors, depth).value;
            && Finished(objects, after, order')
            && Progress(colors, after)
            && after[index].Black?
    decreases MAX_DEPTH + 1 - depth, 0, 0
  {
    if colors[index].Black? {
      order' := order;
    } else {
      assert ClosedAt(objects, index);
      var children, grey := Children(objects[index]), colors[index := Grey];
      var mid := VisitFromSound(objects, children, 0, grey, depth + 1, order);
      var after := VisitFrom(objects, children, 0, grey, depth + 1).value;
      order' := mid + [index];
      forall b | Edge(objects, index, b)
        ensures b in mid
      {
        var k :| 0 <= k < |children| && children[k] == b;
        assert after[children[k]].Black?;
      }
      forall k, b | 0 <= k < |order'| && Edge(objects, order'[k], b)
        ensures b in order'[..k]
      {
        if k < |mid| {
          assert order'[..k] == mid[..k];
        } else {
          assert order'[..k] == mid;
        }
      }
      forall n | 0 <= n < |objects|
        ensures after[index := Black][n].Black? <==> n in order'
      {
        assert n in order' <==> n in mid || n == index;
      }
    }
  }

  lemma {:induction false} VisitFromSound(
    objects: seq<Object>, children: seq<nat>, i: nat, colors: seq<Color>, depth: nat, order: seq<nat>)
    returns (order': seq<nat>)
    requires |objects| == |colors| && Finished(objects, colors, order) && Below(children, |objects|)
    requires i <= |children| && depth <= MAX_DEPTH + 1
    requires VisitFrom(objects, children, i, colors, depth).Ok?
    ensures var after := VisitFrom(objects, children, i, colors, depth).value;
            && Finished(objects, after, order')
            && Progress(colors, after)
            && forall k :: i <= k < |children| ==> after[children[k]].Black?
    decreases MAX_DEPTH + 1 - depth, 1, |children| - i
  {
    if i == |children| {
      order' := order;
    } else {
      var mid := VisitSound(objects, children[i], colors, depth, order);
      order' := VisitFromSound(
        objects, children, i + 1, Visit(objects, children[i], colors, depth).value, depth, mid);
    }
  }

  lemma {:induction false} VisitAllSound(objects: seq<Object>, i: nat, colors: seq<Color>, order: seq<nat>)
    returns (order': seq<nat>)
    requires i <= |objects| == |colors| && Finished(objects, colors, order)
    requires forall k :: 0 <= k < i ==> colors[k].Black?
    requires VisitAll(objects, i, colors).Ok?
    ensures var after := VisitAll(objects, i, colors).value;
            Finished(objects, after, order') && forall k :: 0 <= k < |objects| ==> after[k].Black?
    decreases |objects| - i
  {
    if i == |objects| {
      order' := order;
    } else {
      var mid := VisitSound(objects, i, colors, 0, order);
      order' := VisitAllSound(objects, i + 1, Visit(objects, i, colors, 0).value, mid);
    }
  }

  function FirstIndex<T(==)>(s: seq<T>, x: T): (i: nat)
    requires x in s
    ensures i < |s| && s[i] == x
    ensures forall k :: 0 <= k < i ==> s[k] != x
  {
    if s[0] == x then 0 else 1 + FirstIndex(s[1..], x)
  }

  ghost function FinishRank(n: nat, order: seq<nat>): (rank: seq<nat>)
    requires forall k: nat :: k < n ==> k in order
    ensures |rank| == n
  {
    seq(n, k requires 0 <= k < n => FirstIndex(order, k))
  }

  lemma FinishOrderIsRank(objects: seq<Object>, colors: seq<Color>, order: seq<nat>)
    requires |colors| == |objects| && Finished(objects, colors, order)
    requires forall k: nat :: k < |objects| ==> k in order
    ensures Ranked(objects, FinishRank(|objects|, order))
  {
    var rank := FinishRank(|objects|, order);
    forall a: nat, b: nat | Edge(objects, a, b)
      ensures rank[b] < rank[a]
    {
      assert ClosedAt(objects, a);
      var at := FirstIndex(order, a);
      assert Edge(objects, order[at], b);
      assert b in order[..at];
    }
  }

  /** The check accepts only graphs without cycles. */
  lemma VisitAllImpliesAcyclic(objects: seq<Object>)
    requires Closed(objects)
    requires VisitAll(objects, 0, AllWhite(|objects|)).Ok?
    ensures Acyclic(objects)
  {
    var order := VisitAllSound(objects, 0, AllWhite(|objects|), []);
    FinishOrderIsRank(objects, VisitAll(objects, 0, AllWhite(|objects|)).value, order);
    RankedIsAcyclic(objects, FinishRank(|objects|, order));
  }

  /** The check accepts every graph whose ranks leave room for the depth limit. */
  lemma {:induction false} VisitCompletes(
    objects: seq<Object>, rank: seq<nat>, index: nat, colors: seq<Color>, depth: nat)
    requires Ranked(objects, rank) && |colors| == |objects| && index < |objects|
    requires depth + rank[index] <= MAX_DEPTH
    requires forall n :: 0 <= n < |objects| && colors[n].Grey? ==> rank[index] < rank[n]
    ensures Visit(objects, index, colors, depth).Ok?
    ensures Progress(colors, Visit(objects, index, colors, depth).value)
    decreases MAX_DEPTH + 1 - depth, 0, 0
  {
    if colors[index].White? {
      assert ClosedAt(objects, index);
      var children := Children(objects[index]);
      assert forall k :: 0 <= k < |children| ==> Edge(objects, index, children[k]);
      VisitFromCompletes(objects, rank, rank[index], children, 0, colors[index := Grey], depth + 1);
    }
  }

  lemma {:induction false} VisitFromCompletes(
    objects: seq<Object>, rank: seq<nat>, bound: nat, children: seq<nat>, i: nat, colors: seq<Color>, depth: nat)
    requires Ranked(objects, rank) && |colors| == |objects| && Below(children, |objects|)
    requires i <= |children| && 0 < depth && depth - 1 + bound <= MAX_DEPTH
    requires forall k :: 0 <= k < |children| ==> rank[children[k]] < bound
    requires forall n :: 0 <= n < |objects| && colors[n].Grey? ==> bound <= rank[n]
    ensures VisitFrom(objects, children, i, colors, depth).Ok?
    ensures Progress(colors, VisitFrom(objects, children, i, colors, depth).value)
    decreases MAX_DEPTH + 1 - depth, 1, |children| - i
  {
    if i < |children| {
      VisitCompletes(objects, rank, children[i], colors, depth);
      VisitFromCompletes(
        objects, rank, bound, children, i + 1, Visit(objects, children[i], colors, depth).value, depth);
    }
  }

  lemma {:induction false} VisitAllCompletes(objects: seq<Object>, rank: seq<nat>, i: nat, colors: seq<Color>)
    requires Ranked(objects, rank) && |colors| == |objects| && i <= |objects|
    requires forall n :: 0 <= n < |objects| ==> rank[n] <= MAX_DEPTH && !colors[n].Grey?
    ensures VisitAll(objects, i, colors).Ok?
    decreases |objects| - i
  {
    if i < |objects| {
      VisitCompletes(objects, rank, i, colors, 0);
      VisitAllCompletes(objects, rank, i + 1, Visit(objects, i, colors, 0).value);
    }
  }
}
