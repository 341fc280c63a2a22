/** The cycle check lets through every table whose paths are short enough. */
module BplistHeights {
  import opened BplistModel
  import opened BplistWire
  import opened BplistGraph

  ghost predicate PathFrom(objects: seq<Object>, n: nat, p: seq<nat>) {
    p != [] && p[0] == n && IsPath(objects, p)
  }

  ghost predicate HasPath(objects: seq<Object>, n: nat, edges: nat) {
    exists p :: PathFrom(objects, n, p) && |p| == edges + 1
  }

  /** No path has more edges than the depth limit; in particular none runs in a circle. */
  ghost predicate Shallow(objects: seq<Object>) {
    forall n: nat, p :: n < |objects| && PathFrom(objects, n, p) ==> |p| <= MAX_DEPTH + 1
  }

  /** The edges of the longest path from `n`, looking for `k` at most. */
  ghost function Longest(objects: seq<Object>, n: nat, k: nat): (h: nat)
    requires n < |objects|
    ensures h <= k && HasPath(objects, n, h)
    ensures forall edges :: h < edges <= k ==> !HasPath(objects, n, edges)
  {
    if k > 0 && !HasPath(objects, n, k) then Longest(objects, n, k - 1)
    else
      assert k == 0 ==> PathFrom(objects, n, [n]);
      k
  }

  lemma PathPrepends(objects: seq<Object>, a: nat, b: nat, p: seq<nat>)
    requires Edge(objects, a, b) && PathFrom(objects, b, p)
    ensures PathFrom(objects, a, [a] + p)
  {
    var longer := [a] + p;
    forall k | 0 <= k < |longer| - 1
      ensures Edge(objects, longer[k], longer[k + 1])
    {
      if k > 0 {
        assert Edge(objects, p[k - 1], p[k - 1 + 1]);
      }
    }
  }

  /** Along an edge the longest path gets shorter. */
  lemma EdgeShortens(objects: seq<Object>, a: nat, b: nat)
    requires Shallow(objects) && Edge(objects, a, b)
    ensures Longest(objects, b, MAX_DEPTH) < Longest(objects, a, MAX_DEPTH)
  {
    var h := Longest(objects, b, MAX_DEPTH);
    var p :| PathFrom(objects, b, p) && |p| == h + 1;
    PathPrepends(objects, a, b, p);
    assert HasPath(objects, a, h + 1);
  }

  /** The check accepts every table without a path that is too long. */
  lemma ShallowIsAccepted(objects: seq<Object>)
    requires Closed(objects) && Shallow(objects)
    ensures VisitAll(objects, 0, AllWhite(|objects|)).Ok? && Acyclic(objects)
  {
    var rank := seq(|objects|, n requires 0 <= n < |objects| => Longest(objects, n, MAX_DEPTH));
    forall a: nat, b: nat | Edge(objects, a, b)
      ensures rank[b] < rank[a]
    {
      EdgeShortens(objects, a, b);
    }
    VisitAllCompletes(objects, rank, 0, AllWhite(|objects|));
    RankedIsAcyclic(objects, rank);
  }
}
