/** Bytes and the fixed-width integer encodings that the wire and file formats share. */
module Bytes {

  type byte = b: int | 0 <= b < 256

  function Pow256(n: nat): (p: nat)
    ensures p >= 1
  {
    if n == 0 then 1 else 256 * Pow256(n - 1)
  }

  // -------------------------------------------------------------------------
  // Big-endian

  /** The last `width` bytes of the big-endian form of `v`. */
  function BE(v: nat, width: nat): (s: seq<byte>)
    ensures |s| == width
  {
    if width == 0 then [] else BE(v / 256, width - 1) + [v % 256]
  }

  function FromBE(s: seq<byte>): nat {
    if s == [] then 0 else FromBE(s[..|s| - 1]) * 256 + s[|s| - 1]
  }

  lemma {:induction false} FromBEOfBE(v: nat, width: nat)
    requires v < Pow256(width)
    ensures FromBE(BE(v, width)) == v
  {
    if width > 0 {
      FromBEOfBE(v / 256, width - 1);
      assert BE(v, width)[..width - 1] == BE(v / 256, width - 1);
    }
  }

  lemma {:induction false} FromBEBound(s: seq<byte>)
    ensures FromBE(s) < Pow256(|s|)
  {
    if s != [] {
      FromBEBound(s[..|s| - 1]);
    }
  }

  // -------------------------------------------------------------------------
  // Little-endian

  function LE(v: nat, width: nat): (s: seq<byte>)
    ensures |s| == width
  {
    if width == 0 then [] else [v % 256] + LE(v / 256, width - 1)
  }

  lemma PowersOf256()
    ensures Pow256(1) == 0x100
    ensures Pow256(2) == 0x1_0000
    ensures Pow256(3) == 0x100_0000
    ensures Pow256(4) == 0x1_0000_0000
    ensures Pow256(8) == 0x1_0000_0000_0000_0000
    ensures Pow256(16) == 0x1_0000_0000_0000_0000_0000_0000_0000_0000
  {
    assert Pow256(2) == 256 * Pow256(1);
    assert Pow256(3) == 256 * Pow256(2);
    assert Pow256(4) == 256 * Pow256(3);
    assert Pow256(6) == 256 * (256 * Pow256(4));
    assert Pow256(8) == 256 * (256 * Pow256(6));
    assert Pow256(10) == 256 * (256 * Pow256(8));
    assert Pow256(12) == 256 * (256 * Pow256(10));
    assert Pow256(14) == 256 * (256 * Pow256(12));
    assert Pow256(16) == 256 * (256 * Pow256(14));
  }

  /** A run of `n` zero bytes. */
  function Zeros(n: nat): (s: seq<byte>)
    ensures |s| == n
    ensures forall k :: 0 <= k < n ==> s[k] == 0
  {
    seq(n, _ => 0)
  }

  // -------------------------------------------------------------------------
  // Parts of a sequence

  /** `part` sits in `whole` from position `at` on. */
  ghost predicate At<T>(whole: seq<T>, at: nat, part: seq<T>) {
    && at + |part| <= |whole|
    && forall k :: 0 <= k < |part| ==> whole[at + k] == part[k]
  }

  lemma AtConcat<T>(whole: seq<T>, at: nat, a: seq<T>, b: seq<T>)
    requires At(whole, at, a + b)
    ensures At(whole, at, a) && At(whole, at + |a|, b)
  {
    forall k | 0 <= k < |a|
      ensures whole[at + k] == a[k]
    {
      assert (a + b)[k] == a[k];
    }
    forall k | 0 <= k < |b|
      ensures whole[at + |a| + k] == b[k]
    {
      assert (a + b)[|a| + k] == b[k];
      assert whole[at + (|a| + k)] == (a + b)[|a| + k];
    }
  }

  lemma AtSplit<T>(whole: seq<T>, at: nat, s: seq<T>, a: seq<T>, b: seq<T>)
    requires At(whole, at, s) && s == a + b
    ensures |s| == |a| + |b| && At(whole, at, a) && At(whole, at + |a|, b)
  {
    AtConcat(whole, at, a, b);
  }

  lemma AtHead<T>(whole: seq<T>, at: nat, x: T)
    requires At(whole, at, [x])
    ensures at < |whole| && whole[at] == x
  {
    assert whole[at + 0] == [x][0];
  }

  lemma ZerosAt(whole: seq<byte>, at: nat, z: nat, i: nat, n: nat)
    requires At(whole, at, Zeros(z)) && i + n <= z
    ensures At(whole, at + i, Zeros(n))
  {
    forall k | 0 <= k < n
      ensures whole[at + i + k] == Zeros(n)[k]
    {
      assert whole[at + (i + k)] == Zeros(z)[i + k];
    }
  }

  lemma AtSlice<T>(whole: seq<T>, at: nat, part: seq<T>)
    requires At(whole, at, part)
    ensures whole[at..at + |part|] == part
  {
    forall k | 0 <= k < |part|
      ensures whole[at..at + |part|][k] == part[k]
    {
      assert whole[at + k] == part[k];
    }
  }

  /** The first `n` parts, one after the other. */
  function Joined(parts: seq<seq<byte>>, n: nat): seq<byte>
    requires n <= |parts|
  {
    if n == 0 then [] else Joined(parts, n - 1) + parts[n - 1]
  }

  lemma {:induction false} JoinedGrows(parts: seq<seq<byte>>, i: nat, n: nat)
    requires i <= n <= |parts|
    ensures |Joined(parts, i)| <= |Joined(parts, n)|
    decreases n
  {
    if i < n {
      JoinedGrows(parts, i, n - 1);
    }
  }
}
