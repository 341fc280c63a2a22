/** SHA-256 as section 6.2.2 of FIPS 180-4 defines it, over whole messages. */
module Sha256 {
  import opened Bytes

  type word = bv32

  const BLOCK_SIZE := 64
  const DIGEST_SIZE := 32

  // -------------------------------------------------------------------------
  // Section 4.1.2: functions

  function Rotr(x: word, n: nat): word
    requires 0 < n < 32
  {
    (x >> n) | (x << (32 - n))
  }

  function Ch(x: word, y: word, z: word): word { (x & y) ^ (!x & z) }
  function Maj(x: word, y: word, z: word): word { (x & y) ^ (x & z) ^ (y & z) }
  function BigSigma0(x: word): word { Rotr(x, 2) ^ Rotr(x, 13) ^ Rotr(x, 22) }
  function BigSigma1(x: word): word { Rotr(x, 6) ^ Rotr(x, 11) ^ Rotr(x, 25) }
  function SmallSigma0(x: word): word { Rotr(x, 7) ^ Rotr(x, 18) ^ (x >> 3) }
  function SmallSigma1(x: word): word { Rotr(x, 17) ^ Rotr(x, 19) ^ (x >> 10) }

  /** Section 4.2.2. */
  function RoundConstants(): (k: seq<word>)
    ensures |k| == 64
  {
    [ 0x428a2f98, 0x71374491, 0xb5c0fbcf, 0xe9b5dba5, 0x3956c25b, 0x59f111f1, 0x923f82a4, 0xab1c5ed5,
      0xd807aa98, 0x12835b01, 0x243185be, 0x550c7dc3, 0x72be5d74, 0x80deb1fe, 0x9bdc06a7, 0xc19bf174,
      0xe49b69c1, 0xefbe4786, 0x0fc19dc6, 0x240ca1cc, 0x2de92c6f, 0x4a7484aa, 0x5cb0a9dc, 0x76f988da,
      0x983e5152, 0xa831c66d, 0xb00327c8, 0xbf597fc7, 0xc6e00bf3, 0xd5a79147, 0x06ca6351, 0x14292967,
      0x27b70a85, 0x2e1b2138, 0x4d2c6dfc, 0x53380d13, 0x650a7354, 0x766a0abb, 0x81c2c92e, 0x92722c85,
      0xa2bfe8a1, 0xa81a664b, 0xc24b8b70, 0xc76c51a3, 0xd192e819, 0xd6990624, 0xf40e3585, 0x106aa070,
      0x19a4c116, 0x1e376c08, 0x2748774c, 0x34b0bcb5, 0x391c0cb3, 0x4ed8aa4a, 0x5b9cca4f, 0x682e6ff3,
      0x748f82ee, 0x78a5636f, 0x84c87814, 0x8cc70208, 0x90befffa, 0xa4506ceb, 0xbef9a3f7, 0xc67178f2 ]
  }

  /** Section 5.3.3. */
  function InitialHash(): (h: seq<word>)
    ensures |h| == 8
  {
    [0x6a09e667, 0xbb67ae85, 0x3c6ef372, 0xa54ff53a, 0x510e527f, 0x9b05688c, 0x1f83d9ab, 0x5be0cd19]
  }

  // -------------------------------------------------------------------------
  // Section 6.2.2: one block

  function LoadWord(s: seq<byte>): word
    requires |s| == 4
  {
    FromBEBound(s);
    PowersOf256();
    FromBE(s) as word
  }

  function StoreWord(w: word): (s: seq<byte>)
    ensures |s| == 4
  {
    BE(w as nat, 4)
  }

  /** The sixteen words of a block. */
  function WordsOf(block: seq<byte>): (m: seq<word>)
    requires |block| == BLOCK_SIZE
    ensures |m| == 16
  {
    seq(16, t requires 0 <= t < 16 => LoadWord(block[4 * t..4 * t + 4]))
  }

  /** The first `t` words of the message schedule. */
  function Schedule(m: seq<word>, t: nat): (w: seq<word>)
    requires |m| == 16 <= t
    ensures |w| == t
  {
    if t == 16 then m
    else
      var w := Schedule(m, t - 1);
      w + [LaterWord(w[t - 3], w[t - 8], w[t - 16], w[t - 17])]
  }

  function LaterWord(w2: word, w7: word, w15: word, w16: word): word {
    SmallSigma1(w2) + w7 + SmallSigma0(w15) + w16
  }

  /** The same sum with the terms the other way round. */
  function NextWord(w16: word, w15: word, w7: word, w2: word): (x: word)
    ensures x == LaterWord(w2, w7, w15, w16)
  {
    w16 + SmallSigma0(w15) + w7 + SmallSigma1(w2)
  }

  lemma ScheduleStep(m: seq<word>, t: nat, w: seq<word>, x: word, next: seq<word>)
    requires |m| == 16 <= t && w == Schedule(m, t) && next == Schedule(m, t + 1)
    requires x == LaterWord(w[t - 2], w[t - 7], w[t - 15], w[t - 16])
    ensures next == w + [x]
  {
  }

  /** The eight working variables. */
  datatype Working = Working(a: word, b: word, c: word, d: word, e: word, f: word, g: word, h: word)

  function Start(state: seq<word>): Working
    requires |state| == 8
  {
    Working(state[0], state[1], state[2], state[3], state[4], state[5], state[6], state[7])
  }

  function T1(e: word, f: word, g: word, h: word, k: word, w: word): word {
    h + BigSigma1(e) + Ch(e, f, g) + k + w
  }

  function T2(a: word, b: word, c: word): word { BigSigma0(a) + Maj(a, b, c) }

  function Sum(x: word, y: word): word { x + y }

  function Round(v: Working, k: word, w: word): Working {
    var t1, t2 := T1(v.e, v.f, v.g, v.h, k, w), T2(v.a, v.b, v.c);
    Working(Sum(t1, t2), v.a, v.b, v.c, Sum(v.d, t1), v.e, v.f, v.g)
  }

  function Add(state: seq<word>, v: Working): (r: seq<word>)
    requires |state| == 8
    ensures |r| == 8
  {
    [ Sum(v.a, state[0]), Sum(v.b, state[1]), Sum(v.c, state[2]), Sum(v.d, state[3]),
      Sum(v.e, state[4]), Sum(v.f, state[5]), Sum(v.g, state[6]), Sum(v.h, state[7]) ]
  }

  function Block(s: seq<byte>, n: nat): (block: seq<byte>)
    requires BLOCK_SIZE * (n + 1) <= |s|
    ensures |block| == BLOCK_SIZE
  {
    s[BLOCK_SIZE * n..BLOCK_SIZE * (n + 1)]
  }

  /** Round `t` for a block. */
  function RoundIn(v: Working, block: seq<byte>, t: nat): Working
    requires |block| == BLOCK_SIZE && t < 64
  {
    Round(v, RoundConstants()[t], Schedule(WordsOf(block), 64)[t])
  }

  // -------------------------------------------------------------------------
  // Section 6.2.2: whole messages

  /** The hash value after the first `n` blocks of `s`. */
  function HashUpTo(s: seq<byte>, n: nat): (state: seq<word>)
    requires BLOCK_SIZE * n <= |s|
    ensures |state| == 8
    decreases n, 0, 0
  {
    if n == 0 then InitialHash() else HashAfter(s, n - 1)
  }

  /** The hash value after block `n`. */
  function HashAfter(s: seq<byte>, n: nat): (state: seq<word>)
    requires BLOCK_SIZE * (n + 1) <= |s|
    ensures |state| == 8
    decreases n, 3, 0
  {
    FinishBlock(s, n)
  }

  /** Step 4: the working variables are added to the hash value the block started from. */
  function FinishBlock(s: seq<byte>, n: nat): (state: seq<word>)
    requires BLOCK_SIZE * (n + 1) <= |s|
    ensures |state| == 8
    decreases n, 2, 0
  {
    Add(HashUpTo(s, n), Variables(s, n, 64))
  }

  /** The working variables after the first `t` rounds of block `n`. */
  function Variables(s: seq<byte>, n: nat, t: nat): Working
    requires BLOCK_SIZE * (n + 1) <= |s| && t <= 64
    decreases n, 1, 2 * t
  {
    if t == 0 then Start(HashUpTo(s, n)) else VariablesAfter(s, n, t - 1)
  }

  /** The working variables after round `t` of block `n`. */
  function VariablesAfter(s: seq<byte>, n: nat, t: nat): Working
    requires BLOCK_SIZE * (n + 1) <= |s| && t < 64
    decreases n, 1, 2 * t + 1
  {
    RoundIn(Variables(s, n, t), Block(s, n), t)
  }

  /** Section 5.1.1: a one bit, the fewest zero bits that make the length come out, and the length of
      the message in bits as a 64-bit number. */
  function Pad(m: seq<byte>): (s: seq<byte>)
    ensures |s| % BLOCK_SIZE == 0
  {
    m + ([0x80] + Zeros(PadZeros(|m|)) + BE(8 * |m|, 8))
  }

  /** The only number of zero bytes below a block that fits. */
  function PadZeros(n: nat): (z: nat)
    ensures z < BLOCK_SIZE && (n + 1 + z + 8) % BLOCK_SIZE == 0
  {
    if n % BLOCK_SIZE < 56 then 55 - n % BLOCK_SIZE else 119 - n % BLOCK_SIZE
  }

  function Stored(state: seq<word>, n: nat): (s: seq<byte>)
    requires n <= |state|
    ensures |s| == 4 * n
  {
    if n == 0 then [] else Stored(state, n - 1) + StoreWord(state[n - 1])
  }

  function Digest(m: seq<byte>): (d: seq<byte>)
    ensures |d| == DIGEST_SIZE
  {
    Stored(HashUpTo(Pad(m), |Pad(m)| / BLOCK_SIZE), 8)
  }

  lemma VariablesStep(s: seq<byte>, n: nat, t: nat, v: Working)
    requires BLOCK_SIZE * (n + 1) <= |s| && t < 64 && v == Variables(s, n, t)
    ensures Variables(s, n, t + 1) == RoundIn(v, Block(s, n), t)
  {
  }

  lemma HashStep(s: seq<byte>, n: nat, state: seq<word>, v: Working)
    requires BLOCK_SIZE * (n + 1) <= |s| && state == HashUpTo(s, n) && v == Variables(s, n, 64)
    ensures HashUpTo(s, n + 1) == Add(state, v)
  {
    assert HashAfter(s, n) == FinishBlock(s, n);
  }

  /** The hash of the first blocks does not depend on what follows them. */
  lemma {:induction false} HashUpToPrefix(s: seq<byte>, t: seq<byte>, n: nat)
    requires s <= t && BLOCK_SIZE * n <= |s|
    ensures HashUpTo(s, n) == HashUpTo(t, n)
    decreases n
  {
    if n > 0 {
      HashUpToPrefix(s, t, n - 1);
      assert Block(s, n - 1) == Block(t, n - 1);
      FinishPrefix(s, t, n - 1);
    }
  }

  lemma FinishPrefix(s: seq<byte>, t: seq<byte>, n: nat)
    requires BLOCK_SIZE * (n + 1) <= |s| && BLOCK_SIZE * (n + 1) <= |t|
    requires Block(s, n) == Block(t, n) && HashUpTo(s, n) == HashUpTo(t, n)
    ensures FinishBlock(s, n) == FinishBlock(t, n)
  {
    VariablesPrefix(s, t, n, 64);
  }

  lemma {:induction false} VariablesPrefix(s: seq<byte>, t: seq<byte>, n: nat, r: nat)
    requires BLOCK_SIZE * (n + 1) <= |s| && BLOCK_SIZE * (n + 1) <= |t| && r <= 64
    requires Block(s, n) == Block(t, n) && HashUpTo(s, n) == HashUpTo(t, n)
    ensures Variables(s, n, r) == Variables(t, n, r)
    decreases r
  {
    if r > 0 {
      VariablesPrefix(s, t, n, r - 1);
    }
  }
}

/** The incremental hash context. */
module Sha256Context {
  import opened Bytes
  import opened Sha256

  const MARKER: nat := 0x53484132
  const MAXIMUM_BYTES: nat := 0xFFFF_FFFF_FFFF_FFFF / 8

  lemma SliceJoin<T>(s: seq<T>, i: nat, j: nat, k: nat)
    requires i <= j <= k <= |s|
    ensures s[i..j] + s[j..k] == s[i..k]
  {
  }

  /** `s` ends in `input`. */
  ghost predicate EndsIn(s: seq<byte>, input: seq<byte>) {
    |input| <= |s| && s[|s| - |input|..] == input
  }

  lemma SuffixSlice(s: seq<byte>, input: seq<byte>, i: nat, j: nat)
    requires EndsIn(s, input) && i <= j <= |input|
    ensures s[|s| - |input| + i..|s| - |input| + j] == input[i..j]
  {
    var at := |s| - |input|;
    forall k | 0 <= k < j - i
      ensures s[at + i..at + j][k] == input[i..j][k]
    {
      assert s[at..][i + k] == input[i + k];
    }
  }

  lemma SuffixAt(s: seq<byte>, input: seq<byte>, n: nat)
    requires EndsIn(s, input) && n <= |input|
    ensures At(s, |s| - |input|, input[..n])
  {
    SuffixSlice(s, input, 0, n);
    var at := |s| - |input|;
    forall k | 0 <= k < n
      ensures s[at + k] == input[..n][k]
    {
      assert s[at..at + n][k] == s[at + k];
    }
  }

  ghost predicate PartsAt(s: seq<byte>, at: nat, z: nat, bits: nat) {
    At(s, at, Zeros(z)) && At(s, at + z, BE(bits, 8))
  }

  /** The padding: a one bit, zeros and the length. */
  ghost predicate PaddedFrom(s: seq<byte>, at: nat, z: nat, bits: nat) {
    |s| == at + 1 + z + 8 && At(s, at, [0x80]) && PartsAt(s, at + 1, z, bits)
  }

  lemma PadIsPadded(m: seq<byte>, s: seq<byte>, z: nat)
    requires s == Pad(m) && z == PadZeros(|m|)
    ensures PaddedFrom(s, |m|, z, 8 * |m|) && m <= s
  {
    var start, size := [0x80] + Zeros(z), BE(8 * |m|, 8);
    assert At(s, 0, s);
    AtSplit(s, 0, s, m, start + size);
    AtSplit(s, |m|, start + size, start, size);
    AtSplit(s, |m|, start, [0x80], Zeros(z));
  }

  lemma Divides(n: nat, m: nat, r: nat)
    requires n == BLOCK_SIZE * m + r && r < BLOCK_SIZE
    ensures n / BLOCK_SIZE == m && n % BLOCK_SIZE == r
  {
  }

  /** More input changes neither the blocks already hashed nor the bytes waiting. */
  lemma Extends(message: seq<byte>, input: seq<byte>, n: nat)
    requires BLOCK_SIZE * n <= |message|
    ensures HashUpTo(message, n) == HashUpTo(message + input, n)
    ensures (message + input)[BLOCK_SIZE * n..|message|] == message[BLOCK_SIZE * n..|message|]
    ensures EndsIn(message + input, input)
  {
    HashUpToPrefix(message, message + input, n);
  }

  class Context {
    const state: array<word>
    const buffer: array<byte>
    var totalLength: nat
    var bufferLength: nat
    var marker: nat
    /** Everything hashed so far. */
    ghost var message: seq<byte>

    constructor ()
      ensures Shape() && fresh(state) && fresh(buffer)
    {
      state := new word[8];
      buffer := new byte[BLOCK_SIZE];
      totalLength, bufferLength, marker := 0, 0, 0;
      message := [];
    }

    ghost predicate Shape() {
      state.Length == 8 && buffer.Length == BLOCK_SIZE
    }

    /** What every operation checks of the context it is given. */
    predicate ContextValid()
      reads this
    {
      && marker == MARKER
      && bufferLength < BLOCK_SIZE
      && totalLength <= MAXIMUM_BYTES
      && bufferLength == totalLength % BLOCK_SIZE
    }

    /** The state has the first `n` blocks of `s`, and the buffer the bytes after them up to `upTo`. */
    ghost predicate Holds(s: seq<byte>, n: nat, upTo: nat)
      requires Shape()
      reads this, state, buffer
    {
      && BLOCK_SIZE * n + bufferLength == upTo <= |s|
      && bufferLength <= BLOCK_SIZE
      && state[..] == HashUpTo(s, n)
      && buffer[..bufferLength] == s[BLOCK_SIZE * n..upTo]
    }

    /** A context that passes the check has been kept by these operations. */
    ghost predicate Inv()
      reads this, state, buffer
    {
      && Shape()
      && (ContextValid() ==> totalLength == |message| && Holds(message, |message| / BLOCK_SIZE, |message|))
    }

    method Init()
      requires Shape()
      modifies this, state, buffer
      ensures Inv() && ContextValid() && message == []
    {
      forall i | 0 <= i < buffer.Length {
        buffer[i] := 0;
      }
      totalLength, bufferLength := 0, 0;
      Store(0x6a09e667, 0xbb67ae85, 0x3c6ef372, 0xa54ff53a, 0x510e527f, 0x9b05688c, 0x1f83d9ab, 0x5be0cd19);
      marker := MARKER;
      message := [];
    }

    /** Copies input after what the buffer holds already; a full buffer goes into the state. */
    method FillBuffer(input: seq<byte>, ghost s: seq<byte>, ghost n: nat) returns (used: nat, ghost m: nat)
      requires Shape() && bufferLength < BLOCK_SIZE && Holds(s, n, BLOCK_SIZE * n + bufferLength)
      requires BLOCK_SIZE * n + bufferLength + |input| == |s| && EndsIn(s, input)
      modifies this`bufferLength, state, buffer
      ensures used <= |input| && bufferLength < BLOCK_SIZE
      ensures BLOCK_SIZE * m + bufferLength == |s| - |input| + used && Holds(s, m, BLOCK_SIZE * m + bufferLength)
      ensures bufferLength == 0 || used == |input|
    {
      m, used := n, 0;
      if bufferLength == 0 {
        return;
      }
      var available := BLOCK_SIZE - bufferLength;
      var copied := if |input| < available then |input| else available;
      SuffixAt(s, input, copied);
      AppendPart(input[..copied], s, n);
      used := copied;
      if bufferLength == BLOCK_SIZE {
        FlushBuffer(s, n);
        m := n + 1;
      }
    }

    /** The next bytes of `s` go into the buffer. */
    method AppendPart(bytes: seq<byte>, ghost s: seq<byte>, ghost n: nat)
      requires Shape() && bufferLength + |bytes| <= BLOCK_SIZE && Holds(s, n, BLOCK_SIZE * n + bufferLength)
      requires At(s, BLOCK_SIZE * n + bufferLength, bytes)
      modifies this`bufferLength, buffer
      ensures bufferLength == old(bufferLength) + |bytes| && Holds(s, n, BLOCK_SIZE * n + bufferLength)
    {
      ghost var at := BLOCK_SIZE * n + bufferLength;
      AtSlice(s, at, bytes);
      SliceJoin(s, BLOCK_SIZE * n, at, at + |bytes|);
      AppendToBuffer(bytes);
    }

    /** A full buffer goes into the state. */
    method FlushBuffer(ghost s: seq<byte>, ghost n: nat)
      requires Shape() && bufferLength == BLOCK_SIZE && Holds(s, n, BLOCK_SIZE * (n + 1))
      modifies this`bufferLength, state
      ensures bufferLength == 0 && Holds(s, n + 1, BLOCK_SIZE * (n + 1))
    {
      assert buffer[..] == buffer[..bufferLength];
      CompressBlock(buffer[..], s, n);
      bufferLength := 0;
    }

    method AppendToBuffer(bytes: seq<byte>)
      requires Shape() && bufferLength + |bytes| <= BLOCK_SIZE
      modifies this`bufferLength, buffer
      ensures bufferLength == old(bufferLength) + |bytes|
      ensures buffer[..bufferLength] == old(buffer[..bufferLength]) + bytes
    {
      forall i | 0 <= i < |bytes| {
        buffer[bufferLength + i] := bytes[i];
      }
      bufferLength := bufferLength + |bytes|;
    }

    /** Whole blocks go from the input into the state. */
    method AbsorbBlocks(input: seq<byte>, start: nat, ghost s: seq<byte>, ghost n: nat)
      returns (used: nat, ghost m: nat)
      requires Shape() && start <= |input| && BLOCK_SIZE * n + |input| - start == |s|
      requires state[..] == HashUpTo(s, n) && EndsIn(s, input)
      modifies state
      ensures start <= used <= |input| < used + BLOCK_SIZE
      ensures BLOCK_SIZE * m + |input| - used == |s| && state[..] == HashUpTo(s, m)
    {
      used, m := start, n;
      while |input| - used >= BLOCK_SIZE
        invariant start <= used <= |input| && BLOCK_SIZE * m + |input| - used == |s|
        invariant state[..] == HashUpTo(s, m)
      {
        AbsorbBlock(input, used, s, m);
        used, m := used + BLOCK_SIZE, m + 1;
      }
    }

    method AbsorbBlock(input: seq<byte>, used: nat, ghost s: seq<byte>, ghost n: nat)
      requires Shape() && used + BLOCK_SIZE <= |input| && BLOCK_SIZE * n + |input| - used == |s|
      requires state[..] == HashUpTo(s, n) && EndsIn(s, input)
      modifies state
      ensures state[..] == HashUpTo(s, n + 1)
    {
      SuffixSlice(s, input, used, used + BLOCK_SIZE);
      CompressBlock(input[used..used + BLOCK_SIZE], s, n);
    }

    /** Hashes `length` more bytes, unless the context or the arguments are not in order. */
    method Update(data: array?<byte>, length: nat) returns (ok: bool)
      requires Inv() && (data != null ==> length <= data.Length && data != buffer)
      modifies this, state, buffer
      ensures Inv()
      ensures ok <==> old(ContextValid()) && (data != null || length == 0)
                      && length <= MAXIMUM_BYTES - old(totalLength)
      ensures ok ==> ContextValid() && message == old(message) + (if data == null then [] else old(data[..length]))
      ensures !ok ==> unchanged(this) && unchanged(state) && unchanged(buffer)
    {
      if !ContextValid() || (data == null && length != 0) {
        return false;
      }
      if length == 0 {
        return true;
      }
      if length > MAXIMUM_BYTES || length > MAXIMUM_BYTES - totalLength {
        return false;
      }
      Absorb(data[..length]);
      ok := true;
    }

    method Absorb(input: seq<byte>)
      requires Inv() && ContextValid() && |input| <= MAXIMUM_BYTES - totalLength
      modifies this, state, buffer
      ensures Inv() && ContextValid() && message == old(message) + input
    {
      ghost var s, n := message + input, |message| / BLOCK_SIZE;
      Extends(message, input, n);
      totalLength := totalLength + |input|;
      message := s;
      var used;
      ghost var m;
      used, m := FillBuffer(input, s, n);
      if bufferLength == 0 {
        used, m := AbsorbBlocks(input, used, s, m);
        KeepRest(input, used, s, m);
      }
      Divides(|s|, m, bufferLength);
    }

    /** What does not fill a block waits in the buffer. */
    method KeepRest(input: seq<byte>, used: nat, ghost s: seq<byte>, ghost n: nat)
      requires Shape() && used <= |input| < used + BLOCK_SIZE && BLOCK_SIZE * n + |input| - used == |s|
      requires bufferLength == 0 && state[..] == HashUpTo(s, n) && EndsIn(s, input)
      modifies this`bufferLength, buffer
      ensures bufferLength < BLOCK_SIZE && Holds(s, n, |s|)
    {
      SuffixSlice(s, input, used, |input|);
      AppendToBuffer(input[used..|input|]);
    }

    /** Appends the padding and hashes it. */
    method Finish(ghost s: seq<byte>, ghost z: nat)
      requires Inv() && ContextValid() && message <= s && z == PadZeros(|message|)
      requires PaddedFrom(s, |message|, z, 8 * |message|)
      modifies this`bufferLength, state, buffer
      ensures |s| % BLOCK_SIZE == 0 && state[..] == HashUpTo(s, |s| / BLOCK_SIZE)
    {
      ghost var n := |message| / BLOCK_SIZE;
      HashUpToPrefix(message, s, n);
      assert s[BLOCK_SIZE * n..|message|] == message[BLOCK_SIZE * n..|message|];
      ghost var blocks := FinishPadding(totalLength * 8, s, n, z);
      Divides(|s|, blocks, 0);
    }

    method FinishPadding(bits: nat, ghost s: seq<byte>, ghost n: nat, ghost z: nat) returns (ghost blocks: nat)
      requires Shape() && bufferLength < BLOCK_SIZE && Holds(s, n, BLOCK_SIZE * n + bufferLength)
      requires PaddedFrom(s, BLOCK_SIZE * n + bufferLength, z, bits)
      requires z == if bufferLength < 56 then 55 - bufferLength else 119 - bufferLength
      modifies this`bufferLength, state, buffer
      ensures BLOCK_SIZE * blocks == |s| && state[..] == HashUpTo(s, blocks)
    {
      AppendPart([0x80], s, n);
      if bufferLength > BLOCK_SIZE - 8 {
        FillOut(bits, s, n, z);
        LastBlock(bits, s, n + 1, 56);
        blocks := n + 2;
      } else {
        LastBlock(bits, s, n, z);
        blocks := n + 1;
      }
    }

    /** Zeros up to the end of the block, when the length does not fit into it. */
    method FillOut(bits: nat, ghost s: seq<byte>, ghost n: nat, ghost z: nat)
      requires Shape() && bufferLength <= BLOCK_SIZE && Holds(s, n, BLOCK_SIZE * n + bufferLength)
      requires PartsAt(s, BLOCK_SIZE * n + bufferLength, z, bits) && z == BLOCK_SIZE - bufferLength + 56
      modifies this`bufferLength, state, buffer
      ensures bufferLength == 0 && Holds(s, n + 1, BLOCK_SIZE * (n + 1))
      ensures PartsAt(s, BLOCK_SIZE * (n + 1), 56, bits)
    {
      ghost var at := BLOCK_SIZE * n + bufferLength;
      ZerosAt(s, at, z, 0, BLOCK_SIZE - bufferLength);
      ZerosAt(s, at, z, BLOCK_SIZE - bufferLength, 56);
      AppendPart(Zeros(BLOCK_SIZE - bufferLength), s, n);
      FlushBuffer(s, n);
    }

    method LastBlock(bits: nat, ghost s: seq<byte>, ghost n: nat, ghost z: nat)
      requires Shape() && bufferLength <= BLOCK_SIZE - 8 && Holds(s, n, BLOCK_SIZE * n + bufferLength)
      requires |s| == BLOCK_SIZE * (n + 1) && z == BLOCK_SIZE - 8 - bufferLength
      requires PartsAt(s, BLOCK_SIZE * n + bufferLength, z, bits)
      modifies this`bufferLength, state, buffer
      ensures state[..] == HashUpTo(s, n + 1)
    {
      AppendPart(Zeros(BLOCK_SIZE - 8 - bufferLength), s, n);
      AppendPart(BE(bits, 8), s, n);
      FlushBuffer(s, n);
    }

    method StoreDigest(digest: array<byte>)
      requires Shape() && digest.Length == DIGEST_SIZE && digest != buffer
      modifies digest
      ensures digest[..] == Stored(state[..], 8)
    {
      ghost var h := state[..];
      for i := 0 to 8
        invariant digest[..4 * i] == Stored(h, i)
      {
        var w := StoreWord(state[i]);
        ghost var before := digest[..4 * i];
        forall k | 0 <= k < 4 {
          digest[4 * i + k] := w[k];
        }
        assert digest[..4 * (i + 1)] == before + w;
      }
      assert digest[..32] == digest[..];
    }

    ghost predicate Wiped()
      reads this, state, buffer
    {
      && (forall i :: 0 <= i < state.Length ==> state[i] == 0)
      && (forall i :: 0 <= i < buffer.Length ==> buffer[i] == 0)
      && totalLength == 0 && bufferLength == 0 && marker == 0
    }

    method Wipe()
      requires Shape()
      modifies this, state, buffer
      ensures Wiped()
    {
      forall i | 0 <= i < state.Length {
        state[i] := 0;
      }
      forall i | 0 <= i < buffer.Length {
        buffer[i] := 0;
      }
      totalLength, bufferLength, marker := 0, 0, 0;
    }

    /** The digest of everything hashed, after which the context is wiped and refused. */
    method Final(digest: array?<byte>) returns (ok: bool)
      requires Inv() && (digest != null ==> digest.Length == DIGEST_SIZE && digest != buffer)
      modifies this, state, buffer, digest
      ensures Inv()
      ensures ok <==> digest != null && old(ContextValid())
      ensures ok ==> digest[..] == Digest(old(message)) && Wiped() && !ContextValid()
      ensures !ok ==> unchanged(this) && unchanged(state) && unchanged(buffer)
      ensures !ok && digest != null ==> unchanged(digest)
    {
      if digest == null || !ContextValid() {
        return false;
      }
      PadIsPadded(message, Pad(message), PadZeros(|message|));
      Finish(Pad(message), PadZeros(|message|));
      StoreDigest(digest);
      Wipe();
      ok := true;
    }

    /** Fills the message schedule. */
    method Expand(block: seq<byte>) returns (words: array<word>)
      requires |block| == BLOCK_SIZE
      ensures fresh(words) && words.Length == 64 && words[..] == Schedule(WordsOf(block), 64)
    {
      ghost var m := WordsOf(block);
      words := new word[64];
      for t := 0 to 16
        invariant forall i :: 0 <= i < t ==> words[i] == m[i]
      {
        words[t] := LoadWord(block[4 * t..4 * t + 4]);
      }
      assert words[..16] == m;
      for t := 16 to 64
        invariant words[..t] == Schedule(m, t)
      {
        ghost var w := words[..t];
        var x := NextWord(words[t - 16], words[t - 15], words[t - 7], words[t - 2]);
        ScheduleStep(m, t, w, x, Schedule(m, t + 1));
        words[t] := x;
        assert words[..t + 1] == w + [x];
      }
      assert words[..64] == words[..];
    }

    /** The sixty-four rounds, on eight variables. */
    method Rounds(words: array<word>, ghost s: seq<byte>, ghost n: nat) returns (v: Working)
      requires state.Length == 8 && BLOCK_SIZE * (n + 1) <= |s| && state[..] == HashUpTo(s, n)
      requires words.Length == 64 && words[..] == Schedule(WordsOf(Block(s, n)), 64)
      ensures v == Variables(s, n, 64)
    {
      v := Start(state[..]);
      for t := 0 to 64
        invariant v == Variables(s, n, t)
      {
        v := RoundAt(v, words[..], t, s, n);
      }
    }

    /** Adds the working variables to the state. */
    method AddVariables(v: Working)
      requires state.Length == 8
      modifies state
      ensures state[..] == Add(old(state[..]), v)
    {
      ghost var sum := Add(state[..], v);
      var a, b, c, d := Sum(v.a, state[0]), Sum(v.b, state[1]), Sum(v.c, state[2]), Sum(v.d, state[3]);
      var e, f, g, h := Sum(v.e, state[4]), Sum(v.f, state[5]), Sum(v.g, state[6]), Sum(v.h, state[7]);
      assert sum == [a, b, c, d, e, f, g, h];
      Store(a, b, c, d, e, f, g, h);
    }

    method Store(a: word, b: word, c: word, d: word, e: word, f: word, g: word, h: word)
      requires state.Length == 8
      modifies state
      ensures state[..] == [a, b, c, d, e, f, g, h]
    {
      state[0], state[1], state[2], state[3] := a, b, c, d;
      state[4], state[5], state[6], state[7] := e, f, g, h;
    }

    /** One block into the state: block `n` of `s`, when the blocks before it are in already. */
    method CompressBlock(block: seq<byte>, ghost s: seq<byte>, ghost n: nat)
      requires state.Length == 8 && BLOCK_SIZE * (n + 1) <= |s| && block == Block(s, n)
      requires state[..] == HashUpTo(s, n)
      modifies state
      ensures state[..] == HashUpTo(s, n + 1)
    {
      var words := Expand(block);
      var v := Rounds(words, s, n);
      HashStep(s, n, state[..], v);
      AddVariables(v);
    }
  }

  lemma TwoChunks(a: seq<byte>, b: seq<byte>)
    ensures Joined([a, b], 2) == a + b
  {
    assert Joined([a, b], 1) == Joined([a, b], 0) + a;
    assert Joined([a, b], 1) == a;
  }

  /** However a message is cut into chunks, hashing them in turn gives the digest of the message. */
  method HashChunks(chunks: seq<seq<byte>>) returns (digest: seq<byte>)
    requires |Joined(chunks, |chunks|)| <= MAXIMUM_BYTES
    ensures digest == Digest(Joined(chunks, |chunks|))
  {
    var context := new Context();
    context.Init();
    UpdateAll(context, chunks);
    digest := FinalOf(context);
  }

  method UpdateAll(context: Context, chunks: seq<seq<byte>>)
    requires context.Inv() && context.ContextValid() && context.message == []
    requires |Joined(chunks, |chunks|)| <= MAXIMUM_BYTES
    modifies context, context.state, context.buffer
    ensures context.Inv() && context.ContextValid() && context.message == Joined(chunks, |chunks|)
  {
    for i := 0 to |chunks|
      invariant context.Inv() && context.ContextValid() && context.message == Joined(chunks, i)
    {
      JoinedGrows(chunks, i + 1, |chunks|);
      UpdateWith(context, chunks[i]);
    }
  }

  method UpdateWith(context: Context, chunk: seq<byte>)
    requires context.Inv() && context.ContextValid() && |context.message| + |chunk| <= MAXIMUM_BYTES
    modifies context, context.state, context.buffer
    ensures context.Inv() && context.ContextValid() && context.message == old(context.message) + chunk
  {
    var data := ArrayOf(chunk);
    assert context.totalLength == |context.message|;
    var ok := context.Update(data, |chunk|);
  }

  method ArrayOf(s: seq<byte>) returns (a: array<byte>)
    ensures fresh(a) && a.Length == |s| && a[..|s|] == s
  {
    a := new byte[|s|](k requires 0 <= k < |s| => s[k]);
  }

  method FinalOf(context: Context) returns (digest: seq<byte>)
    requires context.Inv() && context.ContextValid()
    modifies context, context.state, context.buffer
    ensures digest == Digest(old(context.message))
  {
    var out := new byte[DIGEST_SIZE];
    var ok := context.Final(out);
    digest := out[..];
  }

  /** Round `t` of block `n`. */
  method RoundAt(v: Working, words: seq<word>, t: nat, ghost s: seq<byte>, ghost n: nat) returns (next: Working)
    requires BLOCK_SIZE * (n + 1) <= |s| && t < 64 && v == Variables(s, n, t)
    requires words == Schedule(WordsOf(Block(s, n)), 64)
    ensures next == Variables(s, n, t + 1)
  {
    VariablesStep(s, n, t, v);
    next := OneRound(v, RoundConstants()[t], words[t]);
  }

  method OneRound(v: Working, k: word, w: word) returns (next: Working)
    ensures next == Round(v, k, w)
  {
    var Working(a, b, c, d, e, f, g, h) := v;
    var one, two := T1(e, f, g, h, k, w), T2(a, b, c);
    h := g;
    g := f;
    f := e;
    e := Sum(d, one);
    d := c;
    c := b;
    b := a;
    a := Sum(one, two);
    next := Working(a, b, c, d, e, f, g, h);
  }
}
