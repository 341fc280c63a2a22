/** The ring of clock samples of a video stream: which samples it keeps. */
module UvcClock {
  import opened Bytes
  import RelayWire

  const SIZE: nat := 32
  const SOF_RANGE: nat := 2048
  const MIN_DIFFERENCE: nat := 100
  const MAX_U16: nat := 0xFFFF
  /** What the unsigned index holds when it is not set. */
  const NO_INDEX: nat := 0xFFFF_FFFF

  /** The place of a sample in the ring, folded up: only `SlotIsModulo` looks into it. */
  ghost function Slot(i: nat, depth: nat := 4): (k: nat)
    ensures k < SIZE
    decreases i, depth
  {
    if depth == 0 then i % SIZE else Slot(i, depth - 1)
  }

  lemma SlotIsModulo(i: nat)
    ensures Slot(i) == i % SIZE
  {
    assert Slot(i, 2) == Slot(i, 3);
    assert Slot(i, 1) == Slot(i, 2);
  }

  lemma SlotNext(i: nat)
    ensures Slot(i + 1) == (Slot(i) + 1) % SIZE
  {
    SlotIsModulo(i);
    SlotIsModulo(i + 1);
  }

  lemma SlotDistance(a: nat, b: nat)
    requires b < a < b + SIZE
    ensures Slot(a) != Slot(b) && (Slot(a) - Slot(b) + SIZE) % SIZE == a - b
  {
    SlotIsModulo(a);
    SlotIsModulo(b);
  }

  lemma SlotReturns(i: nat)
    ensures Slot(i + SIZE) == Slot(i)
  {
    SlotIsModulo(i);
    SlotIsModulo(i + SIZE);
  }

  datatype Sample = Sample(devStc: nat, devSof: nat, hostSof: nat, hostTime: nat)

  /** At `i` the frame number of the device went back. */
  ghost predicate Wraps(history: seq<Sample>, i: nat) {
    0 < i < |history| && history[i].devSof < history[i - 1].devSof
  }

  /** From `start` on there is no more than one place where it went back. */
  ghost predicate OneWrap(history: seq<Sample>, start: nat) {
    forall i, j :: start < i && start < j && Wraps(history, i) && Wraps(history, j) ==> i == j
  }

  /** The samples from `start` on are as many as can be kept: no more than the ring holds, with no more than one
      place where the frame number went back. */
  ghost predicate Longest(history: seq<Sample>, start: nat) {
    && start <= |history| <= start + SIZE && OneWrap(history, start)
    && (start == 0 || |history| == start + SIZE || !OneWrap(history, start - 1))
  }

  /** The overflow index says where in the stretch the frame number went back, if it did. */
  ghost predicate Marks(history: seq<Sample>, start: nat, overflow: nat, mark: nat) {
    if overflow == NO_INDEX then forall i :: start < i ==> !Wraps(history, i)
    else
      && start <= mark < |history| && Slot(mark) == overflow && Wraps(history, mark)
      && forall i :: start < i && Wraps(history, i) ==> i == mark
  }

  lemma WrapsKept(history: seq<Sample>, s: Sample)
    ensures forall i: nat :: i < |history| ==> (Wraps(history + [s], i) <==> Wraps(history, i))
  {
  }

  /** A sample that does not bring a second place where it went back pushes out at most the oldest one. */
  lemma LongestExtends(history: seq<Sample>, start: nat, s: Sample)
    requires Longest(history, start) && OneWrap(history + [s], start)
    ensures Longest(history + [s], if |history| == start + SIZE then start + 1 else start)
  {
    WrapsKept(history, s);
    if start > 0 && !OneWrap(history, start - 1) {
      var i, j :| start - 1 < i && start - 1 < j && Wraps(history, i) && Wraps(history, j) && i != j;
      assert Wraps(history + [s], i) && Wraps(history + [s], j);
    }
  }

  ghost function NextStart(history: seq<Sample>, start: nat): nat {
    if |history| == start + SIZE then start + 1 else start
  }

  /** When the place of the overflow is about to be overwritten, nothing in the stretch went back any more. */
  lemma MarkForgotten(history: seq<Sample>, start: nat, overflow: nat, mark: nat)
    requires Longest(history, start) && Marks(history, start, overflow, mark) && Slot(|history|) == overflow
    ensures Marks(history, start, NO_INDEX, mark)
  {
    if overflow != NO_INDEX && |history| < mark + SIZE {
      SlotDistance(|history|, mark);
    }
  }

  /** The frame number did not go back. */
  lemma RoomPlain(history: seq<Sample>, start: nat, overflow: nat, mark: nat, s: Sample)
    requires Longest(history, start) && Marks(history, start, overflow, mark) && Slot(|history|) != overflow
    requires !Wraps(history + [s], |history|)
    ensures Longest(history + [s], NextStart(history, start))
    ensures Marks(history + [s], NextStart(history, start), overflow, mark)
  {
    OneWrapPlain(history, start, s);
    LongestExtends(history, start, s);
    MarksPlain(history, start, overflow, mark, s);
  }

  lemma OneWrapPlain(history: seq<Sample>, start: nat, s: Sample)
    requires OneWrap(history, start) && !Wraps(history + [s], |history|)
    ensures OneWrap(history + [s], start)
  {
    WrapsKept(history, s);
  }

  lemma MarksPlain(history: seq<Sample>, start: nat, overflow: nat, mark: nat, s: Sample)
    requires start <= |history| <= start + SIZE && Marks(history, start, overflow, mark)
    requires Slot(|history|) != overflow && !Wraps(history + [s], |history|)
    ensures Marks(history + [s], NextStart(history, start), overflow, mark)
  {
    WrapsKept(history, s);
    if overflow != NO_INDEX && |history| == mark + SIZE {
      SlotReturns(mark);
    }
  }

  /** It went back for the first time in the stretch. */
  lemma RoomFirstWrap(history: seq<Sample>, start: nat, mark: nat, s: Sample)
    requires Longest(history, start) && Marks(history, start, NO_INDEX, mark) && Wraps(history + [s], |history|)
    ensures Longest(history + [s], NextStart(history, start))
    ensures Marks(history + [s], NextStart(history, start), Slot(|history|), |history|)
  {
    WrapsKept(history, s);
    LongestExtends(history, start, s);
  }

  /** It went back for the second time: everything before the first is dropped. */
  lemma RoomSecondWrap(history: seq<Sample>, start: nat, overflow: nat, mark: nat, s: Sample)
    requires Longest(history, start) && Marks(history, start, overflow, mark) && overflow != NO_INDEX
    requires Slot(|history|) != overflow && Wraps(history + [s], |history|)
    ensures (Slot(|history|) - overflow + SIZE) % SIZE == |history| - mark < SIZE
    ensures Longest(history + [s], mark) && Marks(history + [s], mark, Slot(|history|), |history|)
  {
    WrapsKept(history, s);
    if |history| == mark + SIZE {
      SlotReturns(mark);
    }
    SlotDistance(|history|, mark);
    assert Wraps(history + [s], mark);
  }

  class Clock {
    const samples: array<Sample>
    var head: nat
    var count: nat
    var lastOverflow: nat
    var lastSof: nat
    var sofOffset: nat
    /** Every sample since the last reset, where the ones that are kept begin, and where the overflow index
        points to. */
    ghost var history: seq<Sample>
    ghost var start: nat
    ghost var mark: nat

    constructor ()
      ensures Valid() && history == []
    {
      samples := new Sample[SIZE](_ => Sample(0, 0, 0, 0));
      head, count, lastOverflow, lastSof, sofOffset := 0, 0, NO_INDEX, MAX_U16, MAX_U16;
      history, start, mark := [], 0, 0;
    }

    /** The live window of the ring, oldest first, is the longest stretch that can be kept. */
    ghost predicate Kept()
      reads this, samples
    {
      && samples.Length == SIZE && head == Slot(|history|) && start + count == |history|
      && Longest(history, start)
      && Holds()
      && Marks(history, start, lastOverflow, mark)
    }

    ghost predicate Valid()
      reads this, samples
    {
      && Kept() && (history == [] <==> count == 0)
      && (count > 0 ==> lastSof == history[|history| - 1].devSof) && Spaced(history)
    }

    method Reset()
      requires Valid()
      modifies this
      ensures Valid() && history == [] && count == 0
    {
      head, count, lastOverflow, lastSof, sofOffset := 0, 0, NO_INDEX, MAX_U16, MAX_U16;
      history, start, mark := [], 0, 0;
    }

    ghost predicate Holds()
      requires samples.Length == SIZE
      reads this, samples
    {
      forall i :: start <= i < |history| ==> samples[Slot(i)] == history[i]
    }

    /** Room is made for the sample. */
    ghost predicate HasRoom(s: Sample)
      reads this, samples
    {
      && samples.Length == SIZE && head == Slot(|history|) && start + count == |history| && count <= SIZE && Holds()
      && Longest(history + [s], NextStart(history, start))
      && Marks(history + [s], NextStart(history, start), lastOverflow, mark)
    }

    /** Drops what cannot be kept together with the sample. */
    method MakeRoom(s: Sample)
      requires Valid()
      modifies this`count, this`lastOverflow, this`start, this`mark
      ensures HasRoom(s)
    {
      if head == lastOverflow {
        MarkForgotten(history, start, lastOverflow, mark);
        lastOverflow := NO_INDEX;
      }
      if count > 0 && lastSof > s.devSof {
        if lastOverflow != NO_INDEX {
          RoomSecondWrap(history, start, lastOverflow, mark, s);
          count := (head - lastOverflow + SIZE) % SIZE;
          start := mark;
        } else {
          RoomFirstWrap(history, start, mark, s);
        }
        lastOverflow, mark := head, |history|;
      } else {
        RoomPlain(history, start, lastOverflow, mark, s);
      }
    }

    /** Adds a sample and drops what cannot be kept any more. */
    method AddSample(s: Sample)
      requires Valid()
      modifies this`head, this`count, this`lastOverflow, this`history, this`start, this`mark, samples
      ensures Kept() && history == old(history) + [s] && count > 0
    {
      MakeRoom(s);
      StoreSample(s);
    }

    method StoreSample(s: Sample)
      requires HasRoom(s)
      modifies this`head, this`count, this`history, this`start, samples
      ensures Kept() && history == old(history) + [s] && count > 0
    {
      forall i | NextStart(history, start) <= i < |history|
        ensures Slot(i) != head
      {
        SlotDistance(|history|, i);
      }
      SlotNext(|history|);
      samples[head] := s;
      head := (head + 1) % SIZE;
      start := NextStart(history, start);
      count := if count + 1 < SIZE then count + 1 else SIZE;
      history := history + [s];
    }

    /** The live window of the ring, oldest first, is the longest stretch. */
    lemma WindowIsLongest(k: nat)
      requires Kept() && k < count
      ensures samples[(head + SIZE - count + k) % SIZE] == history[start + k]
    {
      SlotIsModulo(|history|);
      SlotIsModulo(start + k);
    }

    /** Takes the clocks out of a payload header; a sample is added if its frame number is new enough. */
    method Decode(data: seq<byte>, bytesUsed: Buffered, hostSof: nat, hostTime: nat, useHostSof: bool)
      requires Valid() && |data| >= 2 && hostSof <= MAX_U16
      modifies this, samples
      ensures Valid()
      ensures var r := Reading(data, bytesUsed, hostSof, hostTime, useHostSof, old(sofOffset));
              && history == old(history) + (if r.Clear? && Apart(r.sample.devSof, old(lastSof)) then [r.sample] else [])
              && sofOffset == if r.Clear? then r.offset else old(sofOffset)
    {
      var scr := ReadScr(data);
      if scr.NoScr? || (bytesUsed == Buffer(0) && |data| == HeaderSize(data[1]) && scr == Scr(0, 0)) {
        return;
      }
      var devSof := if useHostSof then hostSof else scr.sof;
      EstimateOffset(hostSof, devSof);
      devSof := (devSof + sofOffset) % SOF_RANGE;
      if Apart(devSof, lastSof) {
        Take(Sample(scr.stc, devSof, hostSof, hostTime));
      }
    }

    /** The first time round, how far the frame numbers of the device are off. */
    method EstimateOffset(hostSof: nat, devSof: nat)
      requires Valid()
      modifies this`sofOffset
      ensures Valid() && sofOffset == OffsetFor(old(sofOffset), hostSof, devSof)
    {
      if sofOffset == MAX_U16 {
        var delta := Lag(hostSof, devSof);
        sofOffset := if delta >= 10 then delta else 0;
      }
    }

    method Take(s: Sample)
      requires Valid() && Apart(s.devSof, lastSof)
      modifies this`head, this`count, this`lastOverflow, this`lastSof, this`history, this`start, this`mark, samples
      ensures Valid() && history == old(history) + [s]
    {
      AddSample(s);
      forall i | 0 < i < |history|
        ensures IsSpaced(history, i)
      {
        assert i < |old(history)| ==> IsSpaced(old(history), i);
      }
      lastSof := s.devSof;
    }
  }

  datatype Scr = NoScr | Scr(stc: nat, sof: nat)

  /** The source clock of a header, if it has one and is complete. */
  function ReadScr(data: seq<byte>): Scr
    requires |data| >= 2
  {
    var n := HeaderSize(data[1]);
    if |data| < n || data[1] / 8 % 2 == 0 then NoScr
    else Scr(RelayWire.Load(data, n - 6, 4), RelayWire.Load(data, n - 2, 2))
  }

  /** The buffer that is being filled, if any, and how far. */
  datatype Buffered = NoBuffer | Buffer(used: nat)

  /** Presentation time and source clock make the header longer. */
  function HeaderSize(flags: byte): (n: nat)
    ensures 2 <= n && (flags / 8 % 2 == 1 ==> 8 <= n)
  {
    2 + (if flags / 4 % 2 == 1 then 4 else 0) + if flags / 8 % 2 == 1 then 6 else 0
  }

  function SofDifference(a: nat, b: nat): nat { (a - b) % SOF_RANGE }

  predicate Apart(a: nat, b: nat) { SofDifference(a, b) > MIN_DIFFERENCE / SIZE }

  /** No two samples in a row have frame numbers close to each other. */
  ghost predicate Spaced(history: seq<Sample>) {
    forall i :: 0 < i < |history| ==> IsSpaced(history, i)
  }

  ghost predicate IsSpaced(history: seq<Sample>, i: nat)
    requires 0 < i < |history|
  {
    Apart(history[i].devSof, history[i - 1].devSof)
  }

  /** How far a device is behind the host, as far as the lowest eight bits tell. */
  function Lag(hostSof: nat, devSof: nat): (lag: nat)
    ensures lag < 256
  {
    (hostSof - devSof) % 256
  }

  /** An offset is estimated once. With it the device is behind by less than ten, which is only delay; and if that
      had not been so, it is not behind at all. */
  function OffsetFor(known: nat, hostSof: nat, devSof: nat): (offset: nat)
    ensures known != MAX_U16 ==> offset == known
    ensures known == MAX_U16 ==> offset < 256 && Lag(hostSof, devSof + offset) < 10
    ensures known == MAX_U16 && Lag(hostSof, devSof) >= 10 ==> Lag(hostSof, devSof + offset) == 0
    ensures known == MAX_U16 && Lag(hostSof, devSof) < 10 ==> offset == 0
  {
    var delta := Lag(hostSof, devSof);
    if known != MAX_U16 then known else if delta >= 10 then delta else 0
  }

  datatype Clocks = Unclear | Clear(sample: Sample, offset: nat)

  /** What a header says about the clocks: nothing before the first data of a frame if all is zero. */
  ghost function Reading(
    data: seq<byte>, bytesUsed: Buffered, hostSof: nat, hostTime: nat, useHostSof: bool, known: nat): Clocks
    requires |data| >= 2
  {
    var scr := ReadScr(data);
    if scr.NoScr? then Unclear
    else if bytesUsed == Buffer(0) && |data| == HeaderSize(data[1]) && scr == Scr(0, 0) then Unclear
    else
      var devSof := if useHostSof then hostSof else scr.sof;
      var offset := OffsetFor(known, hostSof, devSof);
      Clear(Sample(scr.stc, (devSof + offset) % SOF_RANGE, hostSof, hostTime), offset)
  }
}
