/** The life of capture buffers, told by what happens to them. */
module UvcFrameTrace {
  import opened Bytes

  datatype Event =
    | Queued(buffer: nat)
    | Accepted(buffer: nat, piece: seq<byte>, fid: int)
    | Completed(buffer: nat, data: seq<byte>, error: bool)
    | Requeued(buffer: nat)

  datatype Flight = Idle | Flying | Broken

  /** The frame identifier that the bytes of a buffer came with. */
  datatype Tag = Untagged | One(fid: int) | Mixed

  /** What was accepted into a buffer since it was queued, where the buffer is, and which frame it holds. */
  datatype Life = Life(content: seq<byte>, flight: Flight, tag: Tag)

  ghost function LifeOf(events: seq<Event>, n: nat, b: nat): Life
    requires n <= |events|
  {
    if n == 0 then Life([], Idle, Untagged) else NextLife(LifeOf(events, n - 1, b), events[n - 1], b)
  }

  ghost function NextLife(life: Life, e: Event, b: nat): Life {
    if e.buffer != b then life
    else
      match e
      case Queued(_) => Life([], if life.flight == Idle then Flying else Broken, Fresh(life.tag))
      case Requeued(_) => Life([], if life.flight == Flying then Flying else Broken, Fresh(life.tag))
      case Completed(_, _, _) => life.(flight := if life.flight == Flying then Idle else Broken)
      case Accepted(_, piece, fid) =>
        Life(life.content + piece, if life.flight == Flying then Flying else Broken,
             if piece == [] then life.tag else Tagged(life.tag, fid))
  }

  /** Once mixed, always mixed: so that one look at the end tells about the whole run. */
  ghost function Fresh(tag: Tag): Tag { if tag == Mixed then Mixed else Untagged }

  ghost function Tagged(tag: Tag, fid: int): Tag { if tag == Untagged || tag == One(fid) then One(fid) else Mixed }

  datatype Format = Compressed | Plain(size: nat)

  ghost predicate FullSize(format: Format, used: nat) { format.Compressed? || used == format.size }

  /** A buffer that is handed out holds what was accepted into it, in order; without an error that is a whole
      frame, and with one only when that was asked for. */
  ghost predicate Faithful(events: seq<Event>, format: Format, noDrop: bool) {
    forall i :: 0 <= i < |events| ==> IsFaithful(events, format, noDrop, i)
  }

  ghost predicate IsFaithful(events: seq<Event>, format: Format, noDrop: bool, i: nat)
    requires i < |events|
  {
    events[i].Completed? ==>
      && events[i].data == LifeOf(events, i, events[i].buffer).content
      && if events[i].error then noDrop else FullSize(format, |events[i].data|)
  }

  lemma {:induction false} PrefixSame(events: seq<Event>, e: Event, n: nat, b: nat)
    requires n <= |events|
    ensures LifeOf(events + [e], n, b) == LifeOf(events, n, b)
  {
    if n > 0 {
      PrefixSame(events, e, n - 1, b);
    }
  }

  /** The lives are those that the events tell. */
  ghost predicate Traced(events: seq<Event>, lives: seq<Life>, format: Format, noDrop: bool) {
    && Faithful(events, format, noDrop)
    && forall b :: 0 <= b < |lives| ==> LifeOf(events, |events|, b) == lives[b]
  }

  /** One event more. */
  lemma TracedStep(events: seq<Event>, lives: seq<Life>, format: Format, noDrop: bool, e: Event)
    requires Traced(events, lives, format, noDrop) && e.buffer < |lives|
    requires e.Completed? ==> e.data == lives[e.buffer].content
    requires e.Completed? ==> if e.error then noDrop else FullSize(format, |e.data|)
    ensures Traced(events + [e], lives[e.buffer := NextLife(lives[e.buffer], e, e.buffer)], format, noDrop)
  {
    var all := events + [e];
    forall b | 0 <= b < |lives|
      ensures LifeOf(all, |all|, b) == NextLife(lives[b], e, b)
    {
      PrefixSame(events, e, |events|, b);
    }
    forall i | 0 <= i < |all|
      ensures IsFaithful(all, format, noDrop, i)
    {
      PrefixSame(events, e, i, all[i].buffer);
      if i < |events| {
        assert IsFaithful(events, format, noDrop, i);
      }
    }
  }

  /** All that was accepted, in order. */
  ghost function Taken(events: seq<Event>): seq<byte> {
    if events == [] then []
    else
      var last := events[|events| - 1];
      Taken(events[..|events| - 1]) + if last.Accepted? then last.piece else []
  }

  ghost predicate IsTaken(events: seq<Event>, taken: seq<byte>) { Taken(events) == taken }

  lemma TakenStep(events: seq<Event>, e: Event)
    ensures Taken(events + [e]) == Taken(events) + if e.Accepted? then e.piece else []
  {
    assert (events + [e])[..|events|] == events;
  }
}

/** Copies that are put off: what is still to be written into which buffer. */
module UvcCopies {
  import opened Bytes
  import opened UvcFrameTrace

  datatype Op = Op(buffer: nat, at: nat, data: seq<byte>)

  /** How many of the copies go into a buffer. */
  ghost function Count(ops: seq<Op>, b: nat): nat {
    if ops == [] then 0 else Mine(ops[0], b) + Count(ops[1..], b)
  }

  ghost function Mine(op: Op, b: nat): nat { if op.buffer == b then 1 else 0 }

  /** The same over the first `n` work items. */
  ghost function Total(works: seq<seq<Op>>, n: nat, b: nat): nat
    requires n <= |works|
  {
    if n == 0 then 0 else Total(works, n - 1, b) + Count(works[n - 1], b)
  }

  ghost predicate Covers(op: Op, b: nat, p: nat) { op.buffer == b && op.at <= p < op.at + |op.data| }

  /** Byte `p` of a buffer is still to be written. */
  ghost predicate Covered(ops: seq<Op>, b: nat, p: nat) {
    ops != [] && (Covers(ops[0], b, p) || Covered(ops[1..], b, p))
  }

  ghost predicate CoveredBy(works: seq<seq<Op>>, n: nat, b: nat, p: nat)
    requires n <= |works|
  {
    n > 0 && (CoveredBy(works, n - 1, b, p) || Covered(works[n - 1], b, p))
  }

  /** The copies write what the buffer is to hold. */
  ghost predicate Fits(ops: seq<Op>, lives: seq<Life>) {
    forall j :: 0 <= j < |ops| ==> IsFit(ops[j], lives)
  }

  ghost predicate IsFit(op: Op, lives: seq<Life>) {
    op.buffer < |lives| && At(lives[op.buffer].content, op.at, op.data)
  }

  ghost predicate AllFit(works: seq<seq<Op>>, lives: seq<Life>) {
    forall k :: 0 <= k < |works| ==> Fits(works[k], lives)
  }

  lemma {:induction false} CountAppend(ops: seq<Op>, op: Op, b: nat, p: nat)
    ensures Count(ops + [op], b) == Count(ops, b) + Mine(op, b)
    ensures Covered(ops + [op], b, p) <==> Covered(ops, b, p) || Covers(op, b, p)
  {
    if ops == [] {
      assert ops + [op] == [op];
    } else {
      CountAppend(ops[1..], op, b, p);
      assert (ops + [op])[1..] == ops[1..] + [op];
    }
  }

  /** Only one work item changes. */
  lemma {:induction false} TotalUpdate(works: seq<seq<Op>>, k: nat, ops: seq<Op>, n: nat, b: nat, p: nat)
    requires k < |works| && n <= |works|
    ensures k >= n ==> Total(works[k := ops], n, b) == Total(works, n, b)
    ensures k >= n ==> (CoveredBy(works[k := ops], n, b, p) <==> CoveredBy(works, n, b, p))
    ensures k < n ==> Total(works[k := ops], n, b) + Count(works[k], b) == Total(works, n, b) + Count(ops, b)
    ensures k < n && CoveredBy(works, n, b, p) ==> CoveredBy(works[k := ops], n, b, p) || Covered(works[k], b, p)
    ensures k < n && Covered(ops, b, p) ==> CoveredBy(works[k := ops], n, b, p)
  {
    if n > 0 {
      TotalUpdate(works, k, ops, n - 1, b, p);
    }
  }

  lemma {:induction false} CountZero(ops: seq<Op>, b: nat, p: nat)
    requires Count(ops, b) == 0
    ensures !Covered(ops, b, p)
  {
    if ops != [] {
      CountZero(ops[1..], b, p);
    }
  }

  /** Without a copy for a buffer nothing of it is to be written. */
  lemma {:induction false} TotalZero(works: seq<seq<Op>>, n: nat, b: nat, p: nat)
    requires n <= |works| && Total(works, n, b) == 0
    ensures !CoveredBy(works, n, b, p)
  {
    if n > 0 {
      TotalZero(works, n - 1, b, p);
      CountZero(works[n - 1], b, p);
    }
  }

  lemma {:induction false} PrefixTotal(works: seq<seq<Op>>, last: seq<Op>, n: nat, b: nat, p: nat)
    requires n <= |works|
    ensures Total(works + [last], n, b) == Total(works, n, b)
    ensures CoveredBy(works + [last], n, b, p) <==> CoveredBy(works, n, b, p)
  {
    if n > 0 {
      PrefixTotal(works, last, n - 1, b, p);
    }
  }

  lemma {:induction false} CountPositive(ops: seq<Op>, j: nat)
    requires j < |ops|
    ensures Count(ops, ops[j].buffer) > 0
  {
    if j > 0 {
      CountPositive(ops[1..], j - 1);
    }
  }

  lemma {:induction false} TotalPositive(works: seq<seq<Op>>, n: nat, k: nat, j: nat)
    requires k < n <= |works| && j < |works[k]|
    ensures Total(works, n, works[k][j].buffer) > 0
    decreases n
  {
    CountPositive(works[k], j);
    if k < n - 1 {
      TotalPositive(works, n - 1, k, j);
    }
  }
}

/** Frames are put together by copies that are carried out later, in any order: and come out as if each piece had
    been appended at once. */
module UvcFrames {
  import opened Bytes
  import opened UvcFrameTrace
  import opened UvcCopies
  import RelayWire

  datatype State = WasQueued | Active | Ready | Done | Failed

  /** A capture buffer: its memory, how much of it is in use, and how many still need it. */
  datatype Buffer = Buffer(mem: seq<byte>, used: nat, state: State, error: bool, refs: nat)

  datatype Place = Nowhere | Index(b: nat)

  // -------------------------------------------------------------------------
  // Payload headers

  predicate WellFormed(data: seq<byte>) { |data| >= 2 && 2 <= data[0] as nat <= |data| }

  function Fid(data: seq<byte>): int
    requires |data| >= 2
  {
    data[1] as int % 2
  }

  predicate EndOfFrame(data: seq<byte>)
    requires |data| >= 2
  {
    data[1] as int / 2 % 2 == 1
  }

  predicate Faulty(data: seq<byte>)
    requires |data| >= 2
  {
    data[1] as int / 64 % 2 == 1
  }

  /** The payload starts a JPEG image. */
  predicate StartsImage(data: seq<byte>)
    requires WellFormed(data)
  {
    var at := data[0] as nat;
    |data| >= at + 2 && data[at] == 0xFF && data[at + 1] == 0xD8
  }

  /** The lowest bit turned over. */
  function Flip(fid: int): int { if fid % 2 == 0 then fid + 1 else fid - 1 }

  /** What follows the header. */
  function Payload(data: seq<byte>): seq<byte> { if WellFormed(data) then data[data[0] as nat..] else [] }

  function Cut(data: seq<byte>, room: int): seq<byte> {
    if room < 0 then [] else if room < |data| then data[..room] else data
  }

  datatype Start = Invalid | Again | NoData | Header(length: nat)

  /** The program gives a buffer; a worker carries out a copy; a transfer comes in, and is decoded bit by bit. */
  datatype Step =
    | Give(b: nat)
    | Copy(work: nat)
    | Open
    | Packet(ok: bool, data: seq<byte>)
    | Bulk(data: seq<byte>, short: bool)
    | Close

  // -------------------------------------------------------------------------
  // What a step does

  /** A stream at one moment. */
  datatype View = View(
    buffers: seq<Buffer>, queue: seq<nat>, works: seq<seq<Op>>, decoding: bool, current: Place, lastFid: int,
    header: seq<byte>, skip: bool, events: seq<Event>, taken: seq<byte>)

  ghost function MemoryOf(buffers: seq<Buffer>, b: nat): nat { if b < |buffers| then |buffers[b].mem| else 0 }

  /** How much of a payload is taken: what fits into the buffer being filled if the payload goes on with its frame
      or starts it, or what fits into the next buffer if the payload shows that the frame had ended. */
  ghost function RoomIn(v: View, noEof: bool, data: seq<byte>): int {
    if !WellFormed(data) || v.current == Nowhere || v.current.b >= |v.buffers| then 0
    else
      var buffer := v.buffers[v.current.b];
      if buffer.used > 0 && (Fid(data) != v.lastFid || (noEof && StartsImage(data)))
      then if |v.queue| > 1 then MemoryOf(v.buffers, v.queue[1]) else 0
      else if buffer.state == Active || Fid(data) != v.lastFid then |buffer.mem| - buffer.used else 0
  }

  /** What is taken of a bulk transfer, which may be any part of a payload. */
  ghost function BulkPieceIn(v: View, noEof: bool, data: seq<byte>): seq<byte> {
    if v.header == [] then if v.skip then [] else Cut(Payload(data), RoomIn(v, noEof, data))
    else if v.current.Index? && v.current.b < |v.buffers|
    then Cut(data, |v.buffers[v.current.b].mem| - v.buffers[v.current.b].used) else []
  }

  /** What is taken in a step. */
  ghost function PieceIn(v: View, noEof: bool, bulk: bool, step: Step): seq<byte> {
    match step
    case Packet(ok, data) =>
      if ok && v.decoding && !bulk then Cut(Payload(data), RoomIn(v, noEof, data)) else []
    case Bulk(data, _) =>
      if v.decoding && bulk then BulkPieceIn(v, noEof, data) else []
    case _ => []
  }

  /** A step from one moment to the next: what cannot be done changes nothing. */
  ghost predicate IsStep(v: View, step: Step, w: View, noEof: bool, bulk: bool) {
    && w.taken == v.taken + PieceIn(v, noEof, bulk, step)
    && v.events <= w.events && |w.buffers| == |v.buffers|
    && match step
       case Give(b) =>
         if b < |v.buffers| && v.buffers[b].refs == 0
         then w.queue == v.queue + [b] && w.events == v.events + [Queued(b)] && w.works == v.works else w == v
       case Copy(k) =>
         if k < |v.works| && v.works[k] != [] && (v.decoding ==> k < |v.works| - 1)
         then w.works == v.works[k := v.works[k][1..]] && w.decoding == v.decoding && w.current == v.current else w == v
       case Open =>
         if v.decoding then w == v
         else
           && w.decoding && w.works == v.works + [[]] && w.queue == v.queue && w.events == v.events
           && w.current == if v.queue == [] then Nowhere else Index(v.queue[0])
       case Packet(_, _) => if v.decoding && !bulk then w.decoding else w == v
       case Bulk(_, _) => if v.decoding && bulk then w.decoding else w == v
       case Close => if v.decoding then !w.decoding && w.works == v.works && w.events == v.events else w == v
  }

  /** A run through a script. */
  ghost predicate IsRun(views: seq<View>, script: seq<Step>, noEof: bool, bulk: bool) {
    && |views| == |script| + 1
    && forall i :: 0 <= i < |script| ==> IsStep(views[i], script[i], views[i + 1], noEof, bulk)
  }

  // -------------------------------------------------------------------------
  // What holds between steps

  ghost predicate Distinct(s: seq<nat>) {
    forall i, j :: 0 <= i < j < |s| ==> s[i] != s[j]
  }

  /** A buffer in flight is referred to by the queue and by every copy. */
  ghost predicate Sound(buffer: Buffer, life: Life, refs: nat) {
    && buffer.used == |life.content| <= |buffer.mem|
    && buffer.refs == refs && life.flight == (if refs > 0 then Flying else Idle)
    && life.tag != Mixed && (life.tag.One? <==> life.content != [])
  }

  /** Whatever is not written yet is still to be copied. */
  ghost predicate Written(buffer: Buffer, content: seq<byte>, works: seq<seq<Op>>, b: nat) {
    forall p :: 0 <= p < |content| && p < |buffer.mem| ==> IsWritten(buffer.mem, content, works, b, p)
  }

  ghost predicate IsWritten(mem: seq<byte>, content: seq<byte>, works: seq<seq<Op>>, b: nat, p: nat)
    requires p < |content| && p < |mem|
  {
    mem[p] == content[p] || CoveredBy(works, |works|, b, p)
  }

  ghost function Refs(queue: seq<nat>, works: seq<seq<Op>>, extra: Place, b: nat): nat {
    Total(works, |works|, b) + (if b in queue then 1 else 0) + if extra == Index(b) then 1 else 0
  }

  /** A buffer that left the queue without an error holds a whole frame. */
  ghost predicate FineAt(
    buffers: seq<Buffer>, lives: seq<Life>, queue: seq<nat>, works: seq<seq<Op>>, extra: Place, format: Format, b: nat)
    requires b < |buffers| == |lives|
  {
    && Sound(buffers[b], lives[b], Refs(queue, works, extra, b))
    && Written(buffers[b], lives[b].content, works, b)
    && (buffers[b].refs > 0 && b !in queue && !buffers[b].error ==> FullSize(format, buffers[b].used))
  }

  ghost predicate AllFine(
    buffers: seq<Buffer>, lives: seq<Life>, queue: seq<nat>, works: seq<seq<Op>>, extra: Place, format: Format)
  {
    && |lives| == |buffers|
    && forall b :: 0 <= b < |buffers| ==> FineAt(buffers, lives, queue, works, extra, format, b)
  }

  const FOLDED: nat := 4

  /** All of this together. The depth says nothing: it keeps the definition folded until it is needed. */
  ghost predicate Kept(
    events: seq<Event>, taken: seq<byte>, lives: seq<Life>, format: Format, noDrop: bool, works: seq<seq<Op>>,
    buffers: seq<Buffer>, queue: seq<nat>, extra: Place, depth: nat)
    ensures Kept(events, taken, lives, format, noDrop, works, buffers, queue, extra, depth) ==> |lives| == |buffers|
    decreases |buffers|, depth
  {
    if depth > 0 then Kept(events, taken, lives, format, noDrop, works, buffers, queue, extra, depth - 1)
    else
      && IsTaken(events, taken) && Traced(events, lives, format, noDrop) && AllFit(works, lives)
      && AllFine(buffers, lives, queue, works, extra, format)
  }

  lemma KeptMeans(
    events: seq<Event>, taken: seq<byte>, lives: seq<Life>, format: Format, noDrop: bool, works: seq<seq<Op>>,
    buffers: seq<Buffer>, queue: seq<nat>, extra: Place)
    ensures Kept(events, taken, lives, format, noDrop, works, buffers, queue, extra, FOLDED) <==>
            && IsTaken(events, taken) && Traced(events, lives, format, noDrop) && AllFit(works, lives)
            && AllFine(buffers, lives, queue, works, extra, format)
  {
    assert Kept(events, taken, lives, format, noDrop, works, buffers, queue, extra, 2) ==
           Kept(events, taken, lives, format, noDrop, works, buffers, queue, extra, 3);
    assert Kept(events, taken, lives, format, noDrop, works, buffers, queue, extra, 1) ==
           Kept(events, taken, lives, format, noDrop, works, buffers, queue, extra, 2);
  }

  /** Only the first buffer of the queue has data in it, which came with identifier `fid`. It may have been found
      full already while a payload is `open`. */
  ghost predicate QueueFine(
    buffers: seq<Buffer>, lives: seq<Life>, queue: seq<nat>, decoding: bool, current: Place, fid: int, open: bool)
    requires |lives| == |buffers|
  {
    && Distinct(queue) && (forall i :: 0 <= i < |queue| ==> queue[i] < |buffers|)
    && (current.Index? ==> decoding && queue != [] && queue[0] == current.b)
    && (forall i :: 0 <= i < |queue| && buffers[queue[i]].used > 0 ==>
                      && i == 0 && (decoding ==> current == Index(queue[0])) && lives[queue[0]].tag == One(fid)
                      && (buffers[queue[0]].state == Active || (open && buffers[queue[0]].state == Ready)))
  }

  // -------------------------------------------------------------------------
  // Steps on values

  /** A buffer that no copy goes into may be given anything to hold. */
  lemma FitsWithout(works: seq<seq<Op>>, lives: seq<Life>, b: nat, life: Life)
    requires AllFit(works, lives) && b < |lives|
    requires forall k, j :: 0 <= k < |works| && 0 <= j < |works[k]| ==> works[k][j].buffer != b
    ensures AllFit(works, lives[b := life])
  {
    forall k, j | 0 <= k < |works| && 0 <= j < |works[k]|
      ensures IsFit(works[k][j], lives[b := life])
    {
      assert Fits(works[k], lives) && IsFit(works[k][j], lives);
    }
  }

  /** So may one that only gets more. */
  lemma FitsMore(works: seq<seq<Op>>, lives: seq<Life>, b: nat, life: Life)
    requires AllFit(works, lives) && b < |lives| && lives[b].content <= life.content
    ensures AllFit(works, lives[b := life])
  {
    forall k, j | 0 <= k < |works| && 0 <= j < |works[k]|
      ensures IsFit(works[k][j], lives[b := life])
    {
      assert Fits(works[k], lives) && IsFit(works[k][j], lives);
    }
  }

  /** The rest of the copies still fit when one is done. */
  lemma StillFit(works: seq<seq<Op>>, k: nat, lives: seq<Life>)
    requires AllFit(works, lives) && k < |works| && works[k] != []
    ensures AllFit(works[k := works[k][1..]], lives)
  {
    assert Fits(works[k], lives);
    forall j | 0 <= j < |works[k]| - 1
      ensures IsFit(works[k][1..][j], lives)
    {
      assert IsFit(works[k][j + 1], lives);
    }
  }

  /** What a copy wrote need not be written any more, and it is one reference less. */
  lemma CopyDone(before: Buffer, after: Buffer, content: seq<byte>, works: seq<seq<Op>>, k: nat, c: nat)
    requires k < |works| && works[k] != [] && |content| <= |before.mem| && Written(before, content, works, c)
    requires var op := works[k][0];
             if op.buffer == c
             then At(content, op.at, op.data) && after.mem == RelayWire.Overwrite(before.mem, op.at, op.data)
             else after.mem == before.mem
    ensures Written(after, content, works[k := works[k][1..]], c)
    ensures Total(works, |works|, c) == Total(works[k := works[k][1..]], |works|, c) + Mine(works[k][0], c)
  {
    var works' := works[k := works[k][1..]];
    TotalUpdate(works, k, works[k][1..], |works|, c, 0);
    forall p | 0 <= p < |content|
      ensures IsWritten(after.mem, content, works', c, p)
    {
      assert IsWritten(before.mem, content, works, c, p);
      TotalUpdate(works, k, works[k][1..], |works|, c, p);
    }
  }

  /** A work item without copies changes nothing. */
  lemma StartFine(buffers: seq<Buffer>, lives: seq<Life>, queue: seq<nat>, works: seq<seq<Op>>, format: Format)
    requires AllFine(buffers, lives, queue, works, Nowhere, format) && AllFit(works, lives)
    ensures AllFine(buffers, lives, queue, works + [[]], Nowhere, format) && AllFit(works + [[]], lives)
  {
    forall c | 0 <= c < |buffers|
      ensures FineAt(buffers, lives, queue, works + [[]], Nowhere, format, c)
    {
      assert FineAt(buffers, lives, queue, works, Nowhere, format, c);
      PrefixTotal(works, [], |works|, c, 0);
      forall p | 0 <= p < |lives[c].content| && p < |buffers[c].mem|
        ensures IsWritten(buffers[c].mem, lives[c].content, works + [[]], c, p)
      {
        assert IsWritten(buffers[c].mem, lives[c].content, works, c, p);
        PrefixTotal(works, [], |works|, c, p);
      }
    }
    forall k | 0 <= k < |works + [[]]|
      ensures Fits((works + [[]])[k], lives)
    {
      assert k < |works| ==> Fits(works[k], lives);
    }
  }

  /** An empty buffer may be put at the end of the queue. */
  lemma QueueGrows(
    buffers: seq<Buffer>, lives: seq<Life>, queue: seq<nat>, decoding: bool, current: Place, fid: int, open: bool,
    b: nat, buffer: Buffer, life: Life)
    requires |lives| == |buffers| && QueueFine(buffers, lives, queue, decoding, current, fid, open)
    requires b < |buffers| && b !in queue && buffer.used == 0
    ensures QueueFine(buffers[b := buffer], lives[b := life], queue + [b], decoding, current, fid, open)
  {
  }

  /** The first buffer gets more, with the same identifier. */
  lemma QueueFills(
    buffers: seq<Buffer>, lives: seq<Life>, queue: seq<nat>, current: Place, fid: int, open: bool, buffer: Buffer,
    life: Life)
    requires |lives| == |buffers| && current.Index? && current.b < |buffers|
    requires QueueFine(buffers, lives, queue, true, current, fid, open)
    requires buffer.used > 0 ==> life.tag == One(fid)
    requires buffer.state == Active || buffer.state == Ready
    ensures QueueFine(buffers[current.b := buffer], lives[current.b := life], queue, true, current, fid, true)
    ensures buffer.state == Active ==>
              QueueFine(buffers[current.b := buffer], lives[current.b := life], queue, true, current, fid, false)
  {
  }

  /** A buffer that nobody refers to is emptied and put into the queue. */
  lemma PutFine(
    buffers: seq<Buffer>, lives: seq<Life>, queue: seq<nat>, works: seq<seq<Op>>, extra: Place, format: Format, b: nat,
    buffer: Buffer, life: Life)
    requires AllFine(buffers, lives, queue, works, extra, format) && b < |buffers| && b !in queue
    requires (extra == Index(b) || extra == Nowhere) && Total(works, |works|, b) == 0
    requires buffer == Buffer(buffers[b].mem, 0, WasQueued, false, 1) && life == Life([], Flying, Untagged)
    ensures AllFine(buffers[b := buffer], lives[b := life], queue + [b], works, Nowhere, format)
  {
    var buffers', lives' := buffers[b := buffer], lives[b := life];
    forall c | 0 <= c < |buffers|
      ensures FineAt(buffers', lives', queue + [b], works, Nowhere, format, c)
    {
      assert FineAt(buffers, lives, queue, works, extra, format, c);
    }
  }

  /** A buffer that only the caller refers to is handed out. */
  lemma CompleteFine(
    buffers: seq<Buffer>, lives: seq<Life>, queue: seq<nat>, works: seq<seq<Op>>, format: Format, b: nat,
    buffer: Buffer, life: Life)
    requires AllFine(buffers, lives, queue, works, Index(b), format) && b < |buffers| && b !in queue
    requires Total(works, |works|, b) == 0 && buffer == buffers[b].(refs := 0, state := buffer.state)
    requires life == lives[b].(flight := Idle)
    ensures AllFine(buffers[b := buffer], lives[b := life], queue, works, Nowhere, format)
  {
    var buffers', lives' := buffers[b := buffer], lives[b := life];
    forall c | 0 <= c < |buffers|
      ensures FineAt(buffers', lives', queue, works, Nowhere, format, c)
    {
      assert FineAt(buffers, lives, queue, works, Index(b), format, c);
    }
  }

  /** A copy is carried out. */
  lemma CopyFine(
    buffers: seq<Buffer>, lives: seq<Life>, queue: seq<nat>, works: seq<seq<Op>>, format: Format, k: nat,
    buffer: Buffer)
    requires AllFine(buffers, lives, queue, works, Nowhere, format) && k < |works| && works[k] != []
    requires works[k][0].buffer < |buffers| && At(lives[works[k][0].buffer].content, works[k][0].at, works[k][0].data)
    requires var op := works[k][0]; var before := buffers[op.buffer];
             && op.at + |op.data| <= |before.mem|
             && buffer == before.(mem := RelayWire.Overwrite(before.mem, op.at, op.data))
    ensures var op := works[k][0];
            AllFine(buffers[op.buffer := buffer], lives, queue, works[k := works[k][1..]], Index(op.buffer), format)
  {
    var op := works[k][0];
    var buffers', works' := buffers[op.buffer := buffer], works[k := works[k][1..]];
    forall c | 0 <= c < |buffers|
      ensures FineAt(buffers', lives, queue, works', Index(op.buffer), format, c)
    {
      assert FineAt(buffers, lives, queue, works, Nowhere, format, c);
      CopyDone(buffers[c], buffers'[c], lives[c].content, works, k, c);
    }
  }

  /** The flags of a buffer that is still in the queue are free. */
  lemma MarkFine(
    buffers: seq<Buffer>, lives: seq<Life>, queue: seq<nat>, works: seq<seq<Op>>, format: Format, b: nat,
    buffer: Buffer)
    requires AllFine(buffers, lives, queue, works, Nowhere, format) && b < |buffers| && b in queue
    requires buffer == buffers[b].(state := buffer.state, error := buffer.error)
    ensures AllFine(buffers[b := buffer], lives, queue, works, Nowhere, format)
  {
    var buffers' := buffers[b := buffer];
    forall c | 0 <= c < |buffers|
      ensures FineAt(buffers', lives, queue, works, Nowhere, format, c)
    {
      assert FineAt(buffers, lives, queue, works, Nowhere, format, c);
    }
  }

  /** The first buffer leaves the queue, having been looked at. */
  lemma LeaveFine(
    buffers: seq<Buffer>, lives: seq<Life>, queue: seq<nat>, works: seq<seq<Op>>, format: Format)
    requires AllFine(buffers, lives, queue, works, Nowhere, format) && Distinct(queue)
    requires queue != [] && queue[0] < |buffers|
    requires !buffers[queue[0]].error ==> FullSize(format, buffers[queue[0]].used)
    ensures AllFine(buffers, lives, queue[1..], works, Index(queue[0]), format)
  {
    forall c | 0 <= c < |buffers|
      ensures FineAt(buffers, lives, queue[1..], works, Index(queue[0]), format, c)
    {
      assert FineAt(buffers, lives, queue, works, Nowhere, format, c);
      assert queue == [queue[0]] + queue[1..];
    }
  }

  /** One more copy: the piece becomes part of what the buffer is to hold. */
  lemma AddFine(
    buffers: seq<Buffer>, lives: seq<Life>, queue: seq<nat>, works: seq<seq<Op>>, format: Format, op: Op,
    buffer: Buffer, life: Life)
    requires AllFine(buffers, lives, queue, works, Nowhere, format) && works != []
    requires op.buffer < |buffers| && op.buffer in queue && op.at == buffers[op.buffer].used
    requires var before := buffers[op.buffer];
             && op.at + |op.data| <= |before.mem|
             && buffer == before.(refs := before.refs + 1, used := before.used + |op.data|, state := buffer.state,
                                  error := buffer.error)
    requires var was := lives[op.buffer]; life.content == was.content + op.data && life.flight == Flying
    requires life.tag != Mixed && (life.tag.One? <==> life.content != [])
    ensures var k := |works| - 1;
            AllFine(buffers[op.buffer := buffer], lives[op.buffer := life], queue, works[k := works[k] + [op]],
                    Nowhere, format)
  {
    var k := |works| - 1;
    var buffers', lives' := buffers[op.buffer := buffer], lives[op.buffer := life];
    var works' := works[k := works[k] + [op]];
    forall c | 0 <= c < |buffers|
      ensures FineAt(buffers', lives', queue, works', Nowhere, format, c)
    {
      assert FineAt(buffers, lives, queue, works, Nowhere, format, c);
      CopyAdded(buffers[c], buffers'[c], lives[c].content, lives'[c].content, works, op, c);
    }
  }

  lemma CopyAdded(
    before: Buffer, after: Buffer, content: seq<byte>, content': seq<byte>, works: seq<seq<Op>>, op: Op, c: nat)
    requires works != [] && |content| <= |before.mem| && Written(before, content, works, c) && after.mem == before.mem
    requires content' == if op.buffer == c then content + op.data else content
    requires op.buffer == c ==> op.at == |content|
    ensures var k := |works| - 1; var works' := works[k := works[k] + [op]];
            && Written(after, content', works', c)
            && Total(works', |works|, c) == Total(works, |works|, c) + Mine(op, c)
  {
    var k := |works| - 1;
    var works' := works[k := works[k] + [op]];
    CountAppend(works[k], op, c, 0);
    TotalUpdate(works, k, works[k] + [op], |works|, c, 0);
    forall p | 0 <= p < |content'| && p < |after.mem|
      ensures IsWritten(after.mem, content', works', c, p)
    {
      CountAppend(works[k], op, c, p);
      TotalUpdate(works, k, works[k] + [op], |works|, c, p);
      if p < |content| {
        assert IsWritten(before.mem, content, works, c, p);
      }
    }
  }

  lemma AddFits(works: seq<seq<Op>>, lives: seq<Life>, op: Op, life: Life)
    requires AllFit(works, lives) && works != [] && op.buffer < |lives|
    requires op.at == |lives[op.buffer].content| && life.content == lives[op.buffer].content + op.data
    ensures AllFit(works[|works| - 1 := works[|works| - 1] + [op]], lives[op.buffer := life])
  {
    FitsMore(works, lives, op.buffer, life);
    assert Fits(works[|works| - 1], lives[op.buffer := life]);
  }

  class Stream {
    /** Deliver frames with errors instead of dropping them. */
    const noDrop: bool
    const format: Format
    /** The device does not turn over the identifier; or does not mark the end of a JPEG frame. */
    const noFid: bool
    const noEof: bool
    const bulk: bool
    const maxPayload: nat
    var buffers: seq<Buffer>
    /** The buffers waiting to be filled; the first one is being filled. */
    var queue: seq<nat>
    /** The copies put off, one item for each transfer; the last item is being made while decoding. */
    var works: seq<seq<Op>>
    var decoding: bool
    var current: Place
    var lastFid: int
    /** The header of a bulk payload that is still going on. */
    var header: seq<byte>
    var skip: bool
    var payloadSize: nat
    ghost var events: seq<Event>
    ghost var lives: seq<Life>
    /** All that was accepted. */
    ghost var taken: seq<byte>

    ghost predicate Valid()
      reads this
    {
      && Holds(Nowhere, lastFid, header != [])
      && (header != [] ==> bulk && !skip && |header| >= 2 && Underway())
    }

    /** The first buffer of the queue is being filled, or was found full. */
    ghost predicate Underway()
      reads this
    {
      && queue != [] && queue[0] < |buffers|
      && (buffers[queue[0]].state == Active || buffers[queue[0]].state == Ready)
    }

    /** What holds while a reference to one buffer is about to be dropped. */
    ghost predicate Holds(extra: Place, fid: int, open: bool)
      reads this
    {
      && Kept(events, taken, lives, format, noDrop, works, buffers, queue, extra, FOLDED)
      && QueueFine(buffers, lives, queue, decoding, current, fid, open) && (decoding ==> works != [])
    }

    lemma Means(extra: Place)
      ensures Kept(events, taken, lives, format, noDrop, works, buffers, queue, extra, FOLDED) <==>
              && IsTaken(events, taken) && Traced(events, lives, format, noDrop) && AllFit(works, lives)
              && AllFine(buffers, lives, queue, works, extra, format)
    {
      KeptMeans(events, taken, lives, format, noDrop, works, buffers, queue, extra);
    }

    constructor (
      noDrop: bool, format: Format, noFid: bool, noEof: bool, bulk: bool, maxPayload: nat, memory: seq<seq<byte>>)
      ensures Valid() && events == [] && |buffers| == |memory| && queue == [] && !decoding
      ensures this.noDrop == noDrop && this.format == format && this.bulk == bulk
      ensures forall b :: 0 <= b < |buffers| ==> |buffers[b].mem| == |memory[b]|
    {
      this.noDrop, this.format, this.noFid, this.noEof := noDrop, format, noFid, noEof;
      this.bulk, this.maxPayload := bulk, maxPayload;
      buffers := seq(|memory|, b requires 0 <= b < |memory| => Buffer(memory[b], 0, Done, false, 0));
      queue, works, decoding, current := [], [], false, Nowhere;
      lastFid, header, skip, payloadSize := -1, [], false, 0;
      events, taken, lives := [], [], seq(|memory|, b => Life([], Idle, Untagged));
      new;
      Means(Nowhere);
    }

    // -----------------------------------------------------------------------
    // References

    /** Drops a reference; with the last one the buffer is handed out, or goes back into the queue if it is
        faulty. */
    method Release(b: nat, ghost fid: int, ghost open: bool)
      requires b < |buffers| && Holds(Index(b), fid, open)
      modifies this`buffers, this`queue, this`events, this`lives
      ensures Holds(Nowhere, fid, open) && |buffers| == |old(buffers)|
      ensures queue == old(queue) || queue == old(queue) + [b]
      ensures old(events) <= events
      ensures forall c :: 0 <= c < |buffers| && c != b ==> buffers[c] == old(buffers[c])
      ensures b in old(queue) ==> buffers[b] == old(buffers[b]).(refs := buffers[b].refs)
    {
      Means(Index(b));
      assert FineAt(buffers, lives, queue, works, Index(b), format, b);
      if buffers[b].refs > 1 {
        KeepReference(b, fid, open);
        return;
      }
      if buffers[b].error && !noDrop {
        Put(b, Requeued(b), Index(b), fid, open);
      } else {
        Complete(b, fid, open);
      }
    }

    method KeepReference(b: nat, ghost fid: int, ghost open: bool)
      requires b < |buffers| && Holds(Index(b), fid, open) && buffers[b].refs > 1
      modifies this`buffers
      ensures Holds(Nowhere, fid, open)
      ensures buffers == old(buffers)[b := old(buffers[b]).(refs := old(buffers[b].refs) - 1)]
    {
      Means(Index(b));
      buffers := buffers[b := buffers[b].(refs := buffers[b].refs - 1)];
      forall c | 0 <= c < |buffers|
        ensures FineAt(buffers, lives, queue, works, Nowhere, format, c)
      {
        assert FineAt(old(buffers), lives, queue, works, Index(b), format, c);
      }
      Means(Nowhere);
    }

    /** The buffer is handed out: nothing is to be written any more. */
    method Complete(b: nat, ghost fid: int, ghost open: bool)
      requires b < |buffers| && Holds(Index(b), fid, open) && b !in queue && buffers[b].refs == 1
      requires buffers[b].error ==> noDrop
      modifies this`buffers, this`events, this`lives
      ensures Holds(Nowhere, fid, open) && |buffers| == |old(buffers)|
      ensures buffers[b].used == old(buffers[b].used) <= |buffers[b].mem|
      ensures events == old(events) + [Completed(b, buffers[b].mem[..buffers[b].used], old(buffers[b].error))]
      ensures buffers[b].mem[..buffers[b].used] == old(lives[b].content)
      ensures forall c :: 0 <= c < |buffers| && c != b ==> buffers[c] == old(buffers[c])
    {
      Means(Index(b));
      var buffer := buffers[b];
      LastIsWritten(b, fid, open);
      NoCopies(b, Index(b), fid, open);
      ghost var e := Completed(b, buffer.mem[..buffer.used], buffer.error);
      ghost var life := NextLife(lives[b], e, b);
      TracedStep(events, lives, format, noDrop, e);
      TakenStep(events, e);
      FitsWithout(works, lives, b, life);
      events, lives := events + [e], lives[b := life];
      buffers := buffers[b := buffer.(refs := 0, state := if buffer.error then Failed else Done)];
      CompleteFine(old(buffers), old(lives), queue, works, format, b, buffers[b], life);
      Means(Nowhere);
    }

    /** With the last reference the last copy is gone. */
    lemma LastIsWritten(b: nat, fid: int, open: bool)
      requires b < |buffers| && Holds(Index(b), fid, open) && b !in queue && buffers[b].refs == 1
      ensures buffers[b].used <= |buffers[b].mem| && buffers[b].mem[..buffers[b].used] == lives[b].content
      ensures !buffers[b].error ==> FullSize(format, |lives[b].content|)
    {
      Means(Index(b));
      assert FineAt(buffers, lives, queue, works, Index(b), format, b);
      forall p | 0 <= p < |lives[b].content|
        ensures buffers[b].mem[p] == lives[b].content[p]
      {
        assert IsWritten(buffers[b].mem, lives[b].content, works, b, p);
        TotalZero(works, |works|, b, p);
      }
    }

    /** Empties a buffer that nobody else refers to and puts it at the end of the queue. */
    method Put(b: nat, ghost e: Event, ghost extra: Place, ghost fid: int, ghost open: bool)
      requires b < |buffers| && Holds(extra, fid, open) && b !in queue
      requires if extra == Index(b) then buffers[b].refs == 1 && e == Requeued(b)
               else extra == Nowhere && buffers[b].refs == 0 && e == Queued(b)
      modifies this`buffers, this`queue, this`events, this`lives
      ensures Holds(Nowhere, fid, open) && queue == old(queue) + [b] && events == old(events) + [e]
      ensures buffers == old(buffers)[b := Buffer(old(buffers[b].mem), 0, WasQueued, false, 1)]
    {
      Means(extra);
      NoCopies(b, extra, fid, open);
      ghost var life := NextLife(lives[b], e, b);
      TracedStep(events, lives, format, noDrop, e);
      TakenStep(events, e);
      FitsWithout(works, lives, b, life);
      events, lives := events + [e], lives[b := life];
      buffers := buffers[b := Buffer(buffers[b].mem, 0, WasQueued, false, 1)];
      queue := queue + [b];
      QueueGrows(old(buffers), old(lives), old(queue), decoding, current, fid, open, b, buffers[b], life);
      PutFine(old(buffers), old(lives), old(queue), works, extra, format, b, buffers[b], life);
      Means(Nowhere);
    }

    /** When nothing but the caller refers to a buffer, no copy goes into it. */
    lemma NoCopies(b: nat, extra: Place, fid: int, open: bool)
      requires b < |buffers| && Holds(extra, fid, open) && b !in queue
      requires buffers[b].refs == if extra == Index(b) then 1 else 0
      ensures lives[b].flight == (if extra == Index(b) then Flying else Idle) && lives[b].tag != Mixed
      ensures Total(works, |works|, b) == 0
      ensures forall k, j :: 0 <= k < |works| && 0 <= j < |works[k]| ==> works[k][j].buffer != b
    {
      Means(extra);
      assert FineAt(buffers, lives, queue, works, extra, format, b);
      forall k, j | 0 <= k < |works| && 0 <= j < |works[k]|
        ensures works[k][j].buffer != b
      {
        TotalPositive(works, |works|, k, j);
      }
    }

    // -----------------------------------------------------------------------
    // The program gives a buffer, and a worker carries out a copy

    /** A buffer that the program owns is given to the driver. */
    method QueueBuffer(b: nat)
      requires Valid() && b < |buffers| && buffers[b].refs == 0
      modifies this`buffers, this`queue, this`events, this`lives
      ensures Valid() && |buffers| == |old(buffers)|
      ensures events == old(events) + [Queued(b)] && queue == old(queue) + [b]
    {
      Means(Nowhere);
      assert FineAt(buffers, lives, queue, works, Nowhere, format, b);
      Put(b, Queued(b), Nowhere, lastFid, header != []);
    }

    /** Carries out the first copy of a transfer that was decoded, and lets go of its buffer. */
    method RunCopy(k: nat)
      requires Valid() && k < |works| && works[k] != [] && (decoding ==> k < |works| - 1)
      modifies this`buffers, this`queue, this`events, this`lives, this`works
      ensures Valid() && |buffers| == |old(buffers)| && works == old(works)[k := old(works[k])[1..]]
      ensures old(events) <= events
    {
      CopyKeeps(k, lastFid, header != []);
      var op := works[k][0];
      var buffer := buffers[op.buffer];
      buffers := buffers[op.buffer := buffer.(mem := RelayWire.Overwrite(buffer.mem, op.at, op.data))];
      works := works[k := works[k][1..]];
      Release(op.buffer, lastFid, header != []);
    }

    /** A copy stays within its buffer, and what it writes is what the buffer is to hold. */
    lemma CopyKeeps(k: nat, fid: int, open: bool)
      requires Holds(Nowhere, fid, open) && k < |works| && works[k] != []
      ensures var op := works[k][0];
              && op.buffer < |buffers| && op.at + |op.data| <= |buffers[op.buffer].mem|
              && var buffer := buffers[op.buffer];
              var buffers' := buffers[op.buffer := buffer.(mem := RelayWire.Overwrite(buffer.mem, op.at, op.data))];
              Kept(events, taken, lives, format, noDrop, works[k := works[k][1..]], buffers', queue, Index(op.buffer),
                   FOLDED)
    {
      Means(Nowhere);
      var op := works[k][0];
      assert Fits(works[k], lives) && IsFit(op, lives);
      assert FineAt(buffers, lives, queue, works, Nowhere, format, op.buffer);
      var buffer := buffers[op.buffer].(mem := RelayWire.Overwrite(buffers[op.buffer].mem, op.at, op.data));
      StillFit(works, k, lives);
      CopyFine(buffers, lives, queue, works, format, k, buffer);
      KeptMeans(events, taken, lives, format, noDrop, works[k := works[k][1..]], buffers[op.buffer := buffer], queue,
                Index(op.buffer));
    }

    // -----------------------------------------------------------------------
    // A transfer came in

    /** Decoding fills the first buffer of the queue, if there is one by then. */
    method StartTransfer()
      requires Valid() && !decoding
      modifies this`works, this`decoding, this`current
      ensures Valid() && decoding && works == old(works) + [[]]
      ensures current == if queue == [] then Nowhere else Index(queue[0])
    {
      Means(Nowhere);
      works := works + [[]];
      StartFine(buffers, lives, queue, old(works), format);
      decoding := true;
      current := if queue == [] then Nowhere else Index(queue[0]);
      Means(Nowhere);
    }

    /** From here on the copies of the transfer may be carried out. */
    method FinishTransfer()
      requires Valid() && decoding
      modifies this`decoding, this`current
      ensures Valid() && !decoding
    {
      decoding, current := false, Nowhere;
    }

    /** Sets the flags of the buffer being filled. */
    method Mark(state: State, error: bool, ghost fid: int, ghost open: bool)
      requires Holds(Nowhere, fid, open) && current.Index?
      requires state == Active || state == Ready || state == buffers[current.b].state
      modifies this`buffers
      ensures Holds(Nowhere, fid, true) && (state == Active ==> Holds(Nowhere, fid, false))
      ensures state == old(buffers[current.b].state) ==> Holds(Nowhere, fid, open)
      ensures current.b < |buffers|
      ensures buffers == old(buffers)[current.b := old(buffers[current.b]).(state := state, error := error)]
    {
      Means(Nowhere);
      MarkFine(buffers, lives, queue, works, format, current.b, buffers[current.b].(state := state, error := error));
      buffers := buffers[current.b := buffers[current.b].(state := state, error := error)];
      Means(Nowhere);
    }

    /** Lets go of the buffer being filled; the next one is empty. */
    method NextBuffer(ghost fid: int)
      requires Holds(Nowhere, fid, true) && current.Index?
      modifies this`buffers, this`queue, this`events, this`lives, this`current
      ensures Holds(Nowhere, lastFid, false)
      ensures |buffers| == |old(buffers)| && old(events) <= events
      ensures forall i :: 0 <= i < |queue| ==> queue[i] < |buffers| && buffers[queue[i]].used == 0
      ensures current == if |old(queue)| > 1 then Index(old(queue)[1]) else Nowhere
      ensures forall c :: 0 <= c < |buffers| && Index(c) != old(current) ==> buffers[c] == old(buffers[c])
    {
      var b := current.b;
      Validate(fid);
      Means(Nowhere);
      LeaveFine(buffers, lives, queue, works, format);
      queue := queue[1..];
      Means(Index(b));
      current := if queue == [] then Nowhere else Index(queue[0]);
      Release(b, lastFid, false);
    }

    /** A frame of the wrong size is faulty. */
    method Validate(ghost fid: int)
      requires Holds(Nowhere, fid, true) && current.Index?
      modifies this`buffers
      ensures Holds(Nowhere, fid, true) && |buffers| == |old(buffers)|
      ensures !buffers[current.b].error ==> FullSize(format, buffers[current.b].used)
      ensures forall c :: 0 <= c < |buffers| && Index(c) != current ==> buffers[c] == old(buffers[c])
    {
      var b := current.b;
      if format.Plain? && format.size != buffers[b].used {
        Mark(buffers[b].state, true, fid, true);
      }
    }

    /** Looks at the header of a payload: a frame ends when the identifier turns over, and a buffer is filled only
        from the start of a frame. */
    method DecodeStart(data: seq<byte>) returns (r: Start)
      requires Holds(Nowhere, lastFid, false) && decoding
      modifies this`buffers, this`lastFid
      ensures |buffers| == |old(buffers)| && (current.Index? ==> current.b < |buffers|)
      ensures r == Invalid <==> !WellFormed(data)
      ensures r == Again <==>
              && WellFormed(data) && current.Index? && old(buffers[current.b].used) > 0
              && (Fid(data) != old(lastFid) || (noEof && StartsImage(data)))
      ensures r.Header? <==>
              && WellFormed(data) && r != Again && current.Index?
              && (old(buffers[current.b].state) == Active || Fid(data) != old(lastFid))
      ensures r == Again ==>
                Holds(Nowhere, old(lastFid), true) && buffers[current.b].state == Ready && Fid(data) != lastFid
      ensures forall c :: 0 <= c < |buffers| && Index(c) != current ==> buffers[c] == old(buffers[c])
      ensures current.Index? ==>
                buffers[current.b] == old(buffers[current.b]).(state := buffers[current.b].state,
                                                               error := buffers[current.b].error)
      ensures r != Again ==> Holds(Nowhere, lastFid, false)
      ensures r.Header? ==> r.length == data[0] as nat && lastFid == Fid(data) && buffers[current.b].state == Active
      ensures r.Header? && Faulty(data) ==> buffers[current.b].error
      ensures r == Invalid ==> buffers == old(buffers) && lastFid == old(lastFid)
    {
      if |data| < 2 || data[0] < 2 || data[0] as nat > |data| {
        return Invalid;
      }
      var fid := Fid(data);
      if fid != lastFid && current.Index? && buffers[current.b].used != 0 {
        Mark(Ready, buffers[current.b].error, lastFid, false);
        return Again;
      }
      if noEof && current.Index? && buffers[current.b].used != 0 && StartsImage(data) {
        Mark(Ready, true, lastFid, false);
        lastFid := Flip(lastFid);
        return Again;
      }
      if current == Nowhere {
        lastFid := fid;
        return NoData;
      }
      if Faulty(data) {
        Mark(buffers[current.b].state, true, lastFid, false);
      }
      r := Synchronize(data, fid);
    }

    /** A payload is taken if its frame is being filled already, or if it is the first of its frame. */
    method Synchronize(data: seq<byte>, fid: int) returns (r: Start)
      requires Holds(Nowhere, lastFid, false) && decoding && current.Index? && WellFormed(data) && fid == Fid(data)
      requires buffers[current.b].used > 0 ==> fid == lastFid
      modifies this`buffers, this`lastFid
      ensures Holds(Nowhere, lastFid, false) && |buffers| == |old(buffers)|
      ensures r == if old(buffers[current.b].state) == Active || fid != old(lastFid)
                   then Header(data[0] as nat) else NoData
      ensures r.Header? ==>
                && lastFid == fid
                && buffers == old(buffers)[current.b := old(buffers[current.b]).(state := Active)]
      ensures r == NoData ==> buffers == old(buffers)
    {
      if buffers[current.b].state != Active {
        if fid == lastFid {
          if noFid && EndOfFrame(data) {
            lastFid := Flip(lastFid);
          }
          return NoData;
        }
        Mark(Active, buffers[current.b].error, lastFid, false);
      }
      lastFid := fid;
      return Header(data[0] as nat);
    }

    ghost function Now(): View
      reads this
    {
      View(buffers, queue, works, decoding, current, lastFid, header, skip, events, taken)
    }

    ghost function Room(data: seq<byte>): int
      reads this
    {
      RoomIn(Now(), noEof, data)
    }

    /** Takes as many buffers as it needs: the second one is empty, and is not given up again. */
    method Begin(data: seq<byte>) returns (r: Start)
      requires Holds(Nowhere, lastFid, false) && decoding
      modifies this`buffers, this`lastFid, this`queue, this`events, this`lives, this`current
      ensures Holds(Nowhere, lastFid, false) && |buffers| == |old(buffers)| && r != Again
      ensures Begun(r, data, old(Room(data)))
      ensures old(events) <= events
    {
      ghost var fid, room := lastFid, Room(data);
      r := DecodeStart(data);
      while r == Again
        invariant |buffers| == |old(buffers)| && decoding
        invariant r == Again ==> Holds(Nowhere, fid, true) && Ended(data, room)
        invariant r != Again ==> Holds(Nowhere, lastFid, false) && Begun(r, data, room)
        invariant old(events) <= events
        decreases if r == Again then 1 else 0
      {
        NextBuffer(fid);
        fid := lastFid;
        r := DecodeStart(data);
      }
    }

    ghost predicate Begun(r: Start, data: seq<byte>, room: int)
      reads this
    {
      if r.Header?
      then
        && WellFormed(data) && r.length == data[0] as nat && lastFid == Fid(data)
        && current.Index? && current.b < |buffers| && buffers[current.b].state == Active
        && |buffers[current.b].mem| - buffers[current.b].used == room
      else room == 0
    }

    ghost predicate Ended(data: seq<byte>, room: int)
      reads this
    {
      && WellFormed(data) && Fid(data) != lastFid && current.Index?
      && if |queue| > 1 then queue[1] < |buffers| && |buffers[queue[1]].mem| == room else room == 0
    }

    /** Puts off the copy of as much as fits. A payload that does not fit ends the frame, with an error. */
    method DecodeData(data: seq<byte>, ghost open: bool) returns (ghost piece: seq<byte>)
      requires Holds(Nowhere, lastFid, open) && decoding && current.Index? && Underway()
      requires buffers[current.b].state == Ready ==> open
      modifies this`buffers, this`works, this`events, this`taken, this`lives
      ensures Holds(Nowhere, lastFid, true) && Underway() && |buffers| == |old(buffers)|
      ensures piece == Cut(data, |old(buffers[current.b].mem)| - old(buffers[current.b].used))
      ensures piece != data ==> buffers[current.b].error && buffers[current.b].state == Ready
      ensures piece == data ==>
                && Holds(Nowhere, lastFid, open)
                && buffers[current.b].state == old(buffers[current.b].state)
                && buffers[current.b].error == old(buffers[current.b].error)
      ensures taken == old(taken) + piece && old(events) <= events
      ensures |works| == |old(works)| && |works[|works| - 1]| <= |old(works)[|works| - 1]| + 1
    {
      piece := [];
      if data == [] {
        return;
      }
      Means(Nowhere);
      assert FineAt(buffers, lives, queue, works, Nowhere, format, current.b);
      var before := buffers[current.b];
      var room := |before.mem| - before.used;
      piece := Cut(data, room);
      var op := Op(current.b, before.used, Cut(data, room));
      if |data| > room {
        AddCopy(op, true, Ready, open);
      } else {
        AddCopy(op, before.error, before.state, open);
      }
    }

    /** Puts off a copy, which holds on to the buffer until it is done. */
    method AddCopy(op: Op, error: bool, state: State, ghost open: bool)
      requires Holds(Nowhere, lastFid, open) && decoding && current.Index? && op.buffer == current.b < |buffers|
      requires op.at == buffers[op.buffer].used && op.at + |op.data| <= |buffers[op.buffer].mem|
      requires state == Active || state == Ready
      modifies this`buffers, this`works, this`events, this`taken, this`lives
      ensures Holds(Nowhere, lastFid, true) && (state == Active ==> Holds(Nowhere, lastFid, false))
      ensures var was := old(buffers[op.buffer]);
              buffers == old(buffers)[op.buffer := Buffer(was.mem, was.used + |op.data|, state, error, was.refs + 1)]
      ensures var k := |old(works)| - 1; works == old(works)[k := old(works)[k] + [op]]
      ensures events == old(events) + [Accepted(op.buffer, op.data, lastFid)]
      ensures taken == old(taken) + op.data
    {
      var b, last := op.buffer, |works| - 1;
      var buffer := Buffer(buffers[b].mem, buffers[b].used + |op.data|, state, error, buffers[b].refs + 1);
      ghost var e := Accepted(b, op.data, lastFid);
      AddKeeps(op, buffer, e, open);
      events, taken, lives := events + [e], taken + op.data, lives[b := NextLife(lives[b], e, b)];
      buffers, works := buffers[b := buffer], works[last := works[last] + [op]];
    }

    lemma AddKeeps(op: Op, buffer: Buffer, e: Event, open: bool)
      requires Holds(Nowhere, lastFid, open) && decoding && current.Index? && op.buffer == current.b < |buffers|
      requires op.at == buffers[op.buffer].used && op.at + |op.data| <= |buffers[op.buffer].mem|
      requires buffer.state == Active || buffer.state == Ready
      requires var was := buffers[op.buffer];
               buffer == Buffer(was.mem, was.used + |op.data|, buffer.state, buffer.error, was.refs + 1)
      requires e == Accepted(op.buffer, op.data, lastFid)
      ensures var life := NextLife(lives[op.buffer], e, op.buffer);
              var buffers', lives' := buffers[op.buffer := buffer], lives[op.buffer := life];
              var works' := works[|works| - 1 := works[|works| - 1] + [op]];
              && Kept(events + [e], taken + op.data, lives', format, noDrop, works', buffers', queue, Nowhere, FOLDED)
              && QueueFine(buffers', lives', queue, decoding, current, lastFid, true)
              && (buffer.state == Active ==> QueueFine(buffers', lives', queue, decoding, current, lastFid, false))
    {
      Means(Nowhere);
      assert FineAt(buffers, lives, queue, works, Nowhere, format, op.buffer);
      ghost var life := NextLife(lives[op.buffer], e, op.buffer);
      TakenStep(events, e);
      TracedStep(events, lives, format, noDrop, e);
      AddFine(buffers, lives, queue, works, format, op, buffer, life);
      AddFits(works, lives, op, life);
      QueueFills(buffers, lives, queue, current, lastFid, open, buffer, life);
      KeptMeans(events + [e], taken + op.data, lives[op.buffer := life], format, noDrop,
                works[|works| - 1 := works[|works| - 1] + [op]],
                buffers[op.buffer := buffer], queue, Nowhere);
    }

    /** The frame ends with a payload that says so. */
    method DecodeEnd(head: seq<byte>)
      requires Holds(Nowhere, lastFid, true) && current.Index? && Underway() && |head| >= 2
      modifies this`buffers, this`lastFid
      ensures Holds(Nowhere, old(lastFid), true) && Underway() && |buffers| == |old(buffers)|
      ensures buffers[current.b].state == Ready <==>
              old(buffers[current.b].state) == Ready || (EndOfFrame(head) && old(buffers[current.b].used) > 0)
      ensures buffers[current.b].state != Ready ==> lastFid == old(lastFid)
    {
      if EndOfFrame(head) && buffers[current.b].used != 0 {
        Mark(Ready, buffers[current.b].error, lastFid, true);
        if noFid {
          lastFid := Flip(lastFid);
        }
      }
    }

    method EndPayload(head: seq<byte>)
      requires Holds(Nowhere, lastFid, true) && current.Index? && Underway() && |head| >= 2
      modifies this`buffers, this`lastFid, this`queue, this`events, this`lives, this`current
      ensures Holds(Nowhere, lastFid, false) && |buffers| == |old(buffers)|
      ensures old(events) <= events
    {
      ghost var fid := lastFid;
      DecodeEnd(head);
      if buffers[current.b].state == Ready {
        NextBuffer(fid);
      }
    }

    /** One packet of an isochronous transfer, or one that was lost. */
    method DecodePacket(ok: bool, data: seq<byte>) returns (ghost piece: seq<byte>)
      requires Valid() && decoding && !bulk
      modifies this`buffers, this`works, this`lastFid, this`queue, this`events, this`taken, this`lives, this`current
      ensures Valid() && |buffers| == |old(buffers)|
      ensures piece == if ok then Cut(Payload(data), old(Room(data))) else []
      ensures taken == old(taken) + piece && old(events) <= events
      ensures |works| == |old(works)| && |works[|works| - 1]| <= |old(works)[|works| - 1]| + 1
    {
      piece := [];
      if !ok {
        if current.Index? {
          Mark(buffers[current.b].state, true, lastFid, false);
        }
        return;
      }
      var r := Begin(data);
      if r.Header? {
        piece := DecodeData(data[r.length..], false);
        EndPayload(data);
      }
    }

    ghost function BulkPiece(data: seq<byte>): seq<byte>
      reads this
    {
      BulkPieceIn(Now(), noEof, data)
    }

    /** A bulk transfer; `short` when it did not fill its buffer. */
    method DecodeBulk(data: seq<byte>, short: bool) returns (ghost piece: seq<byte>)
      requires Valid() && decoding && bulk
      modifies this`buffers, this`works, this`lastFid, this`queue, this`events, this`taken, this`lives, this`current
      modifies this`header, this`skip, this`payloadSize
      ensures Valid() && |buffers| == |old(buffers)|
      ensures piece == old(BulkPiece(data))
      ensures taken == old(taken) + piece && old(events) <= events
      ensures |works| == |old(works)| && |works[|works| - 1]| <= |old(works)[|works| - 1]| + 1
    {
      piece := [];
      if data == [] && header == [] {
        return;
      }
      var rest := BeginBulk(data);
      piece := ContinueBulk(rest);
      if short || payloadSize >= maxPayload {
        EndBulk();
      }
    }

    /** Decodes and keeps the header if this is the first transfer of its payload. */
    method BeginBulk(data: seq<byte>) returns (rest: seq<byte>)
      requires Valid() && decoding && bulk
      modifies this`buffers, this`lastFid, this`queue, this`events, this`lives, this`current
      modifies this`header, this`skip, this`payloadSize
      ensures Valid() && |buffers| == |old(buffers)| && (header == [] <==> skip)
      ensures payloadSize == old(payloadSize) + |data|
      ensures old(BulkPiece(data)) == if skip || current == Nowhere then [] else
                Cut(rest, |buffers[current.b].mem| - buffers[current.b].used)
      ensures old(events) <= events
    {
      rest, payloadSize := data, payloadSize + |data|;
      if header == [] && !skip {
        var r := Begin(data);
        if r.Header? {
          header, rest := data[..r.length], data[r.length..];
        } else {
          skip := true;
        }
      }
    }

    method ContinueBulk(rest: seq<byte>) returns (ghost piece: seq<byte>)
      requires Valid() && decoding && bulk && (header == [] <==> skip)
      modifies this`buffers, this`works, this`events, this`taken, this`lives
      ensures Valid() && |buffers| == |old(buffers)|
      ensures piece == if skip || current == Nowhere then [] else
                Cut(rest, |old(buffers[current.b].mem)| - old(buffers[current.b].used))
      ensures taken == old(taken) + piece && old(events) <= events
      ensures |works| == |old(works)| && |works[|works| - 1]| <= |old(works)[|works| - 1]| + 1
    {
      piece := [];
      if !skip && current.Index? {
        piece := DecodeData(rest, true);
      }
    }

    /** The payload is over. */
    method EndBulk()
      requires Valid() && decoding && bulk && (header == [] <==> skip)
      modifies this`buffers, this`lastFid, this`queue, this`events, this`lives, this`current
      modifies this`header, this`skip, this`payloadSize
      ensures Valid() && |buffers| == |old(buffers)| && header == [] && !skip && payloadSize == 0
      ensures old(events) <= events
    {
      if !skip && current.Index? {
        EndPayload(header);
      }
      header, skip, payloadSize := [], false, 0;
    }

    // -----------------------------------------------------------------------
    // Any run

    /** Does what can be done, in any order. A buffer that is handed out holds what was taken for it, and so does
        every buffer that nobody fills any more; a buffer is in flight exactly while the queue or a copy needs it. */
    method Run(script: seq<Step>) returns (ghost views: seq<View>)
      requires Valid()
      modifies this
      ensures Valid() && IsRun(views, script, noEof, bulk) && views[0] == old(Now()) && views[|script|] == Now()
      ensures Faithful(events, format, noDrop) && Taken(events) == taken
      ensures forall b :: 0 <= b < |buffers| ==> IsAsTold(b, LifeOf(events, |events|, b))
      ensures |buffers| == |old(buffers)| && old(events) <= events
    {
      views := [Now()];
      for i := 0 to |script|
        invariant Valid() && |buffers| == |old(buffers)| && old(events) <= events
        invariant |views| == i + 1 && views[0] == old(Now()) && views[i] == Now()
        invariant forall j :: 0 <= j < i ==> IsStep(views[j], script[j], views[j + 1], noEof, bulk)
      {
        Take(script[i]);
        views := views + [Now()];
      }
      Means(Nowhere);
      forall b | 0 <= b < |buffers|
        ensures IsAsTold(b, lives[b])
      {
        assert FineAt(buffers, lives, queue, works, Nowhere, format, b);
        if buffers[b].refs == 0 {
          forall p | 0 <= p < |lives[b].content|
            ensures buffers[b].mem[p] == lives[b].content[p]
          {
            assert IsWritten(buffers[b].mem, lives[b].content, works, b, p);
            TotalZero(works, |works|, b, p);
          }
        }
      }
    }

    ghost predicate IsAsTold(b: nat, life: Life)
      requires b < |buffers|
      reads this
    {
      && life.flight != Broken && life.tag != Mixed
      && buffers[b].used == |life.content| <= |buffers[b].mem|
      && (life.flight == Flying <==> b in queue || Total(works, |works|, b) > 0)
      && (life.flight == Idle <==> buffers[b].refs == 0)
      && (buffers[b].refs == 0 ==> buffers[b].mem[..buffers[b].used] == life.content)
    }

    method Take(step: Step)
      requires Valid()
      modifies this
      ensures Valid() && IsStep(old(Now()), step, Now(), noEof, bulk)
    {
      match step
      case Give(b) =>
        if b < |buffers| && buffers[b].refs == 0 {
          QueueBuffer(b);
        }
      case Copy(k) =>
        if k < |works| && works[k] != [] && (decoding ==> k < |works| - 1) {
          RunCopy(k);
        }
      case Open =>
        if !decoding {
          StartTransfer();
        }
      case Close =>
        if decoding {
          FinishTransfer();
        }
      case _ => TakeData(step);
    }

    method TakeData(step: Step)
      requires Valid() && (step.Packet? || step.Bulk?)
      modifies this
      ensures Valid() && IsStep(old(Now()), step, Now(), noEof, bulk)
    {
      match step
      case Packet(ok, data) =>
        if decoding && !bulk {
          ghost var _ := DecodePacket(ok, data);
        }
      case Bulk(data, short) =>
        if decoding && bulk {
          ghost var _ := DecodeBulk(data, short);
        }
    }
  }
}
