/** The bulk transport: one receive and one send request, owned by the process or by the kernel. */
module UrbTransport {
  import opened Bytes
  import opened UrbKernel

  const NORMAL_REAP_LIMIT: nat := 8
  const WAIT_LIMIT: nat := 16
  const CLEANUP_REAP_LIMIT: nat := 16
  const DISCARD_RETRY_LIMIT: nat := 4
  const CLEANUP_WAIT_MS: nat := 50
  const MAX_TIMEOUT_MS: nat := 60000
  const MAX_U64: nat := 0xFFFF_FFFF_FFFF_FFFF

  datatype Status =
    | Ok | InvalidArgument | AllocationFailed | ClaimFailed | ReleaseFailed | SubmitFailed | TimedOut | Interrupted
    | TransferFailed | ShortTransfer | ReapFailed | CleanupFailed | InvalidState

  datatype State = Uninitialized | Ready | Busy | StateTimedOut | StateInterrupted | TransferError | Poisoned

  datatype SlotState = Idle | SlotSubmitted | SlotReaped

  class Slot {
    const urb: Urb
    /** Whether the request and its buffer are allocated. */
    var present: bool
    var state: SlotState

    constructor ()
      ensures fresh(urb) && fresh(urb.buffer) && urb.buffer.Length == TRANSFER_SIZE && !present && state == Idle
    {
      urb := new Urb();
      present, state := false, Idle;
    }

    predicate Active()
      reads this
    {
      state == SlotSubmitted
    }

    /** Clears the request and its buffer; the kernel must not own them. */
    method Reset(receive: bool, ghost kernel: Kernel)
      requires urb !in kernel.held
      modifies this, urb, urb.buffer
      ensures state == Idle && present == old(present)
      ensures urb.status == 0 && urb.actualLength == 0 && urb.shortNotOk == receive
      ensures forall i :: 0 <= i < urb.buffer.Length ==> urb.buffer[i] == 0
    {
      forall i | 0 <= i < urb.buffer.Length {
        urb.buffer[i] := 0;
      }
      urb.status, urb.actualLength, urb.shortNotOk := 0, 0, receive;
      state := Idle;
    }

    /** Puts what is to be sent into the buffer; the kernel must not own it. */
    method Fill(data: seq<byte>, ghost kernel: Kernel)
      requires urb !in kernel.held && |data| == urb.buffer.Length
      modifies urb.buffer
      ensures urb.buffer[..] == data
    {
      forall i | 0 <= i < |data| {
        urb.buffer[i] := data[i];
      }
    }
  }

  class Transport {
    const kernel: Kernel
    const input: Slot
    const output: Slot
    var state: State
    var interfaceClaimed: bool

    constructor (kernel: Kernel)
      ensures this.kernel == kernel && state == Uninitialized && !interfaceClaimed
      ensures fresh(input) && fresh(output) && fresh(input.urb) && fresh(output.urb)
      ensures fresh(input.urb.buffer) && fresh(output.urb.buffer)
      ensures Distinct() && !input.present && !output.present && input.state == Idle && output.state == Idle
      ensures Accounted()
    {
      this.kernel := kernel;
      input := new Slot();
      output := new Slot();
      state, interfaceClaimed := Uninitialized, false;
    }

    ghost predicate Distinct() {
      && input != output && input.urb != output.urb && input.urb.buffer != output.urb.buffer
      && input.urb.buffer.Length == TRANSFER_SIZE && output.urb.buffer.Length == TRANSFER_SIZE
    }

    /** Everything the transport may change. */
    ghost function Parts(): set<object> {
      {this, kernel, input, output, input.urb, output.urb, input.urb.buffer, output.urb.buffer}
    }

    /** What the kernel was given to send is what the transport was asked to send, and it was given something
        to receive into only when the transport was asked to receive. */
    ghost predicate Accounted()
      reads kernel
    {
      AllAccounted(kernel.trace, kernel.requests)
    }

    ghost predicate AllAccounted(trace: seq<Event>, requests: seq<Request>) {
      forall i :: 0 <= i < |trace| ==> IsAccounted(trace[i], requests)
    }

    ghost predicate IsAccounted(e: Event, requests: seq<Request>) {
      e.Submitted? && e.urb in {input.urb, output.urb} ==>
        0 < e.request <= |requests| && Permits(requests[e.request - 1], e.urb, e.data)
    }

    ghost predicate Permits(request: Request, urb: Urb, data: seq<byte>) {
      if urb == input.urb then request.direction != Out else request.direction != In && request.data == data
    }

    /** The transfer asked for last permits this submission. */
    ghost predicate Permitted(urb: Urb, data: seq<byte>)
      reads kernel
    {
      kernel.requests != [] && Permits(kernel.requests[|kernel.requests| - 1], urb, data)
    }

    /** The kernel holds exactly the requests that the slots say it holds. */
    ghost predicate Tracked()
      reads this, kernel, input, output
    {
      && Distinct() && Accounted()
      && kernel.held <= {input.urb, output.urb}
      && (input.urb in kernel.held <==> input.state == SlotSubmitted)
      && (output.urb in kernel.held <==> output.state == SlotSubmitted)
    }

    /** The kernel holds nothing and both slots can be used again. */
    ghost predicate Quiet()
      reads this, kernel, input, output
    {
      kernel.held == {} && input.state == Idle && output.state == Idle && state != Busy && state != Poisoned
    }

    /** The kernel still holds something, so nothing may be cleared or freed. */
    ghost predicate Stuck()
      reads this, kernel, input, output
    {
      kernel.held != {} && state == Poisoned
    }

    /** Between operations. */
    ghost predicate Valid()
      reads this, kernel, input, output
    {
      Tracked() && (Quiet() || Stuck())
    }

    predicate AnyActive()
      reads this, input, output
    {
      input.Active() || output.Active()
    }

    /** What the trace says when a request was carried out in full. */
    ghost function FullReap(urb: Urb): Event
      reads urb.buffer
    {
      Reaped(urb, 0, TRANSFER_SIZE, urb.buffer[..])
    }

    /** Since `from`, exactly the reaped requests were handed back, each once and each carried out in full. */
    ghost predicate ReapedSince(from: nat)
      reads kernel, input, output, input.urb.buffer, output.urb.buffer
    {
      && from <= |kernel.trace|
      && var events := kernel.trace[from..];
         if input.state == SlotReaped && output.state == SlotReaped then
           || events == [FullReap(input.urb), FullReap(output.urb)]
           || events == [FullReap(output.urb), FullReap(input.urb)]
         else if input.state == SlotReaped then events == [FullReap(input.urb)]
         else if output.state == SlotReaped then events == [FullReap(output.urb)]
         else events == []
    }

    method RecordReap(urb: Urb?) returns (status: Status)
      requires Distinct()
      modifies input`state, output`state
      ensures status == if (urb == input.urb && old(input.state) == SlotSubmitted)
                           || (urb == output.urb && old(output.state) == SlotSubmitted) then Ok else ReapFailed
      ensures input.state == if status == Ok && urb == input.urb then SlotReaped else old(input.state)
      ensures output.state == if status == Ok && urb == output.urb then SlotReaped else old(output.state)
    {
      if urb == input.urb && input.state == SlotSubmitted {
        input.state := SlotReaped;
        return Ok;
      }
      if urb == output.urb && output.state == SlotSubmitted {
        output.state := SlotReaped;
        return Ok;
      }
      status := ReapFailed;
    }

    /** Reaps once and books the result on the slot it belongs to. */
    method ReapOne() returns (result: OpResult, recorded: Status, urb: Urb?)
      requires Tracked()
      modifies kernel`calls, kernel`held, kernel`trace, input`state, output`state
      modifies kernel.held, set u | u in kernel.held :: u.buffer
      ensures Tracked() && kernel.calls == old(kernel.calls) + 1
      ensures result == OpOk && recorded == Ok ==>
                && urb in old(kernel.held) && kernel.held == old(kernel.held) - {urb}
                && kernel.trace == old(kernel.trace) + [Reaped(urb, urb.status, urb.actualLength, urb.buffer[..])]
                && urb in {input.urb, output.urb}
      ensures !(result == OpOk && recorded == Ok) ==>
                kernel.held == old(kernel.held) && kernel.trace == old(kernel.trace)
      ensures input.state ==
                if urb == input.urb && result == OpOk && recorded == Ok then SlotReaped else old(input.state)
      ensures output.state ==
                if urb == output.urb && result == OpOk && recorded == Ok then SlotReaped else old(output.state)
    {
      result, urb := kernel.Reap();
      recorded := ReapFailed;
      if result == OpOk {
        recorded := RecordReap(urb);
      }
    }

    method DiscardSlot(slot: Slot)
      modifies kernel`calls
      ensures old(kernel.calls) <= kernel.calls
      ensures kernel.calls <= old(kernel.calls) + if slot.Active() then DISCARD_RETRY_LIMIT else 0
    {
      if !slot.Active() {
        return;
      }
      for attempt := 0 to DISCARD_RETRY_LIMIT
        invariant old(kernel.calls) <= kernel.calls <= old(kernel.calls) + attempt
      {
        var result := kernel.Discard(slot.urb);
        if result != OpInterrupted {
          return;
        }
      }
    }

    /** Calls that a cleanup may take. */
    static const CLEANUP_CALLS: nat := 2 * DISCARD_RETRY_LIMIT + 2 * CLEANUP_REAP_LIMIT + 2

    /** Cancels what the kernel still holds and waits, within limits, until it is handed back. */
    method CleanupActive() returns (status: Status)
      requires Tracked()
      modifies this`state, kernel`calls, kernel`held, kernel`trace, input`state, output`state
      modifies kernel.held, set u | u in kernel.held :: u.buffer
      ensures Tracked() && kernel.calls <= old(kernel.calls) + CLEANUP_CALLS
      ensures old(kernel.held) == {} ==> kernel.calls == old(kernel.calls)
      ensures status == if kernel.held == {} then Ok else CleanupFailed
      ensures state == if kernel.held == {} then old(state) else Poisoned
      ensures |old(kernel.trace)| <= |kernel.trace|
    {
      DiscardSlot(input);
      DiscardSlot(output);
      var waits, reaped := 0, 0;
      while waits < CLEANUP_REAP_LIMIT && reaped < 2 && AnyActive()
        invariant Tracked() && waits <= CLEANUP_REAP_LIMIT && reaped <= 2 && state == old(state)
        invariant kernel.held <= old(kernel.held) && |old(kernel.trace)| <= |kernel.trace|
        invariant old(kernel.held) == {} ==> kernel.calls == old(kernel.calls)
        invariant kernel.calls <= old(kernel.calls) + 2 * DISCARD_RETRY_LIMIT + 2 * waits + reaped
        decreases 2 * CLEANUP_REAP_LIMIT - waits - reaped
      {
        var result, recorded, _ := ReapOne();
        if result == OpOk {
          if recorded != Ok {
            break;
          }
          reaped := reaped + 1;
          continue;
        }
        var _ := kernel.WaitReady(CLEANUP_WAIT_MS);
        waits := waits + 1;
      }
      if AnyActive() {
        state := Poisoned;
        return CleanupFailed;
      }
      status := Ok;
    }

    /** Both slots can be used again; the kernel must hold neither. */
    method MakeSlotsReusable()
      requires Distinct() && Accounted() && kernel.held == {}
      modifies input, output, input.urb, output.urb, input.urb.buffer, output.urb.buffer
      ensures Tracked() && input.state == Idle && output.state == Idle
      ensures input.present == old(input.present) && output.present == old(output.present)
    {
      input.Reset(true, kernel);
      output.Reset(false, kernel);
    }

    /** Every failure ends either with everything back or with the transport poisoned. */
    method FinishFailure(status: Status, next: State) returns (r: Status)
      requires Tracked() && status != Ok && next !in {Busy, Poisoned}
      modifies Parts()
      ensures Valid() && kernel.calls <= old(kernel.calls) + CLEANUP_CALLS
      ensures old(kernel.held) == {} ==> kernel.calls == old(kernel.calls)
      ensures Quiet() ==> r == status && state == next
      ensures Stuck() ==> r == CleanupFailed
      ensures SameAllocation() && Onward()
    {
      var cleaned := CleanupActive();
      if cleaned != Ok {
        return CleanupFailed;
      }
      MakeSlotsReusable();
      state := next;
      r := status;
    }

    /** Nothing more was asked for, and the clock did not go back. */
    twostate predicate Onward()
      reads kernel
    {
      kernel.requests == old(kernel.requests) && kernel.Later()
    }

    twostate predicate SameAllocation()
      reads this, input, output
    {
      && input.present == old(input.present) && output.present == old(output.present)
      && interfaceClaimed == old(interfaceClaimed)
    }

    method SubmitSlot(slot: Slot) returns (status: Status)
      requires Tracked() && slot in {input, output} && Permitted(slot.urb, slot.urb.buffer[..])
      modifies kernel`calls, kernel`held, kernel`trace, slot`state
      ensures Tracked() && kernel.calls <= old(kernel.calls) + 1
      ensures status == Ok ==>
                && old(slot.state) == Idle && slot.state == SlotSubmitted
                && kernel.trace == old(kernel.trace) + [Submitted(slot.urb, slot.urb.buffer[..], |kernel.requests|)]
      ensures status != Ok ==> slot.state == old(slot.state) && kernel.trace == old(kernel.trace)
    {
      if slot.state != Idle {
        return InvalidState;
      }
      var result := kernel.Submit(slot.urb);
      if result != OpOk {
        return SubmitFailed;
      }
      slot.state := SlotSubmitted;
      status := Ok;
    }

    /** Takes what the kernel has ready; anything but a full transfer is an error. */
    method ReapAvailable(ghost from: nat) returns (status: Status)
      requires Tracked() && ReapedSince(from)
      modifies kernel`calls, kernel`held, kernel`trace, input`state, output`state
      modifies kernel.held, set u | u in kernel.held :: u.buffer
      ensures Tracked() && kernel.calls <= old(kernel.calls) + NORMAL_REAP_LIMIT
      ensures status == Ok ==> ReapedSince(from) && kernel.trace[..from] == old(kernel.trace[..from])
      ensures input.state == Idle <==> old(input.state) == Idle
      ensures output.state == Idle <==> old(output.state) == Idle
    {
      for attempt := 0 to NORMAL_REAP_LIMIT
        invariant Tracked() && ReapedSince(from) && kernel.calls <= old(kernel.calls) + attempt
        invariant kernel.held <= old(kernel.held) && kernel.trace[..from] == old(kernel.trace[..from])
        invariant input.state == Idle <==> old(input.state) == Idle
        invariant output.state == Idle <==> old(output.state) == Idle
      {
        var result, recorded, urb := ReapOne();
        if result == OpAgain {
          return Ok;
        }
        if result == OpInterrupted {
          return Interrupted;
        }
        if result != OpOk || recorded != Ok {
          return ReapFailed;
        }
        if urb.status != 0 {
          return TransferFailed;
        }
        if urb.actualLength != TRANSFER_SIZE {
          return ShortTransfer;
        }
      }
      status := if AnyActive() then Ok else ReapFailed;
    }

    /** One round of waiting; a failure comes with the state to end in. */
    method WaitOnce(deadline: nat, ghost from: nat) returns (status: Status, next: State)
      requires Tracked() && ReapedSince(from)
      modifies kernel`calls, kernel`clock, kernel`readings, kernel`held, kernel`trace, input`state, output`state
      modifies kernel.held, set u | u in kernel.held :: u.buffer
      ensures Tracked() && kernel.calls <= old(kernel.calls) + 2 + NORMAL_REAP_LIMIT
      ensures status == Ok ==> ReapedSince(from) && kernel.trace[..from] == old(kernel.trace[..from])
      ensures input.state == Idle <==> old(input.state) == Idle
      ensures output.state == Idle <==> old(output.state) == Idle
      ensures kernel.Later()
      ensures next in {StateTimedOut, StateInterrupted, TransferError}
    {
      var result, now := kernel.MonotonicMs();
      if result != OpOk {
        return TransferFailed, TransferError;
      }
      var remaining := RemainingTimeout(deadline, now);
      if remaining == 0 {
        return TimedOut, StateTimedOut;
      }
      result := kernel.WaitReady(remaining);
      if result == OpAgain {
        return TimedOut, StateTimedOut;
      }
      if result == OpInterrupted {
        return Interrupted, StateInterrupted;
      }
      if result != OpOk {
        return TransferFailed, TransferError;
      }
      status := ReapAvailable(from);
      next := if status == Interrupted then StateInterrupted else TransferError;
    }

    static const WAIT_CALLS: nat := WAIT_LIMIT * (2 + NORMAL_REAP_LIMIT) + CLEANUP_CALLS

    /** Waits until nothing is active any more, or cleans up. */
    method WaitForActive(deadline: nat, ghost from: nat) returns (status: Status)
      requires Tracked() && ReapedSince(from) && state == Busy
      modifies Parts()
      ensures kernel.calls <= old(kernel.calls) + WAIT_CALLS && SameAllocation() && Onward()
      ensures status == Ok ==> Tracked() && kernel.held == {} && state == Busy
      ensures status == Ok ==> ReapedSince(from) && kernel.trace[..from] == old(kernel.trace[..from])
      ensures status == Ok ==> (input.state == Idle <==> old(input.state) == Idle)
      ensures status == Ok ==> (output.state == Idle <==> old(output.state) == Idle)
      ensures status != Ok ==> Valid()
    {
      var next;
      status, next := WaitWhileActive(deadline, from);
      if status != Ok {
        status := FinishFailure(status, next);
      }
    }

    /** The rounds of waiting; a failure comes with the state to end in. */
    method WaitWhileActive(deadline: nat, ghost from: nat) returns (status: Status, next: State)
      requires Tracked() && ReapedSince(from)
      modifies Parts()
      ensures Tracked() && kernel.calls <= old(kernel.calls) + WAIT_LIMIT * (2 + NORMAL_REAP_LIMIT)
      ensures state == old(state) && SameAllocation() && Onward()
      ensures next in {StateTimedOut, StateInterrupted, TransferError}
      ensures status == Ok ==> kernel.held == {}
      ensures status == Ok ==> ReapedSince(from) && kernel.trace[..from] == old(kernel.trace[..from])
      ensures input.state == Idle <==> old(input.state) == Idle
      ensures output.state == Idle <==> old(output.state) == Idle
    {
      var attempt := 0;
      next := TransferError;
      while attempt < WAIT_LIMIT && AnyActive()
        invariant attempt <= WAIT_LIMIT && Tracked() && ReapedSince(from)
        invariant state == old(state) && SameAllocation() && Onward() && next == TransferError
        invariant kernel.calls <= old(kernel.calls) + attempt * (2 + NORMAL_REAP_LIMIT)
        invariant kernel.trace[..from] == old(kernel.trace[..from])
        invariant input.state == Idle <==> old(input.state) == Idle
        invariant output.state == Idle <==> old(output.state) == Idle
      {
        status, next := WaitOnce(deadline, from);
        if status != Ok {
          return;
        }
        next := TransferError;
        attempt := attempt + 1;
      }
      status := if AnyActive() then ReapFailed else Ok;
    }

    method ValidateTransferReady(timeoutMs: nat) returns (status: Status, deadline: nat)
      requires Valid()
      modifies this`state, kernel`calls, kernel`clock, kernel`readings
      ensures Valid() && kernel.calls <= old(kernel.calls) + 1
      ensures status == Ok ==> Quiet() && interfaceClaimed && input.present && output.present
      ensures status == Ok ==> 0 < timeoutMs <= MAX_TIMEOUT_MS && deadline == kernel.clock + timeoutMs <= MAX_U64
      ensures status == Ok ==> state == old(state) != Uninitialized
      ensures old(Stuck()) ==> status != Ok && kernel.calls == old(kernel.calls)
      ensures kernel.Later()
    {
      deadline := 0;
      if timeoutMs == 0 || timeoutMs > MAX_TIMEOUT_MS {
        return InvalidArgument, 0;
      }
      if !interfaceClaimed || !input.present || !output.present || AnyActive()
         || state == Uninitialized || state == Busy || state == Poisoned
      {
        return InvalidState, 0;
      }
      var result, start := kernel.MonotonicMs();
      if result != OpOk || start + timeoutMs > MAX_U64 {
        state := TransferError;
        return TransferFailed, 0;
      }
      status, deadline := Ok, start + timeoutMs;
    }

    /** The kernel has exactly one more transfer on record, this one. */
    twostate predicate Asked(direction: Direction, timeoutMs: nat, new data: seq<byte>)
      reads kernel
    {
      && kernel.requests == old(kernel.requests) + [Request(direction, timeoutMs, old(kernel.clock), data)]
      && kernel.Later()
    }

    static const EXCHANGE_CALLS: nat := 3 + WAIT_CALLS

    /** Sends one relay buffer and receives one: the receive is armed before the request is visible. */
    method Exchange(data: array?<byte>, length: nat, reply: array?<byte>, capacity: nat, timeoutMs: nat)
      returns (status: Status)
      requires Valid() && (data != null ==> data.Length == length) && (reply != null ==> reply.Length == capacity)
      requires data !in Parts() && reply !in Parts()
      modifies Parts(), reply
      ensures Valid() && SameAllocation() && kernel.calls <= old(kernel.calls) + EXCHANGE_CALLS
      ensures Asked(Both, timeoutMs, if data == null then [] else old(data[..]))
      ensures status != Ok && reply != null ==> reply[..] == old(reply[..])
      ensures status == Ok ==>
                && data != null && reply != null && length == capacity == TRANSFER_SIZE
                && state == Ready && Quiet()
                && Exchanged(Since(kernel.trace, old(|kernel.trace|)), old(data[..]), reply[..], |kernel.requests|)
                && Received(kernel.trace, input.urb) == reply[..]
    {
      kernel.Note(Both, timeoutMs, if data == null then [] else data[..]);
      if data == null || reply == null || length != TRANSFER_SIZE || capacity != TRANSFER_SIZE
         || timeoutMs == 0 || timeoutMs > MAX_TIMEOUT_MS
      {
        return InvalidArgument;
      }
      var deadline;
      status, deadline := ValidateTransferReady(timeoutMs);
      if status != Ok {
        return;
      }
      status := TransferBoth(data[..], deadline);
      if status != Ok {
        return;
      }
      status := FinishExchange(data[..], reply, old(|kernel.trace|));
    }

    /** Hands the reply over once both transfers are known to be complete. */
    method FinishExchange(ghost data: seq<byte>, reply: array<byte>, ghost from: nat) returns (status: Status)
      requires Tracked() && kernel.held == {} && state == Busy && reply.Length == TRANSFER_SIZE && reply !in Parts()
      requires input.state == SlotReaped && output.state == SlotReaped && Armed(from, data) && ReapedSince(from + 2)
      modifies Parts(), reply
      ensures Valid() && SameAllocation() && Onward() && kernel.calls == old(kernel.calls)
      ensures status != Ok ==> reply[..] == old(reply[..])
      ensures status == Ok ==>
                state == Ready && Exchanged(Since(kernel.trace, from), data, reply[..], |kernel.requests|)
      ensures status == Ok ==> Received(kernel.trace, input.urb) == reply[..]
    {
      status := ValidateReapedSlots();
      if status != Ok {
        status := FinishFailure(status, TransferError);
        return;
      }
      ghost var received := input.urb.buffer[..];
      forall i | 0 <= i < TRANSFER_SIZE {
        reply[i] := input.urb.buffer[i];
      }
      assert reply[..] == received;
      BothReaped(from, data, received);
      MakeSlotsReusable();
      state := Ready;
    }

    /** The events of an exchange put together. */
    lemma BothReaped(from: nat, data: seq<byte>, received: seq<byte>)
      requires Distinct() && Armed(from, data) && ReapedSince(from + 2) && received == input.urb.buffer[..]
      requires input.state == SlotReaped && output.state == SlotReaped
      ensures Exchanged(Since(kernel.trace, from), data, received, |kernel.requests|)
      ensures Received(kernel.trace, input.urb) == received
    {
      var last := Since(kernel.trace, from + 2);
      assert Since(kernel.trace, from) == [kernel.trace[from], kernel.trace[from + 1]] + last;
      var n := |kernel.trace|;
      assert kernel.trace[n - 2] == last[0] && kernel.trace[n - 1] == last[1];
      assert kernel.trace[..n - 1][n - 2] == kernel.trace[n - 2];
    }

    method ValidateReapedSlots() returns (status: Status)
      ensures status == Ok <==>
              && input.urb.status == 0 && output.urb.status == 0
              && input.urb.actualLength == TRANSFER_SIZE && output.urb.actualLength == TRANSFER_SIZE
      ensures status in {Ok, TransferFailed, ShortTransfer}
    {
      if input.urb.status != 0 || output.urb.status != 0 {
        return TransferFailed;
      }
      if input.urb.actualLength != TRANSFER_SIZE || output.urb.actualLength != TRANSFER_SIZE {
        return ShortTransfer;
      }
      status := Ok;
    }

    /** The receive was submitted at `from`, and right after it the send of `data`. */
    ghost predicate Armed(from: nat, data: seq<byte>)
      reads kernel
    {
      && from + 2 <= |kernel.trace|
      && kernel.trace[from].Submitted? && kernel.trace[from].urb == input.urb
      && kernel.trace[from + 1] == Submitted(output.urb, data, |kernel.requests|)
    }

    /** The events of a complete exchange. */
    ghost predicate Exchanged(events: seq<Event>, data: seq<byte>, reply: seq<byte>, request: nat) {
      && |events| == 4
      && events[0].Submitted? && events[0].urb == input.urb
      && events[1] == Submitted(output.urb, data, request)
      && (|| (events[2] == Reaped(input.urb, 0, TRANSFER_SIZE, reply)
              && events[3].Reaped? && events[3].urb == output.urb && events[3].status == 0
              && events[3].length == TRANSFER_SIZE)
          || (events[3] == Reaped(input.urb, 0, TRANSFER_SIZE, reply)
              && events[2].Reaped? && events[2].urb == output.urb && events[2].status == 0
              && events[2].length == TRANSFER_SIZE))
    }

    method TransferBoth(data: seq<byte>, deadline: nat) returns (status: Status)
      requires Valid() && Quiet() && |data| == TRANSFER_SIZE
      requires Permitted(input.urb, []) && Permitted(output.urb, data)
      modifies Parts()
      ensures SameAllocation() && Onward() && kernel.calls <= old(kernel.calls) + 2 + WAIT_CALLS
      ensures status != Ok ==> Valid()
      ensures status == Ok ==>
                && Tracked() && kernel.held == {} && state == Busy
                && input.state == SlotReaped && output.state == SlotReaped
                && Armed(old(|kernel.trace|), data) && ReapedSince(old(|kernel.trace|) + 2)
    {
      MakeSlotsReusable();
      output.Fill(data, kernel);
      state := Busy;
      status := SubmitBoth(data);
      if status != Ok {
        status := FinishFailure(status, TransferError);
        return;
      }
      ghost var armed := kernel.trace;
      status := WaitForActive(deadline, |kernel.trace|);
      assert status == Ok ==> kernel.trace[..|armed|] == armed;
    }

    /** The receive is armed first. */
    method SubmitBoth(ghost data: seq<byte>) returns (status: Status)
      requires Tracked() && kernel.held == {} && input.state == Idle && output.state == Idle
      requires Permitted(input.urb, []) && Permitted(output.urb, data) && output.urb.buffer[..] == data
      modifies kernel`calls, kernel`held, kernel`trace, input`state, output`state
      ensures Tracked() && kernel.calls <= old(kernel.calls) + 2
      ensures status == Ok ==> input.state == SlotSubmitted && output.state == SlotSubmitted
      ensures status == Ok ==> |kernel.trace| == |old(kernel.trace)| + 2 && Armed(|old(kernel.trace)|, data)
    {
      status := SubmitSlot(input);
      if status == Ok {
        status := SubmitSlot(output);
      }
    }

    /** One request in one direction; `slot` is idle and its buffer filled in. */
    method DirectionalTransfer(slot: Slot, deadline: nat) returns (status: Status)
      requires Valid() && Quiet() && slot in {input, output} && Permitted(slot.urb, slot.urb.buffer[..])
      modifies Parts()
      ensures SameAllocation() && Onward() && kernel.calls <= old(kernel.calls) + 1 + WAIT_CALLS
      ensures status != Ok ==> Valid()
      ensures status == Ok ==>
                && Tracked() && kernel.held == {} && state == Busy
                && old(|kernel.trace|) < |kernel.trace|
                && kernel.trace[old(|kernel.trace|)] == Submitted(slot.urb, old(slot.urb.buffer[..]), |kernel.requests|)
                && Since(kernel.trace, old(|kernel.trace|) + 1) == [FullReap(slot.urb)]
    {
      state := Busy;
      status := SubmitSlot(slot);
      if status != Ok {
        status := FinishFailure(status, TransferError);
        return;
      }
      ghost var armed := kernel.trace;
      status := WaitForActive(deadline, |kernel.trace|);
      if status != Ok {
        return;
      }
      assert kernel.trace[..|armed|] == armed;
      if slot.urb.status != 0 {
        status := FinishFailure(TransferFailed, TransferError);
        return;
      }
      if slot.urb.actualLength != TRANSFER_SIZE {
        status := FinishFailure(ShortTransfer, TransferError);
        return;
      }
    }

    static const ONE_WAY_CALLS: nat := 2 + WAIT_CALLS

    method SendOnly(data: array?<byte>, length: nat, timeoutMs: nat) returns (status: Status)
      requires Valid() && (data != null ==> data.Length == length) && data !in Parts()
      modifies Parts()
      ensures Valid() && SameAllocation() && kernel.calls <= old(kernel.calls) + ONE_WAY_CALLS
      ensures Asked(Out, timeoutMs, if data == null then [] else old(data[..]))
      ensures status == Ok ==>
                && data != null && length == TRANSFER_SIZE && state == Ready && Quiet()
                && |Since(kernel.trace, old(|kernel.trace|))| == 2
                && Since(kernel.trace, old(|kernel.trace|))[0] == Submitted(output.urb, data[..], |kernel.requests|)
                && IsFull(Since(kernel.trace, old(|kernel.trace|))[1], output.urb)
    {
      kernel.Note(Out, timeoutMs, if data == null then [] else data[..]);
      if data == null || length != TRANSFER_SIZE {
        return InvalidArgument;
      }
      var deadline;
      status, deadline := ValidateTransferReady(timeoutMs);
      if status != Ok {
        return;
      }
      MakeSlotsReusable();
      output.Fill(data[..], kernel);
      status := DirectionalTransfer(output, deadline);
      if status != Ok {
        return;
      }
      LastReceived(kernel.trace, old(|kernel.trace|), output.urb, output.urb.buffer[..]);
      MakeSlotsReusable();
      state := Ready;
    }

    method ReceiveOnly(reply: array?<byte>, capacity: nat, timeoutMs: nat) returns (status: Status)
      requires Valid() && (reply != null ==> reply.Length == capacity) && reply !in Parts()
      modifies Parts(), reply
      ensures Valid() && SameAllocation() && kernel.calls <= old(kernel.calls) + ONE_WAY_CALLS
      ensures Asked(In, timeoutMs, [])
      ensures status != Ok && reply != null ==> reply[..] == old(reply[..])
      ensures status == Ok ==>
                && reply != null && capacity == TRANSFER_SIZE && state == Ready && Quiet()
                && |Since(kernel.trace, old(|kernel.trace|))| == 2
                && Since(kernel.trace, old(|kernel.trace|))[0].Submitted?
                && Since(kernel.trace, old(|kernel.trace|))[0].urb == input.urb
                && Since(kernel.trace, old(|kernel.trace|))[1] == Reaped(input.urb, 0, TRANSFER_SIZE, reply[..])
                && Received(kernel.trace, input.urb) == reply[..]
    {
      kernel.Note(In, timeoutMs, []);
      if reply == null || capacity != TRANSFER_SIZE {
        return InvalidArgument;
      }
      var deadline;
      status, deadline := ValidateTransferReady(timeoutMs);
      if status != Ok {
        return;
      }
      MakeSlotsReusable();
      status := DirectionalTransfer(input, deadline);
      if status != Ok {
        return;
      }
      ghost var data := input.urb.buffer[..];
      TakeReceived(reply);
      LastReceived(kernel.trace, old(|kernel.trace|), input.urb, data);
    }

    /** Hands out what was received, after which both slots can be used again. */
    method TakeReceived(reply: array<byte>)
      requires Tracked() && kernel.held == {} && reply.Length == TRANSFER_SIZE && reply !in Parts()
      modifies this`state, input, output, input.urb, output.urb, input.urb.buffer, output.urb.buffer, reply
      ensures Valid() && Quiet() && state == Ready && SameAllocation() && reply[..] == old(input.urb.buffer[..])
    {
      ghost var received := input.urb.buffer[..];
      forall i | 0 <= i < TRANSFER_SIZE {
        reply[i] := input.urb.buffer[i];
      }
      assert reply[..] == received;
      MakeSlotsReusable();
      state := Ready;
    }

    /** Wipes and frees; the kernel must own nothing of it any more. */
    method ReleaseAllocations()
      requires Distinct() && input.urb !in kernel.held && output.urb !in kernel.held
      modifies this, input, output, input.urb, output.urb, input.urb.buffer, output.urb.buffer
      ensures state == Uninitialized && !interfaceClaimed && !input.present && !output.present
      ensures input.state == Idle && output.state == Idle
      ensures forall i :: 0 <= i < TRANSFER_SIZE ==> input.urb.buffer[i] == 0 && output.urb.buffer[i] == 0
    {
      input.Reset(true, kernel);
      output.Reset(false, kernel);
      input.present, output.present := false, false;
      state, interfaceClaimed := Uninitialized, false;
    }

    /** Gives the interface back and frees everything, unless the kernel will not let go. */
    method Destroy() returns (status: Status)
      requires Valid()
      modifies Parts()
      ensures Valid() && kernel.calls <= old(kernel.calls) + CLEANUP_CALLS + 1
      ensures status == CleanupFailed <==> Stuck()
      ensures status != CleanupFailed ==> !input.present && !output.present && state == Uninitialized
      ensures status == CleanupFailed ==> SameAllocation()
      ensures status in {Ok, CleanupFailed, ReleaseFailed}
      ensures old(kernel.held) == {} ==> kernel.held == {}
      ensures Onward()
      ensures status == Ok && old(interfaceClaimed) ==> Ended(true)
      ensures status == ReleaseFailed ==> Ended(false)
    {
      if state == Uninitialized && !interfaceClaimed && !input.present && !output.present {
        return Ok;
      }
      if AnyActive() {
        status := CleanupActive();
        if status != Ok {
          return CleanupFailed;
        }
      }
      if interfaceClaimed {
        var result := kernel.ReleaseInterface();
        if result != OpOk {
          ReleaseAllocations();
          return ReleaseFailed;
        }
      }
      interfaceClaimed := false;
      ReleaseAllocations();
      status := Ok;
    }

    /** The last thing that happened is that the interface was given back, with this success. */
    twostate predicate Ended(ok: bool)
      reads kernel
    {
      |kernel.trace| > |old(kernel.trace)| && kernel.trace[|kernel.trace| - 1] == Released(ok)
    }

    /** The terminal path: the descriptor is closed, so the kernel holds nothing. */
    method AbandonAfterClose()
      requires Distinct() && Accounted() && kernel.held == {}
      modifies Parts() - {kernel}
      ensures Valid() && Quiet() && !input.present && !output.present && state == Uninitialized
    {
      ReleaseAllocations();
    }

    /** Allocates both slots and claims the interface; `enough` says whether there is memory for each. */
    method Initialize(fileDescriptor: int, enough: (bool, bool)) returns (status: Status)
      requires Distinct() && Accounted() && kernel.held == {}
      modifies Parts()
      ensures kernel.calls <= old(kernel.calls) + 1 && kernel.held == {} && Onward()
      ensures kernel.trace == old(kernel.trace)
      ensures status == InvalidArgument <==> fileDescriptor < 0
      ensures status == InvalidArgument ==> unchanged(this) && unchanged(input) && unchanged(output)
      ensures status != InvalidArgument ==> Valid() && Quiet()
      ensures status == Ok ==> state == Ready && interfaceClaimed && input.present && output.present
      ensures status != Ok && status != InvalidArgument ==> !input.present && !output.present && !interfaceClaimed
    {
      if fileDescriptor < 0 {
        return InvalidArgument;
      }
      state, interfaceClaimed, input.present, output.present := Uninitialized, false, false, false;
      MakeSlotsReusable();
      if !enough.0 || !enough.1 {
        return AllocationFailed;
      }
      status := Claim();
    }

    /** Claims the interface, or gives back what was allocated. */
    method Claim() returns (status: Status)
      requires Tracked() && kernel.held == {} && input.state == Idle && output.state == Idle && state == Uninitialized
      requires !interfaceClaimed
      modifies Parts()
      ensures kernel.calls == old(kernel.calls) + 1 && kernel.held == {} && Onward()
      ensures kernel.trace == old(kernel.trace) && Valid() && Quiet() && status in {Ok, ClaimFailed}
      ensures status == Ok ==> state == Ready && interfaceClaimed && input.present && output.present
      ensures status != Ok ==> !input.present && !output.present && !interfaceClaimed
    {
      input.present, output.present := true, true;
      var claimed := kernel.ClaimInterface();
      if claimed != OpOk {
        ReleaseAllocations();
        return ClaimFailed;
      }
      interfaceClaimed := true;
      state := Ready;
      status := Ok;
    }
  }

  /** `urb` was handed back after a complete transfer. */
  ghost predicate IsFull(e: Event, urb: Urb) {
    e.Reaped? && e.urb == urb && e.status == 0 && e.length == TRANSFER_SIZE
  }

  ghost function Since(trace: seq<Event>, n: nat): seq<Event> {
    if n <= |trace| then trace[n..] else []
  }

  /** A submission and what came of it. */
  lemma LastReceived(trace: seq<Event>, n: nat, urb: Urb, data: seq<byte>)
    requires n < |trace| && Since(trace, n + 1) == [Reaped(urb, 0, TRANSFER_SIZE, data)]
    ensures Since(trace, n) == [trace[n], Reaped(urb, 0, TRANSFER_SIZE, data)] && Received(trace, urb) == data
  {
    assert |trace| == n + 2;
    assert trace[n + 1] == trace[n + 1..][0];
  }

  function RemainingTimeout(deadline: nat, now: nat): (remaining: nat)
    ensures remaining <= MAX_TIMEOUT_MS && (remaining > 0 ==> now + remaining <= deadline)
    ensures remaining == 0 <==> now >= deadline
  {
    if now >= deadline then 0
    else if deadline - now > MAX_TIMEOUT_MS then MAX_TIMEOUT_MS
    else deadline - now
  }
}
