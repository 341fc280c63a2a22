/** The kernel's side of the URB interface: everything it does not promise is left open. */
module UrbKernel {
  import opened Bytes

  const TRANSFER_SIZE: nat := 0x4400

  datatype OpResult = OpOk | OpAgain | OpInterrupted | OpNotFound | OpFailed

  /** A transfer request and the buffer it points to. */
  class Urb {
    const buffer: array<byte>
    var shortNotOk: bool
    var status: int
    var actualLength: int

    constructor ()
      ensures fresh(buffer) && buffer.Length == TRANSFER_SIZE
    {
      buffer := new byte[TRANSFER_SIZE];
      shortNotOk, status, actualLength := false, 0, 0;
    }
  }

  datatype Direction = Both | Out | In

  /** A transfer that the transport was asked for: with which timeout, at which clock reading, and with which
      bytes to be sent. */
  datatype Request = Request(direction: Direction, timeout: nat, at: nat, data: seq<byte>)

  /** A look at the clock: whether it could be read, what it showed, how many transfers had been asked for, and which
      call it was. */
  datatype Reading = Reading(ok: bool, value: nat, requests: nat, call: nat)

  /** A submission belongs to the transfer that was asked for last, which is the `request`th. */
  datatype Event =
    | Submitted(urb: Urb, data: seq<byte>, request: nat)
    | Reaped(urb: Urb, status: int, length: int, data: seq<byte>)
    | Released(ok: bool)

  /** What came in last through a transfer request. */
  ghost function Received(trace: seq<Event>, urb: Urb): seq<byte> {
    if trace == [] then []
    else
      var last := trace[|trace| - 1];
      if last.Reaped? && last.urb == urb then last.data else Received(trace[..|trace| - 1], urb)
  }

  /** Which requests the kernel owns, what passed between it and the process, how often it was called, for
      which transfers, and for which looks at the clock. */
  class Kernel {
    var held: set<Urb>
    var trace: seq<Event>
    var requests: seq<Request>
    var calls: nat
    var clock: nat
    var readings: seq<Reading>

    constructor ()
      ensures held == {} && trace == [] && requests == [] && readings == [] && calls == 0
    {
      held, trace, requests, readings, calls, clock := {}, [], [], [], 0, 0;
    }

    /** Keeps a record of every transfer that is asked for. */
    method Note(direction: Direction, timeout: nat, data: seq<byte>)
      modifies this`requests
      ensures requests == old(requests) + [Request(direction, timeout, clock, data)]
    {
      requests := requests + [Request(direction, timeout, clock, data)];
    }

    method ClaimInterface() returns (r: OpResult)
      modifies this`calls
      ensures calls == old(calls) + 1
    {
      calls := calls + 1;
      r := *;
    }

    method ReleaseInterface() returns (r: OpResult)
      modifies this`calls, this`trace
      ensures calls == old(calls) + 1 && trace == old(trace) + [Released(r == OpOk)]
    {
      calls := calls + 1;
      r := *;
      trace := trace + [Released(r == OpOk)];
    }

    /** Only a request that was accepted is held. */
    method Submit(urb: Urb) returns (r: OpResult)
      requires urb !in held
      modifies this`calls, this`held, this`trace
      ensures calls == old(calls) + 1
      ensures r == OpOk ==> held == old(held) + {urb}
      ensures r == OpOk ==> trace == old(trace) + [Submitted(urb, urb.buffer[..], |requests|)]
      ensures r != OpOk ==> held == old(held) && trace == old(trace)
    {
      calls := calls + 1;
      r := *;
      if r == OpOk {
        held, trace := held + {urb}, trace + [Submitted(urb, urb.buffer[..], |requests|)];
      }
    }

    /** A discarded request is still held until it is reaped. */
    method Discard(urb: Urb) returns (r: OpResult)
      modifies this`calls
      ensures calls == old(calls) + 1
    {
      calls := calls + 1;
      r := *;
    }

    /** Hands back some request: one that is held, which is then released, or one that is not ours.
        The kernel may write to what it holds, and to nothing else. */
    method Reap() returns (r: OpResult, urb: Urb?)
      modifies this`calls, this`held, this`trace, held, set u | u in held :: u.buffer
      ensures calls == old(calls) + 1
      ensures r == OpOk && urb in old(held) ==>
                && held == old(held) - {urb}
                && trace == old(trace) + [Reaped(urb, urb.status, urb.actualLength, urb.buffer[..])]
      ensures r != OpOk || urb !in old(held) ==> held == old(held) && trace == old(trace)
    {
      calls := calls + 1;
      r, urb := *, *;
      if r == OpOk && urb in held {
        urb.status, urb.actualLength := *, *;
        var data: seq<byte> := *;
        forall i | 0 <= i < urb.buffer.Length && i < |data| {
          urb.buffer[i] := data[i];
        }
        held := held - {urb};
        trace := trace + [Reaped(urb, urb.status, urb.actualLength, urb.buffer[..])];
      }
    }

    method WaitReady(timeoutMs: nat) returns (r: OpResult)
      modifies this`calls
      ensures calls == old(calls) + 1
    {
      calls := calls + 1;
      r := *;
    }

    /** Time goes on, and what was read stays read. */
    twostate predicate Later()
      reads this
    {
      clock >= old(clock) && old(readings) <= readings
    }

    /** The clock never goes back. */
    method MonotonicMs() returns (r: OpResult, value: nat)
      modifies this`calls, this`clock, this`readings
      ensures calls == old(calls) + 1
      ensures clock >= old(clock) && (r == OpOk ==> value == clock)
      ensures readings == old(readings) + [Reading(r == OpOk, clock, |requests|, calls)]
    {
      calls := calls + 1;
      r := *;
      var now: int := *;
      if now > clock {
        clock := now;
      }
      value := clock;
      readings := readings + [Reading(r == OpOk, clock, |requests|, calls)];
    }

    /** Time passes without a call, at least until `t`. */
    method Pass(t: nat)
      modifies this`clock
      ensures clock >= old(clock) && clock >= t
    {
      var now: int := *;
      clock := if now >= clock && now >= t then now else clock + t;
    }

    /** Closing the descriptor ends every request. */
    method Close() returns (ok: bool)
      modifies this`calls, this`held
      ensures held == {} && calls == old(calls) + 1
    {
      calls := calls + 1;
      held := {};
      ok := *;
    }
  }
}
