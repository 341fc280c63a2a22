/** The outside of an operation: descriptors, the lock, entropy and cancellation, none of them promised. */
module OperationHost {
  import opened Bytes
  import opened UrbKernel

  datatype Result =
    | OOk | ORemoteError | OIdle | OArgument | OClock | OTimeout | OCancelled | OLock | OEntropy | OUsb | OSession
    | OAcm | OTeardown | OCallback | OKeybag | OPersistence | OState

  /** What happens to the descriptors: the lock with the clock reading at which it was opened, the device with
      how many transfers and events the kernel had on record when it was closed. And that the callback was given a
      lease. */
  datatype Step =
    | LockOpened(descriptor: int, at: nat)
    | SepOpened(descriptor: int)
    | Leased
    | SepClosed(descriptor: int, ok: bool, requests: nat, events: nat)
    | Finalized
    | LockClosed(descriptor: int, ok: bool)

  datatype LockResult = Acquired | LockBusy | LockFailed

  class Host {
    const kernel: Kernel
    /** Every step, in order. */
    ghost var trace: seq<Step>

    constructor (kernel: Kernel)
      ensures this.kernel == kernel && trace == []
    {
      this.kernel := kernel;
      trace := [];
    }

    /** A descriptor that is not negative is owned by the caller from here on, whatever the result. */
    method OpenLock() returns (ok: bool, descriptor: int)
      modifies this`trace
      ensures trace == old(trace) + if descriptor >= 0 then [LockOpened(descriptor, kernel.clock)] else []
    {
      ok, descriptor := *, *;
      trace := trace + if descriptor >= 0 then [LockOpened(descriptor, kernel.clock)] else [];
    }

    method OpenSep(timeoutMs: nat) returns (r: Result, descriptor: int)
      modifies this`trace
      ensures trace == old(trace) + if descriptor >= 0 then [SepOpened(descriptor)] else []
    {
      r, descriptor := *, *;
      trace := trace + if descriptor >= 0 then [SepOpened(descriptor)] else [];
    }

    /** Closing consumes the descriptor even when it reports an error, and with it goes every request. */
    method CloseSep(descriptor: int) returns (ok: bool)
      modifies this`trace, kernel`calls, kernel`held
      ensures kernel.held == {}
      ensures trace == old(trace) + [SepClosed(descriptor, ok, |kernel.requests|, |kernel.trace|)]
    {
      ok := kernel.Close();
      trace := trace + [SepClosed(descriptor, ok, |kernel.requests|, |kernel.trace|)];
    }

    method CloseLock(descriptor: int) returns (ok: bool)
      modifies this`trace
      ensures trace == old(trace) + [LockClosed(descriptor, ok)]
    {
      ok := *;
      trace := trace + [LockClosed(descriptor, ok)];
    }

    method TryLock(descriptor: int) returns (r: LockResult)
    {
      r := *;
    }

    /** A wait that succeeds takes at least the time it was asked for. */
    method Wait(timeoutMs: nat) returns (ok: bool)
      modifies kernel`clock
      ensures kernel.clock >= old(kernel.clock) + if ok then timeoutMs else 0
    {
      ok := *;
      var passed: int := *;
      kernel.clock := kernel.clock + timeoutMs + if passed > 0 then passed else 0;
    }

    method Entropy(length: nat) returns (ok: bool, bytes: seq<byte>)
      ensures |bytes| == length
    {
      ok := *;
      var random: seq<byte> := *;
      bytes := seq(length, i requires 0 <= i < length => if i < |random| then random[i] else 0);
    }

    method Cancelled() returns (cancelled: bool)
      modifies kernel`calls
      ensures kernel.calls == old(kernel.calls) + 1
    {
      kernel.calls := kernel.calls + 1;
      cancelled := *;
    }

    /** The callback learns that it has a lease. */
    method Lease()
      modifies this`trace
      ensures trace == old(trace) + [Leased]
    {
      trace := trace + [Leased];
    }

    method Finalize()
      modifies this`trace
      ensures trace == old(trace) + [Finalized]
    {
      trace := trace + [Finalized];
    }
  }
}

/** One operation: the lock, the device, a session and an access-control context, and their teardown. */
module Operation {
  import opened Bytes
  import opened OperationHost
  import RelayWire
  import UrbTransport
  import Session
  import Keystore
  import Acm

  const LOCK_RETRY_MS: nat := 25
  const CLEANUP_TIMEOUT_MS: nat := 30000

  function FromSession(s: Session.Status): (r: Result)
    ensures r == OOk <==> s == Session.SOk
  {
    match s
    case SOk => OOk
    case SRemoteError => ORemoteError
    case SIdle => OIdle
    case STimeout => OTimeout
    case SClock => OClock
    case _ => OSession
  }

  /** A transfer that is over by `limit`, or waits for a notification, which only its own timeout bounds. */
  ghost predicate Within(t: Session.Transfer, limit: nat) {
    && Session.Bounded(t)
    && (t.deadline <= limit || (t.payload == Session.Notification && t.deadline == t.at + t.timeout))
  }

  /** The log grew by transfers that are over by `limit`. */
  ghost predicate Extends(before: seq<Session.Transfer>, after: seq<Session.Transfer>, limit: nat) {
    && |before| <= |after| && after[..|before|] == before
    && forall i :: |before| <= i < |after| ==> Within(after[i], limit)
  }

  lemma ExtendsTransitive(a: seq<Session.Transfer>, b: seq<Session.Transfer>, c: seq<Session.Transfer>, limit: nat)
    requires Extends(a, b, limit) && Extends(b, c, limit)
    ensures Extends(a, c, limit)
  {
    forall i | 0 <= i < |b|
      ensures c[i] == b[i]
    {
      assert c[..|b|][i] == b[i];
    }
    assert c[..|a|] == b[..|a|];
  }

  lemma CallExtends(before: seq<Session.Transfer>, after: seq<Session.Transfer>, n: nat, deadline: nat, limit: nat)
    requires Session.IsCall(before, after, n, deadline) && (after != before ==> deadline <= limit)
    ensures Extends(before, after, limit)
  {
    if |after| == |before| {
      assert after == before;
    }
  }

  /** The transfers of the cleanup: five at most, over by `limit` or by the timeout of the cleanup. */
  ghost predicate CleansUp(before: seq<Session.Transfer>, after: seq<Session.Transfer>, limit: nat) {
    && |before| <= |after| <= |before| + RelayWire.SKIP_LIMIT + 1 && after[..|before|] == before
    && forall i :: |before| <= i < |after| ==> InCleanup(after[i], after[|before|].at, limit)
  }

  ghost predicate InCleanup(t: Session.Transfer, first: nat, limit: nat) {
    Session.Bounded(t) && (t.deadline <= limit || t.deadline <= first + CLEANUP_TIMEOUT_MS)
  }

  lemma CallCleansUp(before: seq<Session.Transfer>, after: seq<Session.Transfer>, bound: nat, limit: nat)
    requires Session.IsCall(before, after, RelayWire.SKIP_LIMIT + 1, bound)
    requires |after| > |before| ==> bound <= limit || bound <= after[|before|].at + CLEANUP_TIMEOUT_MS
    ensures CleansUp(before, after, limit)
  {
  }

  /** The first `n` transfers are the run's, the rest the cleanup's. */
  ghost predicate RunInTime(log: seq<Session.Transfer>, n: nat, limit: nat) {
    n <= |log| && Extends([], log[..n], limit) && CleansUp(log[..n], log, limit)
  }

  lemma RunIsInTime(before: seq<Session.Transfer>, log: seq<Session.Transfer>, deadline: nat, limit: nat)
    requires Extends([], before, limit) && CleansUp(before, log, deadline) && deadline <= limit
    ensures RunInTime(log, |before|, limit)
  {
    assert log[..|before|] == before;
  }

  /** The transfers of a run are on the kernel's record, none of them under an identity of another, and in time. The
      depth keeps this folded: `OnRecordMeans` looks into it. */
  ghost predicate IsOnRecord(
    requests: seq<UrbKernel.Request>, base: nat, log: seq<Session.Transfer>, n: nat, limit: nat, depth: nat)
    decreases |log|, depth
  {
    if depth > 0 then IsOnRecord(requests, base, log, n, limit, depth - 1)
    else Session.AreRecords(requests, base, log) && Session.FreshLog(log) && RunInTime(log, n, limit)
  }

  lemma OnRecordMeans(requests: seq<UrbKernel.Request>, base: nat, log: seq<Session.Transfer>, n: nat, limit: nat)
    ensures IsOnRecord(requests, base, log, n, limit, Session.FOLDED) <==>
            Session.AreRecords(requests, base, log) && Session.FreshLog(log) && RunInTime(log, n, limit)
  {
    assert IsOnRecord(requests, base, log, n, limit, 2) == IsOnRecord(requests, base, log, n, limit, 3);
    assert IsOnRecord(requests, base, log, n, limit, 1) == IsOnRecord(requests, base, log, n, limit, 2);
  }

  /** The commands that were answered. */
  ghost function Issues(answers: seq<Acm.Answer>): seq<Session.Issue> {
    seq(|answers|, i requires 0 <= i < |answers| => Session.Issue(answers[i].identity, answers[i].operation))
  }

  /** All commands that went out were answered, or all but the last, and then its outcome is lost. The depth keeps
      this folded. */
  ghost predicate IsAnswered(log: seq<Session.Transfer>, answers: seq<Acm.Answer>, failed: bool, depth: nat)
    decreases |log|, depth
  {
    if depth > 0 then IsAnswered(log, answers, failed, depth - 1)
    else
      var commands := Session.Commands(log, |log|);
      || commands == Issues(answers)
      || (failed && commands != [] && commands[..|commands| - 1] == Issues(answers))
  }

  /** A command that went out was not answered. */
  ghost predicate HasLost(log: seq<Session.Transfer>, answers: seq<Acm.Answer>, depth: nat)
    decreases |log|, depth
  {
    if depth > 0 then HasLost(log, answers, depth - 1) else Session.Commands(log, |log|) != Issues(answers)
  }

  lemma AnsweredMeans(log: seq<Session.Transfer>, answers: seq<Acm.Answer>, failed: bool)
    ensures var commands := Session.Commands(log, |log|);
            && (HasLost(log, answers, Session.FOLDED) <==> commands != Issues(answers))
            && (IsAnswered(log, answers, failed, Session.FOLDED) <==>
                  || commands == Issues(answers)
                  || (failed && commands != [] && commands[..|commands| - 1] == Issues(answers)))
  {
    assert HasLost(log, answers, 2) == HasLost(log, answers, 3);
    assert HasLost(log, answers, 1) == HasLost(log, answers, 2);
    assert IsAnswered(log, answers, failed, 2) == IsAnswered(log, answers, failed, 3);
    assert IsAnswered(log, answers, failed, 1) == IsAnswered(log, answers, failed, 2);
  }

  /** Transfers without a command change nothing. */
  lemma AnsweredSame(
    before: seq<Session.Transfer>, after: seq<Session.Transfer>, answers: seq<Acm.Answer>, failed: bool)
    requires Session.Commands(before, |before|) == Session.Commands(after, |after|)
    ensures IsAnswered(before, answers, failed, Session.FOLDED) == IsAnswered(after, answers, failed, Session.FOLDED)
    ensures HasLost(before, answers, Session.FOLDED) == HasLost(after, answers, Session.FOLDED)
  {
    AnsweredMeans(before, answers, failed);
    AnsweredMeans(after, answers, failed);
  }

  ghost predicate Follows(before: seq<Acm.Answer>, after: seq<Acm.Answer>) {
    after == before || exists a :: after == before + [a]
  }

  lemma QuietDrain(
    before: seq<Session.Transfer>, after: seq<Session.Transfer>, at: nat, timeoutMs: nat, limit: nat)
    requires after == before || after == before + [Session.Drain(at, timeoutMs)]
    requires after != before ==> 0 < timeoutMs <= Session.MAX_TIMEOUT_MS
    ensures Session.Commands(after, |after|) == Session.Commands(before, |before|) && Extends(before, after, limit)
  {
    Session.CommandsSame(before, after, |before|);
  }

  /** One command more, which is answered, or lost. */
  lemma AnsweredStep(
    before: seq<Session.Transfer>, after: seq<Session.Transfer>, c: Session.Issue, answers: seq<Acm.Answer>,
    answers': seq<Acm.Answer>, failed: bool)
    requires IsAnswered(before, answers, false, Session.FOLDED)
    requires Session.Commands(after, |after|) == Session.Commands(before, |before|) + [c]
    requires || (answers' == answers && failed)
             || (exists success :: answers' == answers + [Acm.Answer(c.identity, c.operation, success)] && !failed)
    ensures IsAnswered(after, answers', failed, Session.FOLDED)
    ensures failed ==> HasLost(after, answers', Session.FOLDED)
  {
    AnsweredMeans(before, answers, false);
    AnsweredMeans(after, answers', failed);
    var commands := Session.Commands(before, |before|);
    assert (commands + [c])[..|commands|] == commands;
    if !failed {
      assert Issues(answers') == commands + [c];
    }
  }

  /** A look at the clock, after so many transfers, that leaves time before a deadline. */
  ghost predicate LeavesTime(r: UrbKernel.Reading, deadline: nat, requests: nat) {
    r.ok && r.value < deadline && r.requests == requests
  }

  /** Three looks at the clock with no transfer and no other call between them: the first two leave time, and at the
      third the deadline or the longest timeout since the second has passed, or the clock could not be read. Only an
      exchange looks at the clock so often. */
  ghost predicate IsLapse(readings: seq<UrbKernel.Reading>, i: nat, deadline: nat, requests: nat) {
    && i + 2 < |readings|
    && LeavesTime(readings[i], deadline, requests) && LeavesTime(readings[i + 1], deadline, requests)
    && readings[i + 2].requests == requests
    && readings[i + 1].call == readings[i].call + 1 && readings[i + 2].call == readings[i].call + 2
    && (readings[i + 2].ok ==>
          || readings[i + 2].value >= deadline
          || readings[i + 2].value >= readings[i + 1].value + Session.MAX_TIMEOUT_MS)
  }

  /** There was one. The depth keeps this folded. */
  ghost predicate HasLapse(
    readings: seq<UrbKernel.Reading>, from: nat, deadline: nat, requests: nat, depth: nat := Session.FOLDED)
    decreases |readings|, depth
  {
    if depth > 0 then HasLapse(readings, from, deadline, requests, depth - 1)
    else exists i :: from <= i && IsLapse(readings, i, deadline, requests)
  }

  lemma LapseMeans(readings: seq<UrbKernel.Reading>, from: nat, deadline: nat, requests: nat)
    ensures HasLapse(readings, from, deadline, requests) <==>
            exists i :: from <= i && IsLapse(readings, i, deadline, requests)
  {
    assert HasLapse(readings, from, deadline, requests, 2) == HasLapse(readings, from, deadline, requests, 3);
    assert HasLapse(readings, from, deadline, requests, 1) == HasLapse(readings, from, deadline, requests, 2);
  }

  lemma LapseStays(
    before: seq<UrbKernel.Reading>, after: seq<UrbKernel.Reading>, from: nat, earlier: nat, deadline: nat,
    requests: nat)
    requires before <= after && earlier <= from && HasLapse(before, from, deadline, requests)
    ensures HasLapse(after, earlier, deadline, requests)
  {
    LapseMeans(before, from, deadline, requests);
    LapseMeans(after, earlier, deadline, requests);
    var i :| from <= i && IsLapse(before, i, deadline, requests);
    assert IsLapse(after, i, deadline, requests);
  }

  class Operation {
    const host: Host
    const transport: UrbTransport.Transport
    const session: Session.Session
    const acm: Acm.State
    var deadline: nat
    var lockDescriptor: int
    var sepDescriptor: int
    var sessionInitialized: bool
    var acmInitialized: bool
    var deadlineActive: bool
    var leaseActive: bool
    /** How often the clock had been looked at when the run began, and when the run is to be over. */
    ghost var began: nat
    ghost var due: nat

    constructor (host: Host)
      ensures this.host == host && Shape() && fresh(acm) && fresh(session.Parts() - {host.kernel})
      ensures lockDescriptor == -1 && sepDescriptor == -1 && !sessionInitialized && !acmInitialized
      ensures !deadlineActive && !leaseActive && transport.Accounted()
    {
      var t := new UrbTransport.Transport(host.kernel);
      var s := new Session.Session(t);
      this.host, transport, session := host, t, s;
      acm := new Acm.State();
      deadline, lockDescriptor, sepDescriptor := 0, -1, -1;
      sessionInitialized, acmInitialized, deadlineActive, leaseActive := false, false, false, false;
      began, due := 0, 0;
    }

    ghost predicate Shape() {
      && transport.kernel == host.kernel && session.transport == transport && transport.Distinct()
      && session.Shape() && session.Apart()
      && this !in session.Parts() && acm !in session.Parts() && host !in session.Parts()
    }

    ghost function Parts(): set<object> {
      {this, acm, host} + session.Parts()
    }

    /** There is a deadline or a lease, and the session has exactly that deadline. */
    ghost predicate Usable()
      reads this, acm, session, session.relay, session.input, session.output, transport, transport.kernel,
            transport.input, transport.output
    {
      && Shape() && sessionInitialized && acmInitialized && sepDescriptor >= 0
      && session.Valid() && acm.Valid() && transport.interfaceClaimed
      && session.phase in {Session.Ready, Session.Poisoned}
      && (deadlineActive <==> session.deadlineSet) && (deadlineActive <==> !leaseActive)
      && (deadlineActive ==> session.operationDeadline == deadline) && (leaseActive ==> deadline == 0)
    }

    /** While the callback runs. A state machine that has failed goes with a poisoned session, and never with a
        lease. */
    ghost predicate Open()
      reads this, acm, session, session.relay, session.input, session.output, transport, transport.kernel,
            transport.input, transport.output
    {
      && Usable() && Poised() && Answerable()
      && (acm.failed ==> session.phase == Session.Poisoned && !leaseActive)
    }

    /** The deadline is that of the run. */
    ghost predicate Poised()
      reads this, host.kernel
    {
      began <= |host.kernel.readings| && (deadlineActive ==> deadline == due)
    }

    /** After the last transfer there was no time left for another one. */
    ghost predicate Excused()
      reads this, session, host.kernel
    {
      HasLapse(host.kernel.readings, began, due, session.base + |session.log|)
    }

    /** The commands that went out were answered one by one, but for the last if its outcome was lost. */
    ghost predicate Answers()
      reads acm, session
    {
      IsAnswered(session.log, acm.answers, acm.failed, Session.FOLDED)
    }

    /** And none is lost otherwise, unless it was too late to send it. */
    ghost predicate Answerable()
      reads this, acm, session, host.kernel
    {
      Answers() && (acm.failed && !HasLost(session.log, acm.answers, Session.FOLDED) ==> Excused())
    }

    /** Looks at the clock; a session stays as it is. */
    method Now() returns (ok: bool, now: nat)
      requires Shape()
      modifies host.kernel`calls, host.kernel`clock, host.kernel`readings
      ensures host.kernel.Later() && (ok ==> now == host.kernel.clock)
      ensures old(session.Valid()) ==>
                && session.Valid()
                && host.kernel.readings == old(host.kernel.readings) + [session.Look(ok)]
    {
      ghost var valid := session.Valid();
      if valid {
        session.Open();
      }
      var result;
      result, now := host.kernel.MonotonicMs();
      ok := result == UrbKernel.OpOk;
      if valid {
        session.Shut();
      }
    }

    /** Asks whether to go on; a session stays as it is. */
    method IsCancelled() returns (cancelled: bool)
      requires Shape()
      modifies host.kernel`calls
      ensures old(session.Valid()) ==> session.Valid()
    {
      ghost var valid := session.Valid();
      if valid {
        session.Open();
      }
      cancelled := host.Cancelled();
      if valid {
        session.Shut();
      }
    }

    method RemainingMs(check: bool) returns (r: Result, remaining: nat)
      requires Shape()
      modifies host.kernel`calls, host.kernel`clock, host.kernel`readings
      ensures !deadlineActive <==> r == OState
      ensures r == OOk ==> 0 < remaining <= Session.MAX_TIMEOUT_MS && host.kernel.clock + remaining <= deadline
      ensures r == OOk ==> remaining == Session.MAX_TIMEOUT_MS || host.kernel.clock + remaining == deadline
      ensures host.kernel.Later() && (!deadlineActive ==> unchanged(host.kernel))
      ensures r in {OOk, OState, OCancelled, OClock, OTimeout} && (!check ==> r != OCancelled)
      ensures old(session.Valid()) ==> session.Valid()
      ensures r == OOk && old(session.Valid()) ==>
                host.kernel.readings == old(host.kernel.readings) + [session.Look(true)]
    {
      remaining := 0;
      if !deadlineActive {
        return OState, 0;
      }
      if check {
        var cancelled := IsCancelled();
        if cancelled {
          return OCancelled, 0;
        }
      }
      var ok, now := Now();
      if !ok {
        return OClock, 0;
      }
      if now >= deadline {
        return OTimeout, 0;
      }
      remaining := if deadline - now > Session.MAX_TIMEOUT_MS then Session.MAX_TIMEOUT_MS else deadline - now;
      r := OOk;
    }

    /** Tries until the deadline passes. */
    method AcquireLock() returns (r: Result)
      requires Shape()
      modifies host.kernel`calls, host.kernel`clock, host.kernel`readings
      ensures !deadlineActive ==> r == OState
      ensures r == OOk ==> host.kernel.clock < deadline
      ensures r in {OOk, OState, OCancelled, OClock, OTimeout, OLock} && host.kernel.Later()
    {
      while true
        invariant host.kernel.Later()
        decreases deadline - host.kernel.clock
      {
        var remaining;
        r, remaining := RemainingMs(true);
        if r != OOk {
          return;
        }
        var locked := host.TryLock(lockDescriptor);
        match locked {
          case Acquired => return;
          case LockFailed => return OLock;
          case LockBusy =>
        }
        var ok := host.Wait(if remaining < LOCK_RETRY_MS then remaining else LOCK_RETRY_MS);
        if !ok {
          return OLock;
        }
      }
    }

    /** What a call of the callback leaves alone: the descriptors, the deadline and the lease. */
    twostate predicate SameHold()
      reads this, host
    {
      && sepDescriptor == old(sepDescriptor) && lockDescriptor == old(lockDescriptor) && host.trace == old(host.trace)
      && deadline == old(deadline) && deadlineActive == old(deadlineActive) && leaseActive == old(leaseActive)
      && SameStart()
    }

    twostate predicate SameStart()
      reads this
    {
      began == old(began) && due == old(due)
    }

    /** Looks at the clock and transfers without a command change nothing about the commands. */
    twostate lemma StaysQuiet()
      requires old(Answerable()) && SameStart() && host.kernel.Later() && session.base == old(session.base)
      requires acm.answers == old(acm.answers) && acm.failed == old(acm.failed)
      requires Session.Commands(session.log, |session.log|) == Session.Commands(old(session.log), |old(session.log)|)
      requires acm.failed ==> session.log == old(session.log)
      ensures Answerable()
    {
      AnsweredSame(old(session.log), session.log, acm.answers, acm.failed);
      if old(Excused()) && session.log == old(session.log) {
        LapseStays(old(host.kernel.readings), host.kernel.readings, began, began, due,
                   session.base + |session.log|);
      }
    }

    /** How much time a call of the callback has. */
    method Remaining() returns (r: Result, remaining: nat)
      requires Open()
      modifies host.kernel`calls, host.kernel`clock, host.kernel`readings
      ensures Open() && host.kernel.Later() && (!deadlineActive ==> r == OState && unchanged(host.kernel))
      ensures r == OOk ==>
                && deadlineActive && began < |host.kernel.readings|
                && HasLooked(host.kernel.readings[|host.kernel.readings| - 1], remaining)
    {
      r, remaining := RemainingMs(true);
      StaysQuiet();
    }

    /** Asks on behalf of the callback whether to go on. */
    method GoesOn() returns (cancelled: bool)
      requires Open()
      modifies host.kernel`calls
      ensures Open()
    {
      cancelled := IsCancelled();
    }

    /** The last look at the clock left this much time, or the longest timeout. */
    ghost predicate HasLooked(last: UrbKernel.Reading, remaining: nat)
      reads this, session, session.transport.kernel
    {
      && LeavesTime(last, deadline, session.base + |session.log|) && last == session.Look(true)
      && (remaining == Session.MAX_TIMEOUT_MS || last.value + remaining == deadline)
    }

    /** What any call of the callback keeps: the descriptors, and either the deadline, which bounds every
        transfer of an exchange, or the lease, under which there are none. */
    twostate predicate Kept()
      reads this, host, acm, session, session.relay, session.input, session.output, transport, transport.kernel,
            transport.input, transport.output
    {
      && Open() && sepDescriptor == old(sepDescriptor) && lockDescriptor == old(lockDescriptor)
      && host.trace == old(host.trace) + Lending(leaseActive && !old(leaseActive))
      && session.base == old(session.base)
      && Extends(old(session.log), session.log, old(deadline))
      && (old(leaseActive) ==> leaseActive)
      && (deadlineActive ==> old(deadlineActive) && deadline == old(deadline))
      && SameStart() && host.kernel.Later()
    }

    /** Under a lease there are no exchanges. */
    method KeystoreExchange(op: Keystore.Operation, request: seq<byte>) returns (r: Result, reply: Keystore.Reply)
      requires Open() && op.transaction <= 0xFF
      modifies session.Parts()
      ensures Kept() && SameHold() && unchanged(acm)
      ensures leaseActive ==> r == OState && unchanged(host.kernel)
    {
      reply := Keystore.NO_REPLY;
      var remaining;
      r, remaining := Remaining();
      if r == OOk {
        r, reply := AskWithin(op, request, remaining);
      }
    }

    method AskWithin(op: Keystore.Operation, request: seq<byte>, remaining: nat)
      returns (r: Result, reply: Keystore.Reply)
      requires Open() && op.transaction <= 0xFF && deadlineActive
      modifies session.Parts()
      ensures Kept() && SameHold()
    {
      var result, answer, limit, p := session.KeystoreExchange(op, request, remaining);
      Session.CommandsNone(old(session.log), session.log,
                           Session.SealedRequest(p, op.selector, op.transaction, request));
      StaysQuiet();
      CallExtends(old(session.log), session.log, RelayWire.SKIP_LIMIT, limit, deadline);
      r, reply := FromSession(result), answer;
    }

    method AcmExchange(command: Acm.Command) returns (r: Result, outcome: Acm.Outcome)
      requires Open()
      modifies session.Parts(), acm
      ensures Kept() && SameHold()
      ensures leaseActive ==> r == OState && unchanged(acm) && unchanged(host.kernel)
      ensures acm.pendingValid == old(acm.pendingValid)
      ensures session.log == old(session.log) ==> acm.answers == old(acm.answers)
    {
      outcome := Acm.NO_OUTCOME;
      var remaining;
      r, remaining := Remaining();
      if r == OOk {
        r, outcome := CarryWithin(command, remaining);
      }
    }

    method CarryWithin(command: Acm.Command, remaining: nat) returns (r: Result, outcome: Acm.Outcome)
      requires Open() && deadlineActive && began < |host.kernel.readings|
      requires HasLooked(host.kernel.readings[|host.kernel.readings| - 1], remaining)
      modifies session.Parts(), acm
      ensures Kept() && SameHold() && acm.pendingValid == old(acm.pendingValid)
      ensures session.log == old(session.log) ==> acm.answers == old(acm.answers)
    {
      ghost var limit, payload;
      r, outcome, limit, payload := Transmit(command, remaining);
      if session.log == old(session.log) && acm.failed && !old(acm.failed) {
        Lapses(remaining);
      }
      StaysCarried(limit, payload);
    }

    method Transmit(command: Acm.Command, remaining: nat)
      returns (r: Result, outcome: Acm.Outcome, ghost limit: nat, ghost payload: Session.Payload)
      requires Usable() && deadlineActive
      modifies session.Parts(), acm
      ensures Usable() && SameHold() && host.kernel.Later() && session.base == old(session.base)
      ensures acm.pendingValid == old(acm.pendingValid) && Concludes(payload)
      ensures acm.failed ==> old(acm.failed) || session.phase == Session.Poisoned
      ensures old(session.phase) == Session.Poisoned ==> session.phase == Session.Poisoned
      ensures session.log == old(session.log) && acm.failed && !old(acm.failed) ==> session.Lapsed(remaining)
      ensures Session.IsCall(old(session.log), session.log, RelayWire.SKIP_LIMIT + 1, limit)
      ensures session.log != old(session.log) ==> limit <= deadline
    {
      var result;
      result, outcome, limit, payload := session.AcmExchange(acm, command, remaining);
      r := FromSession(result);
    }

    /** A command in time, or too late. */
    twostate lemma StaysCarried(limit: nat, new payload: Session.Payload)
      requires old(Answerable()) && SameStart() && host.kernel.Later() && session.base == old(session.base)
      requires Concludes(payload)
      requires session.log == old(session.log) && acm.failed && !old(acm.failed) ==> Excused()
      requires Session.IsCall(old(session.log), session.log, RelayWire.SKIP_LIMIT + 1, limit)
      requires session.log != old(session.log) ==> limit <= old(deadline)
      ensures Answerable() && Extends(old(session.log), session.log, old(deadline))
    {
      StaysAnswerable(payload);
      CallExtends(old(session.log), session.log, RelayWire.SKIP_LIMIT + 1, limit, old(deadline));
    }

    /** The look before a call, and those of a call that was too late. */
    twostate lemma Lapses(remaining: nat)
      requires SameStart() && old(Poised()) && old(deadlineActive && began < |host.kernel.readings|) && Shape()
      requires session.base == old(session.base) && session.log == old(session.log)
      requires session.deadlineSet && session.operationDeadline == old(deadline)
      requires old(HasLooked(host.kernel.readings[|host.kernel.readings| - 1], remaining))
      requires session.Lapsed(remaining)
      ensures Excused()
    {
      LapseMeans(host.kernel.readings, began, due, session.base + |session.log|);
      assert IsLapse(host.kernel.readings, |old(host.kernel.readings)| - 1, due, session.base + |session.log|);
    }

    /** A command that went out is answered or lost; one that did not was too late. */
    twostate lemma StaysAnswerable(new payload: Session.Payload)
      requires old(Answerable()) && SameStart() && host.kernel.Later() && session.base == old(session.base)
      requires Concludes(payload)
      requires session.log == old(session.log) && acm.failed && !old(acm.failed) ==> Excused()
      ensures Answerable()
    {
      StaysAnswered(payload);
      if session.log == old(session.log) && old(Excused()) {
        LapseStays(old(host.kernel.readings), host.kernel.readings, began, began, due,
                   session.base + |session.log|);
      }
    }

    /** A command that went out came to an end. */
    twostate predicate Concludes(new payload: Session.Payload)
      reads acm, session
    {
      && |old(session.log)| <= |session.log| && session.log[..|old(session.log)|] == old(session.log)
      && (old(acm.failed) ==> acm.failed)
      && (session.log != old(session.log) ==>
            && !old(acm.failed) && payload.AcmCommand?
            && Session.IsCommand(session.log, |old(session.log)|, payload)
            && session.Ended(acm, payload.identity, Acm.OperationOf(payload.command)))
      && (session.log == old(session.log) ==> acm.answers == old(acm.answers))
    }

    twostate lemma StaysAnswered(new payload: Session.Payload)
      requires old(Answers()) && Concludes(payload)
      ensures Answers()
      ensures session.log != old(session.log) && acm.failed ==> HasLost(session.log, acm.answers, Session.FOLDED)
    {
      if session.log == old(session.log) {
        AnsweredMeans(session.log, acm.answers, acm.failed);
        AnsweredMeans(session.log, acm.answers, old(acm.failed));
      } else {
        Session.CommandsOne(old(session.log), session.log, payload);
        AnsweredStep(old(session.log), session.log,
                     Session.Issue(payload.identity, Acm.OperationOf(payload.command)), old(acm.answers), acm.answers,
                     acm.failed);
      }
    }

    /** A notification changes nothing about the commands either. */
    twostate lemma StaysDrained(timeoutMs: nat)
      requires old(Answerable()) && SameStart() && host.kernel.Later() && session.base == old(session.base)
      requires acm.answers == old(acm.answers) && acm.failed == old(acm.failed)
      requires || session.log == old(session.log)
               || session.log == old(session.log) + [Session.Drain(old(host.kernel.clock), timeoutMs)]
      requires session.log != old(session.log) ==> 0 < timeoutMs <= Session.MAX_TIMEOUT_MS && !acm.failed
      ensures Answerable() && Extends(old(session.log), session.log, old(deadline))
    {
      QuietDrain(old(session.log), session.log, old(host.kernel.clock), timeoutMs, old(deadline));
      StaysQuiet();
    }

    method DrainNotification(timeoutMs: nat) returns (r: Result)
      requires Open()
      modifies session.Parts()
      ensures Kept() && SameHold() && unchanged(acm)
    {
      var result := session.DrainNotification(timeoutMs);
      StaysDrained(timeoutMs);
      r := FromSession(result);
    }

    method Entropy(length: nat) returns (r: Result, bytes: seq<byte>)
      requires Open()
      modifies session.Parts()
      ensures Kept() && SameHold() && unchanged(acm) && session.log == old(session.log)
      ensures leaseActive ==> r in {OArgument, OState} && unchanged(host.kernel)
      ensures r == OOk ==> |bytes| == length > 0
    {
      bytes := [];
      if length == 0 {
        return OArgument, [];
      }
      var remaining;
      r, remaining := Remaining();
      if r != OOk {
        return;
      }
      var ok;
      ok, bytes := host.Entropy(length);
      r := if ok then OOk else OEntropy;
    }

    /** A timestamp in microseconds that is later than the previous one. */
    method Timestamp(previous: nat) returns (r: Result, timestamp: nat)
      requires Open() && previous <= RelayWire.MAX_U64
      modifies session.Parts()
      ensures Kept() && SameHold() && unchanged(acm) && session.log == old(session.log)
      ensures leaseActive ==> r == OState && unchanged(host.kernel)
      ensures r == OOk ==> previous < timestamp <= RelayWire.MAX_U64 && timestamp >= host.kernel.clock * 1000
      ensures r == OOk ==> timestamp == previous + 1 || timestamp == host.kernel.clock * 1000
    {
      timestamp := 0;
      if !deadlineActive {
        return OState, 0;
      }
      var cancelled := IsCancelled();
      if cancelled {
        return OCancelled, 0;
      }
      var ok, now := Now();
      StaysQuiet();
      if !ok {
        return OClock, 0;
      }
      if now >= deadline {
        return OTimeout, 0;
      }
      if now > RelayWire.MAX_U64 / 1000 {
        return OClock, 0;
      }
      timestamp := now * 1000;
      if timestamp <= previous {
        if previous == RelayWire.MAX_U64 {
          return OClock, 0;
        }
        timestamp := previous + 1;
      }
      r := OOk;
    }

    /** A request stamped after the last one is never refused as stale. */
    method BuildStamped(keystore: Keystore.State, a: Keystore.Arguments)
      returns (r: Result, status: Keystore.Status, request: array<byte>, op: Keystore.Operation)
      requires Open() && keystore.Valid() && keystore !in Parts() && Keystore.WellTyped(a)
      modifies session.Parts(), keystore
      ensures Open() && SameHold() && unchanged(acm) && keystore.Valid()
      ensures r == OOk ==> status != Keystore.KState
    {
      var timestamp;
      request, op, status := new byte[0], Keystore.NO_OPERATION, Keystore.KState;
      r, timestamp := Timestamp(keystore.lastTimestamp);
      if r == OOk {
        status, request, op := Keystore.BuildLater(keystore, a, timestamp);
      }
    }

    /** Trades the deadline for a lease. */
    method ReleaseAcquisitionDeadline() returns (r: Result)
      requires Open()
      modifies this`deadline, this`deadlineActive, this`leaseActive, host`trace
      modifies session`phase, session`operationDeadline, session`deadlineSet, session.input, session.output
      modifies host.kernel`calls, host.kernel`clock, host.kernel`readings
      ensures Kept()
      ensures r == OOk ==> old(deadlineActive) && leaseActive
      ensures r != OOk ==> SameHold()
    {
      if !sessionInitialized || !deadlineActive || leaseActive {
        return OState;
      }
      r := Trade();
    }

    /** The same for a deadline that has not passed. */
    method Trade() returns (r: Result)
      requires Open() && deadlineActive
      modifies this`deadline, this`deadlineActive, this`leaseActive, host`trace
      modifies session`phase, session`operationDeadline, session`deadlineSet, session.input, session.output
      modifies host.kernel`calls, host.kernel`clock, host.kernel`readings
      ensures Kept() && (if r == OOk then leaseActive else SameHold())
    {
      var remaining;
      r, remaining := Remaining();
      if r == OOk {
        r := BeginLease();
      }
    }

    method Hold(deadline: nat, active: bool, lease: bool)
      requires Shape() && session.Valid()
      modifies this`deadline, this`deadlineActive, this`leaseActive
      ensures session.Valid() && this.deadline == deadline && deadlineActive == active && leaseActive == lease
    {
      this.deadline, deadlineActive, leaseActive := deadline, active, lease;
    }

    method BeginLease() returns (r: Result)
      requires Open() && deadlineActive
      modifies this`deadline, this`deadlineActive, this`leaseActive, host`trace
      modifies session`phase, session`operationDeadline, session`deadlineSet, session.input, session.output
      modifies host.kernel`calls, host.kernel`clock, host.kernel`readings
      ensures Open() && host.kernel.Later() && SameStart()
      ensures if r == OOk then leaseActive && host.trace == old(host.trace) + [Leased] else SameHold()
    {
      var result := session.ReleaseOperationDeadline();
      StaysQuiet();
      r := FromSession(result);
      if r == OOk {
        Hold(0, false, true);
        host.Lease();
      }
    }

    /** Any calls, in any order and number, with any results. */
    method Callback(script: seq<Call>)
      requires Open()
      modifies Parts()
      ensures Kept()
    {
      for i := 0 to |script|
        invariant Kept()
      {
        ghost var before := session.log;
        Perform(script[i]);
        ExtendsTransitive(old(session.log), before, session.log, old(deadline));
      }
    }

    method Perform(call: Call)
      requires Open()
      modifies Parts()
      ensures Kept()
    {
      match call
      case Ask(op, request) =>
        var _, _ := KeystoreExchange(op.(transaction := op.transaction % 0x100), request);
      case Carry(command) =>
        var _, _ := AcmExchange(command);
      case Drain(timeoutMs) =>
        var _ := DrainNotification(timeoutMs);
      case Random(length) =>
        var _, _ := Entropy(length);
      case Stamp(previous) =>
        var _, _ := Timestamp(previous % (RelayWire.MAX_U64 + 1));
      case Release =>
        var _ := ReleaseAcquisitionDeadline();
    }

    // -----------------------------------------------------------------------
    // Teardown

    /** Whatever has been opened so far can be closed. */
    ghost predicate Closable()
      reads this, acm, session, session.relay, session.input, session.output, transport, transport.kernel,
            transport.input, transport.output
    {
      && Shape()
      && (acmInitialized ==> Usable())
      && (sessionInitialized ==> session.Valid() && session.phase != Session.Closed)
      && (sessionInitialized ==> sepDescriptor >= 0 && transport.interfaceClaimed)
      && (!sessionInitialized ==> transport.Accounted())
      && (sepDescriptor < 0 ==> transport.kernel.held == {})
    }

    /** Replaces a lease by the deadline of the cleanup. */
    method EndLease() returns (clean: bool)
      requires Usable()
      modifies this`deadline, this`deadlineActive, this`leaseActive
      modifies session`phase, session`operationDeadline, session`deadlineSet, session.input, session.output
      modifies host.kernel`calls, host.kernel`clock, host.kernel`readings
      ensures clean ==> Usable() && deadlineActive
      ensures !clean ==> session.Valid() && session.phase != Session.Closed
      ensures host.kernel.Later()
      ensures old(deadlineActive) ==> clean && SameHold() && session.phase == old(session.phase)
      ensures clean && old(leaseActive) ==> deadline <= host.kernel.clock + CLEANUP_TIMEOUT_MS
    {
      if !leaseActive {
        return true;
      }
      var ok, now := Now();
      if !ok || now + CLEANUP_TIMEOUT_MS > RelayWire.MAX_U64 {
        return false;
      }
      clean := InstallCleanup(now + CLEANUP_TIMEOUT_MS);
    }

    method InstallCleanup(limit: nat) returns (clean: bool)
      requires Usable() && leaseActive && limit <= host.kernel.clock + CLEANUP_TIMEOUT_MS
      modifies this`deadline, this`deadlineActive, this`leaseActive
      modifies session`phase, session`operationDeadline, session`deadlineSet, session.input, session.output
      modifies host.kernel`calls, host.kernel`clock, host.kernel`readings
      ensures clean ==> Usable() && deadlineActive && deadline == limit
      ensures !clean ==> session.Valid() && session.phase != Session.Closed
      ensures host.kernel.Later()
    {
      Hold(limit, false, true);
      var installed := session.SetOperationDeadline(deadline);
      if installed != Session.SOk {
        return false;
      }
      Hold(deadline, true, false);
      clean := true;
    }

    /** What the attempt to delete the context leaves behind. It is a success only if the command was sent and
        the other side carried it out. */
    twostate predicate Deleted(clean: bool, limit: nat)
      reads this, acm, session, session.relay, session.input, session.output, transport, transport.kernel,
            transport.input, transport.output
    {
      && Shape() && session.Valid() && acm.Valid() && transport.interfaceClaimed && session.phase != Session.Closed
      && CleansUp(old(session.log), session.log, limit) && host.kernel.Later()
      && (clean ==>
            && !acm.failed && Follows(old(acm.answers), acm.answers) && (old(Answers()) ==> Answers())
            && acm.accepted == old(acm.accepted) + [Acm.Delete]
            && |session.log| > |old(session.log)|
            && SendsDelete(session.log[|old(session.log)|], old(acm.context)))
    }

    /** Deletes the context that is still active, within a deadline. */
    method DeleteContext() returns (clean: bool)
      requires Usable() && acm.phase == Acm.Active
      modifies this`deadline, this`deadlineActive, this`leaseActive, session.relay, session.Buffers(), acm
      modifies session`phase, session`log, session`operationDeadline, session`deadlineSet
      ensures Deleted(clean, old(deadline))
    {
      clean := EndLease();
      if clean {
        clean := DeleteInTime(old(deadline));
      }
    }

    method DeleteInTime(ghost limit: nat) returns (clean: bool)
      requires Usable() && deadlineActive && acm.phase == Acm.Active
      requires deadline <= limit || deadline <= host.kernel.clock + CLEANUP_TIMEOUT_MS
      modifies session.relay, session.Buffers(), session`phase, session`log, acm
      ensures Deleted(clean, limit)
    {
      var r, remaining := RemainingMs(false);
      clean := r == OOk;
      if clean {
        clean := TryDelete(remaining, limit);
      }
    }

    method TryDelete(remaining: nat, ghost limit: nat) returns (clean: bool)
      requires Usable() && deadlineActive && acm.phase == Acm.Active
      requires deadline <= limit || deadline <= host.kernel.clock + CLEANUP_TIMEOUT_MS
      modifies session.relay, session.Buffers(), session`phase, session`log, acm
      ensures Deleted(clean, limit)
    {
      var result, _, bound, payload := session.AcmExchange(acm, Acm.DeleteCommand, remaining);
      if old(Answers()) {
        StaysAnswered(payload);
      }
      CallCleansUp(old(session.log), session.log, bound, limit);
      clean := result == Session.SOk;
    }

    /** First the context: deleted if it is active, and wiped in any case. */
    method EndContext() returns (clean: bool)
      requires Closable()
      modifies this`deadline, this`deadlineActive, this`leaseActive, this`acmInitialized, acm
      modifies session.relay, session.Buffers(), session`phase, session`log
      modifies session`operationDeadline, session`deadlineSet
      ensures Closable() && !acmInitialized && (old(acmInitialized) ==> acm.IsFailed())
      ensures CleansUp(old(session.log), session.log, old(deadline))
      ensures !old(acmInitialized) ==> unchanged(acm) && unchanged(session) && unchanged(host.kernel)
      ensures clean && old(acmInitialized) ==> NoContextLeft()
      ensures clean && old(acmInitialized && acm.phase == Acm.Active) ==>
                |session.log| > |old(session.log)| && SendsDelete(session.log[|old(session.log)|], old(acm.context))
      ensures old(acmInitialized && acm.phase != Acm.Active) ==>
                clean && Untouched() && unchanged(session) && unchanged(host.kernel)
      ensures clean && old(acmInitialized && acm.phase == Acm.Active) ==> Ended()
      ensures host.kernel.Later()
    {
      clean := true;
      if !acmInitialized {
        return;
      }
      if acm.phase == Acm.Active {
        clean := DeleteActive();
      }
      acm.Wipe();
      acmInitialized := false;
    }

    /** The context is gone if the other side deleted it. */
    method DeleteActive() returns (clean: bool)
      requires Usable() && acm.phase == Acm.Active
      modifies this`deadline, this`deadlineActive, this`leaseActive, session.relay, session.Buffers(), acm
      modifies session`phase, session`log, session`operationDeadline, session`deadlineSet
      ensures Deleted(clean, old(deadline)) && (clean ==> NoContextLeft())
    {
      clean := DeleteContext();
      Acm.State.PhaseAfterOne(old(acm.accepted), Acm.Delete);
    }

    /** A context can be left behind: whenever time runs out between the building of a command and its sending, the
        state machine fails although nothing went out, the context that is still there is not deleted, and that
        counts as a clean end. */
    method LateCommandLeavesContext(command: Acm.Command, limit: nat) returns (clean: bool)
      requires Usable() && session.phase == Session.Ready && acm.phase == Acm.Active
      requires session.CanBuild(acm, command)
      modifies Parts()
      ensures clean && Closable() && !acmInitialized && acm.IsFailed() && session.phase == Session.Poisoned
      ensures session.log == old(session.log) && acm.answers == old(acm.answers)
      ensures Acm.State.PhaseAfter(acm.accepted, |acm.accepted|) == Acm.Active
      ensures Session.IsLate(old(host.kernel.readings), host.kernel.readings, limit, session.base + |session.log|,
                             old(host.kernel.calls) + 1)
    {
      var _ := session.SendLate(acm, command, limit);
      clean := EndContext();
    }

    /** The last command was answered. */
    twostate predicate Ended()
      reads acm, session
    {
      !acm.failed && Follows(old(acm.answers), acm.answers) && (old(Answers()) ==> Answers())
    }

    /** Nothing was sent, and no command ended. */
    twostate predicate Untouched()
      reads session, acm
    {
      && session.log == old(session.log) && acm.answers == old(acm.answers)
      && acm.accepted == old(acm.accepted) && acm.failed == old(acm.failed)
    }

    /** The commands that succeeded have not left a context behind, unless the outcome of one was lost. */
    ghost predicate NoContextLeft()
      reads acm
    {
      acm.failed || Acm.State.PhaseAfter(acm.accepted, |acm.accepted|) != Acm.Active
    }

    /** Then the session. It is a success only if the kernel took the interface back. */
    method EndSession() returns (clean: bool)
      requires Closable() && !acmInitialized
      modifies this`sessionInitialized, session.relay, session.Buffers()
      modifies session`phase, session`operationDeadline, session`deadlineSet
      ensures Closable() && !sessionInitialized && transport.kernel.requests == old(transport.kernel.requests)
      ensures host.kernel.Later()
      ensures old(sessionInitialized) ==> session.phase == Session.Closed && session.Recorded()
      ensures old(sessionInitialized) ==> (clean <==> !transport.Stuck() && transport.Ended(true))
      ensures !old(sessionInitialized) ==> clean && unchanged(session) && unchanged(transport.kernel)
    {
      clean := true;
      if !sessionInitialized {
        return;
      }
      session.Open();
      var result := session.Destroy();
      session.Open();
      clean := result == Session.SOk;
      sessionInitialized := false;
    }

    /** Then the device; only now may everything be freed. */
    method CloseDevice() returns (clean: bool)
      requires Closable() && !acmInitialized && !sessionInitialized
      modifies this`sepDescriptor, this`deadline, this`deadlineActive, this`leaseActive
      modifies host`trace, host.kernel`calls, host.kernel`held, transport.Parts() - {host.kernel}
      ensures Freed()
      ensures host.trace == old(host.trace) + SepStep(old(sepDescriptor), clean, host.kernel)
      ensures old(sepDescriptor) < 0 ==> clean
    {
      clean := true;
      if sepDescriptor >= 0 {
        clean := host.CloseSep(sepDescriptor);
        sepDescriptor := -1;
      }
      transport.AbandonAfterClose();
      deadline, deadlineActive, leaseActive := 0, false, false;
    }

    /** Nothing of the device is left, and the kernel holds nothing. */
    ghost predicate Freed()
      reads this, transport, transport.kernel, transport.input, transport.output
    {
      && !acmInitialized && !sessionInitialized && sepDescriptor < 0 && !deadlineActive && !leaseActive
      && transport.kernel.held == {} && !transport.input.present && !transport.output.present
    }

    /** Session and device. */
    method EndDevice() returns (clean: bool, ghost sepOk: bool)
      requires Closable() && !acmInitialized
      modifies this`sessionInitialized, this`sepDescriptor, this`deadline, this`deadlineActive, this`leaseActive
      modifies host`trace, session.relay, session.Buffers()
      modifies session`phase, session`operationDeadline, session`deadlineSet
      ensures Freed() && host.kernel.Later()
      ensures host.trace == old(host.trace) + SepStep(old(sepDescriptor), sepOk, host.kernel)
      ensures host.kernel.requests == old(host.kernel.requests) && (old(sessionInitialized) ==> session.Recorded())
      ensures host.kernel.Later()
      ensures clean ==> sepOk && (old(sessionInitialized) ==> ReleasedLast())
    {
      var destroyClean := EndSession();
      var closeClean := CloseDevice();
      clean, sepOk := destroyClean && closeClean, closeClean;
    }

    /** Context, session, device: in this order, and each whatever became of the one before. */
    method CloseProductSession() returns (clean: bool, ghost sepOk: bool)
      requires Closable()
      modifies Parts()
      ensures Freed() && lockDescriptor == old(lockDescriptor)
      ensures host.trace == old(host.trace) + SepStep(old(sepDescriptor), sepOk, host.kernel)
      ensures old(sessionInitialized) ==> session.Recorded() && session.base == old(session.base)
      ensures old(sessionInitialized) ==> CleansUp(old(session.log), session.log, old(deadline))
      ensures !old(sessionInitialized) ==> host.kernel.requests == old(host.kernel.requests)
      ensures clean ==> sepOk && (old(sessionInitialized) ==> ReleasedLast())
      ensures clean && old(acmInitialized) ==> NoContextLeft()
      ensures clean && old(acmInitialized && acm.phase == Acm.Active) ==>
                |session.log| > |old(session.log)| && SendsDelete(session.log[|old(session.log)|], old(acm.context))
      ensures old(acmInitialized && acm.phase != Acm.Active) ==> Untouched()
      ensures clean && old(acmInitialized && acm.phase == Acm.Active) ==> Ended()
      ensures !old(acmInitialized) ==> unchanged(acm)
      ensures SameStart() && host.kernel.Later()
    {
      var deleteClean := EndContext();
      clean, sepOk := EndDevice();
      clean := deleteClean && clean;
    }

    /** The last thing the kernel has on record is that it took the interface back. */
    ghost predicate ReleasedLast()
      reads host.kernel
    {
      host.kernel.trace != [] && host.kernel.trace[|host.kernel.trace| - 1] == UrbKernel.Released(true)
    }

    method CloseLock() returns (clean: bool)
      modifies this`lockDescriptor, host`trace
      ensures lockDescriptor < 0
      ensures host.trace == old(host.trace) + LockStep(old(lockDescriptor), clean)
      ensures old(lockDescriptor) < 0 ==> clean
    {
      clean := true;
      if lockDescriptor >= 0 {
        clean := host.CloseLock(lockDescriptor);
        lockDescriptor := -1;
      }
    }

    /** The whole teardown. */
    method Close(finalizer: bool) returns (clean: bool, ghost sepOk: bool, ghost lockOk: bool)
      requires Closable()
      modifies Parts()
      ensures Freed() && lockDescriptor < 0
      ensures host.trace == old(host.trace) + SepStep(old(sepDescriptor), sepOk, host.kernel)
                            + (if finalizer then [Finalized] else []) + LockStep(old(lockDescriptor), lockOk)
      ensures old(sessionInitialized) ==> session.Recorded() && session.base == old(session.base)
      ensures old(sessionInitialized) ==> CleansUp(old(session.log), session.log, old(deadline))
      ensures !old(sessionInitialized) ==> host.kernel.requests == old(host.kernel.requests)
      ensures clean ==> sepOk && lockOk && (old(sessionInitialized) ==> ReleasedLast())
      ensures clean && old(acmInitialized) ==> NoContextLeft()
      ensures clean && old(acmInitialized && acm.phase == Acm.Active) ==>
                |session.log| > |old(session.log)| && SendsDelete(session.log[|old(session.log)|], old(acm.context))
      ensures old(acmInitialized && acm.phase != Acm.Active) ==> Untouched()
      ensures clean && old(acmInitialized && acm.phase == Acm.Active) ==> Ended()
      ensures !old(acmInitialized) ==> unchanged(acm)
      ensures SameStart() && host.kernel.Later()
    {
      var deviceClean, deviceOk := CloseProductSession();
      if finalizer {
        host.Finalize();
      }
      var lockClean := CloseLock();
      clean, sepOk, lockOk := deviceClean && lockClean, deviceOk, lockClean;
    }

    // -----------------------------------------------------------------------
    // The run

    /** Before there is a session: a deadline, no lease, and a kernel that holds nothing. */
    ghost predicate Bare()
      reads this, transport.kernel, host.kernel
    {
      && Shape() && transport.Accounted() && transport.kernel.held == {}
      && !sessionInitialized && !acmInitialized && deadlineActive && !leaseActive && Poised()
    }

    method CheckTime() returns (r: Result)
      requires Bare()
      modifies host.kernel`calls, host.kernel`clock, host.kernel`readings
      ensures Bare() && r in {OOk, OCancelled, OClock, OTimeout}
    {
      var result, _ := RemainingMs(true);
      r := result;
    }

    /** Opens the lock and waits for it. */
    method TakeLock(preflight: Preflight) returns (r: Result)
      requires Bare()
      modifies this`lockDescriptor, host`trace, host.kernel`calls, host.kernel`clock, host.kernel`readings
      ensures Bare() && host.trace == old(host.trace) + LockOpening(lockDescriptor, old(host.kernel.clock))
      ensures r == OOk ==> lockDescriptor >= 0
    {
      var ok;
      ok, lockDescriptor := host.OpenLock();
      if !ok || lockDescriptor < 0 {
        return OLock;
      }
      r := AcquireLock();
      if r != OOk {
        return;
      }
      r := CheckTime();
      if r != OOk || preflight.NoPreflight? {
        return;
      }
      r := preflight.result;
      if r != OOk {
        return;
      }
      r := CheckTime();
    }

    /** Draws the seeds of the session and opens the device. */
    method OpenDevice() returns (r: Result, seeds: Seeds)
      requires Bare() && sepDescriptor == -1
      modifies this`sepDescriptor, host`trace, host.kernel`calls, host.kernel`clock, host.kernel`readings
      ensures Bare() && InBounds(seeds) && host.trace == old(host.trace) + SepOpening(sepDescriptor)
      ensures r == OOk ==> sepDescriptor >= 0
    {
      seeds := Seeds(1, 0);
      var ok, entropy := host.Entropy(12);
      if !ok {
        return OEntropy, seeds;
      }
      seeds := DeriveSeeds(entropy);
      var remaining;
      r, remaining := RemainingMs(true);
      if r != OOk {
        return;
      }
      r, sepDescriptor := host.OpenSep(remaining);
      if r == OOk && sepDescriptor < 0 {
        r := OUsb;
      }
    }

    /** Sets up the transport and the session on it, or neither. */
    method InitializeSession(seeds: Seeds, enough: (bool, bool)) returns (ok: bool)
      requires Bare() && sepDescriptor >= 0 && seeds.token <= RelayWire.MAX_U64 && seeds.index <= RelayWire.MAX_U32
      modifies session.Parts()
      ensures Shape() && transport.kernel.held == {} && transport.Accounted() && transport.Onward()
      ensures ok ==> session.Valid() && session.phase == Session.New && !session.deadlineSet && session.log == []
      ensures ok ==> seeds.token != 0 && transport.interfaceClaimed && session.base == |host.kernel.requests|
      ensures !ok ==> !transport.input.present && !transport.output.present
    {
      var status := transport.Initialize(sepDescriptor, enough);
      if status != UrbTransport.Ok {
        return false;
      }
      var result := session.Init(seeds.token, seeds.index);
      if result != Session.SOk {
        var _ := transport.Destroy();
        return false;
      }
      ok := true;
    }

    /** Makes the session and negotiates. */
    method StartSession(seeds: Seeds, enough: (bool, bool)) returns (r: Result)
      requires Bare() && InBounds(seeds) && sepDescriptor >= 0
      modifies Parts() - {acm, host}
      ensures Closable() && !leaseActive && !acmInitialized && deadline == old(deadline)
      ensures sepDescriptor == old(sepDescriptor) && lockDescriptor == old(lockDescriptor)
      ensures sessionInitialized ==> Extends([], session.log, deadline) && session.base == |old(host.kernel.requests)|
      ensures !sessionInitialized ==> host.kernel.requests == old(host.kernel.requests)
      ensures r == OOk ==> sessionInitialized && session.phase == Session.Ready && session.deadlineSet && deadlineActive
      ensures r == OOk ==> session.operationDeadline == deadline && Poised()
      ensures r == OOk ==> Session.Commands(session.log, |session.log|) == []
      ensures SameStart()
    {
      r := CheckTime();
      if r != OOk {
        return;
      }
      r := OpenSession(seeds, enough);
    }

    method OpenSession(seeds: Seeds, enough: (bool, bool)) returns (r: Result)
      requires Bare() && InBounds(seeds) && sepDescriptor >= 0
      modifies Parts() - {acm, host}
      ensures Closable() && !leaseActive && !acmInitialized && deadline == old(deadline)
      ensures sepDescriptor == old(sepDescriptor) && lockDescriptor == old(lockDescriptor)
      ensures sessionInitialized ==> Extends([], session.log, deadline) && session.base == |old(host.kernel.requests)|
      ensures !sessionInitialized ==> host.kernel.requests == old(host.kernel.requests)
      ensures r == OOk ==> sessionInitialized && session.phase == Session.Ready && session.deadlineSet && deadlineActive
      ensures r == OOk ==> session.operationDeadline == deadline && Poised()
      ensures r == OOk ==> Session.Commands(session.log, |session.log|) == []
      ensures SameStart()
    {
      var ok := InitializeSession(seeds, enough);
      if !ok {
        return OSession;
      }
      sessionInitialized := true;
      r := Negotiate();
    }

    method Negotiate() returns (r: Result)
      requires Shape() && session.Valid() && session.phase == Session.New && !session.deadlineSet && session.log == []
      modifies session.relay, session.Buffers()
      modifies session`phase, session`log, session`opening, session`operationDeadline, session`deadlineSet
      ensures session.Valid() && Extends([], session.log, deadline) && transport.SameAllocation()
      ensures session.phase != Session.Closed
      ensures r == OOk ==>
                session.phase == Session.Ready && session.deadlineSet && session.operationDeadline == deadline
      ensures r == OOk ==> Session.Commands(session.log, |session.log|) == []
      ensures host.kernel.Later()
    {
      var installed := session.SetOperationDeadline(deadline);
      if installed != Session.SOk {
        return FromSession(installed);
      }
      var result, limit := session.Negotiate(Session.MAX_TIMEOUT_MS);
      CallExtends([], session.log, 5, limit, deadline);
      if result == Session.SOk {
        Session.CommandsQuiet(session.log, 0, |session.log|);
      }
      r := FromSession(result);
    }

    /** Everything up to the teardown. */
    method Body(preflight: Preflight, script: seq<Call>, outcome: Result, enough: (bool, bool)) returns (r: Result)
      requires Bare() && lockDescriptor == sepDescriptor == -1
      modifies Parts()
      ensures Closable()
      ensures host.trace
           == old(host.trace) + LockOpening(lockDescriptor, old(host.kernel.clock)) + SepOpening(sepDescriptor)
              + Lending(leaseActive)
      ensures r == OOk ==> outcome == OOk && lockDescriptor >= 0 && sepDescriptor >= 0 && acmInitialized
      ensures acmInitialized ==> sessionInitialized
      ensures !acmInitialized ==> unchanged(acm) && deadline == old(deadline)
      ensures acmInitialized ==> deadline <= old(deadline)
      ensures sessionInitialized ==>
                Extends([], session.log, old(deadline)) && session.base == |old(host.kernel.requests)|
      ensures sessionInitialized ==> lockDescriptor >= 0
      ensures !sessionInitialized ==> host.kernel.requests == old(host.kernel.requests)
      ensures SameStart() && (acmInitialized ==> Open())
    {
      r := TakeLock(preflight);
      if r != OOk {
        return;
      }
      var seeds;
      r, seeds := OpenDevice();
      if r != OOk {
        return;
      }
      r := StartSession(seeds, enough);
      if r != OOk {
        return;
      }
      r := Use(script, outcome);
    }

    /** Makes the state machine, unless the operation is cancelled. */
    method Admit() returns (cancelled: bool)
      requires Closable() && sessionInitialized && deadlineActive && !leaseActive && session.phase == Session.Ready
      requires session.deadlineSet && session.operationDeadline == deadline
      requires Poised() && Session.Commands(session.log, |session.log|) == []
      modifies this`acmInitialized, acm, host.kernel`calls
      ensures Open()
    {
      acm.Init();
      AnsweredMeans(session.log, acm.answers, acm.failed);
      acmInitialized := true;
      cancelled := IsCancelled();
    }

    /** The callback, unless the operation is cancelled before or after it. */
    method Use(script: seq<Call>, outcome: Result) returns (r: Result)
      requires Closable() && sessionInitialized && deadlineActive && !leaseActive && session.phase == Session.Ready
      requires session.deadlineSet && session.operationDeadline == deadline && Extends([], session.log, deadline)
      requires Poised() && Session.Commands(session.log, |session.log|) == []
      modifies Parts()
      ensures Closable() && sessionInitialized && acmInitialized && (r == OOk ==> outcome == OOk)
      ensures sepDescriptor == old(sepDescriptor) && lockDescriptor == old(lockDescriptor)
      ensures host.trace == old(host.trace) + Lending(leaseActive) && Open()
      ensures Extends([], session.log, old(deadline)) && deadline <= old(deadline) && session.base == old(session.base)
      ensures SameStart()
    {
      var cancelled := Admit();
      if cancelled {
        return OCancelled;
      }
      ghost var before := session.log;
      Callback(script);
      ExtendsTransitive([], before, session.log, old(deadline));
      r := outcome;
      cancelled := GoesOn();
      if r == OOk && cancelled {
        r := OCancelled;
      }
    }

    /** Starts from nothing. */
    method Reset(deadline: nat)
      modifies this, acm
      ensures this.deadline == deadline && deadlineActive && !leaseActive && !sessionInitialized && !acmInitialized
      ensures began == |host.kernel.readings| && due == deadline && Poised()
      ensures lockDescriptor == -1 && sepDescriptor == -1 && acm.Valid() && acm.phase == Acm.New && NoContextLeft()
      ensures acm.answers == [] && !acm.failed
    {
      this.deadline, deadlineActive, leaseActive := deadline, true, false;
      began, due := |host.kernel.readings|, deadline;
      sessionInitialized, acmInitialized, lockDescriptor, sepDescriptor := false, false, -1, -1;
      acm.Init();
    }

    /** The deadline of the run, unless it is cancelled before it begins. */
    method Start(timeoutMs: nat) returns (r: Result)
      requires Shape() && transport.Accounted() && host.kernel.held == {}
      modifies this, acm, host.kernel`calls, host.kernel`clock, host.kernel`readings
      ensures r in {OOk, OArgument, OClock, OCancelled} && host.kernel.Later()
      ensures r == OOk ==> Bare() && lockDescriptor == sepDescriptor == -1 && NoContextLeft()
      ensures r == OOk ==> acm.answers == [] && !acm.failed
      ensures r == OOk ==> deadline == host.kernel.clock + timeoutMs && began >= |old(host.kernel.readings)|
    {
      if timeoutMs == 0 {
        return OArgument;
      }
      var clock, now := host.kernel.MonotonicMs();
      if clock != UrbKernel.OpOk || now + timeoutMs > RelayWire.MAX_U64 {
        return OClock;
      }
      Reset(now + timeoutMs);
      var cancelled := host.Cancelled();
      r := if cancelled then OCancelled else OOk;
    }

    /** The transfers of a run are on the kernel's record, from `first` on, and in time. */
    ghost predicate InRecord(first: nat, n: nat, limit: nat)
      reads session, host.kernel
    {
      session.base == first && IsOnRecord(host.kernel.requests, session.base, session.log, n, limit, Session.FOLDED)
    }

    /** The record accounts for all that a run sent, and for a context that it left. */
    ghost predicate Accounts(run: Run, from: nat, limit: nat)
      reads acm, session, host.kernel
    {
      IsAccounted(session.log, acm.answers, acm.failed, host.kernel.readings, session.base, run, from, limit,
                  Session.FOLDED)
    }

    method RunBegun(
      preflight: Preflight, script: seq<Call>, outcome: Result, finalizer: bool, enough: (bool, bool), ghost from: nat)
      returns (r: Result, ghost run: Run)
      requires Bare() && lockDescriptor == sepDescriptor == -1 && NoContextLeft() && acm.answers == [] && !acm.failed
      requires from <= began
      modifies Parts()
      ensures Freed() && run.began && run.start == old(host.kernel.clock)
      ensures host.trace == old(host.trace) + Steps(run, finalizer, host.kernel)
      ensures host.kernel.requests != old(host.kernel.requests) ==>
                run.lock >= 0 && run.sep >= 0 && InRecord(|old(host.kernel.requests)|, run.transfers, old(deadline))
      ensures r == OOk ==> outcome == OOk && run.lock >= 0 && run.sep >= 0 && ReleasedLast()
      ensures r in {OOk, OCancelled} ==> run.sepOk && run.lockOk && NoContextLeft()
      ensures r == OCancelled && host.kernel.requests != old(host.kernel.requests) ==> ReleasedLast()
      ensures r == OOk || (r == OCancelled && (acm.answers != [] || acm.failed)) ==>
                Accounts(run, from, old(deadline))
    {
      r := Body(preflight, script, outcome, enough);
      ghost var before, middle := session.log, deadline;
      ghost var known, failed, late, looks := acm.answers, acm.failed, Excused(), host.kernel.readings;
      ghost var started, used, active := sessionInitialized, acmInitialized, acm.phase == Acm.Active;
      ghost var lock, sep, leased := lockDescriptor, sepDescriptor, leaseActive;
      var clean, sepOk, lockOk := Close(finalizer);
      run := Run(true, lock, sep, sepOk, lockOk, leased, old(host.kernel.clock), if started then |before| else 0);
      if started {
        RunIsInTime(before, session.log, middle, old(deadline));
        OnRecordMeans(host.kernel.requests, session.base, session.log, |before|, old(deadline));
      }
      if late && started {
        LapseStays(looks, host.kernel.readings, began, from, due, session.base + |before|);
      }
      if used && clean {
        RunIsAccounted(before, session.log, known, acm.answers, failed, acm.failed, host.kernel.readings, session.base,
                       run, from, due, active);
      }
      StepsJoin(old(host.trace), LockOpening(lock, run.start), SepOpening(sep), Lending(leased),
                SepStep(sep, sepOk, host.kernel), if finalizer then [Finalized] else [], LockStep(lock, lockOk));
      if !clean && r in {OOk, OCancelled} {
        r := OTeardown;
      }
    }
  }

  lemma StepsJoin(t: seq<Step>, a: seq<Step>, b: seq<Step>, c: seq<Step>, d: seq<Step>, e: seq<Step>, f: seq<Step>)
    ensures t + a + b + c + d + e + f == t + (a + b + c + d + e + f)
  {
  }

  /** A transfer that tells the other side to delete this context. */
  ghost predicate SendsDelete(t: Session.Transfer, context: seq<byte>) { IsDelete(t) && t.payload.context == context }

  ghost predicate IsDelete(t: Session.Transfer) {
    t.direction == UrbKernel.Both && t.payload.AcmCommand? && t.payload.command == Acm.DeleteCommand
  }

  /** After the first `n` transfers there was a context: all commands in them had been answered, and the answers
      left one. */
  ghost predicate ActiveAfter(log: seq<Session.Transfer>, n: nat, answers: seq<Acm.Answer>) {
    && n <= |log|
    && var k := |Session.Commands(log, n)|;
       && k <= |answers|
       && Acm.State.PhaseAfter(Acm.Succeeded(answers, k), |Acm.Succeeded(answers, k)|) == Acm.Active
  }

  /** A command came too late to be sent: before there was a lease, after the last transfer of the run, and nothing was
      sent any more. */
  ghost predicate CameLate(
    log: seq<Session.Transfer>, readings: seq<UrbKernel.Reading>, base: nat, run: Run, from: nat, limit: nat)
  {
    !run.leased && |log| == run.transfers && HasLapse(readings, from, limit, base + run.transfers)
  }

  /** All that a run sent was answered or lost; and if that left a context, the first thing sent afterwards was to
      delete it, unless a command came too late to be sent. The depth keeps this folded: `AccountedMeans` looks into
      it. */
  ghost predicate IsAccounted(
    log: seq<Session.Transfer>, answers: seq<Acm.Answer>, failed: bool, readings: seq<UrbKernel.Reading>, base: nat,
    run: Run, from: nat, limit: nat, depth: nat)
    decreases |log|, depth
  {
    if depth > 0 then IsAccounted(log, answers, failed, readings, base, run, from, limit, depth - 1)
    else
      && IsAnswered(log, answers, failed, Session.FOLDED)
      && (failed && !HasLost(log, answers, Session.FOLDED) ==> CameLate(log, readings, base, run, from, limit))
      && (ActiveAfter(log, run.transfers, answers) ==>
            || (|log| > run.transfers && IsDelete(log[run.transfers]))
            || CameLate(log, readings, base, run, from, limit))
  }

  lemma AccountedMeans(
    log: seq<Session.Transfer>, answers: seq<Acm.Answer>, failed: bool, readings: seq<UrbKernel.Reading>, base: nat,
    run: Run, from: nat, limit: nat)
    ensures IsAccounted(log, answers, failed, readings, base, run, from, limit, Session.FOLDED) <==>
            && IsAnswered(log, answers, failed, Session.FOLDED)
            && (failed && !HasLost(log, answers, Session.FOLDED) ==> CameLate(log, readings, base, run, from, limit))
            && (ActiveAfter(log, run.transfers, answers) ==>
                  || (|log| > run.transfers && IsDelete(log[run.transfers]))
                  || CameLate(log, readings, base, run, from, limit))
  {
    assert IsAccounted(log, answers, failed, readings, base, run, from, limit, 2)
        == IsAccounted(log, answers, failed, readings, base, run, from, limit, 3);
    assert IsAccounted(log, answers, failed, readings, base, run, from, limit, 1)
        == IsAccounted(log, answers, failed, readings, base, run, from, limit, 2);
  }

  /** A run that was torn down clean: an active context was deleted, and for any other state nothing was sent. */
  lemma RunIsAccounted(
    before: seq<Session.Transfer>, log: seq<Session.Transfer>, known: seq<Acm.Answer>, answers: seq<Acm.Answer>,
    failedThen: bool, failed: bool, readings: seq<UrbKernel.Reading>, base: nat, run: Run, from: nat, limit: nat,
    active: bool)
    requires |before| <= |log| && log[..|before|] == before && run.transfers == |before|
    requires IsAnswered(before, known, failedThen, Session.FOLDED) && (failedThen ==> !run.leased)
    requires failedThen && !HasLost(before, known, Session.FOLDED) ==> HasLapse(readings, from, limit, base + |before|)
    requires active ==>
               && !failed && !failedThen && IsAnswered(log, answers, failed, Session.FOLDED)
               && |log| > |before| && IsDelete(log[|before|])
    requires !active ==> log == before && answers == known && failed == failedThen
    requires !active && !failedThen ==>
               Acm.State.PhaseAfter(Acm.Succeeded(known, |known|), |Acm.Succeeded(known, |known|)|) != Acm.Active
    ensures IsAccounted(log, answers, failed, readings, base, run, from, limit, Session.FOLDED)
  {
    AccountedMeans(log, answers, failed, readings, base, run, from, limit);
    if !active && ActiveAfter(log, |before|, answers) {
      ActiveMeans(before, log, known, answers, failedThen);
    }
  }

  /** Then the state machine was active, or had failed before the last command went out. */
  lemma ActiveMeans(
    before: seq<Session.Transfer>, log: seq<Session.Transfer>, known: seq<Acm.Answer>, answers: seq<Acm.Answer>,
    failed: bool)
    requires |before| <= |log| && log[..|before|] == before && IsAnswered(before, known, failed, Session.FOLDED)
    requires Follows(known, answers) && (failed ==> answers == known)
    requires ActiveAfter(log, |before|, answers)
    ensures if failed then !HasLost(before, known, Session.FOLDED)
            else Acm.State.PhaseAfter(Acm.Succeeded(known, |known|), |Acm.Succeeded(known, |known|)|) == Acm.Active
  {
    AnsweredMeans(before, known, failed);
    Session.CommandsSame(before, log, |before|);
    if !failed && answers != known {
      var a :| answers == known + [a];
      Acm.SucceededSame(known, a, |known|);
    }
  }

  ghost function SepStep(descriptor: int, ok: bool, kernel: UrbKernel.Kernel): seq<Step>
    reads kernel
  {
    if descriptor >= 0 then [SepClosed(descriptor, ok, |kernel.requests|, |kernel.trace|)] else []
  }

  ghost function LockStep(descriptor: int, ok: bool): seq<Step> {
    if descriptor >= 0 then [LockClosed(descriptor, ok)] else []
  }

  datatype Preflight = NoPreflight | Preflight(result: Result)

  ghost function LockOpening(descriptor: int, at: nat): seq<Step> {
    if descriptor >= 0 then [LockOpened(descriptor, at)] else []
  }

  ghost function Lending(leased: bool): seq<Step> { if leased then [Leased] else [] }

  ghost function SepOpening(descriptor: int): seq<Step> { if descriptor >= 0 then [SepOpened(descriptor)] else [] }

  /** Where the identities of a session start. */
  datatype Seeds = Seeds(token: nat, index: nat)

  const TOKEN_LIMIT: nat := 0x8000_0000_0000_0000
  const INDEX_LIMIT: nat := 0x4000_0000

  ghost predicate InBounds(seeds: Seeds) { 0 < seeds.token < TOKEN_LIMIT && seeds.index < INDEX_LIMIT }

  lemma {:induction false} LoadSnoc(s: seq<byte>, at: nat, width: nat)
    requires at + width < |s|
    ensures RelayWire.Load(s, at, width + 1) == RelayWire.Load(s, at, width) + s[at + width] * Pow256(width)
    decreases width
  {
    if width > 0 {
      LoadSnoc(s, at + 1, width - 1);
    }
  }

  /** A token that is not zero and an index that leaves room above it. */
  method DeriveSeeds(entropy: seq<byte>) returns (seeds: Seeds)
    requires |entropy| == 12
    ensures InBounds(seeds)
    ensures var token := RelayWire.Load(entropy, 0, 8) % TOKEN_LIMIT;
            seeds.token == if token == 0 then 1 else token
    ensures seeds.index == RelayWire.Load(entropy, 8, 4) % INDEX_LIMIT
  {
    var token, index := 0, 0;
    for offset := 0 to 8
      invariant token == RelayWire.Load(entropy, 0, offset)
    {
      LoadSnoc(entropy, 0, offset);
      token := token + entropy[offset] * Pow256(offset);
    }
    for offset := 0 to 4
      invariant index == RelayWire.Load(entropy, 8, offset)
    {
      LoadSnoc(entropy, 8, offset);
      index := index + entropy[8 + offset] * Pow256(offset);
    }
    token := token % TOKEN_LIMIT;
    seeds := Seeds(if token == 0 then 1 else token, index % INDEX_LIMIT);
  }

  /** What happened in a run: whether it got as far as the lock, the descriptors and how closing them went, whether
      there was a lease, the clock at the start, and how many transfers there were before the teardown. */
  datatype Run =
    Run(began: bool, lock: int, sep: int, sepOk: bool, lockOk: bool, leased: bool, start: nat, transfers: nat)

  /** Everything that was opened is closed once, the device before the lock and the finalizer between them. When
      the device was closed, all transfers and all events were behind it. */
  ghost function Steps(run: Run, finalizer: bool, kernel: UrbKernel.Kernel): seq<Step>
    reads kernel
  {
    if !run.began then []
    else
      LockOpening(run.lock, run.start) + SepOpening(run.sep) + Lending(run.leased)
      + SepStep(run.sep, run.sepOk, kernel) + (if finalizer then [Finalized] else []) + LockStep(run.lock, run.lockOk)
  }

  /** One operation from end to end, for any callback. Whatever was opened is closed, once and in order, and
      the result is a success only if all of that went well. */
  method RunOperation(
    operation: Operation, timeoutMs: nat, preflight: Preflight, script: seq<Call>, outcome: Result, finalizer: bool,
    enough: (bool, bool))
    returns (r: Result, ghost run: Run)
    requires operation.Shape() && operation.transport.Accounted() && operation.host.kernel.held == {}
    modifies operation.Parts()
    ensures operation.host.kernel.held == {}
    ensures operation.host.trace == old(operation.host.trace) + Steps(run, finalizer, operation.host.kernel)
    ensures !run.began ==> r in {OArgument, OClock, OCancelled}
    ensures operation.host.kernel.requests != old(operation.host.kernel.requests) ==>
              && run.began && run.lock >= 0 && run.sep >= 0 && old(operation.host.kernel.clock) <= run.start
              && operation.InRecord(|old(operation.host.kernel.requests)|, run.transfers, run.start + timeoutMs)
    ensures r == OOk ==> outcome == OOk && run.began && run.lock >= 0 && run.sep >= 0 && operation.ReleasedLast()
    ensures run.began && r in {OOk, OCancelled} ==> run.sepOk && run.lockOk && operation.NoContextLeft()
    ensures r == OCancelled && operation.host.kernel.requests != old(operation.host.kernel.requests) ==>
              operation.ReleasedLast()
    ensures r == OOk || (run.began && r == OCancelled && (operation.acm.answers != [] || operation.acm.failed)) ==>
              operation.Accounts(run, |old(operation.host.kernel.readings)|, run.start + timeoutMs)
  {
    run := Run(false, -1, -1, true, true, false, 0, 0);
    r := operation.Start(timeoutMs);
    if r != OOk {
      return;
    }
    r, run := operation.RunBegun(
      preflight, script, outcome, finalizer, enough, |old(operation.host.kernel.readings)|);
  }

  /** A call that the callback may make. */
  datatype Call =
    | Ask(op: Keystore.Operation, request: seq<byte>)
    | Carry(command: Acm.Command)
    | Drain(timeoutMs: nat)
    | Random(length: nat)
    | Stamp(previous: nat)
    | Release
}
