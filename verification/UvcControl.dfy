/** Controls of a camera: written in transactions, and owned by a file handle while an answer is outstanding. */
module UvcControl {
  import opened Bytes
  import RelayWire

  datatype Owner = Nobody | Owned(handle: nat)

  /** `current` is the cache of the value, `backup` what a rollback goes back to. */
  datatype Control = Control(
    asynchronous: bool, autoUpdate: bool, readable: bool, writable: bool,
    initialized: bool, loaded: bool, dirty: bool, modified: bool,
    current: seq<byte>, backup: seq<byte>, owner: Owner)

  /** A value that was sent to the device, and how many bytes of it were taken: negative is an error. */
  datatype Sent = Sent(index: nat, value: seq<byte>, taken: int)

  /** A write to a control that was accepted into a transaction, with the cached value before and after it. */
  datatype Write = Write(index: nat, before: seq<byte>, after: seq<byte>)

  // -------------------------------------------------------------------------
  // What became of a control

  /** The device took the value, or part of it. */
  predicate Accepted(s: Sent) { s.taken == |s.value| || s.taken > 0 }

  /** What the cache holds afterwards: the bytes that were not taken are zeroed. */
  function Stored(value: seq<byte>, taken: nat): (r: seq<byte>)
    ensures |r| == |value|
  {
    if taken < |value| then value[..taken] + Zeros(|value| - taken) else value
  }

  ghost function AfterSend(c: Control, s: Sent): Control {
    if Accepted(s) then c.(current := Stored(c.current, s.taken)) else c
  }

  /** A control that the device took in full, or whose other bytes are zero anyway, holds the value that was
      sent: and only such a control. */
  lemma StoredIsValue(value: seq<byte>, taken: nat)
    ensures Stored(value, taken) == value <==> forall i :: taken <= i < |value| ==> value[i] == 0
  {
    if taken < |value| {
      var r := Stored(value, taken);
      forall i | 0 <= i < |value|
        ensures r[i] == if i < taken then value[i] else 0
      {
      }
      if r == value {
        forall i | taken <= i < |value|
          ensures value[i] == 0
        {
          assert r[i] == value[i];
        }
      }
    }
  }

  /** What a caller can tell beforehand: a value survives every send that succeeds if and only if nothing but its
      first byte can differ from zero. */
  lemma SurvivesEverySend(value: seq<byte>)
    ensures (forall taken: nat | taken <= |value| && Accepted(Sent(0, value, taken)) :: Stored(value, taken) == value)
       <==> forall i :: 1 <= i < |value| ==> value[i] == 0
  {
    if forall taken: nat | taken <= |value| && Accepted(Sent(0, value, taken)) :: Stored(value, taken) == value {
      if |value| > 1 {
        assert Accepted(Sent(0, value, 1)) && Stored(value, 1) == value;
        StoredIsValue(value, 1);
      }
    }
    if forall i :: 1 <= i < |value| ==> value[i] == 0 {
      forall taken: nat | taken <= |value| && Accepted(Sent(0, value, taken))
        ensures Stored(value, taken) == value
      {
        StoredIsValue(value, taken);
      }
    }
  }

  /** A success does not mean that the cache holds the value that was sent: the device may have taken one byte
      of two. */
  lemma ShortWriteChangesValue()
    ensures var s := Sent(0, [1, 1], 1);
            Accepted(s) && Stored(s.value, s.taken) == [1, 0] != s.value
  {
    assert Stored([1, 1], 1) == [1, 0];
  }

  datatype Fate = NotSent | Taken(n: nat) | Refused

  ghost function FateIn(s: Sent): Fate { if Accepted(s) then Taken(s.taken) else Refused }

  /** What happened to control `i` in the first `n` entries of the log, from `from` on. */
  ghost function FateOf(log: seq<Sent>, from: nat, n: nat, i: nat): Fate
    requires from <= n <= |log|
    decreases n
  {
    if n == from then NotSent
    else if log[n - 1].index == i then
      FateIn(log[n - 1])
    else FateOf(log, from, n - 1, i)
  }

  lemma {:induction false} FateKept(log: seq<Sent>, s: Sent, from: nat, n: nat, i: nat)
    requires from <= n <= |log|
    ensures FateOf(log + [s], from, n, i) == FateOf(log, from, n, i)
    decreases n
  {
    if n > from {
      FateKept(log, s, from, n - 1, i);
    }
  }

  /** A control after the end of a transaction, as opposed to before it. */
  ghost predicate Settled(before: Control, after: Control, fate: Fate) {
    && !after.dirty && after.backup == before.backup && after.initialized == before.initialized
    && |after.current| == |before.current|
    && after.current ==
         if !before.dirty then before.current
         else if fate.Taken? then Stored(before.current, fate.n)
         else before.backup
  }

  /** The same for a control that was sent once or not at all. */
  ghost function FateOfOne(sent: seq<Sent>): Fate { if sent == [] then NotSent else FateIn(sent[0]) }

  ghost predicate SettledAt(was: seq<Control>, now: seq<Control>, done: set<nat>, log: seq<Sent>, from: nat, i: nat)
    requires i < |was| == |now| && from <= |log|
  {
    if i in done then Settled(was[i], now[i], FateOf(log, from, |log|, i)) else now[i] == was[i]
  }

  ghost predicate IsSending(was: seq<Control>, done: set<nat>, s: Sent) {
    s.index in done && s.index < |was| && was[s.index].dirty && s.value == was[s.index].current
  }

  /** The end of a transaction, as far as the controls in `done`: what was sent are dirty controls, each once,
      and nothing after the first failure; without a failure all of them were. */
  ghost predicate Progress(
    was: seq<Control>, now: seq<Control>, done: set<nat>, log: seq<Sent>, from: nat, stopped: bool)
  {
    && |now| == |was| && from <= |log|
    && (forall i :: 0 <= i < |was| ==> SettledAt(was, now, done, log, from, i))
    && (forall k :: from <= k < |log| ==> IsSending(was, done, log[k]))
    && (forall k :: from <= k < |log| && (k < |log| - 1 || !stopped) ==> Accepted(log[k]))
    && (forall j, k :: from <= j < k < |log| ==> log[j].index != log[k].index)
    && (!stopped ==> forall i :: 0 <= i < |was| && i in done && was[i].dirty ==> WasTaken(log, from, i))
  }

  ghost predicate WasTaken(log: seq<Sent>, from: nat, i: nat)
    requires from <= |log|
  {
    FateOf(log, from, |log|, i).Taken?
  }

  lemma FateGrows(log: seq<Sent>, sent: seq<Sent>, from: nat, i: nat)
    requires from <= |log| && |sent| <= 1
    ensures sent != [] && sent[0].index == i ==> FateOf(log + sent, from, |log + sent|, i) == FateIn(sent[0])
    ensures sent == [] || sent[0].index != i ==>
              FateOf(log + sent, from, |log + sent|, i) == FateOf(log, from, |log|, i)
  {
    if sent != [] {
      assert sent == [sent[0]];
      FateKept(log, sent[0], from, |log|, i);
    } else {
      assert log + sent == log;
    }
  }

  lemma {:induction false} NoFate(log: seq<Sent>, from: nat, n: nat, i: nat)
    requires from <= n <= |log| && forall k :: from <= k < n ==> log[k].index != i
    ensures FateOf(log, from, n, i) == NotSent
    decreases n
  {
    if n > from {
      NoFate(log, from, n - 1, i);
    }
  }

  /** One control more. */
  lemma ProgressStep(
    was: seq<Control>, now: seq<Control>, done: set<nat>, log: seq<Sent>, from: nat, stopped: bool, i: nat, c: Control,
    sent: seq<Sent>, stopped': bool)
    requires Progress(was, now, done, log, from, stopped) && i < |was| && i !in done
    requires |sent| <= 1 && Settled(was[i], c, FateOfOne(sent))
    requires sent != [] ==> sent[0].index == i && sent[0].value == was[i].current && was[i].dirty && !stopped
    requires sent != [] && !Accepted(sent[0]) ==> stopped'
    requires (stopped ==> stopped') && (!stopped' && was[i].dirty ==> sent != [])
    ensures Progress(was, now[i := c], done + {i}, log + sent, from, stopped')
  {
    var now', done', log' := now[i := c], done + {i}, log + sent;
    forall j | 0 <= j < |was|
      ensures SettledAt(was, now', done', log', from, j)
      ensures !stopped' && j in done' && was[j].dirty ==> WasTaken(log', from, j)
    {
      assert SettledAt(was, now, done, log, from, j);
      FateGrows(log, sent, from, j);
      if j == i && sent == [] {
        NoFate(log, from, |log|, i);
      }
      if j != i && !stopped && j in done && was[j].dirty {
        assert WasTaken(log, from, j);
      }
    }
    forall k | from <= k < |log'|
      ensures IsSending(was, done', log'[k])
    {
      if k < |log| {
        assert IsSending(was, done, log[k]);
      }
    }
  }

  // -------------------------------------------------------------------------
  // What was saved

  datatype Saved = Unsaved | Saved(value: seq<byte>)

  /** The value of control `i` before its first write in the first `n`, from `from` on. */
  ghost function FirstOf(writes: seq<Write>, from: nat, n: nat, i: nat): Saved
    requires from <= n <= |writes|
    decreases n
  {
    if n == from then Unsaved
    else
      var earlier := FirstOf(writes, from, n - 1, i);
      if earlier.Saved? || writes[n - 1].index != i then earlier else Saved(writes[n - 1].before)
  }

  lemma {:induction false} FirstKept(writes: seq<Write>, longer: seq<Write>, from: nat, n: nat, i: nat)
    requires from <= n <= |writes| && writes <= longer
    ensures FirstOf(longer, from, n, i) == FirstOf(writes, from, n, i)
    decreases n
  {
    if n > from {
      FirstKept(writes, longer, from, n - 1, i);
    }
  }

  ghost predicate IsBacked(c: Control, saved: Saved) {
    if c.dirty then saved == Saved(c.backup) else saved == Unsaved
  }

  /** A control is dirty if it was written in the transaction, and its backup is the value before that. */
  ghost predicate Backed(controls: seq<Control>, writes: seq<Write>, from: nat) {
    && from <= |writes|
    && forall i :: 0 <= i < |controls| ==> IsBacked(controls[i], FirstOf(writes, from, |writes|, i))
  }

  lemma BackedWrite(controls: seq<Control>, writes: seq<Write>, longer: seq<Write>, from: nat, i: nat, c: Control)
    requires Backed(controls, writes, from) && i < |controls| && |longer| == |writes| + 1 && writes <= longer
    requires longer[|writes|].index == i && c.dirty
    requires c.backup == if controls[i].dirty then controls[i].backup else longer[|writes|].before
    ensures Backed(controls[i := c], longer, from)
  {
    forall j | 0 <= j < |controls|
      ensures IsBacked(controls[i := c][j], FirstOf(longer, from, |longer|, j))
    {
      FirstKept(writes, longer, from, |writes|, j);
    }
  }

  /** The value of control `i` after its last write in the first `n`, from `from` on. */
  ghost function LastOf(writes: seq<Write>, from: nat, n: nat, i: nat): (r: Saved)
    requires from <= n <= |writes|
    ensures r.Saved? <==> FirstOf(writes, from, n, i).Saved?
    decreases n
  {
    if n == from then Unsaved
    else if writes[n - 1].index == i then Saved(writes[n - 1].after)
    else LastOf(writes, from, n - 1, i)
  }

  lemma {:induction false} LastKept(writes: seq<Write>, longer: seq<Write>, from: nat, n: nat, i: nat)
    requires from <= n <= |writes| && writes <= longer
    ensures LastOf(longer, from, n, i) == LastOf(writes, from, n, i)
    decreases n
  {
    if n > from {
      LastKept(writes, longer, from, n - 1, i);
    }
  }

  /** What a control holds after writes: the last of them, or what it held before. */
  ghost function Prior(first: Control, last: Saved): seq<byte> {
    if last.Saved? then last.value else first.current
  }

  /** A control in the course of a transaction in which nothing failed yet. */
  ghost predicate IsAbreast(first: Control, c: Control, last: Saved) {
    && c.current == Prior(first, last) && c.initialized == first.initialized && c.writable == first.writable
    && (first.loaded ==> c.loaded)
  }

  /** So are all controls, but perhaps for the one whose write failed. */
  ghost predicate Abreast(first: seq<Control>, controls: seq<Control>, writes: seq<Write>, from: nat, but: int := -1) {
    && from <= |writes| && |first| == |controls|
    && forall i :: 0 <= i < |controls| && i != but ==>
                     IsAbreast(first[i], controls[i], LastOf(writes, from, |writes|, i))
  }

  lemma AbreastWrite(
    first: seq<Control>, controls: seq<Control>, writes: seq<Write>, longer: seq<Write>, from: nat, i: nat, c: Control)
    requires Abreast(first, controls, writes, from) && i < |controls| && |longer| == |writes| + 1 && writes <= longer
    requires longer[|writes|].index == i && c.current == longer[|writes|].after && KeepsKind(controls[i], c)
    ensures Abreast(first, controls[i := c], longer, from)
  {
    forall j | 0 <= j < |controls|
      ensures IsAbreast(first[j], controls[i := c][j], LastOf(longer, from, |longer|, j))
    {
      LastKept(writes, longer, from, |writes|, j);
      assert IsAbreast(first[j], controls[j], LastOf(writes, from, |writes|, j));
    }
  }

  ghost predicate KeepsKind(before: Control, after: Control) {
    after.initialized == before.initialized && after.writable == before.writable && (before.loaded ==> after.loaded)
  }

  /** A call that nothing can stop. */
  ghost predicate Sure(c: Control, call: Call) {
    && c.initialized && c.writable && call.clamped == 0 && call.written == 0
    && (c.loaded || |call.bytes| == |c.current|)
  }

  ghost predicate CanFail(first: seq<Control>, call: Call) {
    call.index < |first| && !Sure(first[call.index], call)
  }

  /** Write `k` of a transaction is what its call asked for. Unless the value had to be read from the device, it
      went over what the writes before it had left. */
  ghost predicate IsPerformed(first: seq<Control>, calls: seq<Call>, writes: seq<Write>, from: nat, k: nat)
    requires from + k < |writes| && k < |calls|
  {
    var w, call := writes[from + k], calls[k];
    && w.index == call.index < |first| && call.at + |call.bytes| <= |w.before|
    && w.after == RelayWire.Overwrite(w.before, call.at, call.bytes)
    && (first[w.index].loaded || |call.bytes| == |w.before| ==>
          w.before == Prior(first[w.index], LastOf(writes, from, from + k, w.index)))
  }

  ghost predicate Performed(first: seq<Control>, calls: seq<Call>, writes: seq<Write>, from: nat) {
    && from <= |writes| <= from + |calls|
    && forall k :: 0 <= k < |writes| - from ==> IsPerformed(first, calls, writes, from, k)
  }

  lemma PerformedWrite(first: seq<Control>, calls: seq<Call>, writes: seq<Write>, longer: seq<Write>, from: nat)
    requires Performed(first, calls, writes, from) && |longer| == |writes| + 1 && writes <= longer
    requires |writes| - from < |calls| && IsPerformed(first, calls, longer, from, |writes| - from)
    ensures Performed(first, calls, longer, from)
  {
    forall k | 0 <= k < |longer| - from
      ensures IsPerformed(first, calls, longer, from, k)
    {
      if k < |writes| - from {
        assert IsPerformed(first, calls, writes, from, k);
        LastKept(writes, longer, from, from + k, writes[from + k].index);
      }
    }
  }

  /** A control after the whole transaction: not dirty any more; if it was written, it holds what the device took
      of the value written last, or else what it held before it was first written. */
  ghost predicate Concluded(c: Control, saved: Saved, last: Saved, log: seq<Sent>, from: nat, i: nat)
    requires from <= |log|
  {
    var fate := FateOf(log, from, |log|, i);
    && !c.dirty
    && match saved
       case Unsaved => fate == NotSent
       case Saved(value) =>
         if fate.Taken? then last.Saved? && c.current == Stored(last.value, fate.n) else c.current == value
  }

  /** Whatever was sent is the value that was written last. */
  ghost predicate IsLatest(s: Sent, writes: seq<Write>, from: nat)
    requires from <= |writes|
  {
    LastOf(writes, from, |writes|, s.index) == Saved(s.value)
  }

  lemma ProgressConcludes(
    was: seq<Control>, now: seq<Control>, done: set<nat>, log: seq<Sent>, from: nat, stopped: bool, i: nat,
    saved: Saved, last: Saved)
    requires Progress(was, now, done, log, from, stopped) && i < |was| && i in done && IsBacked(was[i], saved)
    requires |log| > from && was[i].dirty ==> last == Saved(was[i].current)
    ensures Concluded(now[i], saved, last, log, from, i)
    ensures !stopped && saved.Saved? ==> WasTaken(log, from, i)
  {
    assert SettledAt(was, now, done, log, from, i);
    if !was[i].dirty {
      forall k | from <= k < |log|
        ensures log[k].index != i
      {
        assert IsSending(was, done, log[k]);
      }
      NoFate(log, from, |log|, i);
    }
  }

  /** What a commit sends is what was written last, each control once. */
  lemma ProgressSends(
    first: seq<Control>, was: seq<Control>, now: seq<Control>, done: set<nat>, log: seq<Sent>, from: nat, stopped: bool,
    writes: seq<Write>, base: nat)
    requires Progress(was, now, done, log, from, stopped)
    requires Backed(was, writes, base) && (|log| > from ==> Abreast(first, was, writes, base))
    ensures forall k :: from <= k < |log| ==> IsLatest(log[k], writes, base)
  {
    forall k | from <= k < |log|
      ensures IsLatest(log[k], writes, base)
    {
      assert IsSending(was, done, log[k]);
      var i := log[k].index;
      assert IsBacked(was[i], FirstOf(writes, base, |writes|, i));
      assert IsAbreast(first[i], was[i], LastOf(writes, base, |writes|, i));
    }
  }

  // -------------------------------------------------------------------------
  // Ownership

  /** How many of the first `n` controls belong to a handle. */
  ghost function Owners(controls: seq<Control>, n: nat, handle: nat): nat
    requires n <= |controls|
  {
    if n == 0 then 0 else Owners(controls, n - 1, handle) + Mine(controls[n - 1].owner, handle)
  }

  /** How many belong to any. */
  ghost function Held(controls: seq<Control>, n: nat): nat
    requires n <= |controls|
  {
    if n == 0 then 0 else Held(controls, n - 1) + Any(controls[n - 1].owner)
  }

  function Pending(pending: map<nat, nat>, handle: nat): nat {
    if handle in pending then pending[handle] else 0
  }

  /** Each handle counts the controls that name it, and there is a power reference for every control with a
      handle. */
  ghost predicate Counted(controls: seq<Control>, pending: map<nat, nat>, power: nat) {
    && (forall handle :: Pending(pending, handle) == Owners(controls, |controls|, handle))
    && power == Held(controls, |controls|)
  }

  /** The same, folded up: only `BalancedIsCounted` looks into it. */
  ghost predicate Balanced(controls: seq<Control>, pending: map<nat, nat>, power: nat, depth: nat := 4)
    decreases |controls|, depth
  {
    if depth == 0 then Counted(controls, pending, power) else Balanced(controls, pending, power, depth - 1)
  }

  lemma BalancedIsCounted(controls: seq<Control>, pending: map<nat, nat>, power: nat)
    ensures Balanced(controls, pending, power) <==> Counted(controls, pending, power)
  {
    assert Balanced(controls, pending, power, 2) == Balanced(controls, pending, power, 3);
    assert Balanced(controls, pending, power, 1) == Balanced(controls, pending, power, 2);
  }

  ghost function Mine(owner: Owner, handle: nat): nat { if owner == Owned(handle) then 1 else 0 }

  ghost function Any(owner: Owner): nat { if owner != Nobody then 1 else 0 }

  /** Changing one control changes the counts by that control. */
  lemma {:induction false} CountsUpdate(controls: seq<Control>, i: nat, c: Control, n: nat, handle: nat)
    requires i < |controls| && n <= |controls|
    ensures i >= n ==> Owners(controls[i := c], n, handle) == Owners(controls, n, handle)
    ensures i >= n ==> Held(controls[i := c], n) == Held(controls, n)
    ensures i < n ==>
              Owners(controls[i := c], n, handle) + Mine(controls[i].owner, handle)
              == Owners(controls, n, handle) + Mine(c.owner, handle)
    ensures i < n ==> Held(controls[i := c], n) + Any(controls[i].owner) == Held(controls, n) + Any(c.owner)
    decreases n
  {
    if n > 0 {
      CountsUpdate(controls, i, c, n - 1, handle);
    }
  }

  lemma {:induction false} OwnerIsCounted(controls: seq<Control>, i: nat, n: nat, handle: nat)
    requires i < n <= |controls| && controls[i].owner == Owned(handle)
    ensures Owners(controls, n, handle) > 0 && Held(controls, n) > 0
    decreases n
  {
    if i < n - 1 {
      OwnerIsCounted(controls, i, n - 1, handle);
    }
  }

  lemma BalancedUpdate(controls: seq<Control>, pending: map<nat, nat>, power: nat, i: nat, c: Control)
    requires i < |controls| && c.owner == controls[i].owner && Balanced(controls, pending, power)
    ensures Balanced(controls[i := c], pending, power)
  {
    BalancedIsCounted(controls, pending, power);
    var after := controls[i := c];
    forall handle: nat
      ensures Pending(pending, handle) == Owners(after, |after|, handle)
    {
      CountsUpdate(controls, i, c, |controls|, handle);
    }
    CountsUpdate(controls, i, c, |controls|, 0);
    BalancedIsCounted(after, pending, power);
  }

  /** A control that gets an owner: the owner counts it, and so does the power, unless it took over. */
  lemma BalancedGive(controls: seq<Control>, pending: map<nat, nat>, power: nat, i: nat, handle: nat)
    requires i < |controls| && controls[i].owner == Nobody && Balanced(controls, pending, power)
    ensures Balanced(controls[i := controls[i].(owner := Owned(handle))],
                     pending[handle := Pending(pending, handle) + 1], power + 1)
  {
    BalancedIsCounted(controls, pending, power);
    var c := controls[i].(owner := Owned(handle));
    var after, pending' := controls[i := c], pending[handle := Pending(pending, handle) + 1];
    forall h: nat
      ensures Pending(pending', h) == Owners(after, |after|, h)
    {
      CountsUpdate(controls, i, c, |controls|, h);
    }
    CountsUpdate(controls, i, c, |controls|, 0);
    BalancedIsCounted(after, pending', power + 1);
  }

  lemma BalancedTake(controls: seq<Control>, pending: map<nat, nat>, power: nat, i: nat)
    requires i < |controls| && controls[i].owner != Nobody && Balanced(controls, pending, power)
    ensures power > 0 && Pending(pending, controls[i].owner.handle) > 0
    ensures var handle := controls[i].owner.handle;
            Balanced(controls[i := controls[i].(owner := Nobody)],
                     pending[handle := Pending(pending, handle) - 1], power - 1)
  {
    var c, handle := controls[i].(owner := Nobody), controls[i].owner.handle;
    BalancedIsCounted(controls, pending, power);
    OwnerIsCounted(controls, i, |controls|, handle);
    var after, pending' := controls[i := c], pending[handle := Pending(pending, handle) - 1];
    forall h: nat
      ensures Pending(pending', h) == Owners(after, |after|, h)
    {
      CountsUpdate(controls, i, c, |controls|, h);
    }
    CountsUpdate(controls, i, c, |controls|, 0);
    BalancedIsCounted(after, pending', power - 1);
  }

  lemma BalancedMove(controls: seq<Control>, pending: map<nat, nat>, power: nat, i: nat, to: nat)
    requires i < |controls| && controls[i].owner != Nobody && Balanced(controls, pending, power)
    ensures Pending(pending, controls[i].owner.handle) > 0
    ensures var handle := controls[i].owner.handle;
            var less := pending[handle := Pending(pending, handle) - 1];
            Balanced(controls[i := controls[i].(owner := Owned(to))], less[to := Pending(less, to) + 1], power)
  {
    BalancedTake(controls, pending, power, i);
    var handle := controls[i].owner.handle;
    var freed := controls[i := controls[i].(owner := Nobody)];
    BalancedGive(freed, pending[handle := Pending(pending, handle) - 1], power - 1, i, to);
    assert freed[i := freed[i].(owner := Owned(to))] == controls[i := controls[i].(owner := Owned(to))];
  }

  // -------------------------------------------------------------------------
  // The device

  ghost predicate Fits(c: Control) { |c.backup| == |c.current| && (c.dirty ==> c.initialized) }

  ghost predicate AllFit(controls: seq<Control>) {
    forall i :: 0 <= i < |controls| ==> Fits(controls[i])
  }

  class Device {
    const controls: array<Control>
    /** Per handle, the controls that are waiting for an answer; and the power references they hold. */
    var pending: map<nat, nat>
    var power: nat
    /** Every value that was sent, and every write that was accepted. */
    ghost var log: seq<Sent>
    ghost var writes: seq<Write>

    constructor (controls: array<Control>)
      requires AllFit(controls[..]) && forall i :: 0 <= i < controls.Length ==> controls[i].owner == Nobody
      ensures Valid() && this.controls == controls && log == [] && writes == []
    {
      this.controls := controls;
      pending, power, log, writes := map[], 0, [], [];
      new;
      NobodyOwns(controls[..], controls.Length);
      BalancedIsCounted(controls[..], pending, power);
    }

    ghost predicate Valid()
      reads this, controls
    {
      AllFit(controls[..]) && Balanced(controls[..], pending, power)
    }

    /** Replaces a control, but not its owner. */
    method Put(i: nat, c: Control)
      requires Valid() && i < controls.Length && c.owner == controls[i].owner && Fits(c)
      modifies controls
      ensures Valid() && controls[..] == old(controls[..])[i := c]
    {
      BalancedUpdate(controls[..], pending, power, i, c);
      controls[i] := c;
      assert controls[..] == old(controls[..])[i := c];
    }

    /** Gives a control to a handle, which takes over from another if need be. */
    method SetHandle(i: nat, handle: nat) returns (ret: int, warned: bool)
      requires Valid() && i < controls.Length
      modifies this`pending, this`power, controls
      ensures Valid() && !warned && ret <= 0
      ensures ret == 0 ==> controls[..] == old(controls[..])[i := old(controls[i]).(owner := Owned(handle))]
      ensures ret == 0 && old(controls[i].owner) != Nobody ==> power == old(power)
      ensures ret != 0 ==> controls[..] == old(controls[..]) && power == old(power) && pending == old(pending)
    {
      ret, warned := 0, false;
      var owner := controls[i].owner;
      if owner == Owned(handle) {
        assert controls[..] == controls[..][i := controls[i].(owner := Owned(handle))];
        return;
      }
      if owner != Nobody {
        BalancedTake(controls[..], pending, power, i);
        warned := Pending(pending, owner.handle) == 0;
        Move(i, owner.handle, handle);
        return;
      }
      var refused: int := *;
      if refused < 0 {
        return refused, false;
      }
      BalancedGive(controls[..], pending, power, i, handle);
      controls[i] := controls[i].(owner := Owned(handle));
      pending, power := pending[handle := Pending(pending, handle) + 1], power + 1;
      assert controls[..] == old(controls[..])[i := old(controls[i]).(owner := Owned(handle))];
    }

    /** From one handle to another; the power reference goes with the control. */
    method Move(i: nat, from: nat, to: nat)
      requires Valid() && i < controls.Length && controls[i].owner == Owned(from) && Pending(pending, from) > 0
      modifies this`pending, controls
      ensures Valid() && controls[..] == old(controls[..])[i := old(controls[i]).(owner := Owned(to))]
    {
      BalancedMove(controls[..], pending, power, i, to);
      controls[i] := controls[i].(owner := Owned(to));
      pending := pending[from := Pending(pending, from) - 1];
      pending := pending[to := Pending(pending, to) + 1];
      assert controls[..] == old(controls[..])[i := old(controls[i]).(owner := Owned(to))];
    }

    /** The answer for a control arrived, or nobody waits for it any more. */
    method ClearHandle(i: nat) returns (warned: bool)
      requires Valid() && i < controls.Length && controls[i].owner != Nobody
      modifies this`pending, this`power, controls
      ensures Valid() && !warned && power == old(power) - 1
      ensures controls[..] == old(controls[..])[i := old(controls[i]).(owner := Nobody)]
    {
      BalancedTake(controls[..], pending, power, i);
      var handle := controls[i].owner.handle;
      warned := Pending(pending, handle) == 0;
      controls[i] := controls[i].(owner := Nobody);
      pending, power := pending[handle := Pending(pending, handle) - 1], power - 1;
      assert controls[..] == old(controls[..])[i := old(controls[i]).(owner := Nobody)];
    }

    /** A handle is closed: it gives back exactly what it held. */
    method CleanupHandle(handle: nat) returns (warned: bool)
      requires Valid()
      modifies this`pending, this`power, controls
      ensures Valid() && !warned && Pending(pending, handle) == 0
      ensures power == old(power) - old(Pending(pending, handle))
      ensures controls[..] == Released(old(controls[..]), controls.Length, handle)
    {
      warned := false;
      BalancedIsCounted(controls[..], pending, power);
      if Pending(pending, handle) == 0 {
        ReleasedNone(controls[..], controls.Length, handle);
        return;
      }
      for i := 0 to controls.Length
        invariant Valid() && !warned && controls[..] == Released(old(controls[..]), i, handle)
        invariant power == old(power) - Owners(old(controls[..]), i, handle)
      {
        if controls[i].owner == Owned(handle) {
          var w := ClearHandle(i);
          warned := warned || w;
        }
        ReleasedStep(old(controls[..]), i, handle);
      }
      ReleasedOwnsNone(old(controls[..]), controls.Length, handle);
      BalancedIsCounted(controls[..], pending, power);
      warned := warned || Pending(pending, handle) != 0;
    }

    /** The device reports a new value. */
    method StatusEvent(i: nat) returns (warned: bool)
      requires Valid() && i < controls.Length
      modifies this`pending, this`power, controls
      ensures Valid() && !warned
      ensures controls[..] == old(controls[..])[i := old(controls[i]).(loaded := false, owner := Nobody)]
    {
      warned := false;
      Put(i, controls[i].(loaded := false));
      if controls[i].owner != Nobody {
        warned := ClearHandle(i);
      }
    }

    // -----------------------------------------------------------------------
    // Transactions

    /** Sends the cached value; what the device did not take is zeroed in the cache. */
    method SendCurrent(i: nat) returns (ret: int, ghost s: Sent)
      requires Valid() && i < controls.Length
      modifies this`log, controls
      ensures Valid() && ret <= 0 && (ret == 0 <==> Accepted(s))
      ensures log == old(log) + [s] && s.index == i && s.value == old(controls[i].current)
      ensures controls[..] == old(controls[..])[i := AfterSend(old(controls[i]), s)]
    {
      var value := controls[i].current;
      var taken: int := *;
      taken := if taken > |value| then |value| else taken;
      s := Sent(i, value, taken);
      log := log + [s];
      ret := 0;
      if taken != |value| && taken <= 0 {
        var error: int := *;
        ret := if error < 0 then error else -32;
      }
      Put(i, if ret == 0 then controls[i].(current := Stored(value, taken)) else controls[i]);
    }

    /** Fills the cache from the device; a failure may leave anything in it. */
    method LoadCurrent(i: nat) returns (ret: int)
      requires Valid() && i < controls.Length
      modifies controls
      ensures Valid() && ret <= 0
      ensures |controls[i].current| == |old(controls[i].current)|
      ensures controls[..] == old(controls[..])[i := old(controls[i]).(
                current := controls[i].current, loaded := old(controls[i].loaded) || ret == 0)]
      ensures old(controls[i].loaded) ==> ret == 0 && controls[i].current == old(controls[i].current)
    {
      ret := 0;
      var c := controls[i];
      if c.loaded {
        assert controls[..] == controls[..][i := c];
        return;
      }
      if !c.readable {
        Put(i, c.(current := Zeros(|c.current|), loaded := true));
        return;
      }
      var bytes: seq<byte>, error: int := *, *;
      var read := seq(|c.current|, k requires 0 <= k < |c.current| => if k < |bytes| then bytes[k] else 0);
      Put(i, c.(current := read, loaded := error >= 0));
      ret := if error < 0 then error else 0;
    }

    /** A new value for some bytes of a control; what it was before is saved when it becomes dirty. */
    method Set(i: nat, call: Call) returns (ret: int)
      requires Valid() && i < controls.Length && IsCallOn(controls[i], call)
      modifies this`writes, controls
      ensures ret <= 0 && Valid() && controls[..] == old(controls[..])[i := controls[i]]
      ensures old(writes) <= writes && (Sure(old(controls[i]), call) ==> ret == 0)
      ensures if ret == 0
              then |writes| == |old(writes)| + 1
                   && IsWrite(old(controls[i]), controls[i], writes[|old(writes)|], i, call.at, call.bytes)
              else writes == old(writes) && IsUnwritten(old(controls[i]), controls[i])
    {
      ret := Prepare(i, call);
      if ret == 0 {
        ghost var c, loaded := old(controls[i]), controls[i];
        ret := WriteCurrent(i, call);
        SetAfterLoad(c, loaded, controls[i], ret, writes, i, call);
      }
    }

    /** Checks a write, and fills the cache unless all of it is written. */
    method Prepare(i: nat, call: Call) returns (ret: int)
      requires Valid() && i < controls.Length && IsCallOn(controls[i], call)
      modifies controls
      ensures ret <= 0 && Valid() && controls[..] == old(controls[..])[i := controls[i]]
      ensures IsLoaded(old(controls[i]), controls[i], call)
      ensures ret == 0 ==> controls[i].initialized
      ensures Sure(old(controls[i]), call) ==> ret == 0
    {
      ret := SetChecks(controls[i], call.clamped);
      if ret == 0 && |call.bytes| != |controls[i].current| {
        ret := LoadCurrent(i);
      }
    }

    method WriteCurrent(i: nat, call: Call) returns (ret: int)
      requires Valid() && i < controls.Length && IsCallOn(controls[i], call) && controls[i].initialized
      modifies this`writes, controls
      ensures Valid() && ret == call.written && controls[..] == old(controls[..])[i := controls[i]]
      ensures if ret == 0
              then writes == old(writes) + [Write(i, old(controls[i].current), controls[i].current)]
                   && IsWrite(old(controls[i]), controls[i], writes[|old(writes)|], i, call.at, call.bytes)
              else writes == old(writes) && IsUnwritten(old(controls[i]), controls[i])
    {
      var c := controls[i];
      if !c.dirty {
        c := c.(backup := c.current);
      }
      ret := call.written;
      if ret == 0 {
        c := c.(current := RelayWire.Overwrite(c.current, call.at, call.bytes), dirty := true, modified := true);
        writes := writes + [Write(i, controls[i].current, c.current)];
      }
      Put(i, c);
    }

    /** One control at the end of a transaction. */
    method CommitControl(i: nat, handle: Owner, rollback: bool, failed: int)
      returns (ret: int, ghost sent: seq<Sent>)
      requires Valid() && i < controls.Length && failed <= 0 && (failed < 0 ==> rollback)
      modifies this`log, this`pending, this`power, controls
      ensures Valid() && controls[..] == old(controls[..])[i := controls[i]] && log == old(log) + sent
      ensures |sent| <= 1 && Settled(old(controls[i]), controls[i], FateOfOne(sent))
      ensures sent != [] ==>
                sent[0].index == i && sent[0].value == old(controls[i].current) && old(controls[i].dirty) && !rollback
      ensures sent != [] && !Accepted(sent[0]) ==> ret < 0
      ensures ret <= 0 && (rollback ==> ret == failed) && (!rollback && old(controls[i].dirty) ==> sent != [])
      ensures ret < 0 && failed == 0 ==> sent != []
    {
      ret, sent := failed, [];
      var c := controls[i];
      if !c.initialized {
        return;
      }
      if c.autoUpdate || !c.readable {
        Put(i, c.(loaded := false));
      }
      if c.dirty {
        ret, sent := CommitDirty(i, handle, rollback, failed);
      }
    }

    method CommitDirty(i: nat, handle: Owner, rollback: bool, failed: int)
      returns (ret: int, ghost sent: seq<Sent>)
      requires Valid() && i < controls.Length && failed <= 0 && (failed < 0 ==> rollback) && controls[i].dirty
      modifies this`log, this`pending, this`power, controls
      ensures Valid() && controls[..] == old(controls[..])[i := controls[i]] && log == old(log) + sent
      ensures |sent| <= 1 && Settled(old(controls[i]), controls[i], FateOfOne(sent)) && (sent == [] <==> rollback)
      ensures sent != [] ==> sent[0].index == i && sent[0].value == old(controls[i].current)
      ensures sent != [] && !Accepted(sent[0]) ==> ret < 0
      ensures ret <= 0 && (rollback ==> ret == failed)
    {
      ret, sent := failed, [];
      if !rollback {
        ghost var s;
        ret, s := SendCurrent(i);
        sent := [s];
      }
      var c := controls[i];
      Put(i, c.(current := if rollback || ret < 0 then c.backup else c.current, dirty := false));
      if !rollback && handle != Nobody && ret == 0 && c.asynchronous {
        var result, _ := SetHandle(i, handle.handle);
        ret := result;
      }
    }

    /** The controls of one entity; after a failure the rest is rolled back. */
    method CommitEntity(
      e: Entity, handle: Owner, rollback: bool, ghost was: seq<Control>, ghost done: set<nat>, ghost from: nat)
      returns (ret: int)
      requires Valid() && e.first + e.count <= controls.Length && Range(e, e.count) !! done
      requires Progress(was, controls[..], done, log, from, rollback)
      modifies this`log, this`pending, this`power, controls
      ensures Valid() && (rollback ==> ret >= 0 && log == old(log)) && old(log) <= log && (ret < 0 ==> log != old(log))
      ensures Progress(was, controls[..], done + Range(e, e.count), log, from, rollback || ret < 0)
    {
      var processed, failed, stop := 0, 0, rollback;
      assert done + Range(e, 0) == done;
      for k := 0 to e.count
        invariant Valid() && failed <= 0 && stop == (rollback || failed < 0)
        invariant (rollback ==> failed == 0 && log == old(log)) && old(log) <= log && (failed < 0 ==> log != old(log))
        invariant Progress(was, controls[..], done + Range(e, k), log, from, stop)
      {
        var i := e.first + k;
        ghost var now, before := controls[..], log;
        assert SettledAt(was, now, done + Range(e, k), before, from, i);
        var dirty := controls[i].dirty;
        var ret', sent := CommitControl(i, handle, stop, failed);
        ProgressStep(was, now, done + Range(e, k), before, from, stop, i, controls[i], sent, stop || ret' < 0);
        assert done + Range(e, k + 1) == done + Range(e, k) + {i};
        processed := if ret' == 0 && dirty then processed + 1 else processed;
        failed, stop := ret', stop || ret' < 0;
      }
      ret := if failed < 0 then failed else processed;
    }

    /** Ends a transaction: with a rollback, or by sending until something fails and rolling back the rest. */
    method Commit(entities: seq<Entity>, handle: Owner, rollback: bool) returns (ret: int)
      requires Valid() && Apart(entities, controls.Length)
      modifies this`log, this`pending, this`power, controls
      ensures Valid() && ret <= 0 && (rollback ==> ret == 0 && log == old(log)) && old(log) <= log
      ensures ret < 0 ==> log != old(log)
      ensures Progress(old(controls[..]), controls[..], Members(entities, |entities|), log, |old(log)|,
                       rollback || ret < 0)
    {
      ghost var was, from := controls[..], |log|;
      var stop := rollback;
      ret := 0;
      for n := 0 to |entities|
        invariant Valid() && ret <= 0 && stop == (rollback || ret < 0) && (rollback ==> ret == 0 && log == old(log))
        invariant Progress(was, controls[..], Members(entities, n), log, from, stop)
        invariant old(log) <= log && (ret < 0 ==> log != old(log))
      {
        var e := entities[n];
        MembersApart(entities, n, n, controls.Length);
        var result := CommitEntity(e, handle, stop, was, Members(entities, n), from);
        if result < 0 {
          stop, ret := true, result;
        }
      }
    }

    /** Some writes, and then a commit or a rollback; a write that fails rolls everything back. */
    method Transact(entities: seq<Entity>, calls: seq<Call>, commit: bool, handle: nat) returns (ret: int)
      requires Valid() && Apart(entities, controls.Length)
      requires forall i :: 0 <= i < controls.Length ==> !controls[i].dirty
      requires forall k :: 0 <= k < |calls| ==> IsCall(controls[..], entities, calls[k])
      modifies this, controls
      // The writes are what the calls asked for, in order, up to the first that failed.
      ensures Valid() && old(writes) <= writes && old(log) <= log && ret <= 0
      ensures Performed(old(controls[..]), calls, writes, |old(writes)|)
      ensures var n := |writes| - |old(writes)|;
              n < |calls| ==> ret < 0 && log == old(log) && CanFail(old(controls[..]), calls[n])
      // What is sent is what was written last; nothing is sent after a refusal, or without a commit.
      ensures forall k :: |old(log)| <= k < |log| ==> IsLatest(log[k], writes, |old(writes)|)
      ensures forall j, k :: |old(log)| <= j < k < |log| ==> log[j].index != log[k].index
      ensures forall k :: |old(log)| <= k < |log| - 1 ==> Accepted(log[k])
      ensures !commit ==> log == old(log)
      // A success means that all of it was taken, and a failure after the last call that something was sent.
      ensures ret == 0 && commit ==> forall k :: |old(log)| <= k < |log| ==> Accepted(log[k])
      ensures ret == 0 && commit ==>
                forall i :: 0 <= i < controls.Length && FirstOf(writes, |old(writes)|, |writes|, i).Saved? ==>
                  WasTaken(log, |old(log)|, i)
      ensures ret < 0 && |writes| == |old(writes)| + |calls| ==> log != old(log)
      // Each control holds what was taken of its last value, or what it held at first.
      ensures forall i :: 0 <= i < controls.Length ==> !controls[i].dirty
      ensures var n := |writes| - |old(writes)|;
              forall i :: 0 <= i < controls.Length && FirstOf(writes, |old(writes)|, |writes|, i) == Unsaved ==>
                controls[i].current == old(controls[i].current) || (n < |calls| && i == calls[n].index)
      ensures forall i :: 0 <= i < controls.Length && i in Members(entities, |entities|) ==>
                Concluded(controls[i], FirstOf(writes, |old(writes)|, |writes|, i),
                          LastOf(writes, |old(writes)|, |writes|, i), log, |old(log)|, i)
    {
      ghost var first, from := controls[..], |writes|;
      ret := ApplyAll(entities, calls, from, first);
      ghost var was := controls[..];
      var stop := ret < 0 || !commit;
      var result := Commit(entities, Owned(handle), stop);
      Conclude(first, was, writes, from, Members(entities, |entities|), |old(log)|, stop || result < 0,
               if ret < 0 then calls[|writes| - from].index else -1);
      ProgressSends(first, was, controls[..], Members(entities, |entities|), log, |old(log)|, stop || result < 0,
                    writes, from);
      ret := if ret < 0 then ret else result;
    }

    /** What the end of a transaction means for each control. */
    lemma Conclude(
      first: seq<Control>, was: seq<Control>, writes: seq<Write>, from: nat, members: set<nat>, base: nat,
      stopped: bool, but: int)
      requires Progress(was, controls[..], members, log, base, stopped)
      requires Backed(was, writes, from) && DirtyIn(was, members)
      requires Abreast(first, was, writes, from, but) && (|log| > base ==> but == -1)
      ensures forall i :: 0 <= i < controls.Length ==> !controls[i].dirty
      ensures forall i :: 0 <= i < controls.Length && i != but && FirstOf(writes, from, |writes|, i) == Unsaved ==>
                controls[i].current == first[i].current
      ensures forall i :: 0 <= i < controls.Length && i in members ==>
                Concluded(controls[i], FirstOf(writes, from, |writes|, i), LastOf(writes, from, |writes|, i), log, base,
                          i)
      ensures !stopped ==>
                forall i :: 0 <= i < controls.Length && FirstOf(writes, from, |writes|, i).Saved? ==>
                  WasTaken(log, base, i)
    {
      forall i | 0 <= i < controls.Length
        ensures !controls[i].dirty
        ensures i != but && FirstOf(writes, from, |writes|, i) == Unsaved ==> controls[i].current == first[i].current
        ensures i in members ==>
                  Concluded(controls[i], FirstOf(writes, from, |writes|, i), LastOf(writes, from, |writes|, i), log,
                            base, i)
        ensures !stopped && FirstOf(writes, from, |writes|, i).Saved? ==> WasTaken(log, base, i)
      {
        assert IsBacked(was[i], FirstOf(writes, from, |writes|, i));
        assert i != but ==> IsAbreast(first[i], was[i], LastOf(writes, from, |writes|, i));
        assert SettledAt(was, controls[..], members, log, base, i);
        if i in members {
          ProgressConcludes(was, controls[..], members, log, base, stopped, i, FirstOf(writes, from, |writes|, i),
                            LastOf(writes, from, |writes|, i));
        }
      }
    }

    /** The calls one after the other, up to the first that fails. */
    method ApplyAll(entities: seq<Entity>, calls: seq<Call>, ghost from: nat, ghost first: seq<Control>)
      returns (ret: int)
      requires Valid() && first == controls[..] && from == |writes|
      requires forall i :: 0 <= i < controls.Length ==> !controls[i].dirty
      requires forall k :: 0 <= k < |calls| ==> IsCall(controls[..], entities, calls[k])
      modifies this`writes, controls
      ensures Valid() && ret <= 0 && old(writes) <= writes && Performed(first, calls, writes, from)
      ensures Backed(controls[..], writes, from) && DirtyIn(controls[..], Members(entities, |entities|))
      ensures if ret == 0 then |writes| == from + |calls| && Abreast(first, controls[..], writes, from)
              else |writes| < from + |calls| && CanFail(first, calls[|writes| - from])
                   && Abreast(first, controls[..], writes, from, calls[|writes| - from].index)
    {
      ret := 0;
      var n := 0;
      while n < |calls| && ret == 0
        invariant n <= |calls| && ret <= 0 && Valid() && Backed(controls[..], writes, from) && old(writes) <= writes
        invariant SameSizes(first, controls[..]) && DirtyIn(controls[..], Members(entities, |entities|))
        invariant Performed(first, calls, writes, from)
        invariant ret == 0 ==> |writes| == from + n && Abreast(first, controls[..], writes, from)
        invariant ret != 0 ==>
                    && |writes| < from + |calls| && CanFail(first, calls[|writes| - from])
                    && Abreast(first, controls[..], writes, from, calls[|writes| - from].index)
      {
        ret := Apply(calls, n, from, first, entities);
        n := n + 1;
      }
    }

    method Apply(calls: seq<Call>, n: nat, ghost from: nat, ghost first: seq<Control>, ghost entities: seq<Entity>)
      returns (ret: int)
      requires Valid() && Backed(controls[..], writes, from) && n < |calls| && |writes| == from + n
      requires SameSizes(first, controls[..]) && IsCall(first, entities, calls[n])
      requires DirtyIn(controls[..], Members(entities, |entities|))
      requires Performed(first, calls, writes, from) && Abreast(first, controls[..], writes, from)
      modifies this`writes, controls
      ensures Valid() && Backed(controls[..], writes, from) && SameSizes(first, controls[..]) && ret <= 0
      ensures DirtyIn(controls[..], Members(entities, |entities|))
      ensures old(writes) <= writes && Performed(first, calls, writes, from)
      ensures if ret == 0 then |writes| == from + n + 1 && Abreast(first, controls[..], writes, from)
              else writes == old(writes) && CanFail(first, calls[n])
                   && Abreast(first, controls[..], writes, from, calls[n].index)
    {
      var call := calls[n];
      ghost var was, before := controls[..], writes;
      assert IsAbreast(first[call.index], was[call.index], LastOf(before, from, |before|, call.index));
      ret := Set(call.index, call);
      if ret == 0 {
        BackedWrite(was, before, writes, from, call.index, controls[call.index]);
        AbreastWrite(first, was, before, writes, from, call.index, controls[call.index]);
        LastKept(before, writes, from, |before|, call.index);
        PerformedWrite(first, calls, before, writes, from);
      } else {
        forall i | 0 <= i < controls.Length && i != call.index
          ensures IsAbreast(first[i], controls[i], LastOf(writes, from, |writes|, i))
        {
          assert IsAbreast(first[i], was[i], LastOf(before, from, |before|, i));
        }
      }
    }
  }

  /** A write as user space asks for it, with the outcomes of the steps that are not modelled. */
  datatype Call = Call(index: nat, at: nat, bytes: seq<byte>, clamped: int, written: int)

  ghost predicate IsCallOn(c: Control, call: Call) {
    call.at + |call.bytes| <= |c.current| && call.clamped <= 0 && call.written <= 0
  }

  ghost predicate IsCall(controls: seq<Control>, entities: seq<Entity>, call: Call) {
    && call.index < |controls| && call.index in Members(entities, |entities|)
    && IsCallOn(controls[call.index], call)
  }

  ghost predicate DirtyIn(controls: seq<Control>, members: set<nat>) {
    forall i :: 0 <= i < |controls| && controls[i].dirty ==> i in members
  }

  ghost predicate SameSizes(a: seq<Control>, b: seq<Control>) {
    |a| == |b| && forall i :: 0 <= i < |a| ==> |a[i].current| == |b[i].current|
  }

  /** The controls of an entity, one after the other. */
  datatype Entity = Entity(first: nat, count: nat)

  /** The first `n` controls of an entity. */
  ghost function Range(e: Entity, n: nat): set<nat> {
    set i: nat | i < e.first + n && IsFrom(e, i)
  }

  ghost predicate IsFrom(e: Entity, i: nat) { e.first <= i }

  /** The controls of the first `n` entities. */
  ghost function Members(entities: seq<Entity>, n: nat): set<nat>
    requires n <= |entities|
  {
    if n == 0 then {} else Members(entities, n - 1) + Range(entities[n - 1], entities[n - 1].count)
  }

  /** No control is in two entities. */
  ghost predicate Apart(entities: seq<Entity>, length: nat) {
    && (forall n :: 0 <= n < |entities| ==> entities[n].first + entities[n].count <= length)
    && (forall m, n :: 0 <= m < n < |entities| ==>
          Range(entities[m], entities[m].count) !! Range(entities[n], entities[n].count))
  }

  lemma {:induction false} MembersApart(entities: seq<Entity>, m: nat, n: nat, length: nat)
    requires Apart(entities, length) && m <= n < |entities|
    ensures Range(entities[n], entities[n].count) !! Members(entities, m)
  {
    if m > 0 {
      MembersApart(entities, m - 1, n, length);
    }
  }

  function SetChecks(c: Control, clamped: int): (ret: int)
    requires clamped <= 0
    ensures ret <= 0 && (ret == 0 ==> c.initialized && c.writable)
  {
    if !c.initialized then -22 else if !c.writable then -13 else clamped
  }

  /** A write that was accepted: the bytes went over the value before it, which is saved if it is the first. */
  ghost predicate IsWrite(before: Control, after: Control, w: Write, i: nat, at: nat, bytes: seq<byte>) {
    && w.index == i && |w.before| == |before.current| && at + |bytes| <= |w.before|
    && after.dirty && after.modified && after.current == w.after && after.owner == before.owner
    && KeepsKind(before, after) && w.after == RelayWire.Overwrite(w.before, at, bytes)
    && (after.backup == if before.dirty then before.backup else w.before)
    && (before.loaded || |bytes| == |w.before| ==> w.before == before.current)
  }

  /** A write that failed: the cache may have been filled, and nothing that was saved is lost. */
  ghost predicate IsUnwritten(before: Control, after: Control) {
    && |after.current| == |before.current| && after.owner == before.owner && KeepsKind(before, after)
    && after.dirty == before.dirty && (after.dirty ==> after.backup == before.backup)
  }

  ghost predicate IsLoaded(c: Control, loaded: Control, call: Call) {
    && loaded == c.(current := loaded.current, loaded := loaded.loaded) && |loaded.current| == |c.current|
    && (c.loaded || |call.bytes| == |c.current| ==> loaded == c)
  }

  lemma SetAfterLoad(c: Control, loaded: Control, after: Control, ret: int, writes: seq<Write>, i: nat, call: Call)
    requires IsLoaded(c, loaded, call)
    requires if ret == 0 then writes != [] && IsWrite(loaded, after, writes[|writes| - 1], i, call.at, call.bytes)
             else IsUnwritten(loaded, after)
    ensures if ret == 0 then writes != [] && IsWrite(c, after, writes[|writes| - 1], i, call.at, call.bytes)
            else IsUnwritten(c, after)
  {
  }

  /** The controls once the first `n` have left a handle. */
  ghost function Released(controls: seq<Control>, n: nat, handle: nat): (r: seq<Control>)
    requires n <= |controls|
    ensures |r| == |controls|
  {
    seq(|controls|, i requires 0 <= i < |controls| =>
      if i < n && controls[i].owner == Owned(handle) then controls[i].(owner := Nobody) else controls[i])
  }

  lemma ReleasedStep(controls: seq<Control>, i: nat, handle: nat)
    requires i < |controls|
    ensures Released(controls, i, handle)[i] == controls[i]
    ensures Released(controls, i + 1, handle) ==
              if controls[i].owner == Owned(handle)
              then Released(controls, i, handle)[i := controls[i].(owner := Nobody)]
              else Released(controls, i, handle)
  {
  }

  lemma {:induction false} ReleasedOwnsNone(controls: seq<Control>, n: nat, handle: nat)
    requires n <= |controls|
    ensures Owners(Released(controls, |controls|, handle), n, handle) == 0
  {
    if n > 0 {
      ReleasedOwnsNone(controls, n - 1, handle);
    }
  }

  lemma ReleasedNone(controls: seq<Control>, n: nat, handle: nat)
    requires n <= |controls| && Owners(controls, |controls|, handle) == 0
    ensures Released(controls, n, handle) == controls
  {
    forall i | 0 <= i < |controls|
      ensures controls[i].owner != Owned(handle)
    {
      if controls[i].owner == Owned(handle) {
        OwnerIsCounted(controls, i, |controls|, handle);
      }
    }
  }

  lemma {:induction false} NobodyOwns(controls: seq<Control>, n: nat)
    requires n <= |controls| && forall i :: 0 <= i < |controls| ==> controls[i].owner == Nobody
    ensures Held(controls, n) == 0 && forall handle :: Owners(controls, n, handle) == 0
  {
    if n > 0 {
      NobodyOwns(controls, n - 1);
    }
  }
}
