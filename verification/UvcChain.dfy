/** Finding the video chains of a camera: a walk over whatever its descriptors say refers to what. */
module UvcChain {
  import opened Bytes

  const SELECTOR_UNIT: nat := 0x04
  const PROCESSING_UNIT: nat := 0x05
  const EXTENSION_UNIT: nat := 0x06
  const STREAMING: nat := 0x0101
  const ITT_VENDOR: nat := 0x0200
  const ITT_CAMERA: nat := 0x0201
  const ITT_MEDIA: nat := 0x0202
  const OTT_VENDOR: nat := 0x0300
  const OTT_DISPLAY: nat := 0x0301
  const OTT_MEDIA: nat := 0x0302
  const GPIO_UNIT: nat := 0x7ffe
  const GPIO_ID: nat := 0x100
  const INVALID_ID: nat := 0xffff

  /** A terminal or unit: its identifier, its type with the direction in the top bit, and its pads. */
  datatype Entity = Entity(id: nat, kind: nat, pads: nat)

  function Type(e: Entity): nat { e.kind % 0x8000 }

  predicate IsInput(e: Entity) { 0x100 <= e.kind < 0x8000 }

  predicate IsOutput(e: Entity) { 0x8000 <= e.kind }

  datatype Place = Nowhere | At(index: nat)

  predicate IsTerminalType(t: nat) {
    t in {ITT_VENDOR, ITT_CAMERA, ITT_MEDIA, OTT_VENDOR, OTT_DISPLAY, OTT_MEDIA, STREAMING}
  }

  /** An entity of a kind that belongs in a chain: an extension unit has one input. */
  predicate IsTakable(e: Entity, pins: nat) {
    var t := Type(e);
    (t == EXTENSION_UNIT && pins == 1) || t == PROCESSING_UNIT || t == SELECTOR_UNIT || IsTerminalType(t)
  }

  /** The entities of a chain are places in the list of the device's entities. */
  datatype Chain = Chain(members: seq<nat>, processing: Place, selector: Place)

  const NO_CHAIN := Chain([], Nowhere, Nowhere)

  ghost predicate Distinct(s: seq<nat>) {
    forall i, j :: 0 <= i < j < |s| ==> s[i] != s[j]
  }

  /** No entity is in a chain twice, or in two chains. */
  ghost predicate Apart(chains: seq<Chain>) {
    && (forall i :: 0 <= i < |chains| ==> Distinct(chains[i].members))
    && (forall i, j, e :: 0 <= i < j < |chains| && e in chains[i].members ==> e !in chains[j].members)
  }

  /** The chain shares no entity with the others. */
  ghost predicate Separate(chains: seq<Chain>, chain: Chain) {
    forall i, e :: 0 <= i < |chains| && e in chain.members ==> e !in chains[i].members
  }

  class Device {
    const entities: seq<Entity>
    /** The extra unit for the privacy switch, if there is one. */
    const gpio: Place
    /** What each entity refers to, and whether it was ever put into a chain, kept or not. */
    var sources: seq<seq<byte>>
    var linked: seq<bool>
    var chains: seq<Chain>

    constructor (entities: seq<Entity>, sources: seq<seq<byte>>, gpio: Place)
      requires WellFormed(entities, sources, gpio)
      ensures Valid() && this.entities == entities && this.gpio == gpio && this.sources == sources && chains == []
    {
      this.entities, this.gpio := entities, gpio;
      this.sources, linked, chains := sources, seq(|entities|, _ => false), [];
    }

    /** What the descriptor parser makes sure of: a pin on every output terminal and processing unit; and the
        identifier of the extra unit is none that a descriptor can name. */
    static ghost predicate WellFormed(entities: seq<Entity>, sources: seq<seq<byte>>, gpio: Place) {
      && |sources| == |entities|
      && (forall i :: 0 <= i < |entities| ==> HasPin(entities[i], sources[i]))
      && (gpio.At? ==> gpio.index < |entities| && entities[gpio.index].kind == GPIO_UNIT)
      && (gpio.At? ==> entities[gpio.index].id == GPIO_ID)
    }

    static ghost predicate HasPin(e: Entity, sources: seq<byte>) {
      IsOutput(e) || Type(e) == PROCESSING_UNIT || (Type(e) == EXTENSION_UNIT && e.pads == 2) ==> sources != []
    }

    ghost predicate Valid()
      reads this
    {
      && WellFormed(entities, sources, gpio) && |linked| == |entities|
      && Apart(chains)
      && forall i :: 0 <= i < |chains| ==> Sound(chains[i])
    }

    /** A chain of linked entities with one processing unit at most; the extra unit is not in it yet. */
    ghost predicate Sound(chain: Chain)
      reads this
    {
      && (forall k :: 0 <= k < |chain.members| ==> IsLinked(chain.members[k]))
      && OneProcessing(entities, chain)
    }

    ghost predicate IsLinked(e: nat)
      reads this
    {
      e < |entities| && e < |linked| && linked[e] && gpio != At(e)
    }

    /** A chain that is being built: like a registered one, and apart from them. */
    ghost predicate Growing(chain: Chain)
      reads this
    {
      Valid() && Sound(chain) && Distinct(chain.members) && Separate(chains, chain)
    }

    /** A line of which nothing is in a chain yet. */
    ghost predicate Clear(line: seq<nat>)
      reads this
    {
      IsLine(entities, sources, line, FOLDED) && AreFree(linked, line, 0)
    }

    /** What a scan elsewhere leaves alone. */
    twostate predicate Spares(line: seq<nat>, e: nat)
      reads this
    {
      old(Clear(line)) && e !in line ==> Clear(line)
    }

    /** Nothing that the scan does finds what is lost. */
    twostate predicate Loses(lost: set<nat>)
      reads this
    {
      old(IsLost(entities, sources, lost, FOLDED)) ==> IsLost(entities, sources, lost, FOLDED)
    }

    /** The entities that can still be put into a chain. */
    ghost function Free(): set<nat>
      reads this
    {
      set e | 0 <= e < |linked| && !linked[e]
    }

    /** The first entity with this identifier. */
    method EntityById(id: nat) returns (r: Place)
      ensures r.At? ==> r.index < |entities| && entities[r.index].id == id != INVALID_ID
      ensures r.At? ==> forall k :: 0 <= k < r.index ==> entities[k].id != id
      ensures r == Nowhere <==> id == INVALID_ID || forall k :: 0 <= k < |entities| ==> entities[k].id != id
    {
      if id == INVALID_ID {
        return Nowhere;
      }
      for i := 0 to |entities|
        invariant forall k :: 0 <= k < i ==> entities[k].id != id
      {
        if entities[i].id == id {
          return At(i);
        }
      }
      r := Nowhere;
    }

    /** The next entity, from place `start` on, that refers to this identifier. */
    method EntityByReference(id: nat, start: nat) returns (r: Place)
      requires Valid() && start <= |entities|
      ensures r.At? ==> start <= r.index < |entities| && id in sources[r.index]
      ensures forall k :: start <= k < (if r.At? then r.index else |entities|) ==> id !in sources[k]
    {
      for i := start to |entities|
        invariant forall k :: start <= k < i ==> id !in sources[k]
      {
        if id in sources[i] {
          return At(i);
        }
      }
      r := Nowhere;
    }

    /** Puts an entity at the end of a chain. */
    method Append(chain: Chain, e: nat) returns (r: Chain)
      requires Growing(chain) && e < |entities| && gpio != At(e)
      requires e !in chain.members && Separate(chains, Chain([e], Nowhere, Nowhere))
      requires Type(entities[e]) == PROCESSING_UNIT ==> chain.processing == At(e)
      modifies this`linked
      ensures Growing(r) && r == chain.(members := chain.members + [e]) && linked == old(linked)[e := true]
    {
      linked := linked[e := true];
      r := chain.(members := chain.members + [e]);
      forall k | 0 <= k < |r.members|
        ensures IsLinked(r.members[k])
      {
        if k < |chain.members| {
          assert old(IsLinked(chain.members[k]));
        }
      }
      forall i | 0 <= i < |chains|
        ensures Sound(chains[i])
      {
        forall k | 0 <= k < |chains[i].members|
          ensures IsLinked(chains[i].members[k])
        {
          assert old(IsLinked(chains[i].members[k]));
        }
      }
    }

    /** What every step of a scan keeps: the registered chains, and entities that were put into a chain. */
    twostate predicate Scanned()
      reads this
    {
      && chains == old(chains) && |linked| == |old(linked)| && |sources| == |old(sources)|
      && (forall e :: 0 <= e < |old(linked)| && old(linked)[e] ==> linked[e])
      && (forall e :: 0 <= e < |sources| ==> |sources[e]| == |old(sources)[e]|)
    }

    /** There is no second processing unit, and no second selector with a choice. */
    predicate Fits(chain: Chain, e: nat)
      requires e < |entities| && e < |sources|
      reads this`sources
    {
      && IsTakable(entities[e], |sources[e]|)
      && (Type(entities[e]) == PROCESSING_UNIT ==> chain.processing == Nowhere)
      && (Type(entities[e]) == SELECTOR_UNIT && |sources[e]| != 1 ==> chain.selector == Nowhere)
    }

    /** Takes an entity into a chain if it fits; it must not be in a kept chain. */
    method ScanEntity(chain: Chain, e: nat) returns (ok: bool, r: Chain)
      requires Growing(chain) && e < |entities| && e !in chain.members
      requires Separate(chains, Chain([e], Nowhere, Nowhere))
      modifies this`linked
      ensures Growing(r) && Scanned()
      ensures ok <==> Fits(chain, e)
      ensures ok ==> r.members == chain.members + [e] && linked == old(linked)[e := true]
      ensures ok ==> r.processing == if Type(entities[e]) == PROCESSING_UNIT then At(e) else chain.processing
      ensures ok && Type(entities[e]) == EXTENSION_UNIT ==> |sources[e]| == 1
      ensures !ok ==> r.members == chain.members && linked == old(linked)
    {
      var entity, pins := entities[e], |sources[e]|;
      r := chain;
      ok := true;
      var t := Type(entity);
      if t == EXTENSION_UNIT {
        ok := pins == 1;
      } else if t == PROCESSING_UNIT {
        ok := chain.processing == Nowhere;
        if ok {
          r := chain.(processing := At(e));
        }
      } else if t == SELECTOR_UNIT {
        if pins != 1 {
          ok := chain.selector == Nowhere;
          r := if ok then chain.(selector := At(e)) else chain;
        }
      } else {
        ok := IsTerminalType(t);
      }
      if ok {
        r := Append(r, e);
      }
    }

    /** Takes in what refers to an entity: extension units and output terminals. */
    method ScanForward(chain: Chain, e: nat, prev: Place, ghost line: seq<nat>, ghost lost: set<nat>)
      returns (ok: bool, r: Chain)
      requires Growing(chain) && e < |entities|
      modifies this`linked, this`sources
      ensures Growing(r) && Scanned() && chain.members <= r.members && Spares(line, e) && Loses(lost)
      ensures old(IsQuiet(e, prev)) ==> ok && r == chain && sources == old(sources) && linked == old(linked)
    {
      r := chain;
      var start := 0;
      while true
        invariant start <= |entities| && Growing(r) && Scanned() && chain.members <= r.members && Spares(line, e)
        invariant Loses(lost)
        invariant old(IsQuiet(e, prev)) ==> r == chain && sources == old(sources) && linked == old(linked)
        decreases |entities| - start
      {
        var forward := EntityByReference(entities[e].id, start);
        if forward == Nowhere {
          return true, r;
        }
        start := forward.index + 1;
        if forward != prev {
          ok, r := TakeForward(r, e, forward.index, line, lost);
          if !ok {
            return;
          }
        }
      }
    }

    /** Nothing else refers to the entity. */
    ghost predicate IsQuiet(e: nat, prev: Place)
      requires e < |entities|
      reads this
    {
      forall x :: 0 <= x < |sources| && entities[e].id in sources[x] ==> prev == At(x)
    }

    method TakeForward(chain: Chain, e: nat, f: nat, ghost line: seq<nat>, ghost lost: set<nat>)
      returns (ok: bool, r: Chain)
      requires Growing(chain) && e < |entities| && f < |entities| && entities[e].id in sources[f]
      modifies this`linked, this`sources
      ensures Growing(r) && Scanned() && chain.members <= r.members && Spares(line, e) && Loses(lost)
    {
      r := chain;
      if linked[f] {
        return false, r;
      }
      if Clear(line) && e !in line {
        OffReference(entities, sources, line, e, f);
      }
      var t := Type(entities[f]);
      if t == EXTENSION_UNIT {
        if |sources[f]| != 1 {
          return false, r;
        }
        if IsOutput(entities[e]) {
          assert HasPin(entities[e], sources[e]);
          var source := EntityById(sources[e][0]);
          if source == Nowhere {
            return true, r;
          }
          RedirectTo(e, f, entities[source.index].id % 256, line, lost);
        }
        r := Append(r, f);
      } else if t in {OTT_VENDOR, OTT_DISPLAY, OTT_MEDIA, STREAMING} {
        if IsInput(entities[f]) {
          return false, r;
        }
        if !IsOutput(entities[e]) {
          r := Append(r, f);
        }
      }
      ok := true;
    }

    /** Lets an entity refer to another one. */
    method Redirect(e: nat, id: byte)
      requires Valid() && e < |sources| && sources[e] != []
      modifies this`sources
      ensures Valid() && sources == old(sources)[e := Redirected(old(sources)[e], id)]
    {
      sources := sources[e := Redirected(sources[e], id)];
      forall i | 0 <= i < |entities|
        ensures HasPin(entities[i], sources[i])
      {
        assert HasPin(entities[i], old(sources)[i]);
      }
    }

    /** Lets an entity refer to what an output terminal refers to. */
    method RedirectTo(e: nat, f: nat, id: byte, ghost line: seq<nat>, ghost lost: set<nat>)
      requires Valid() && e < |entities| && f < |entities| && IsOutput(entities[e]) && sources[f] != []
      requires entities[e].id in sources[f] && sources[e] != [] && id == sources[e][0]
      modifies this`sources
      ensures Valid() && Spares(line, e) && Loses(lost)
      ensures sources == old(sources)[f := Redirected(old(sources)[f], id)]
    {
      if Clear(line) && e !in line {
        OffReference(entities, sources, line, e, f);
        RedirectKeeps(entities, sources, line, e, f, id);
      }
      if IsLost(entities, sources, lost, FOLDED) {
        RedirectLoses(entities, sources, lost, e, f, id);
      }
      Redirect(f, id);
    }

    /** Follows what an entity refers to; a selector with several inputs ends the chain with its terminals. */
    method ScanBackward(chain: Chain, e: nat, ghost line: seq<nat>, ghost lost: set<nat>)
      returns (ok: bool, next: Place, r: Chain)
      requires Growing(chain) && e < |entities| && (Type(entities[e]) == EXTENSION_UNIT ==> |sources[e]| == 1)
      modifies this`linked, this`sources
      ensures Growing(r) && Scanned() && chain.members <= r.members && Spares(line, e) && Loses(lost)
      ensures ok && next.At? ==> next.index < |entities|
      ensures next.At? && old(Clear(line)) && e !in line ==> next.index !in line
      ensures ok && old(IsLost(entities, sources, lost, FOLDED)) && e in lost ==> next.At? && next.index in lost
      ensures forall k :: 0 <= k < |line| && e == line[k] && old(IsLine(entities, sources, line, FOLDED)) ==>
                && ok && r == chain && sources == old(sources) && linked == old(linked)
                && IsNext(line, k, next)
    {
      LineEnds(entities, sources, line, e);
      LostGoesOn(entities, sources, lost, e);
      ok, next, r := true, Nowhere, chain;
      var t := Type(entities[e]);
      var id := 0;
      if t == EXTENSION_UNIT || t == PROCESSING_UNIT || (t == SELECTOR_UNIT && |sources[e]| == 1) {
        assert HasPin(entities[e], sources[e]);
        id := sources[e][0];
      } else if t == SELECTOR_UNIT {
        assert forall k :: 0 <= k < |line| && e == line[k] ==> !IsLine(entities, sources, line, FOLDED);
        ok, r := TakeInputs(chain.(selector := At(e)), e, line, lost);
        return;
      } else if IsTerminalType(t) {
        if IsOutput(entities[e]) {
          assert HasPin(entities[e], sources[e]);
          id := sources[e][0];
        }
      } else {
        return false, Nowhere, r;
      }
      if id == 0 {
        return;
      }
      next := EntityById(id);
      ok := next != Nowhere;
      if IsLine(entities, sources, line, FOLDED) && e !in line && ok {
        OffSource(entities, sources, line, e, next.index);
      }
      forall k | 0 <= k < |line| && e == line[k] && IsLine(entities, sources, line, FOLDED)
        ensures ok && IsNext(line, k, next)
      {
        LineGoesOn(entities, sources, line, k, id, next);
      }
    }

    /** The inputs of a selector must be input terminals that are in no chain. */
    method TakeInputs(chain: Chain, e: nat, ghost line: seq<nat>, ghost lost: set<nat>) returns (ok: bool, r: Chain)
      requires Growing(chain) && e < |entities|
      modifies this`linked, this`sources
      ensures Growing(r) && Scanned() && chain.members <= r.members && Spares(line, e) && Loses(lost)
    {
      r := chain;
      for i := 0 to |sources[e]|
        invariant |sources| == |entities| && |sources[e]| == |old(sources)[e]|
        invariant Growing(r) && Scanned() && chain.members <= r.members && Spares(line, e) && Loses(lost)
      {
        var term := EntityById(sources[e][i]);
        if term == Nowhere || !IsInput(entities[term.index]) || linked[term.index] {
          return false, r;
        }
        if Clear(line) && e !in line {
          OffSource(entities, sources, line, e, term.index);
        }
        r := Append(r, term.index);
        var _, after := ScanForward(r, term.index, At(e), line, lost);
        r := after;
      }
      ok := true;
    }

    /** Walks back from an output terminal, however the references run: every step takes an entity that was
        in no chain before. */
    method ScanChain(term: nat, ghost line: seq<nat>, ghost lost: set<nat>) returns (ok: bool, r: Chain)
      requires Valid() && term < |entities|
      modifies this`linked, this`sources
      ensures Growing(r) && Scanned() && Spares(line, term) && Loses(lost)
      ensures ok ==> r.members != [] && r.members[0] == term
      ensures old(IsLost(entities, sources, lost, FOLDED)) && term in lost ==> !ok
      ensures old(Clear(line)) && term == line[0] ==> ok && r.members == line
    {
      r := NO_CHAIN;
      ok := true;
      var entity, prev := At(term), Nowhere;
      while entity.At?
        invariant Growing(r) && Scanned() && (entity.At? ==> entity.index < |entities|)
        invariant if r.members == [] then entity == At(term) else r.members[0] == term
        invariant old(Clear(line)) && term !in line ==> Clear(line) && (entity.At? ==> entity.index !in line)
        invariant old(Clear(line)) && term == line[0] ==> OnTrack(line, r, entity, prev)
        invariant Loses(lost)
        invariant old(IsLost(entities, sources, lost, FOLDED)) && term in lost ==> entity.At? && entity.index in lost
        decreases Free()
      {
        ghost var e, free := entity.index, Free();
        ok, r, prev, entity := ScanStep(r, entity.index, prev, line, lost);
        if !ok {
          return;
        }
        assert e in free && e !in Free() && Free() <= free;
      }
      ok := true;
    }

    /** The scan goes along the line. */
    ghost predicate OnTrack(line: seq<nat>, chain: Chain, entity: Place, prev: Place)
      reads this
    {
      var k := |chain.members|;
      && IsLine(entities, sources, line, FOLDED)
      && k <= |line| && chain.members == line[..k]
      && IsNext(line, k - 1, entity) && prev == (if k > 0 then At(line[k - 1]) else Nowhere)
      && AreFree(linked, line, k)
      && (chain.processing.At? ==>
            chain.processing.index in chain.members && IsUnitOf(entities, chain.processing.index))
    }

    /** One entity of the walk: in itself, what refers to it, and what it refers to. */
    method ScanStep(chain: Chain, e: nat, prev: Place, ghost line: seq<nat>, ghost lost: set<nat>)
      returns (ok: bool, r: Chain, last: Place, next: Place)
      requires Growing(chain) && e < |entities|
      modifies this`linked, this`sources
      ensures Growing(r) && Scanned() && Spares(line, e) && Loses(lost)
      ensures ok && old(IsLost(entities, sources, lost, FOLDED)) && e in lost ==> next.At? && next.index in lost
      ensures ok ==> chain.members + [e] <= r.members && !old(linked)[e] && linked[e] && last == At(e)
      ensures ok && next.At? ==> next.index < |entities|
      ensures next.At? && old(Clear(line)) && e !in line ==> next.index !in line
      ensures old(OnTrack(line, chain, At(e), prev)) ==> ok && OnTrack(line, r, next, last)
    {
      r, last, next := chain, At(e), Nowhere;
      if linked[e] {
        return false, r, last, next;
      }
      ok, r := TakeNext(chain, e, prev, line);
      if ok {
        ok, r, next := ScanAround(r, e, prev, line, lost);
      }
    }

    /** The entity itself; on the line it always fits. */
    method TakeNext(chain: Chain, e: nat, prev: Place, ghost line: seq<nat>) returns (ok: bool, r: Chain)
      requires Growing(chain) && e < |entities| && !linked[e]
      modifies this`linked
      ensures Growing(r) && Scanned() && Spares(line, e)
      ensures ok ==> r.members == chain.members + [e] && linked[e]
      ensures ok && Type(entities[e]) == EXTENSION_UNIT ==> |sources[e]| == 1
      ensures old(OnTrack(line, chain, At(e), prev)) ==>
                && ok && IsQuiet(e, prev)
                && forall next :: IsNext(line, |chain.members|, next) ==> OnTrack(line, r, next, At(e))
    {
      if OnTrack(line, chain, At(e), prev) {
        TrackFits(entities, sources, line, chain);
      }
      ok, r := ScanEntity(chain, e);
    }

    method ScanAround(chain: Chain, e: nat, prev: Place, ghost line: seq<nat>, ghost lost: set<nat>)
      returns (ok: bool, r: Chain, next: Place)
      requires Growing(chain) && e < |entities| && (Type(entities[e]) == EXTENSION_UNIT ==> |sources[e]| == 1)
      modifies this`linked, this`sources
      ensures Growing(r) && Scanned() && Spares(line, e) && chain.members <= r.members && Loses(lost)
      ensures ok && old(IsLost(entities, sources, lost, FOLDED)) && e in lost ==> next.At? && next.index in lost
      ensures ok && next.At? ==> next.index < |entities|
      ensures next.At? && old(Clear(line)) && e !in line ==> next.index !in line
      ensures forall k :: 0 <= k < |line| && e == line[k] && old(IsLine(entities, sources, line, FOLDED))
                          && old(IsQuiet(e, prev)) ==>
                && ok && r == chain && sources == old(sources) && linked == old(linked)
                && IsNext(line, k, next)
    {
      next := Nowhere;
      ok, r := ScanForward(chain, e, prev, line, lost);
      if ok {
        ok, next, r := ScanBackward(r, e, line, lost);
      }
    }

    /** Registers a chain. */
    method Register(chain: Chain)
      requires Growing(chain)
      modifies this`chains
      ensures Valid() && chains == old(chains) + [chain]
    {
      chains := chains + [chain];
      forall i | 0 <= i < |chains|
        ensures Sound(chains[i])
      {
        assert i < |old(chains)| ==> old(Sound(chains[i]));
      }
    }

    /** The only input and the only output terminal, if there is only one of each. */
    method FindTerminals() returns (ok: bool, input: nat, output: nat)
      ensures ok ==> AreOnlyTerminals(entities, input, output)
      ensures !ok ==> forall i: nat, o: nat :: !AreOnlyTerminals(entities, i, o)
    {
      var iterm, oterm := Nowhere, Nowhere;
      input, output := 0, 0;
      for i := 0 to |entities|
        invariant iterm.At? ==> iterm.index < i && IsInput(entities[iterm.index])
        invariant oterm.At? ==> oterm.index < i && IsOutput(entities[oterm.index])
        invariant forall k :: 0 <= k < i && IsInput(entities[k]) ==> iterm == At(k)
        invariant forall k :: 0 <= k < i && IsOutput(entities[k]) ==> oterm == At(k)
      {
        if IsInput(entities[i]) {
          if iterm.At? {
            return false, 0, 0;
          }
          iterm := At(i);
        }
        if IsOutput(entities[i]) {
          if oterm.At? {
            return false, 0, 0;
          }
          oterm := At(i);
        }
      }
      ok := iterm.At? && oterm.At?;
      if ok {
        input, output := iterm.index, oterm.index;
      }
    }

    ghost predicate StartsAtOutput(chain: Chain) {
      chain.members != [] && chain.members[0] < |entities| && IsOutput(entities[chain.members[0]])
    }

    /** Puts together what there is when no chain was found; entities of dropped chains are taken again. With
        the extra unit around it never succeeds, because that passes for an input terminal. */
    method ScanFallback() returns (ok: bool)
      requires Valid() && chains == []
      modifies this`linked, this`sources, this`chains
      ensures Valid() && (ok <==> chains != []) && |chains| <= 1
      ensures ok <==> exists input: nat, output: nat :: IsFallback(entities, old(sources), input, output)
      ensures ok ==>
                exists input: nat, output: nat ::
                  && IsFallback(entities, old(sources), input, output)
                  && chains[0].members == [output] + UnitsFrom(entities, 0) + [input]
      ensures ok ==> StartsAtOutput(chains[0])
      ensures ok ==> gpio == Nowhere
    {
      var input, output;
      ok, input, output := FindTerminals();
      if !ok {
        return;
      }
      TerminalsDecide(entities, sources, input, output);
      ok := BuildFallback(input, output);
    }

    /** From the output terminal over all units to the input terminal. */
    method BuildFallback(input: nat, output: nat) returns (ok: bool)
      requires Valid() && chains == [] && AreOnlyTerminals(entities, input, output)
      modifies this`linked, this`sources, this`chains
      ensures Valid() && (!ok ==> chains == [])
      ensures ok <==>
              && IsTakable(entities[output], |old(sources)[output]|)
              && IsTakable(entities[input], |old(sources)[input]|)
              && UnitsTaken(entities, old(sources), output, 0)
      ensures ok ==> |chains| == 1 && chains[0].members == [output] + UnitsFrom(entities, 0) + [input]
      ensures ok ==> gpio == Nowhere
    {
      var chain, prev;
      ok, chain := ScanEntity(NO_CHAIN, output);
      if !ok {
        return;
      }
      ok, prev, chain := TakeUnits(chain, output);
      if ok {
        ok := FinishFallback(chain, prev, input, output);
      }
    }

    method FinishFallback(chain: Chain, prev: nat, input: nat, ghost output: nat) returns (ok: bool)
      requires Growing(chain) && chains == [] && AreOnlyTerminals(entities, input, output)
      requires chain.members == [output] + UnitsFrom(entities, 0)
      requires prev < |entities| && (IsOutput(entities[prev]) || IsFallbackUnit(entities[prev]))
      modifies this`linked, this`sources, this`chains
      ensures Valid() && (!ok ==> chains == []) && (ok <==> IsTakable(entities[input], |old(sources)[input]|))
      ensures ok ==> |chains| == 1 && chains[0].members == chain.members + [input]
      ensures ok ==> gpio == Nowhere
    {
      UnitsRange(entities, 0);
      var whole;
      ok, whole := ScanEntity(chain, input);
      if ok {
        assert whole.members[|whole.members| - 1] == input && IsLinked(whole.members[|whole.members| - 1]);
        var _ := Connect(prev, input, whole);
        Register(whole);
      }
    }

    /** Takes all units that have an input and an output, the last first. */
    method TakeUnits(chain: Chain, output: nat) returns (ok: bool, prev: nat, r: Chain)
      requires Growing(chain) && chains == [] && output < |entities| && IsOutput(entities[output])
      requires chain.members == [output]
      requires chain.processing == if Type(entities[output]) == PROCESSING_UNIT then At(output) else Nowhere
      modifies this`linked, this`sources
      ensures Growing(r) && Scanned()
      ensures ok <==> UnitsTaken(entities, old(sources), output, 0)
      ensures ok ==> r.members == [output] + UnitsFrom(entities, 0)
      ensures prev < |entities| && (prev == output || IsFallbackUnit(entities[prev]))
    {
      var i: nat := |entities|;
      ok, prev, r := true, output, chain;
      while i > 0
        invariant i <= |entities| && Growing(r) && Scanned() && chains == []
        invariant r.members == [output] + UnitsFrom(entities, i) && UnitsTaken(entities, old(sources), output, i)
        invariant prev < |entities| && (prev == output || IsFallbackUnit(entities[prev]))
        invariant r.processing == ProcessingIn(entities, output, i)
      {
        i := i - 1;
        if IsFallbackUnit(entities[i]) {
          ok, r := TakeUnit(r, prev, i, output);
          if !ok {
            assert !UnitsTaken(entities, old(sources), output, i);
            TakenFrom(entities, old(sources), output, 0, i);
            return;
          }
          prev := i;
        }
      }
    }

    method TakeUnit(chain: Chain, prev: nat, i: nat, ghost output: nat) returns (ok: bool, r: Chain)
      requires Growing(chain) && chains == [] && i < |entities| && IsFallbackUnit(entities[i])
      requires output < |entities| && IsOutput(entities[output])
      requires chain.members == [output] + UnitsFrom(entities, i + 1)
      requires prev < |entities| && (prev == output || IsFallbackUnit(entities[prev]))
      modifies this`linked, this`sources
      ensures Growing(r) && Scanned()
      ensures ok <==> if entities[i].kind == EXTENSION_UNIT then |old(sources)[i]| == 1 else chain.processing == Nowhere
      ensures ok ==> r.members == chain.members + [i]
      ensures ok ==> r.processing == if entities[i].kind == PROCESSING_UNIT then At(i) else chain.processing
    {
      UnitsRange(entities, i + 1);
      ok, r := ScanEntity(chain, i);
      if ok {
        var _ := Connect(prev, i, r);
      }
    }

    method Connect(prev: nat, e: nat, ghost chain: Chain) returns (next: nat)
      requires Growing(chain) && prev < |entities| && e < |entities|
      requires IsOutput(entities[prev]) || IsFallbackUnit(entities[prev])
      modifies this`sources
      ensures Growing(chain) && Scanned() && next == e
    {
      assert HasPin(entities[prev], sources[prev]);
      Redirect(prev, entities[e].id % 256);
      next := e;
    }

    /** Registers the chain of an output terminal, if it leads to one. */
    method ScanTerminal(term: nat, ghost line: seq<nat>, ghost lost: set<nat>)
      requires Valid() && term < |entities| && IsOutput(entities[term])
      requires forall i :: 0 <= i < |chains| ==> StartsAtOutput(chains[i])
      modifies this`linked, this`sources, this`chains
      ensures Valid() && forall i :: 0 <= i < |chains| ==> StartsAtOutput(chains[i])
      ensures SamePins(old(sources), sources) && Loses(lost)
      ensures old(IsLost(entities, sources, lost, FOLDED)) ==> chains == old(chains)
      ensures old(Clear(line)) ==> if line[0] == term then IsFound(chains, gpio, line) else Clear(line)
      ensures old(IsFound(chains, gpio, line)) ==> IsFound(chains, gpio, line)
    {
      if Clear(line) {
        OnlyFirstIsOutput(entities, sources, line, term);
      }
      if IsLost(entities, sources, lost, FOLDED) {
        OutputsAreLost(entities, sources, lost, term);
      }
      var found, chain := ScanChain(term, line, lost);
      if found {
        FoundGrows(chains, chain, gpio, line);
        Register(chain);
      }
    }

    /** Registers the chains of the device: one for each output terminal that leads to one. There is memory for
        so many chains. */
    method ScanDevice(room: nat, ghost line: seq<nat>, ghost lost: set<nat>) returns (ok: bool)
      requires Valid() && chains == []
      modifies this`linked, this`sources, this`chains
      ensures Apart(chains)
      ensures forall i :: 0 <= i < |chains| ==> OneProcessing(entities, chains[i]) && StartsAtOutput(chains[i])
      ensures ok ==> chains != [] && (gpio.At? ==> gpio.index in chains[0].members)
      ensures room > |entities| && chains != [] ==> ok
      ensures room > |entities| && old(Clear(line)) ==> ok && IsFound(chains, gpio, line)
      ensures room > |entities| && old(IsLost(entities, sources, lost, FOLDED)) ==>
                (ok <==> exists input: nat, output: nat :: IsFallback(entities, old(sources), input, output))
    {
      var left := room;
      for term := 0 to |entities|
        invariant Valid() && forall i :: 0 <= i < |chains| ==> StartsAtOutput(chains[i])
        invariant left + term >= room
        invariant old(Clear(line)) ==> if line[0] < term then IsFound(chains, gpio, line) else Clear(line)
        invariant Loses(lost) && SamePins(old(sources), sources)
        invariant old(IsLost(entities, sources, lost, FOLDED)) ==> chains == []
      {
        if Clear(line) {
          FirstIsOutput(entities, sources, line);
        }
        if IsOutput(entities[term]) && !linked[term] {
          if left == 0 {
            return false;
          }
          left := left - 1;
          ScanTerminal(term, line, lost);
        }
      }
      PinsDecide(entities, old(sources), sources);
      if chains == [] && left > 0 {
        var _ := ScanFallback();
      }
      ok := chains != [];
      if ok && gpio.At? {
        AddExtraUnit(line);
      }
    }

    method AddExtraUnit(ghost line: seq<nat>)
      requires Valid() && chains != [] && gpio.At?
      requires forall i :: 0 <= i < |chains| ==> StartsAtOutput(chains[i])
      modifies this`chains
      ensures Apart(chains) && |chains| == |old(chains)| && gpio.index in chains[0].members
      ensures forall i :: 0 <= i < |chains| ==> OneProcessing(entities, chains[i]) && StartsAtOutput(chains[i])
      ensures old(IsFound(chains, gpio, line)) ==> IsFound(chains, gpio, line)
    {
      var first := chains[0];
      forall i | 0 <= i < |chains|
        ensures gpio.index !in chains[i].members
      {
        assert Sound(chains[i]);
      }
      FoundWithExtra(chains, gpio, line);
      chains := chains[0 := first.(members := first.members + [gpio.index])];
    }
  }

  // -------------------------------------------------------------------------
  // Lines

  /** Entity `k` of a line: an output terminal first, units with one input, and an input terminal at the end; each
      refers to the next. */
  ghost predicate IsLink(entities: seq<Entity>, sources: seq<seq<byte>>, line: seq<nat>, k: nat)
    requires k < |line| && |sources| == |entities|
  {
    && line[k] < |entities|
    && var e := entities[line[k]];
       && (if k == 0 then IsOutput(e) && IsTerminalType(Type(e))
           else if k + 1 < |line| then e.kind in {EXTENSION_UNIT, PROCESSING_UNIT, SELECTOR_UNIT}
           else IsInput(e) && IsTerminalType(Type(e)))
       && if k + 1 == |line| then sources[line[k]] == []
          else line[k + 1] < |entities| && 0 < entities[line[k + 1]].id < 256
               && sources[line[k]] == [entities[line[k + 1]].id]
  }

  /** No other entity has its identifier, and only the one before it refers to it. */
  ghost predicate IsOwn(entities: seq<Entity>, sources: seq<seq<byte>>, line: seq<nat>, k: nat)
    requires k < |line| && |sources| == |entities|
  {
    && line[k] < |entities|
    && forall x :: 0 <= x < |entities| ==>
         && (entities[x].id == entities[line[k]].id ==> x == line[k])
         && (entities[line[k]].id in sources[x] ==> k > 0 && x == line[k - 1])
  }

  ghost predicate IsUnitOf(entities: seq<Entity>, e: nat) {
    e < |entities| && Type(entities[e]) == PROCESSING_UNIT
  }

  /** A line from an output terminal to an input terminal, with one processing unit at most, that shares nothing. */
  ghost predicate IsWholeLine(entities: seq<Entity>, sources: seq<seq<byte>>, line: seq<nat>) {
    && |sources| == |entities| && |line| >= 2 && Distinct(line)
    && (forall k :: 0 <= k < |line| ==> IsLink(entities, sources, line, k))
    && (forall k :: 0 <= k < |line| ==> IsOwn(entities, sources, line, k))
    && (forall j, k :: 0 <= j < k < |line| && IsUnitOf(entities, line[j]) ==> !IsUnitOf(entities, line[k]))
  }

  const FOLDED: nat := 4

  /** The same, folded up: only `LineMeans` looks into it. */
  ghost predicate IsLine(entities: seq<Entity>, sources: seq<seq<byte>>, line: seq<nat>, depth: nat)
    ensures IsLine(entities, sources, line, depth) ==> line != []
    decreases |line|, depth
  {
    if depth > 0 then IsLine(entities, sources, line, depth - 1) else IsWholeLine(entities, sources, line)
  }

  lemma LineMeans(entities: seq<Entity>, sources: seq<seq<byte>>, line: seq<nat>)
    ensures IsLine(entities, sources, line, FOLDED) <==> IsWholeLine(entities, sources, line)
  {
    assert IsLine(entities, sources, line, 2) == IsLine(entities, sources, line, 3);
    assert IsLine(entities, sources, line, 1) == IsLine(entities, sources, line, 2);
  }

  /** From place `from` on, nothing of a line is in a chain. */
  ghost predicate AreFree(linked: seq<bool>, line: seq<nat>, from: nat) {
    forall k :: from <= k < |line| ==> line[k] < |linked| && !linked[line[k]]
  }

  /** A line is a chain of its own, the extra unit apart. */
  ghost predicate IsFound(chains: seq<Chain>, gpio: Place, line: seq<nat>) {
    exists i :: 0 <= i < |chains| && IsThatLine(chains[i], gpio, line)
  }

  ghost predicate IsThatLine(chain: Chain, gpio: Place, line: seq<nat>) {
    chain.members == line || (gpio.At? && chain.members == line + [gpio.index])
  }

  lemma FoundGrows(chains: seq<Chain>, chain: Chain, gpio: Place, line: seq<nat>)
    ensures IsFound(chains, gpio, line) || chain.members == line ==> IsFound(chains + [chain], gpio, line)
  {
    var all := chains + [chain];
    if IsFound(chains, gpio, line) {
      var i :| 0 <= i < |chains| && IsThatLine(chains[i], gpio, line);
      assert IsThatLine(all[i], gpio, line);
    }
    assert all[|chains|] == chain;
    assert chain.members == line ==> IsThatLine(all[|chains|], gpio, line);
  }

  lemma FoundWithExtra(chains: seq<Chain>, gpio: Place, line: seq<nat>)
    requires chains != [] && gpio.At? && (forall i :: 0 <= i < |chains| ==> gpio.index !in chains[i].members)
    ensures var all := chains[0 := chains[0].(members := chains[0].members + [gpio.index])];
            IsFound(chains, gpio, line) ==> IsFound(all, gpio, line)
  {
    var all := chains[0 := chains[0].(members := chains[0].members + [gpio.index])];
    if IsFound(chains, gpio, line) {
      var i :| 0 <= i < |chains| && IsThatLine(chains[i], gpio, line);
      assert (line + [gpio.index])[|line|] == gpio.index;
      assert chains[i].members == line;
      assert IsThatLine(all[i], gpio, line);
    }
  }

  lemma OnlyFirstIsOutput(entities: seq<Entity>, sources: seq<seq<byte>>, line: seq<nat>, e: nat)
    requires IsLine(entities, sources, line, FOLDED) && e < |entities| && IsOutput(entities[e])
    ensures e in line ==> e == line[0]
  {
    LineMeans(entities, sources, line);
    forall k | 0 < k < |line|
      ensures line[k] != e
    {
      assert IsLink(entities, sources, line, k);
    }
  }

  lemma FirstIsOutput(entities: seq<Entity>, sources: seq<seq<byte>>, line: seq<nat>)
    requires IsLine(entities, sources, line, FOLDED)
    ensures line[0] < |entities| && IsOutput(entities[line[0]])
  {
    LineMeans(entities, sources, line);
    assert IsLink(entities, sources, line, 0);
  }

  /** What comes after place `k` of a line. */
  ghost predicate IsNext(line: seq<nat>, k: int, next: Place)
    requires -1 <= k
  {
    next == if k + 1 < |line| then At(line[k + 1]) else Nowhere
  }

  /** What refers to an entity off the line is off the line. */
  lemma OffReference(entities: seq<Entity>, sources: seq<seq<byte>>, line: seq<nat>, e: nat, f: nat)
    requires IsLine(entities, sources, line, FOLDED) && e < |entities| == |sources| && e !in line && f < |entities|
    requires entities[e].id in sources[f]
    ensures f !in line
  {
    LineMeans(entities, sources, line);
    forall k | 0 <= k < |line|
      ensures line[k] != f
    {
      assert IsLink(entities, sources, line, k);
      if k + 1 < |line| {
        assert IsOwn(entities, sources, line, k + 1);
      }
    }
  }

  /** So is what it refers to. */
  lemma OffSource(entities: seq<Entity>, sources: seq<seq<byte>>, line: seq<nat>, e: nat, f: nat)
    requires IsLine(entities, sources, line, FOLDED) && e < |entities| == |sources| && e !in line && f < |entities|
    requires entities[f].id in sources[e]
    ensures f !in line
  {
    LineMeans(entities, sources, line);
    forall k | 0 <= k < |line|
      ensures line[k] != f
    {
      assert IsOwn(entities, sources, line, k);
    }
  }

  lemma RedirectKeeps(entities: seq<Entity>, sources: seq<seq<byte>>, line: seq<nat>, e: nat, f: nat, id: byte)
    requires IsLine(entities, sources, line, FOLDED) && e < |entities| == |sources| && e !in line
    requires f < |entities| && f !in line && id in sources[e] && sources[f] != []
    ensures IsLine(entities, sources[f := Redirected(sources[f], id)], line, FOLDED)
  {
    var sources' := sources[f := Redirected(sources[f], id)];
    LineMeans(entities, sources, line);
    forall k | 0 <= k < |line|
      ensures IsLink(entities, sources', line, k) && IsOwn(entities, sources', line, k)
    {
      assert IsLink(entities, sources, line, k) && IsOwn(entities, sources, line, k);
    }
    LineMeans(entities, sources', line);
  }

  /** Where an entity of the line leads: it has one source, unless it is the last, which is no output terminal. */
  lemma LineEnds(entities: seq<Entity>, sources: seq<seq<byte>>, line: seq<nat>, e: nat)
    requires |sources| == |entities| && e < |entities|
    ensures forall k :: 0 <= k < |line| && e == line[k] && IsLine(entities, sources, line, FOLDED) ==>
              && (k + 1 == |line| ==> IsTerminalType(Type(entities[e])) && !IsOutput(entities[e]))
              && (k + 1 < |line| ==> |sources[e]| == 1 && 0 < sources[e][0])
              && (k + 1 < |line| ==> IsTakable(entities[e], 1))
              && (k + 1 < |line| && IsTerminalType(Type(entities[e])) ==> IsOutput(entities[e]))
  {
    LineMeans(entities, sources, line);
    forall k | 0 <= k < |line| && e == line[k] && IsLine(entities, sources, line, FOLDED)
      ensures && (k + 1 == |line| ==> IsTerminalType(Type(entities[e])) && !IsOutput(entities[e]))
              && (k + 1 < |line| ==> |sources[e]| == 1 && 0 < sources[e][0])
              && (k + 1 < |line| ==> IsTakable(entities[e], 1))
              && (k + 1 < |line| && IsTerminalType(Type(entities[e])) ==> IsOutput(entities[e]))
    {
      assert IsLink(entities, sources, line, k);
    }
  }

  /** On the line the next entity is the next of the line. */
  lemma LineGoesOn(entities: seq<Entity>, sources: seq<seq<byte>>, line: seq<nat>, k: nat, id: nat, next: Place)
    requires IsLine(entities, sources, line, FOLDED) && |sources| == |entities|
    requires k < |line| && line[k] < |entities| && id in sources[line[k]]
    requires next.At? ==> next.index < |entities| && entities[next.index].id == id
    requires next == Nowhere ==> id == INVALID_ID || forall x :: 0 <= x < |entities| ==> entities[x].id != id
    ensures k + 1 < |line| && next == At(line[k + 1])
  {
    LineMeans(entities, sources, line);
    assert IsLink(entities, sources, line, k);
    assert IsOwn(entities, sources, line, k + 1);
  }

  /** The next entity of a line fits into the chain so far, and only the one before refers to it. */
  lemma TrackFits(entities: seq<Entity>, sources: seq<seq<byte>>, line: seq<nat>, chain: Chain)
    requires IsLine(entities, sources, line, FOLDED) && |sources| == |entities|
    requires |chain.members| < |line| && chain.members == line[..|chain.members|]
    requires chain.processing.At? ==>
               chain.processing.index in chain.members && IsUnitOf(entities, chain.processing.index)
    ensures var e := line[|chain.members|];
            && e < |entities| && IsTakable(entities[e], |sources[e]|)
            && (Type(entities[e]) == PROCESSING_UNIT ==> chain.processing == Nowhere)
            && (Type(entities[e]) == SELECTOR_UNIT ==> |sources[e]| == 1)
            && (forall x :: 0 <= x < |sources| && entities[e].id in sources[x] ==>
                  |chain.members| > 0 && x == line[|chain.members| - 1])
            && (forall j :: |chain.members| < j < |line| ==> line[j] != e)
  {
    var k := |chain.members|;
    LineMeans(entities, sources, line);
    assert IsLink(entities, sources, line, k) && IsOwn(entities, sources, line, k);
    if chain.processing.At? {
      var j :| 0 <= j < k && line[..k][j] == chain.processing.index;
      assert IsUnitOf(entities, line[j]);
    }
  }

  // -------------------------------------------------------------------------
  // What leads to no chain

  /** An entity from which the walk does not come to an end: its kind is not known, or it refers to nothing that
      there is, or to what is lost itself. */
  ghost predicate IsAstray(entities: seq<Entity>, sources: seq<seq<byte>>, lost: set<nat>, e: nat)
    requires |sources| == |entities|
  {
    && e < |entities|
    && var t := Type(entities[e]);
       && (IsTakable(entities[e], 1) || IsOutput(entities[e]) ==>
             sources[e] != [] && sources[e][0] != 0 && RefersTo(entities, sources[e][0], lost))
       && (t == SELECTOR_UNIT ==> |sources[e]| == 1)
       && (IsTerminalType(t) ==> IsOutput(entities[e]))
  }

  ghost predicate RefersTo(entities: seq<Entity>, id: nat, lost: set<nat>) {
    forall x :: 0 <= x < |entities| && entities[x].id == id ==> x in lost
  }

  /** All output terminals are lost, and what is lost stays lost. */
  ghost predicate AreLost(entities: seq<Entity>, sources: seq<seq<byte>>, lost: set<nat>) {
    && |sources| == |entities|
    && (forall e :: e in lost ==> IsAstray(entities, sources, lost, e))
    && (forall e :: 0 <= e < |entities| && IsOutput(entities[e]) ==> e in lost)
  }

  /** The same, folded up: only `LostMeans` looks into it. */
  ghost predicate IsLost(entities: seq<Entity>, sources: seq<seq<byte>>, lost: set<nat>, depth: nat)
    decreases |entities|, depth
  {
    if depth > 0 then IsLost(entities, sources, lost, depth - 1) else AreLost(entities, sources, lost)
  }

  lemma LostMeans(entities: seq<Entity>, sources: seq<seq<byte>>, lost: set<nat>)
    ensures IsLost(entities, sources, lost, FOLDED) <==> AreLost(entities, sources, lost)
  {
    assert IsLost(entities, sources, lost, 2) == IsLost(entities, sources, lost, 3);
    assert IsLost(entities, sources, lost, 1) == IsLost(entities, sources, lost, 2);
  }

  lemma OutputsAreLost(entities: seq<Entity>, sources: seq<seq<byte>>, lost: set<nat>, e: nat)
    requires IsLost(entities, sources, lost, FOLDED) && e < |entities| && IsOutput(entities[e])
    ensures e in lost
  {
    LostMeans(entities, sources, lost);
  }

  lemma LostGoesOn(entities: seq<Entity>, sources: seq<seq<byte>>, lost: set<nat>, e: nat)
    requires |sources| == |entities| && e < |entities|
    ensures IsLost(entities, sources, lost, FOLDED) && e in lost ==> IsAstray(entities, sources, lost, e)
  {
    LostMeans(entities, sources, lost);
  }

  /** An entity that is made to refer to what a lost output terminal refers to. */
  lemma RedirectLoses(
    entities: seq<Entity>, sources: seq<seq<byte>>, lost: set<nat>, e: nat, f: nat, id: byte)
    requires IsLost(entities, sources, lost, FOLDED) && |sources| == |entities|
    requires e < |entities| && IsOutput(entities[e]) && sources[e] != [] && id == sources[e][0]
    requires f < |entities| && sources[f] != []
    ensures IsLost(entities, sources[f := Redirected(sources[f], id)], lost, FOLDED)
  {
    var sources' := sources[f := Redirected(sources[f], id)];
    LostMeans(entities, sources, lost);
    assert IsAstray(entities, sources, lost, e);
    forall x | x in lost
      ensures IsAstray(entities, sources', lost, x)
    {
      assert IsAstray(entities, sources, lost, x);
    }
    LostMeans(entities, sources', lost);
  }

  // -------------------------------------------------------------------------
  // The fallback

  ghost predicate SamePins(a: seq<seq<byte>>, b: seq<seq<byte>>) {
    |a| == |b| && forall e :: 0 <= e < |a| ==> |a[e]| == |b[e]|
  }

  /** What refers to what does not matter to the fallback, only how many pins there are. */
  lemma PinsDecide(entities: seq<Entity>, a: seq<seq<byte>>, b: seq<seq<byte>>)
    requires |a| == |entities| && SamePins(a, b)
    ensures forall i: nat, o: nat :: IsFallback(entities, a, i, o) <==> IsFallback(entities, b, i, o)
  {
    forall i: nat, o: nat
      ensures IsFallback(entities, a, i, o) <==> IsFallback(entities, b, i, o)
    {
    }
  }

  ghost predicate AreOnlyTerminals(entities: seq<Entity>, input: nat, output: nat) {
    && input < |entities| && IsInput(entities[input]) && output < |entities| && IsOutput(entities[output])
    && (forall i :: 0 <= i < |entities| && IsInput(entities[i]) ==> i == input)
    && (forall i :: 0 <= i < |entities| && IsOutput(entities[i]) ==> i == output)
  }

  predicate IsFallbackUnit(e: Entity) {
    e.kind in {PROCESSING_UNIT, EXTENSION_UNIT} && e.pads == 2
  }

  /** The units from place `i` on, the last first. */
  ghost function UnitsFrom(entities: seq<Entity>, i: nat): seq<nat>
    requires i <= |entities|
    decreases |entities| - i
  {
    if i == |entities| then []
    else UnitsFrom(entities, i + 1) + if IsFallbackUnit(entities[i]) then [i] else []
  }

  lemma {:induction false} UnitsRange(entities: seq<Entity>, i: nat)
    requires i <= |entities|
    ensures forall m :: m in UnitsFrom(entities, i) ==> i <= m < |entities| && IsFallbackUnit(entities[m])
    decreases |entities| - i
  {
    if i < |entities| {
      UnitsRange(entities, i + 1);
    }
  }

  /** The processing unit among the output terminal and the units from place `i` on. */
  ghost function ProcessingIn(entities: seq<Entity>, output: nat, i: nat): Place
    requires i <= |entities| && output < |entities|
    decreases |entities| - i
  {
    if i == |entities| then if Type(entities[output]) == PROCESSING_UNIT then At(output) else Nowhere
    else if IsFallbackUnit(entities[i]) && entities[i].kind == PROCESSING_UNIT then At(i)
    else ProcessingIn(entities, output, i + 1)
  }

  /** Extension units have one input, and there is no second processing unit. */
  ghost predicate UnitsFit(entities: seq<Entity>, sources: seq<seq<byte>>, output: nat, i: nat)
    requires i <= |entities| == |sources| && output < |entities|
  {
    && (forall u :: i <= u < |entities| && IsFallbackUnit(entities[u]) && entities[u].kind == EXTENSION_UNIT ==>
          |sources[u]| == 1)
    && (forall u, w :: i <= u < w < |entities| && IsProcessing(entities, u) ==> !IsProcessing(entities, w))
    && (Type(entities[output]) == PROCESSING_UNIT ==>
          forall u :: i <= u < |entities| ==> !IsProcessing(entities, u))
  }

  ghost predicate IsProcessing(entities: seq<Entity>, u: nat)
    requires u < |entities|
  {
    IsFallbackUnit(entities[u]) && entities[u].kind == PROCESSING_UNIT
  }

  /** The same, one unit after the other. */
  ghost predicate UnitsTaken(entities: seq<Entity>, sources: seq<seq<byte>>, output: nat, i: nat)
    requires i <= |entities| == |sources| && output < |entities|
    decreases |entities| - i
  {
    i == |entities| || (UnitsTaken(entities, sources, output, i + 1) && UnitTaken(entities, sources, output, i))
  }

  ghost predicate UnitTaken(entities: seq<Entity>, sources: seq<seq<byte>>, output: nat, i: nat)
    requires i < |entities| == |sources| && output < |entities|
  {
    IsFallbackUnit(entities[i]) ==>
      if entities[i].kind == EXTENSION_UNIT then |sources[i]| == 1
      else ProcessingIn(entities, output, i + 1) == Nowhere
  }

  lemma {:induction false} TakenFrom(
    entities: seq<Entity>, sources: seq<seq<byte>>, output: nat, i: nat, j: nat)
    requires i <= j <= |entities| == |sources| && output < |entities| && !UnitsTaken(entities, sources, output, j)
    ensures !UnitsTaken(entities, sources, output, i)
    decreases j - i
  {
    if i < j {
      TakenFrom(entities, sources, output, i + 1, j);
    }
  }

  lemma {:induction false} TakenIsFit(entities: seq<Entity>, sources: seq<seq<byte>>, output: nat, i: nat)
    requires i <= |entities| == |sources| && output < |entities|
    ensures UnitsTaken(entities, sources, output, i) <==> UnitsFit(entities, sources, output, i)
    decreases |entities| - i
  {
    if i < |entities| {
      TakenIsFit(entities, sources, output, i + 1);
      ProcessingIsThere(entities, output, i + 1);
      FitStep(entities, sources, output, i);
    }
  }

  lemma FitStep(entities: seq<Entity>, sources: seq<seq<byte>>, output: nat, i: nat)
    requires i < |entities| == |sources| && output < |entities|
    requires ProcessingIn(entities, output, i + 1).At? <==>
               Type(entities[output]) == PROCESSING_UNIT
               || exists u :: i < u < |entities| && IsProcessing(entities, u)
    ensures UnitsFit(entities, sources, output, i) <==>
            UnitsFit(entities, sources, output, i + 1) && UnitTaken(entities, sources, output, i)
  {
    if UnitsFit(entities, sources, output, i) && IsProcessing(entities, i) {
      assert ProcessingIn(entities, output, i + 1) == Nowhere;
    }
    if UnitsFit(entities, sources, output, i + 1) && UnitTaken(entities, sources, output, i) {
      assert IsProcessing(entities, i) ==> ProcessingIn(entities, output, i + 1) == Nowhere;
    }
  }

  /** Whether there is a fallback depends on the only terminals. */
  lemma TerminalsDecide(entities: seq<Entity>, sources: seq<seq<byte>>, input: nat, output: nat)
    requires |sources| == |entities| && AreOnlyTerminals(entities, input, output)
    ensures IsFallback(entities, sources, input, output) <==>
            && IsTakable(entities[output], |sources[output]|) && IsTakable(entities[input], |sources[input]|)
            && UnitsTaken(entities, sources, output, 0)
    ensures forall i: nat, o: nat :: IsFallback(entities, sources, i, o) ==> i == input && o == output
  {
    TakenIsFit(entities, sources, output, 0);
  }

  lemma {:induction false} ProcessingIsThere(entities: seq<Entity>, output: nat, i: nat)
    requires i <= |entities| && output < |entities|
    ensures var p := ProcessingIn(entities, output, i);
            p.At? <==> Type(entities[output]) == PROCESSING_UNIT
                       || exists u :: i <= u < |entities| && IsProcessing(entities, u)
    decreases |entities| - i
  {
    if i < |entities| {
      ProcessingIsThere(entities, output, i + 1);
      if IsProcessing(entities, i) {
        assert IsFallbackUnit(entities[i]);
      }
    }
  }

  /** When the fallback succeeds: there is one terminal of each kind, of a type that belongs in a chain, and the
      units fit. */
  ghost predicate IsFallback(entities: seq<Entity>, sources: seq<seq<byte>>, input: nat, output: nat)
    requires |sources| == |entities|
  {
    && AreOnlyTerminals(entities, input, output)
    && IsTakable(entities[output], |sources[output]|) && IsTakable(entities[input], |sources[input]|)
    && UnitsFit(entities, sources, output, 0)
  }

  /** A camera with one terminal of each kind, and a reference that leads nowhere. */
  const CAMERA := [Entity(1, ITT_CAMERA, 1), Entity(2, 0x8000 + STREAMING, 1)]
  const CAMERA_SOURCES: seq<seq<byte>> := [[], [9]]
  const SWITCH := Entity(GPIO_ID, GPIO_UNIT, 0)

  /** The fallback finds its chain, but not when it also has a privacy switch. */
  lemma SwitchSpoilsFallback()
    ensures Device.WellFormed(CAMERA, CAMERA_SOURCES, Nowhere) && IsFallback(CAMERA, CAMERA_SOURCES, 0, 1)
    ensures IsLost(CAMERA, CAMERA_SOURCES, {1}, FOLDED)
    ensures Device.WellFormed(CAMERA + [SWITCH], CAMERA_SOURCES + [[]], At(2))
    ensures forall i: nat, o: nat :: !IsFallback(CAMERA + [SWITCH], CAMERA_SOURCES + [[]], i, o)
    ensures IsLost(CAMERA + [SWITCH], CAMERA_SOURCES + [[]], {1}, FOLDED)
  {
    var all := CAMERA + [SWITCH];
    assert IsInput(all[0]) && IsInput(all[2]);
    LostMeans(CAMERA, CAMERA_SOURCES, {1});
    LostMeans(all, CAMERA_SOURCES + [[]], {1});
  }

  /** The scan of this camera succeeds if and only if it has no privacy switch. */
  method ScanCamera(switched: bool) returns (ok: bool)
    ensures ok <==> !switched
  {
    SwitchSpoilsFallback();
    var device;
    if switched {
      device := new Device(CAMERA + [SWITCH], CAMERA_SOURCES + [[]], At(2));
    } else {
      device := new Device(CAMERA, CAMERA_SOURCES, Nowhere);
    }
    ok := device.ScanDevice(4, [], {1});
  }

  /** The same pins, with another source on the first. */
  function Redirected(pins: seq<byte>, id: byte): (r: seq<byte>)
    requires pins != []
    ensures |r| == |pins| && r[0] == id
  {
    [id] + pins[1..]
  }

  /** The only processing unit in the chain is the one it names. */
  ghost predicate OneProcessing(entities: seq<Entity>, chain: Chain) {
    forall k :: 0 <= k < |chain.members| ==>
      chain.members[k] < |entities|
      && (Type(entities[chain.members[k]]) == PROCESSING_UNIT ==> chain.processing == At(chain.members[k]))
  }
}
