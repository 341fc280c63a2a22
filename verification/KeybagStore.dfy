/** The keybag file: a header, a digest of everything else, the secret and the serialized bag. */
module KeybagState {
  import opened Bytes
  import opened RelayWire
  import Sha256
  import Sha256Context

  const PREFIX_SIZE: nat := 24
  const HEADER_SIZE: nat := 56
  const SECRET_SIZE: nat := 32
  const MAX_BLOB: nat := 0x8000

  /** The characters `T1KBAG02` and, before it, `T1KBAG01`. */
  const MAGIC: seq<byte> := [0x54, 0x31, 0x4b, 0x42, 0x41, 0x47, 0x30, 0x32]
  const LEGACY_MAGIC: seq<byte> := [0x54, 0x31, 0x4b, 0x42, 0x41, 0x47, 0x30, 0x31]

  datatype Material = Material(secret: seq<byte>, blob: seq<byte>)

  ghost predicate Storable(m: Material) { |m.secret| == SECRET_SIZE && 0 < |m.blob| <= MAX_BLOB }

  function Prefix(magic: seq<byte>, blobLength: nat): seq<byte> {
    magic + (LE(1, 4) + (LE(SECRET_SIZE, 4) + (LE(blobLength, 4) + LE(0, 4))))
  }

  ghost function Serialize(magic: seq<byte>, m: Material): seq<byte> {
    var prefix, payload := Prefix(magic, |m.blob|), m.secret + m.blob;
    prefix + (Sha256.Digest(prefix + payload) + payload)
  }

  /** The bytes of a material, under either magic. */
  ghost predicate IsState(s: seq<byte>, m: Material) {
    Storable(m) && (s == Serialize(MAGIC, m) || s == Serialize(LEGACY_MAGIC, m))
  }

  ghost predicate Loadable(s: seq<byte>) { exists m :: IsState(s, m) }

  /** What the digest covers. */
  function Covered(s: seq<byte>): seq<byte>
    requires HEADER_SIZE <= |s|
  {
    s[..PREFIX_SIZE] + s[HEADER_SIZE..]
  }

  method StateDigest(s: seq<byte>) returns (digest: seq<byte>)
    requires HEADER_SIZE <= |s| <= HEADER_SIZE + SECRET_SIZE + MAX_BLOB
    ensures digest == Sha256.Digest(Covered(s))
  {
    var chunks := [s[..PREFIX_SIZE], s[HEADER_SIZE..]];
    Sha256Context.TwoChunks(chunks[0], chunks[1]);
    digest := Sha256Context.HashChunks(chunks);
  }

  // -------------------------------------------------------------------------
  // The layout, field by field

  ghost predicate HasFields(s: seq<byte>, magic: seq<byte>, blobLength: nat) {
    && PREFIX_SIZE <= |s| && |magic| == 8
    && At(s, 0, magic) && At(s, 8, LE(1, 4)) && At(s, 12, LE(SECRET_SIZE, 4)) && At(s, 16, LE(blobLength, 4))
    && At(s, 20, LE(0, 4))
  }

  lemma PrefixFields(s: seq<byte>, magic: seq<byte>, blobLength: nat)
    requires PREFIX_SIZE <= |s| && |magic| == 8 && s[..PREFIX_SIZE] == Prefix(magic, blobLength)
    ensures HasFields(s, magic, blobLength)
  {
    var f0, f1, f2, f3 := LE(1, 4), LE(SECRET_SIZE, 4), LE(blobLength, 4), LE(0, 4);
    PrefixAt(s, Prefix(magic, blobLength));
    AtConcat(s, 0, magic, f0 + (f1 + (f2 + f3)));
    AtConcat(s, 8, f0, f1 + (f2 + f3));
    AtConcat(s, 12, f1, f2 + f3);
    AtConcat(s, 16, f2, f3);
  }

  lemma FieldsPrefix(s: seq<byte>, magic: seq<byte>, blobLength: nat)
    requires HasFields(s, magic, blobLength)
    ensures s[..PREFIX_SIZE] == Prefix(magic, blobLength)
  {
    var f0, f1, f2, f3 := LE(1, 4), LE(SECRET_SIZE, 4), LE(blobLength, 4), LE(0, 4);
    AtJoin(s, 16, f2, f3);
    AtJoin(s, 12, f1, f2 + f3);
    AtJoin(s, 8, f0, f1 + (f2 + f3));
    AtJoin(s, 0, magic, f0 + (f1 + (f2 + f3)));
    PrefixAt(s, Prefix(magic, blobLength));
  }

  lemma PrefixAt(s: seq<byte>, part: seq<byte>)
    requires |part| <= |s|
    ensures At(s, 0, part) <==> s[..|part|] == part
  {
    if s[..|part|] == part {
      forall k | 0 <= k < |part|
        ensures s[0 + k] == part[k]
      {
        assert s[..|part|][k] == part[k];
      }
    }
  }

  lemma AtJoin(s: seq<byte>, at: nat, a: seq<byte>, b: seq<byte>)
    requires At(s, at, a) && At(s, at + |a|, b)
    ensures At(s, at, a + b)
  {
    forall k | 0 <= k < |a + b|
      ensures s[at + k] == (a + b)[k]
    {
      if k >= |a| {
        assert s[at + |a| + (k - |a|)] == b[k - |a|];
      }
    }
  }

  /** A state taken apart. */
  ghost predicate HasParts(s: seq<byte>, magic: seq<byte>, m: Material) {
    && |s| == HEADER_SIZE + SECRET_SIZE + |m.blob|
    && s[..PREFIX_SIZE] == Prefix(magic, |m.blob|)
    && s[PREFIX_SIZE..HEADER_SIZE] == Sha256.Digest(Covered(s))
    && s[HEADER_SIZE..] == m.secret + m.blob
  }

  lemma PartsAreState(s: seq<byte>, magic: seq<byte>, m: Material)
    requires Storable(m) && |magic| == 8
    ensures HasParts(s, magic, m) <==> s == Serialize(magic, m)
  {
    var prefix, payload := Prefix(magic, |m.blob|), m.secret + m.blob;
    var digest := Sha256.Digest(prefix + payload);
    if HasParts(s, magic, m) {
      assert Covered(s) == prefix + payload;
      ThreeParts(s);
    }
    if s == prefix + (digest + payload) {
      PartsBack(s, prefix, digest, payload);
    }
  }

  lemma ThreeParts(s: seq<byte>)
    requires HEADER_SIZE <= |s|
    ensures s == s[..PREFIX_SIZE] + (s[PREFIX_SIZE..HEADER_SIZE] + s[HEADER_SIZE..])
  {
  }

  lemma PartsBack(s: seq<byte>, prefix: seq<byte>, digest: seq<byte>, payload: seq<byte>)
    requires s == prefix + (digest + payload) && |prefix| == PREFIX_SIZE && |digest| == 32
    ensures HEADER_SIZE <= |s| && s[..PREFIX_SIZE] == prefix && s[PREFIX_SIZE..HEADER_SIZE] == digest
    ensures s[HEADER_SIZE..] == payload && Covered(s) == prefix + payload
  {
  }

  // -------------------------------------------------------------------------
  // Reading and writing a state

  ghost predicate HasSize(s: seq<byte>) {
    HEADER_SIZE + SECRET_SIZE + 1 <= |s| <= HEADER_SIZE + SECRET_SIZE + MAX_BLOB
  }

  function MaterialOf(s: seq<byte>): Material
    requires HEADER_SIZE + SECRET_SIZE <= |s|
  {
    Material(s[HEADER_SIZE..HEADER_SIZE + SECRET_SIZE], s[HEADER_SIZE + SECRET_SIZE..])
  }

  /** The checks on the header. */
  predicate Checked(s: seq<byte>, magic: seq<byte>)
    requires HEADER_SIZE <= |s|
  {
    var blobLength := Load(s, 16, 4);
    && s[..8] == magic
    && Load(s, 8, 4) == 1 && Load(s, 12, 4) == SECRET_SIZE
    && 0 < blobLength <= MAX_BLOB && Load(s, 20, 4) == 0
    && HEADER_SIZE + SECRET_SIZE + blobLength == |s|
  }

  lemma CheckedHasFields(s: seq<byte>, magic: seq<byte>)
    requires HasSize(s) && |magic| == 8 && Checked(s, magic)
    ensures HasFields(s, magic, |s| - HEADER_SIZE - SECRET_SIZE)
  {
    PrefixAt(s, magic);
    FieldLoaded(s, 8, 4);
    FieldLoaded(s, 12, 4);
    FieldLoaded(s, 16, 4);
    FieldLoaded(s, 20, 4);
  }

  lemma FieldsAreChecked(s: seq<byte>, magic: seq<byte>)
    requires HasSize(s) && HasFields(s, magic, |s| - HEADER_SIZE - SECRET_SIZE)
    ensures Checked(s, magic)
  {
    PrefixAt(s, magic);
    PowersOf256();
    LoadField(s, 8, 4, 1);
    LoadField(s, 12, 4, SECRET_SIZE);
    LoadField(s, 16, 4, |s| - HEADER_SIZE - SECRET_SIZE);
    LoadField(s, 20, 4, 0);
  }

  lemma CheckedIsPrefix(s: seq<byte>, magic: seq<byte>)
    requires HasSize(s) && |magic| == 8
    ensures Checked(s, magic) <==> s[..PREFIX_SIZE] == Prefix(magic, |s| - HEADER_SIZE - SECRET_SIZE)
  {
    if Checked(s, magic) {
      CheckedHasFields(s, magic);
      FieldsPrefix(s, magic, |s| - HEADER_SIZE - SECRET_SIZE);
    } else if s[..PREFIX_SIZE] == Prefix(magic, |s| - HEADER_SIZE - SECRET_SIZE) {
      PrefixFields(s, magic, |s| - HEADER_SIZE - SECRET_SIZE);
      FieldsAreChecked(s, magic);
    }
  }

  /** The checks accept the bytes of a material and nothing else. */
  lemma CheckedIsState(s: seq<byte>, magic: seq<byte>, digest: seq<byte>)
    requires HasSize(s) && |magic| == 8 && digest == Sha256.Digest(Covered(s))
    ensures Checked(s, magic) && digest == s[PREFIX_SIZE..HEADER_SIZE] <==> s == Serialize(magic, MaterialOf(s))
  {
    var m := MaterialOf(s);
    CheckedIsPrefix(s, magic);
    PartsAreState(s, magic, m);
    assert s[HEADER_SIZE..] == m.secret + m.blob;
  }

  lemma OneMaterial(s: seq<byte>, magic: seq<byte>, m: Material)
    requires Storable(m) && |magic| == 8 && s == Serialize(magic, m)
    ensures HasSize(s) && m == MaterialOf(s)
  {
    PartsAreState(s, magic, m);
    assert s[HEADER_SIZE..][..SECRET_SIZE] == m.secret;
    assert s[HEADER_SIZE..][SECRET_SIZE..] == m.blob;
  }

  lemma StatesHaveSize(s: seq<byte>)
    ensures !HasSize(s) ==> !Loadable(s)
  {
    forall m | IsState(s, m)
      ensures HasSize(s)
    {
      OneMaterial(s, if s == Serialize(MAGIC, m) then MAGIC else LEGACY_MAGIC, m);
    }
  }

  /** The material of a state, if it is one. */
  method ParseState(s: seq<byte>) returns (ok: bool, m: Material)
    requires HasSize(s)
    ensures (ok <==> Loadable(s)) && (ok ==> IsState(s, m))
  {
    m := MaterialOf(s);
    var digest := StateDigest(s);
    ok := (Checked(s, MAGIC) || Checked(s, LEGACY_MAGIC)) && digest == s[PREFIX_SIZE..HEADER_SIZE];
    AcceptsStates(s, digest);
  }

  lemma AcceptsStates(s: seq<byte>, digest: seq<byte>)
    requires HasSize(s) && digest == Sha256.Digest(Covered(s))
    ensures if (Checked(s, MAGIC) || Checked(s, LEGACY_MAGIC)) && digest == s[PREFIX_SIZE..HEADER_SIZE]
            then IsState(s, MaterialOf(s)) else !Loadable(s)
  {
    CheckedIsState(s, MAGIC, digest);
    CheckedIsState(s, LEGACY_MAGIC, digest);
    forall m | IsState(s, m)
      ensures m == MaterialOf(s)
    {
      OneMaterial(s, if s == Serialize(MAGIC, m) then MAGIC else LEGACY_MAGIC, m);
    }
  }

  /** Writes the header but for the digest, into zeros. */
  method BuildPrefix(state: array<byte>, blobLength: nat)
    requires HEADER_SIZE <= state.Length && forall i :: 0 <= i < state.Length ==> state[i] == 0
    modifies state
    ensures HasFields(state[..], MAGIC, blobLength)
  {
    Store(state, 0, MAGIC);
    Store(state, 8, LE(1, 4));
    Store(state, 12, LE(SECRET_SIZE, 4));
    Store(state, 16, LE(blobLength, 4));
  }

  /** The header survives what is written after it, and what is written comes out. */
  lemma PayloadStored(s: seq<byte>, m: Material)
    requires Storable(m) && |s| == HEADER_SIZE + SECRET_SIZE + |m.blob|
    ensures var t := Overwrite(Overwrite(s, HEADER_SIZE, m.secret), HEADER_SIZE + SECRET_SIZE, m.blob);
            t[..PREFIX_SIZE] == s[..PREFIX_SIZE] && t[HEADER_SIZE..] == m.secret + m.blob
  {
  }

  lemma DigestStored(s: seq<byte>, digest: seq<byte>)
    requires HEADER_SIZE <= |s| && |digest| == HEADER_SIZE - PREFIX_SIZE
    ensures var t := Overwrite(s, PREFIX_SIZE, digest);
            && t[..PREFIX_SIZE] == s[..PREFIX_SIZE] && t[HEADER_SIZE..] == s[HEADER_SIZE..]
            && t[PREFIX_SIZE..HEADER_SIZE] == digest && Covered(t) == Covered(s)
  {
  }

  /** The file for a material. */
  method BuildState(m: Material) returns (state: array<byte>)
    requires Storable(m)
    ensures fresh(state) && state[..] == Serialize(MAGIC, m)
  {
    state := BuildUndigested(m);
    var digest := StateDigest(state[..]);
    DigestStored(state[..], digest);
    Store(state, PREFIX_SIZE, digest);
    PartsAreState(state[..], MAGIC, m);
  }

  /** Everything but the digest. */
  method BuildUndigested(m: Material) returns (state: array<byte>)
    requires Storable(m)
    ensures fresh(state) && state.Length == HEADER_SIZE + SECRET_SIZE + |m.blob|
    ensures state[..][..PREFIX_SIZE] == Prefix(MAGIC, |m.blob|) && state[..][HEADER_SIZE..] == m.secret + m.blob
  {
    state := new byte[HEADER_SIZE + SECRET_SIZE + |m.blob|](_ => 0);
    BuildPrefix(state, |m.blob|);
    ghost var header := state[..];
    FieldsPrefix(header, MAGIC, |m.blob|);
    Store(state, HEADER_SIZE, m.secret);
    Store(state, HEADER_SIZE + SECRET_SIZE, m.blob);
    PayloadStored(header, m);
  }

  /** What was written reads back. */
  lemma StateReadsBack(m: Material)
    requires Storable(m)
    ensures IsState(Serialize(MAGIC, m), m)
    ensures forall m' :: IsState(Serialize(MAGIC, m), m') ==> m' == m
  {
    var s := Serialize(MAGIC, m);
    OneMaterial(s, MAGIC, m);
    forall m' | IsState(s, m')
      ensures m' == m
    {
      OneMaterial(s, if s == Serialize(MAGIC, m') then MAGIC else LEGACY_MAGIC, m');
    }
  }
}

/** A directory as a crash can leave it: a name may be any of its links since the directory was last synced, and
    a file that was not synced since it was written may hold anything. */
module KeybagDisk {
  import opened Bytes

  const STATE_NAME: string := "keybag.state"

  datatype Link = Absent | To(inode: nat)

  /** What a name stands for now, and what it may stand for after a crash. */
  datatype Entry = Entry(now: Link, possible: set<Link>)

  datatype File = File(data: seq<byte>, synced: bool)

  /** `foreign` are the files of other processes, present or past. */
  datatype Snapshot = Snapshot(entries: map<string, Entry>, files: map<nat, File>, foreign: set<nat>)

  function Look(s: Snapshot, name: string): Entry {
    if name in s.entries then s.entries[name] else Entry(Absent, {Absent})
  }

  /** A name stands for files that exist, also after a crash. */
  ghost predicate LinksExist(s: Snapshot, name: string) {
    && Look(s, name).now in Look(s, name).possible
    && forall link :: link in Look(s, name).possible && link.To? ==> link.inode in s.files
  }

  ghost predicate WellFormed(s: Snapshot) {
    (forall name :: LinksExist(s, name)) && s.foreign <= s.files.Keys
  }

  datatype Contents = NoFile | Contents(data: seq<byte>)

  /** What a name may hold when the machine comes up again. */
  ghost predicate AfterCrash(s: Snapshot, name: string, c: Contents) {
    exists link :: link in Look(s, name).possible && MayHold(s, link, c)
  }

  ghost predicate MayHold(s: Snapshot, link: Link, c: Contents) {
    match link
    case Absent => c.NoFile?
    case To(i) => c.Contents? && (i in s.files && s.files[i].synced ==> c.data == s.files[i].data)
  }

  // -------------------------------------------------------------------------
  // Steps

  datatype Step =
    | Nothing
    | Create(name: string, inode: nat)
    | Write(inode: nat, data: seq<byte>)
    | Sync(inode: nat)
    | Rename(source: string, target: string)
    | SyncDirectory
    | Unlink(name: string)

  function Relink(s: Snapshot, name: string, link: Link): Snapshot {
    s.(entries := s.entries[name := Entry(link, Look(s, name).possible + {link})])
  }

  /** When a step can succeed: a name is never taken away from another file. */
  predicate Possible(s: Snapshot, step: Step) {
    match step
    case Create(name, inode) => Look(s, name).now == Absent && inode !in s.files
    case Write(inode, _) => inode in s.files
    case Sync(inode) => inode in s.files
    case Rename(source, target) => Look(s, source).now.To? && Look(s, target).now == Absent && source != target
    case _ => true
  }

  function Apply(s: Snapshot, step: Step): Snapshot {
    match step
    case Nothing => s
    case Create(name, inode) => Relink(s, name, To(inode)).(files := s.files[inode := File([], false)])
    case Write(inode, data) =>
      if inode in s.files then s.(files := s.files[inode := File(s.files[inode].data + data, false)]) else s
    case Sync(inode) =>
      if inode in s.files then s.(files := s.files[inode := File(s.files[inode].data, true)]) else s
    case Rename(source, target) => Relink(Relink(s, target, Look(s, source).now), source, Absent)
    case SyncDirectory =>
      s.(entries := map name | name in s.entries :: Entry(s.entries[name].now, {s.entries[name].now}))
    case Unlink(name) => Relink(s, name, Absent)
  }

  /** Another process may put a state file of its own in place, if there is none. */
  ghost predicate Intrusion(a: Snapshot, b: Snapshot) {
    || b == a
    || (Look(a, STATE_NAME).now == Absent
        && exists inode, file :: Intruded(a, b, inode, file))
  }

  ghost predicate Intruded(a: Snapshot, b: Snapshot, inode: nat, file: File) {
    && inode !in a.files
    && b == Relink(a, STATE_NAME, To(inode)).(files := a.files[inode := file], foreign := a.foreign + {inode})
  }

  lemma StepKeepsForm(s: Snapshot, step: Step, t: Snapshot)
    requires WellFormed(s) && Possible(s, step) && t == Apply(s, step)
    ensures WellFormed(t)
  {
    forall name
      ensures LinksExist(t, name)
    {
      assert LinksExist(s, name);
      if step.Rename? {
        assert LinksExist(s, step.source);
      }
    }
  }

  lemma IntrusionKeepsForm(s: Snapshot, t: Snapshot)
    requires WellFormed(s) && Intrusion(s, t)
    ensures WellFormed(t)
  {
    if t != s {
      forall name
        ensures LinksExist(t, name)
      {
        assert LinksExist(s, name);
      }
    }
  }

  // -------------------------------------------------------------------------
  // What a crash may show

  /** The state file is absent, someone else's, or complete: also after a crash. */
  ghost predicate Safe(s: Snapshot, state: seq<byte>) {
    forall link :: link in Look(s, STATE_NAME).possible ==> IsSafe(s, link, state)
  }

  ghost predicate IsSafe(s: Snapshot, link: Link, state: seq<byte>) {
    link.To? ==> link.inode in s.foreign || (link.inode in s.files && s.files[link.inode] == File(state, true))
  }

  /** A file of ours that the state name has never stood for. */
  ghost predicate Hidden(s: Snapshot, inode: nat) {
    inode in s.files && inode !in s.foreign && To(inode) !in Look(s, STATE_NAME).possible
  }

  /** What others have is left alone, and a state file stays. */
  ghost predicate Respects(a: Snapshot, b: Snapshot) {
    && (forall i :: i in a.foreign && i in a.files ==> i in b.foreign && i in b.files && b.files[i] == a.files[i])
    && (Look(a, STATE_NAME).now.To? ==> Look(b, STATE_NAME).now == Look(a, STATE_NAME).now)
  }

  /** The discipline of the writer: only a hidden file is written, and the state name is only given to one that
      is complete and synced. */
  ghost predicate Allowed(s: Snapshot, step: Step, inode: nat, state: seq<byte>) {
    match step
    case Nothing => true
    case Create(name, _) => name != STATE_NAME
    case Write(i, _) => i == inode && Hidden(s, inode)
    case Sync(i) => i == inode && Hidden(s, inode)
    case Rename(source, target) =>
      && source != STATE_NAME && target == STATE_NAME && Look(s, source).now == To(inode)
      && Hidden(s, inode) && s.files[inode] == File(state, true)
    case SyncDirectory => true
    case Unlink(name) => name != STATE_NAME
  }

  lemma StepIsSafe(s: Snapshot, step: Step, t: Snapshot, inode: nat, state: seq<byte>)
    requires WellFormed(s) && Safe(s, state) && Possible(s, step) && Allowed(s, step, inode, state)
    requires t == Apply(s, step)
    ensures Safe(t, state) && Respects(s, t)
  {
    assert LinksExist(s, STATE_NAME);
    forall link | link in Look(t, STATE_NAME).possible
      ensures IsSafe(t, link, state)
    {
      if link in Look(s, STATE_NAME).possible {
        assert IsSafe(s, link, state);
      }
    }
  }

  lemma IntrusionIsSafe(s: Snapshot, t: Snapshot, state: seq<byte>)
    requires WellFormed(s) && Safe(s, state) && Intrusion(s, t)
    ensures Safe(t, state) && Respects(s, t)
  {
    forall link | link in Look(t, STATE_NAME).possible
      ensures IsSafe(t, link, state)
    {
      if link in Look(s, STATE_NAME).possible {
        assert IsSafe(s, link, state);
      }
    }
  }

  /** Another process can neither reach our file nor the names we use. */
  lemma IntrusionKeepsHidden(s: Snapshot, t: Snapshot, inode: nat)
    requires Hidden(s, inode) && Intrusion(s, t)
    ensures Hidden(t, inode) && t.files[inode] == s.files[inode]
    ensures forall name :: name != STATE_NAME ==> Look(t, name) == Look(s, name)
  {
  }

  /** Unless another process was there, a crash leaves no state file or the complete one. */
  lemma CrashShowsComplete(s: Snapshot, state: seq<byte>, c: Contents)
    requires Safe(s, state) && AfterCrash(s, STATE_NAME, c)
    requires forall link :: link in Look(s, STATE_NAME).possible && link.To? ==> link.inode !in s.foreign
    ensures c == NoFile || c == Contents(state)
  {
    var link :| link in Look(s, STATE_NAME).possible && MayHold(s, link, c);
    assert IsSafe(s, link, state);
  }

  /** Every moment from `from` on is safe and respects the one before. */
  ghost predicate Guarded(history: seq<Snapshot>, from: nat, state: seq<byte>) {
    && 0 < from <= |history|
    && forall k :: from <= k < |history| ==> Moment(history, k, state)
  }

  ghost predicate Moment(history: seq<Snapshot>, k: nat, state: seq<byte>)
    requires 0 < k < |history|
  {
    Safe(history[k], state) && Respects(history[k - 1], history[k])
  }

  lemma GuardedAppend(history: seq<Snapshot>, from: nat, state: seq<byte>, next: Snapshot)
    requires Guarded(history, from, state) && Safe(next, state) && Respects(history[|history| - 1], next)
    ensures Guarded(history + [next], from, state)
  {
    var all := history + [next];
    forall k | from <= k < |all|
      ensures Moment(all, k, state)
    {
      assert all[k - 1] == history[k - 1];
      if k < |history| {
        assert all[k] == history[k] && Moment(history, k, state);
      }
    }
  }

  /** Over any stretch of a guarded history, what others have and a state file that is there stay. */
  lemma {:induction false} GuardedRespects(history: seq<Snapshot>, from: nat, state: seq<byte>, i: nat, j: nat)
    requires Guarded(history, from, state) && from - 1 <= i <= j < |history|
    ensures Respects(history[i], history[j])
    decreases j - i
  {
    if i < j {
      GuardedRespects(history, from, state, i, j - 1);
      assert Moment(history, j, state);
    }
  }

  // -------------------------------------------------------------------------
  // The directory while we work in it

  datatype WriteResult = Wrote(n: nat) | Interrupted | WriteFailed

  class Directory {
    var now: Snapshot
    /** How many more calls will be interrupted. */
    var interrupts: nat
    /** Every moment so far, ending with this one. */
    ghost var history: seq<Snapshot>

    constructor (now: Snapshot, interrupts: nat)
      requires WellFormed(now)
      ensures Valid() && this.now == now
    {
      this.now, this.interrupts, history := now, interrupts, [now];
    }

    ghost predicate Valid()
      reads this
    {
      WellFormed(now) && history != [] && history[|history| - 1] == now
    }

    /** Another process may have been here (at `mid`), and then this step was taken. */
    twostate predicate Did(step: Step, new mid: Snapshot)
      reads this
    {
      && Valid() && WellFormed(mid) && Intrusion(old(now), mid) && Possible(mid, step) && now == Apply(mid, step)
      && history == old(history) + [mid] + [now]
    }

    method Intrude()
      requires Valid()
      modifies this`now, this`history
      ensures Valid() && Intrusion(old(now), now) && history == old(history) + [now]
    {
      var happens: bool := *;
      var inode: int := *;
      var data: seq<int>, synced: bool := *, *;
      if happens && Look(now, STATE_NAME).now == Absent && inode >= 0 && inode !in now.files {
        var file := File(seq(|data|, i requires 0 <= i < |data| => data[i] % 256), synced);
        now := Relink(now, STATE_NAME, To(inode)).(files := now.files[inode := file], foreign := now.foreign + {inode});
        assert Intruded(old(now), now, inode, file);
      }
      IntrusionKeepsForm(old(now), now);
      history := history + [now];
    }

    /** Tries a step, which may fail for any reason. */
    method Attempt(step: Step) returns (ok: bool, ghost mid: Snapshot)
      requires Valid()
      modifies this`now, this`history
      ensures Did(if ok then step else Nothing, mid)
    {
      Intrude();
      mid := now;
      ok := *;
      ok := ok && Possible(now, step);
      if ok {
        StepKeepsForm(now, step, Apply(now, step));
        now := Apply(now, step);
      }
      history := history + [now];
    }

    method Stat(name: string) returns (absent: bool, ghost mid: Snapshot)
      requires Valid()
      modifies this`now, this`history
      ensures Did(Nothing, mid) && (absent ==> Look(now, name).now == Absent)
    {
      var _, moment := Attempt(Nothing);
      mid := moment;
      var failed: bool := *;
      absent := !failed && Look(now, name).now == Absent;
    }

    /** Creates a file under a name that is free; `taken` says that the name was not. */
    method CreateExclusive(name: string) returns (ok: bool, taken: bool, inode: nat, ghost mid: Snapshot)
      requires Valid()
      modifies this`now, this`history
      ensures Did(if ok then Create(name, inode) else Nothing, mid)
    {
      var choice: int := *;
      inode := if choice >= 0 then choice else 0;
      taken := *;
      ok, mid := Attempt(Create(name, inode));
    }

    /** Writes some of the bytes. */
    method WriteSome(inode: nat, bytes: seq<byte>) returns (r: WriteResult, ghost mid: Snapshot)
      requires Valid()
      modifies this
      ensures r.Wrote? ==> r.n <= |bytes| && Did(Write(inode, bytes[..r.n]), mid)
      ensures !r.Wrote? ==> Did(Nothing, mid)
      ensures r == Interrupted ==> interrupts < old(interrupts)
      ensures interrupts <= old(interrupts)
    {
      var n: int := *;
      if 0 <= n <= |bytes| {
        var ok;
        ok, mid := Attempt(Write(inode, bytes[..n]));
        r := if ok then Wrote(n) else WriteFailed;
        return;
      }
      var _, moment := Attempt(Nothing);
      mid, r := moment, WriteFailed;
      var interrupted: bool := *;
      if interrupted && interrupts > 0 {
        interrupts := interrupts - 1;
        r := Interrupted;
      }
    }
  }
}

/** Writing the keybag file so that it is there completely or not at all, and reading it back. */
module KeybagStore {
  import opened Bytes
  import opened KeybagDisk
  import KeybagState

  const TEMPORARY_PREFIX: string := ".keybag.state.new."
  const RANDOM_SIZE: nat := 16
  const TEMPORARY_ATTEMPTS: nat := 4

  function HexDigit(n: nat): char
    requires n < 16
  {
    "0123456789abcdef"[n]
  }

  /** A name that cannot be guessed; it never is the name of the state file. */
  method RandomTemporaryName() returns (ok: bool, name: string)
    ensures name != STATE_NAME
  {
    ok := *;
    var random: seq<int> := *;
    name := TEMPORARY_PREFIX;
    for i := 0 to RANDOM_SIZE
      invariant |name| == |TEMPORARY_PREFIX| + 2 * i && name[0] == '.'
    {
      var b := if i < |random| then random[i] % 256 else 0;
      name := name + [HexDigit(b / 16), HexDigit(b % 16)];
    }
    assert STATE_NAME[0] == 'k';
  }

  /** A moment of the history and what was there before it. */
  datatype Origin = Origin(at: nat, before: Snapshot)

  /** The directory, every moment since `from` being safe. */
  ghost predicate Under(d: Directory, from: Origin, state: seq<byte>)
    reads d
  {
    d.Valid() && Guarded(d.history, from.at, state) && d.history[from.at - 1] == from.before && Safe(d.now, state)
  }

  lemma DidGuarded(
    history: seq<Snapshot>, from: nat, state: seq<byte>, mid: Snapshot, now: Snapshot, step: Step, inode: nat)
    requires Guarded(history, from, state)
    requires var before := history[|history| - 1];
             WellFormed(before) && Safe(before, state) && Intrusion(before, mid)
    requires WellFormed(mid) && Possible(mid, step) && Allowed(mid, step, inode, state) && now == Apply(mid, step)
    ensures Guarded(history + [mid] + [now], from, state) && Safe(now, state)
  {
    IntrusionIsSafe(history[|history| - 1], mid, state);
    StepIsSafe(mid, step, now, inode, state);
    GuardedAppend(history, from, state, mid);
    GuardedAppend(history + [mid], from, state, now);
  }

  /** A file of ours under a name of ours. */
  ghost predicate Temporary(s: Snapshot, name: string, inode: nat, data: seq<byte>) {
    && name != STATE_NAME && Look(s, name).now == To(inode) && Hidden(s, inode) && s.files[inode].data == data
  }

  lemma CreatedIsTemporary(mid: Snapshot, name: string, inode: nat)
    requires WellFormed(mid) && name != STATE_NAME && Possible(mid, Create(name, inode))
    ensures Temporary(Apply(mid, Create(name, inode)), name, inode, [])
  {
    assert LinksExist(mid, STATE_NAME);
  }

  method CreateTemporary(d: Directory, ghost state: seq<byte>, ghost from: Origin)
    returns (ok: bool, name: string, inode: nat)
    requires Under(d, from, state)
    modifies d
    ensures Under(d, from, state)
    ensures ok ==> Temporary(d.now, name, inode, [])
  {
    inode := 0;
    for attempt := 0 to TEMPORARY_ATTEMPTS
      invariant Under(d, from, state)
    {
      ok, name := RandomTemporaryName();
      if !ok {
        return;
      }
      ghost var before := d.history;
      var taken;
      ghost var mid;
      ok, taken, inode, mid := d.CreateExclusive(name);
      DidGuarded(before, from.at, state, mid, d.now, if ok then Create(name, inode) else Nothing, inode);
      if ok {
        CreatedIsTemporary(mid, name, inode);
        return;
      }
      if !taken {
        return;
      }
    }
    ok, name := false, "";
  }

  /** A step that leaves our file as it is or changes only it. */
  method Try(
    d: Directory, step: Step, name: string, inode: nat, ghost data: seq<byte>, ghost state: seq<byte>,
    ghost from: Origin)
    returns (ok: bool)
    requires Under(d, from, state) && Temporary(d.now, name, inode, data)
    requires step == Nothing || step == Sync(inode)
    modifies d`now, d`history
    ensures Under(d, from, state) && Temporary(d.now, name, inode, data)
    ensures ok && step == Sync(inode) ==> d.now.files[inode].synced
    ensures step == Nothing ==> d.now.files[inode] == old(d.now.files[inode])
  {
    ghost var before := d.history;
    ghost var mid;
    ok, mid := d.Attempt(step);
    IntrusionKeepsHidden(old(d.now), mid, inode);
    DidGuarded(before, from.at, state, mid, d.now, if ok then step else Nothing, inode);
  }

  method WriteAll(d: Directory, name: string, inode: nat, state: seq<byte>, ghost from: Origin) returns (ok: bool)
    requires Under(d, from, state) && Temporary(d.now, name, inode, [])
    modifies d
    ensures Under(d, from, state)
    ensures ok ==> Temporary(d.now, name, inode, state)
    ensures !ok ==> Look(d.now, name).now == To(inode)
  {
    var offset := 0;
    while offset < |state|
      invariant offset <= |state| && Under(d, from, state) && Temporary(d.now, name, inode, state[..offset])
      decreases |state| - offset, d.interrupts
    {
      ghost var before, start := d.history, d.now;
      var r, mid := d.WriteSome(inode, state[offset..]);
      IntrusionKeepsHidden(start, mid, inode);
      ghost var step := if r.Wrote? then Write(inode, state[offset..][..r.n]) else Nothing;
      DidGuarded(before, from.at, state, mid, d.now, step, inode);
      match r {
        case Wrote(n) =>
          assert state[..offset] + state[offset..][..n] == state[..offset + n];
          if n == 0 {
            return false;
          }
          offset := offset + n;
        case Interrupted =>
        case WriteFailed => return false;
      }
    }
    assert state[..offset] == state;
    ok := true;
  }

  /** The state file is there, complete, and a crash cannot undo it. */
  ghost predicate Published(s: Snapshot, inode: nat, state: seq<byte>) {
    Look(s, STATE_NAME) == Entry(To(inode), {To(inode)}) && inode in s.files && s.files[inode] == File(state, true)
  }

  /** Gives the file its name, if the name is free, and makes that last. */
  method Publish(d: Directory, name: string, inode: nat, state: seq<byte>, ghost from: Origin)
    returns (ok: bool, renamed: bool)
    requires Under(d, from, state) && Temporary(d.now, name, inode, state) && d.now.files[inode].synced
    modifies d`now, d`history
    ensures Under(d, from, state) && (ok ==> renamed && Published(d.now, inode, state))
  {
    ghost var before := d.history;
    ghost var mid;
    renamed, mid := d.Attempt(Rename(name, STATE_NAME));
    IntrusionKeepsHidden(old(d.now), mid, inode);
    DidGuarded(before, from.at, state, mid, d.now, if renamed then Rename(name, STATE_NAME) else Nothing, inode);
    if !renamed {
      return false, false;
    }
    before := d.history;
    ok, mid := d.Attempt(SyncDirectory);
    DidGuarded(before, from.at, state, mid, d.now, if ok then SyncDirectory else Nothing, inode);
  }

  /** Writes a temporary file, syncs it, and only then gives it its name. */
  method PersistBytes(d: Directory, state: seq<byte>, fileOk: bool) returns (ok: bool, ghost inode: nat)
    requires d.Valid() && d.now.foreign == d.now.files.Keys
    modifies d
    ensures d.Valid() && Guarded(d.history, |old(d.history)|, state) && Respects(old(d.now), d.now)
    ensures ok ==> Published(d.now, inode, state) && Look(old(d.now), STATE_NAME).now == Absent
  {
    ghost var from := Origin(|d.history|, d.now);
    assert Safe(d.now, state) by {
      assert LinksExist(d.now, STATE_NAME);
    }
    ghost var before := d.history;
    var absent, mid := d.Stat(STATE_NAME);
    DidGuarded(before, from.at, state, mid, d.now, Nothing, 0);
    GuardedRespects(d.history, from.at, state, from.at - 1, |d.history| - 1);
    ok, inode := false, 0;
    if absent {
      ok, inode := PersistNew(d, state, fileOk, from);
    }
  }

  method PersistNew(d: Directory, state: seq<byte>, fileOk: bool, ghost from: Origin)
    returns (ok: bool, ghost inode: nat)
    requires Under(d, from, state)
    modifies d
    ensures Under(d, from, state) && Respects(from.before, d.now)
    ensures ok ==> Published(d.now, inode, state)
  {
    var created, name, i := CreateTemporary(d, state, from);
    ok, inode := false, i;
    if created {
      var renamed;
      ok, renamed := Fill(d, name, i, state, fileOk, from);
      if !renamed {
        ghost var last := d.history;
        var removed, moment := d.Attempt(Unlink(name));
        DidGuarded(last, from.at, state, moment, d.now, if removed then Unlink(name) else Nothing, 0);
      }
    }
    GuardedRespects(d.history, from.at, state, from.at - 1, |d.history| - 1);
  }

  method Fill(d: Directory, name: string, inode: nat, state: seq<byte>, fileOk: bool, ghost from: Origin)
    returns (ok: bool, renamed: bool)
    requires Under(d, from, state) && Temporary(d.now, name, inode, [])
    modifies d
    ensures Under(d, from, state) && (ok ==> renamed && Published(d.now, inode, state))
  {
    ok, renamed := false, false;
    if !fileOk {
      return;
    }
    ok := WriteAll(d, name, inode, state, from);
    if !ok {
      return;
    }
    ok := Try(d, Sync(inode), name, inode, state, state, from);
    if !ok {
      return;
    }
    ok := Try(d, Nothing, name, inode, state, state, from);
    if !ok {
      return;
    }
    ok, renamed := Publish(d, name, inode, state, from);
  }

  /** Stores a material unless there is one. At every moment of it a crash leaves no state file, someone else's,
      or the complete one, and a file that is there is never replaced. */
  method PersistAbsent(d: Directory, m: KeybagState.Material, directoryOk: bool, enough: bool, fileOk: bool)
    returns (ok: bool, ghost inode: nat)
    requires d.Valid() && d.now.foreign == d.now.files.Keys && |m.secret| == KeybagState.SECRET_SIZE
    modifies d
    ensures d.Valid() && Guarded(d.history, |old(d.history)|, KeybagState.Serialize(KeybagState.MAGIC, m))
    ensures Respects(old(d.now), d.now)
    ensures ok ==> KeybagState.Storable(m) && Published(d.now, inode, KeybagState.Serialize(KeybagState.MAGIC, m))
    ensures ok ==> Look(old(d.now), STATE_NAME).now == Absent
  {
    inode := 0;
    if |m.blob| == 0 || |m.blob| > KeybagState.MAX_BLOB || !directoryOk || !enough {
      ok := false;
      return;
    }
    var state := KeybagState.BuildState(m);
    ok, inode := PersistBytes(d, state[..], fileOk);
  }

  // -------------------------------------------------------------------------
  // Reading

  datatype ReadResult = Got(bytes: seq<byte>) | ReadInterrupted | ReadFailed

  /** An open file; nothing read from it is promised to come in one piece. */
  class Reader {
    const contents: seq<byte>
    var position: nat
    var interrupts: nat
    /** Whether a call has failed, or was interrupted at the end of the file, where nobody repeats it. */
    ghost var trouble: bool

    constructor (contents: seq<byte>, interrupts: nat)
      ensures this.contents == contents && position == 0 && !trouble
    {
      this.contents := contents;
      position, this.interrupts, trouble := 0, interrupts, false;
    }

    /** Only at the end of the file does a read return nothing. */
    method Read(n: nat) returns (r: ReadResult)
      requires position <= |contents| && 0 < n
      modifies this
      ensures interrupts <= old(interrupts) && old(position) <= position <= |contents|
      ensures r.Got? ==> position == old(position) + |r.bytes| && r.bytes == contents[old(position)..position]
      ensures r.Got? ==> |r.bytes| <= n && (r.bytes == [] <==> old(position) == |contents|)
      ensures r == ReadInterrupted ==> interrupts < old(interrupts)
      ensures trouble == (old(trouble) || r == ReadFailed || (r == ReadInterrupted && position == |contents|))
      ensures !r.Got? ==> position == old(position)
    {
      var left := |contents| - position;
      var some: int := *;
      if some < 0 && interrupts > 0 {
        interrupts, trouble := interrupts - 1, trouble || position == |contents|;
        return ReadInterrupted;
      }
      if some == 0 {
        trouble := true;
        return ReadFailed;
      }
      var most := if left < n then left else n;
      var count := if 0 < some < most then some else most;
      r := Got(contents[position..position + count]);
      position := position + count;
    }
  }

  method ReadAll(reader: Reader, length: nat) returns (ok: bool, state: seq<byte>)
    requires reader.position == 0
    modifies reader
    ensures ok ==> reader.position == length <= |reader.contents| && state == reader.contents[..length]
    ensures !ok ==> reader.trouble || |reader.contents| < length
    ensures old(reader.trouble) ==> reader.trouble
  {
    state := [];
    while |state| < length
      invariant reader.position == |state| <= length && |state| <= |reader.contents|
      invariant state == reader.contents[..|state|] && (old(reader.trouble) ==> reader.trouble)
      decreases length - |state|, reader.interrupts
    {
      var r := reader.Read(length - |state|);
      match r {
        case Got(bytes) =>
          if bytes == [] {
            return false, state;
          }
          state := state + bytes;
        case ReadInterrupted =>
        case ReadFailed => return false, state;
      }
    }
    ok := true;
  }

  datatype Found = NotThere | OpenFailed | Open(reader: Reader)

  datatype LoadResult = Existing(material: KeybagState.Material) | StateAbsent | LoadFailed

  /** Accepts exactly the bytes of a material, if no call fails; `size` is what the system says of the file. */
  method LoadState(directoryOk: bool, found: Found, fileOk: bool, size: nat, enough: bool) returns (r: LoadResult)
    requires found.Open? ==> found.reader.position == 0
    modifies if found.Open? then {found.reader} else {}
    ensures r == StateAbsent <==> directoryOk && found == NotThere
    ensures r.Existing? ==> found.Open? && KeybagState.IsState(found.reader.contents, r.material)
    ensures directoryOk && fileOk && enough && found.Open? && size == |found.reader.contents|
            && !found.reader.trouble ==>
              (r.Existing? <==> KeybagState.Loadable(found.reader.contents))
  {
    if !directoryOk {
      return LoadFailed;
    }
    match found {
      case NotThere => return StateAbsent;
      case OpenFailed => return LoadFailed;
      case Open(reader) =>
        if !fileOk || !enough {
          return LoadFailed;
        }
        r := LoadFrom(reader, size);
    }
  }

  method LoadFrom(reader: Reader, size: nat) returns (r: LoadResult)
    requires reader.position == 0
    modifies reader
    ensures r != StateAbsent
    ensures r.Existing? ==> KeybagState.IsState(reader.contents, r.material)
    ensures size == |reader.contents| && !reader.trouble ==> (r.Existing? <==> KeybagState.Loadable(reader.contents))
  {
    if size < KeybagState.HEADER_SIZE + KeybagState.SECRET_SIZE + 1
       || size > KeybagState.HEADER_SIZE + KeybagState.SECRET_SIZE + KeybagState.MAX_BLOB
    {
      KeybagState.StatesHaveSize(reader.contents);
      return LoadFailed;
    }
    var ok, state := ReadWhole(reader, size);
    if !ok {
      return LoadFailed;
    }
    var valid, m := KeybagState.ParseState(state);
    r := if valid then Existing(m) else LoadFailed;
  }

  /** Reads what the system says is there and makes sure that nothing follows. */
  method ReadWhole(reader: Reader, size: nat) returns (ok: bool, state: seq<byte>)
    requires reader.position == 0
    modifies reader
    ensures ok ==> state == reader.contents && |state| == size
    ensures !ok && size == |reader.contents| ==> reader.trouble
  {
    ok, state := ReadAll(reader, size);
    if ok {
      var extra := reader.Read(1);
      ok := extra == Got([]);
    }
  }

  // -------------------------------------------------------------------------
  // Writing, crashing and reading

  /** What is found under the name. */
  ghost predicate Shows(found: Found, c: Contents)
    reads if found.Open? then {found.reader} else {}
  {
    match c
    case NoFile => found == NotThere
    case Contents(data) => found.Open? && found.reader.contents == data && found.reader.position == 0
  }

  /** The name stands for files of ours only. */
  ghost predicate Undisturbed(s: Snapshot) {
    forall link :: link in Look(s, STATE_NAME).possible && link.To? ==> link.inode !in s.foreign
  }

  /** Whenever in the course of storing a material the machine went down, loading afterwards gives nothing or
      the material: and the material once it was stored. */
  method LoadAfterCrash(
    found: Found, ghost history: seq<Snapshot>, ghost from: nat, ghost k: nat, ghost c: Contents,
    ghost m: KeybagState.Material, ghost inode: nat)
    returns (r: LoadResult)
    requires KeybagState.Storable(m) && from <= k < |history|
    requires Guarded(history, from, KeybagState.Serialize(KeybagState.MAGIC, m)) && Undisturbed(history[k])
    requires AfterCrash(history[k], STATE_NAME, c) && Shows(found, c)
    modifies if found.Open? then {found.reader} else {}
    ensures !(found.Open? && found.reader.trouble) ==> r == if c.NoFile? then StateAbsent else Existing(m)
    ensures Published(history[k], inode, KeybagState.Serialize(KeybagState.MAGIC, m)) ==> c.Contents?
  {
    ghost var state := KeybagState.Serialize(KeybagState.MAGIC, m);
    assert Moment(history, k, state);
    CrashShowsComplete(history[k], state, c);
    KeybagState.StateReadsBack(m);
    var size := if found.Open? then |found.reader.contents| else 0;
    r := LoadState(true, found, true, size, true);
  }
}
