/**
 * The content-addressed artifact store (src/infrastructure/documents/content-addressed-artifact-store.ts):
 * publishers, readiness probes, temp sweeps, process crashes and power losses on one file system.
 */
module ArtifactStore {
  import opened Wrappers

  type Byte = n: nat | n < 256
  type Bytes = seq<Byte>
  type Digest = nat
  type Inode = nat
  type TempId = nat
  type PublisherId = nat
  type Hash = Bytes -> Digest

  const MAX_COMMITTED_BYTES: nat := 16 * 1024 * 1024

  /** A name in artifacts/tmp (a publication's or a probe's) or the address of a digest. */
  datatype Name = Temp(id: TempId) | Probe(id: TempId) | Final(digest: Digest)

  /** Names are links to inodes; a second link to an inode shares its bytes. */
  datatype Files = Files(names: map<Name, Inode>, inodes: map<Inode, Bytes>)

  datatype Failure = Unavailable | IntegrityConflict

  datatype Publisher =
    | Writing(bytes: Bytes, temp: TempId, inode: Inode, written: nat)
    | Closed(bytes: Bytes, temp: TempId, inode: Inode)
    | InPlace(bytes: Bytes, temp: TempId, reused: bool)
    | Synced(bytes: Bytes, reused: bool)
    | Published(bytes: Bytes, reused: bool)
    | FailedWith(bytes: Bytes, failure: Failure)

  /** `durable` are the addresses whose directories were synced since they were linked; `used` are the random temp ids drawn. */
  datatype Store = Store(files: Files, durable: set<Digest>, used: set<TempId>, publishers: map<PublisherId, Publisher>)

  const EMPTY := Store(Files(map[], map[]), {}, {}, map[])

  datatype Step =
    | Open(p: PublisherId, bytes: Bytes, temp: TempId, inode: Inode)
    | Write(p: PublisherId, n: nat)
    | Close(p: PublisherId)
    | Link(p: PublisherId)
    | SyncDirectories(p: PublisherId)
    | VerifyStored(p: PublisherId)
    | Fail(p: PublisherId)
    | RemoveTemp(temp: TempId)
    | Crash(p: PublisherId)
    | ProbeWrite(id: TempId, nonce: Bytes, inode: Inode)
    | ProbeLink(id: TempId, link: TempId)
    | ProbeRemove(id: TempId)
    | PowerLoss(lost: set<Name>)

  function ContentAt(f: Files, name: Name): Option<Bytes> {
    if name in f.names && f.names[name] in f.inodes then Some(f.inodes[f.names[name]]) else None
  }

  /** Exactly these bytes, as far as length and hash tell. */
  predicate Matches(hash: Hash, stored: Bytes, bytes: Bytes) {
    |stored| == |bytes| && hash(stored) == hash(bytes)
  }

  function Set(s: Store, p: PublisherId, state: Publisher): Store { s.(publishers := s.publishers[p := state]) }

  function WithFiles(s: Store, f: Files): Store { s.(files := f) }

  /** Unlinking removes a name and never an address. */
  function Unlinked(f: Files, name: Name): Files { f.(names := f.names - {name}) }

  /** Exclusive creation under a fresh name, on an inode of its own. */
  function Created(f: Files, name: Name, inode: Inode, bytes: Bytes): Files {
    Files(f.names[name := inode], f.inodes[inode := bytes])
  }

  function Linked(s: Store, hash: Hash, p: PublisherId, c: Publisher): Store
    requires c.Closed?
  {
    var (key, f) := (hash(c.bytes), s.files);
    if Temp(c.temp) !in f.names then Set(s, p, FailedWith(c.bytes, Unavailable))
    else if Final(key) !in f.names then
      Set(WithFiles(s, f.(names := f.names[Final(key) := f.names[Temp(c.temp)]])), p, InPlace(c.bytes, c.temp, false))
    else
      var existing := ContentAt(f, Final(key));
      if existing.Some? && Matches(hash, existing.value, c.bytes) then Set(s, p, InPlace(c.bytes, c.temp, true))
      else Set(s, p, FailedWith(c.bytes, IntegrityConflict))
  }

  function Verified(s: Store, hash: Hash, p: PublisherId, c: Publisher): Store
    requires c.Synced?
  {
    var stored := ContentAt(s.files, Final(hash(c.bytes)));
    Set(s, p, if stored.Some? && Matches(hash, stored.value, c.bytes) then Published(c.bytes, c.reused)
              else FailedWith(c.bytes, if stored.Some? then IntegrityConflict else Unavailable))
  }

  function After(hash: Hash, s: Store, step: Step): Store {
    match step
    case Open(p, bytes, temp, inode) =>
      if p in s.publishers || temp in s.used || inode in s.files.inodes then s
      else Set(WithFiles(s, Created(s.files, Temp(temp), inode, [])), p, Writing(bytes, temp, inode, 0)).(used := s.used + {temp})
    case Write(p, n) =>
      if p !in s.publishers || !s.publishers[p].Writing? || s.publishers[p].written + n > |s.publishers[p].bytes| then s
      else
        var w := s.publishers[p];
        Set(WithFiles(s, s.files.(inodes := s.files.inodes[w.inode := w.bytes[..w.written + n]])), p, w.(written := w.written + n))
    case Close(p) =>
      if p in s.publishers && s.publishers[p].Writing? && s.publishers[p].written == |s.publishers[p].bytes|
      then Set(s, p, Closed(s.publishers[p].bytes, s.publishers[p].temp, s.publishers[p].inode)) else s
    case Link(p) => if p in s.publishers && s.publishers[p].Closed? then Linked(s, hash, p, s.publishers[p]) else s
    case SyncDirectories(p) =>
      if p in s.publishers && s.publishers[p].InPlace?
      then Set(s, p, Synced(s.publishers[p].bytes, s.publishers[p].reused)).(durable := s.durable + {hash(s.publishers[p].bytes)})
      else s
    case VerifyStored(p) => if p in s.publishers && s.publishers[p].Synced? then Verified(s, hash, p, s.publishers[p]) else s
    case Fail(p) =>
      if p in s.publishers && !s.publishers[p].Published? then Set(s, p, FailedWith(s.publishers[p].bytes, Unavailable)) else s
    case RemoveTemp(temp) => WithFiles(s, Unlinked(s.files, Temp(temp)))
    case Crash(p) => s.(publishers := s.publishers - {p})
    case ProbeWrite(id, nonce, inode) =>
      if Probe(id) in s.files.names || inode in s.files.inodes then s
      else WithFiles(s, Created(s.files, Probe(id), inode, nonce))
    case ProbeLink(id, link) =>
      if Probe(id) !in s.files.names || Probe(link) in s.files.names then s
      else WithFiles(s, s.files.(names := s.files.names[Probe(link) := s.files.names[Probe(id)]]))
    case ProbeRemove(id) => WithFiles(s, Unlinked(s.files, Probe(id)))
    case PowerLoss(lost) =>
      var kept := lost - (set d | d in s.durable :: Final(d));
      Store(s.files.(names := s.files.names - kept), s.durable, s.used, map[])
  }

  function Run(hash: Hash, s: Store, steps: seq<Step>): Store
    decreases |steps|
  {
    if steps == [] then s else Run(hash, After(hash, s, steps[0]), steps[1..])
  }

  // ---------- invariant ----------

  predicate HasTempInode(p: Publisher) { p.Writing? || p.Closed? }

  /** The inode under an address is whole, hashes to the address, and nobody writes to it. */
  ghost predicate AddressOk(hash: Hash, s: Store, d: Digest) {
    Final(d) in s.files.names ==>
      && s.files.names[Final(d)] in s.files.inodes
      && hash(s.files.inodes[s.files.names[Final(d)]]) == d
      && forall p <- s.publishers :: s.publishers[p].Writing? ==> s.publishers[p].inode != s.files.names[Final(d)]
  }

  /** A publisher's temp inode is its own and holds what it wrote so far. */
  ghost predicate PublisherOk(hash: Hash, s: Store, p: PublisherId)
    requires p in s.publishers
  {
    var c := s.publishers[p];
    && (HasTempInode(c) ==>
          && c.inode in s.files.inodes && c.temp in s.used
          && (Temp(c.temp) in s.files.names ==> s.files.names[Temp(c.temp)] == c.inode))
    && (c.Writing? ==> c.written <= |c.bytes| && s.files.inodes[c.inode] == c.bytes[..c.written])
    && (c.Closed? ==> s.files.inodes[c.inode] == c.bytes)
    && (c.InPlace? || c.Synced? || c.Published? ==> Final(hash(c.bytes)) in s.files.names)
    && (c.Synced? || c.Published? ==> hash(c.bytes) in s.durable)
    && (c.Published? ==> var stored := ContentAt(s.files, Final(hash(c.bytes))); stored.Some? && Matches(hash, stored.value, c.bytes))
  }

  ghost predicate OwnInodes(s: Store, p: PublisherId, q: PublisherId)
    requires p in s.publishers && q in s.publishers
  {
    p != q && HasTempInode(s.publishers[p]) && HasTempInode(s.publishers[q]) ==>
      s.publishers[p].inode != s.publishers[q].inode && s.publishers[p].temp != s.publishers[q].temp
  }

  ghost predicate Inv(hash: Hash, s: Store) {
    && (forall name <- s.files.names :: s.files.names[name] in s.files.inodes)
    && (forall d :: AddressOk(hash, s, d))
    && (forall p <- s.publishers :: PublisherOk(hash, s, p))
    && (forall p <- s.publishers, q <- s.publishers :: OwnInodes(s, p, q))
    && (forall d <- s.durable :: Final(d) in s.files.names)
    && (forall name <- s.files.names :: name.Temp? ==> name.id in s.used)
  }

  lemma StepKeepsNames(hash: Hash, s: Store, step: Step)
    requires Inv(hash, s)
    ensures var after := After(hash, s, step);
            && (forall name <- after.files.names :: after.files.names[name] in after.files.inodes)
            && (forall name <- after.files.names :: name.Temp? ==> name.id in after.used)
            && (forall d <- after.durable :: Final(d) in after.files.names)
  {
    if step.SyncDirectories? && step.p in s.publishers { assert PublisherOk(hash, s, step.p); }
    if step.Link? && step.p in s.publishers { assert PublisherOk(hash, s, step.p); }
  }

  /** Only a power loss takes an address away, and only one that was never made durable; nothing rewrites one. */
  lemma AddressesStay(hash: Hash, s: Store, step: Step, d: Digest)
    requires Inv(hash, s) && Final(d) in s.files.names
    requires step.PowerLoss? ==> d in s.durable
    ensures Final(d) in After(hash, s, step).files.names
    ensures ContentAt(After(hash, s, step).files, Final(d)) == ContentAt(s.files, Final(d))
  {
    assert AddressOk(hash, s, d);
  }

  /** A linked inode is a closed one: its own publisher wrote it whole and nobody else writes to it. */
  lemma StepKeepsAddress(hash: Hash, s: Store, step: Step, d: Digest)
    requires Inv(hash, s)
    ensures AddressOk(hash, After(hash, s, step), d)
  {
    assert AddressOk(hash, s, d);
    if step.Link? && step.p in s.publishers {
      assert PublisherOk(hash, s, step.p);
      forall q <- s.publishers ensures OwnInodes(s, step.p, q) {}
    }
  }

  lemma OwnStepKeepsPublisher(hash: Hash, s: Store, step: Step, p: PublisherId)
    requires Inv(hash, s) && p in After(hash, s, step).publishers
    requires (step.Open? || step.Write? || step.Close? || step.Link? || step.SyncDirectories? || step.VerifyStored? || step.Fail?) && step.p == p
    ensures PublisherOk(hash, After(hash, s, step), p)
  {
    if p in s.publishers {
      assert PublisherOk(hash, s, p);
      assert AddressOk(hash, s, hash(s.publishers[p].bytes));
    }
  }

  lemma OtherStepKeepsPublisher(hash: Hash, s: Store, step: Step, p: PublisherId)
    requires Inv(hash, s) && p in After(hash, s, step).publishers && p in s.publishers
    requires After(hash, s, step).publishers[p] == s.publishers[p]
    ensures PublisherOk(hash, After(hash, s, step), p)
  {
    assert PublisherOk(hash, s, p);
    var c := s.publishers[p];
    if c.InPlace? || c.Synced? || c.Published? {
      if !step.PowerLoss? { AddressesStay(hash, s, step, hash(c.bytes)); }
    }
    if step.Write? && step.p in s.publishers { assert OwnInodes(s, step.p, p); }
  }

  lemma StepKeepsPublisher(hash: Hash, s: Store, step: Step, p: PublisherId)
    requires Inv(hash, s) && p in After(hash, s, step).publishers
    ensures PublisherOk(hash, After(hash, s, step), p)
  {
    if p in s.publishers && After(hash, s, step).publishers[p] == s.publishers[p] { OtherStepKeepsPublisher(hash, s, step, p); }
    else { OwnStepKeepsPublisher(hash, s, step, p); }
  }

  lemma StepKeepsOwnInodes(hash: Hash, s: Store, step: Step, p: PublisherId, q: PublisherId)
    requires Inv(hash, s) && p in After(hash, s, step).publishers && q in After(hash, s, step).publishers
    ensures OwnInodes(After(hash, s, step), p, q)
  {
    if p in s.publishers { assert PublisherOk(hash, s, p); }
    if q in s.publishers { assert PublisherOk(hash, s, q); }
    if p in s.publishers && q in s.publishers { assert OwnInodes(s, p, q); }
  }

  lemma StepKeepsInv(hash: Hash, s: Store, step: Step)
    requires Inv(hash, s)
    ensures Inv(hash, After(hash, s, step))
  {
    var after := After(hash, s, step);
    StepKeepsNames(hash, s, step);
    forall d ensures AddressOk(hash, after, d) { StepKeepsAddress(hash, s, step, d); }
    forall p <- after.publishers ensures PublisherOk(hash, after, p) { StepKeepsPublisher(hash, s, step, p); }
    forall p <- after.publishers, q <- after.publishers ensures OwnInodes(after, p, q) { StepKeepsOwnInodes(hash, s, step, p, q); }
  }

  lemma {:induction false} RunKeepsInv(hash: Hash, s: Store, steps: seq<Step>)
    requires Inv(hash, s)
    ensures Inv(hash, Run(hash, s, steps))
    decreases |steps|
  {
    if steps != [] {
      StepKeepsInv(hash, s, steps[0]);
      RunKeepsInv(hash, After(hash, s, steps[0]), steps[1..]);
    }
  }

  predicate NoPowerLoss(steps: seq<Step>) { forall i | 0 <= i < |steps| :: !steps[i].PowerLoss? }

  lemma {:induction false} DurableStays(hash: Hash, s: Store, steps: seq<Step>)
    ensures s.durable <= Run(hash, s, steps).durable
    decreases |steps|
  {
    if steps != [] { DurableStays(hash, After(hash, s, steps[0]), steps[1..]); }
  }

  lemma {:induction false} AddressNeverChanges(hash: Hash, s: Store, steps: seq<Step>, d: Digest)
    requires Inv(hash, s) && Final(d) in s.files.names && (d in s.durable || NoPowerLoss(steps))
    ensures ContentAt(Run(hash, s, steps).files, Final(d)) == ContentAt(s.files, Final(d)) != None
    decreases |steps|
  {
    if steps != [] {
      AddressesStay(hash, s, steps[0], d);
      StepKeepsInv(hash, s, steps[0]);
      DurableStays(hash, s, steps[..1]);
      assert steps[..1][1..] == [];
      AddressNeverChanges(hash, After(hash, s, steps[0]), steps[1..], d);
    }
  }

  /**
   * Write once: after any run of publishers, probes, sweeps, faults, crashes and power losses a
   * final address is absent or holds whole bytes that hash to it, and from then on its bytes never
   * change: not before a power loss, and not even after one once its directories were synced.
   */
  lemma WriteOnce(hash: Hash, before: seq<Step>, after: seq<Step>, d: Digest)
    ensures var s := Run(hash, EMPTY, before);
            Final(d) in s.files.names ==>
              var bytes := ContentAt(s.files, Final(d));
              && bytes.Some? && hash(bytes.value) == d
              && (d in s.durable || NoPowerLoss(after) ==> ContentAt(Run(hash, s, after).files, Final(d)) == bytes)
  {
    RunKeepsInv(hash, EMPTY, before);
    var s := Run(hash, EMPTY, before);
    assert AddressOk(hash, s, d);
    if Final(d) in s.files.names && (d in s.durable || NoPowerLoss(after)) { AddressNeverChanges(hash, s, after, d); }
  }

  /**
   * A successful publish is durable, and its address holds the published bytes as far as length and
   * hash tell, whatever happens afterwards; a refusal for different bytes exhibits a hash collision.
   */
  lemma PublishedForGood(hash: Hash, before: seq<Step>, after: seq<Step>, p: PublisherId)
    requires p in Run(hash, EMPTY, before).publishers && Run(hash, EMPTY, before).publishers[p].Published?
    ensures var bytes := Run(hash, EMPTY, before).publishers[p].bytes;
            var stored := ContentAt(Run(hash, Run(hash, EMPTY, before), after).files, Final(hash(bytes)));
            stored.Some? && |stored.value| == |bytes| && hash(stored.value) == hash(bytes)
  {
    RunKeepsInv(hash, EMPTY, before);
    var s := Run(hash, EMPTY, before);
    assert PublisherOk(hash, s, p);
    AddressNeverChanges(hash, s, after, hash(s.publishers[p].bytes));
  }

  lemma ConflictIsCollision(hash: Hash, before: seq<Step>, step: Step)
    requires var s := Run(hash, EMPTY, before);
             && (step.Link? || step.VerifyStored?) && step.p in s.publishers && !s.publishers[step.p].FailedWith?
             && var after := After(hash, s, step).publishers[step.p]; after.FailedWith? && after.failure == IntegrityConflict
    ensures var s := Run(hash, EMPTY, before);
            var bytes := s.publishers[step.p].bytes;
            var stored := ContentAt(s.files, Final(hash(bytes)));
            stored.Some? && stored.value != bytes && hash(stored.value) == hash(bytes)
  {
    RunKeepsInv(hash, EMPTY, before);
    var s := Run(hash, EMPTY, before);
    assert PublisherOk(hash, s, step.p) && AddressOk(hash, s, hash(s.publishers[step.p].bytes));
  }

  // ---------- verified reads ----------

  datatype Status = KeyInvalid | Oversized | Missing | LengthMismatch | HashMismatch

  datatype Read = Ok(bytes: Bytes) | Bad(status: Status)

  /** What a manifest records; a migrated one may have no length. */
  datatype Manifest = Manifest(digest: Digest, byteLength: Option<nat>, keyIsAddress: bool)

  /** What the read must find, stated without reading in pieces. */
  function ReadResult(hash: Hash, file: Option<Bytes>, m: Manifest): Read {
    if !m.keyIsAddress then Bad(KeyInvalid)
    else if m.byteLength.Some? && m.byteLength.value > MAX_COMMITTED_BYTES then Bad(Oversized)
    else if file.None? then Bad(Missing)
    else if m.byteLength.Some? && |file.value| != m.byteLength.value then Bad(LengthMismatch)
    else if |file.value| > MAX_COMMITTED_BYTES then Bad(Oversized)
    else if hash(file.value) == m.digest then Ok(file.value)
    else Bad(HashMismatch)
  }

  /** Which status a read gets: the address first, then the recorded length, the file, its length, the limit of 16 MiB, the hash. */
  lemma ReadsAreClassified(hash: Hash, file: Option<Bytes>, m: Manifest)
    ensures var (r, limit) := (ReadResult(hash, file, m), 16 * 1024 * 1024);
            var sought := m.keyIsAddress && (m.byteLength.Some? ==> m.byteLength.value <= limit);
            var fits := sought && file.Some? && |file.value| <= limit && (m.byteLength.Some? ==> |file.value| == m.byteLength.value);
            && (r == Bad(KeyInvalid) <==> !m.keyIsAddress)
            && (r == Bad(Missing) <==> sought && file.None?)
            && (r == Bad(LengthMismatch) <==> sought && file.Some? && m.byteLength.Some? && |file.value| != m.byteLength.value)
            && (r.Ok? <==> fits && hash(file.value) == m.digest) && (r.Ok? ==> r.bytes == file.value)
            && (r == Bad(HashMismatch) <==> fits && hash(file.value) != m.digest)
  {
  }

  /** One read call at an offset: at most what is wanted and left, and something whenever there is something. */
  function Chunk(sizes: nat -> nat, wanted: nat, left: nat): (n: nat)
    ensures n <= wanted && n <= left && (wanted > 0 && left > 0 ==> n > 0)
  {
    var n := if sizes(left) == 0 then 1 else sizes(left);
    if n > wanted then (if wanted > left then left else wanted) else if n > left then left else n
  }

  /**
   * Reads exactly the size fstat gave into one buffer, in pieces as the system returns them, checks
   * for the end, and hashes. `size` is what fstat said; the file may have grown or shrunk since.
   */
  method ReadVerified(hash: Hash, file: Option<Bytes>, size: nat, m: Manifest, sizes: nat -> nat) returns (r: Read)
    ensures r.Ok? ==> file == Some(r.bytes) && hash(r.bytes) == m.digest && |r.bytes| <= MAX_COMMITTED_BYTES
    ensures r.Ok? && m.byteLength.Some? ==> |r.bytes| == m.byteLength.value
    ensures (file.Some? ==> size == |file.value|) ==> r == ReadResult(hash, file, m)
  {
    if !m.keyIsAddress {
      return Bad(KeyInvalid);
    }
    if m.byteLength.Some? && m.byteLength.value > MAX_COMMITTED_BYTES {
      return Bad(Oversized);
    }
    if file.None? {
      return Bad(Missing);
    }
    if m.byteLength.Some? && size != m.byteLength.value {
      return Bad(LengthMismatch);
    }
    if size > MAX_COMMITTED_BYTES {
      return Bad(Oversized);
    }
    var content := file.value;
    var buffer: array<Byte> := new Byte[size](_ => 0);
    var offset := 0;
    while offset < buffer.Length
      invariant 0 <= offset <= buffer.Length && offset <= |content|
      invariant buffer[..offset] == content[..offset]
    {
      var bytesRead := Chunk(sizes, buffer.Length - offset, |content| - offset);
      if bytesRead == 0 {
        return Bad(LengthMismatch);
      }
      Fill(buffer, offset, content[offset..offset + bytesRead]);
      assert content[..offset + bytesRead] == content[..offset] + content[offset..offset + bytesRead];
      offset := offset + bytesRead;
    }
    if offset < |content| {
      return Bad(LengthMismatch);
    }
    assert buffer[..] == buffer[..offset] && content[..offset] == content;
    r := if hash(buffer[..]) == m.digest then Ok(buffer[..]) else Bad(HashMismatch);
  }

  /** What one read call leaves in the buffer. */
  method Fill(buffer: array<Byte>, offset: nat, piece: Bytes)
    requires offset + |piece| <= buffer.Length
    modifies buffer
    ensures buffer[..offset + |piece|] == old(buffer[..offset]) + piece
  {
    var i := 0;
    while i < |piece|
      invariant 0 <= i <= |piece|
      invariant buffer[..offset + i] == old(buffer[..offset]) + piece[..i]
    {
      buffer[offset + i] := piece[i];
      i := i + 1;
      assert buffer[..offset + i] == buffer[..offset + i - 1] + [piece[i - 1]];
    }
  }

  /** After a publish of at most 16 MiB every later fault-free verified read succeeds. */
  lemma PublishedReadsOk(hash: Hash, before: seq<Step>, after: seq<Step>, p: PublisherId)
    requires p in Run(hash, EMPTY, before).publishers && Run(hash, EMPTY, before).publishers[p].Published?
    ensures var bytes := Run(hash, EMPTY, before).publishers[p].bytes;
            var stored := ContentAt(Run(hash, Run(hash, EMPTY, before), after).files, Final(hash(bytes)));
            ReadResult(hash, stored, Manifest(hash(bytes), Some(|bytes|), true)).Ok? <==> |bytes| <= MAX_COMMITTED_BYTES
  {
    PublishedForGood(hash, before, after, p);
  }
}
