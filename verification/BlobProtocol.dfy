/**
 The blob store under concurrency: any number of uploads and deletions, interleaved step by step
 over one directory of visible blobs, temporary files and advisory locks.
*/
module BlobProtocol {
  import opened Prelude

  type Bytes = seq<bv8>

  /** The content hash, as lowercase hexadecimal text. */
  type Hash = Bytes -> string

  const DIGEST_LENGTH: nat := 64

  ghost predicate HexDigests(h: Hash) {
    forall b :: |h(b)| == DIGEST_LENGTH && Lower(h(b)) == h(b)
  }

  // ---- content-addressed keys ----------------------------------------------

  datatype Key = Key(first2: string, remaining62: string)

  datatype KeyError = BadLength(length: nat)

  function KeyForSha256(sha: string): Result<Key, KeyError> {
    if |sha| != DIGEST_LENGTH then Err(BadLength(|sha|))
    else Ok(Key(Lower(sha)[..2], Lower(sha)[2..]))
  }

  /**
   A digest has a key exactly if it is 64 characters long: its lowercase text, cut after the first two.
   So keys tell apart what differs in more than case.
  */
  lemma KeysTellDigestsApart(a: string, b: string)
    ensures if |a| != 64 then KeyForSha256(a) == Err(BadLength(|a|))
            else
              && KeyForSha256(a).Ok?
              && var key := KeyForSha256(a).value; |key.first2| == 2 && key.first2 + key.remaining62 == Lower(a)
    ensures KeyForSha256(a).Ok? && KeyForSha256(b).Ok? ==>
              (KeyForSha256(a) == KeyForSha256(b) <==> Lower(a) == Lower(b))
  {
    if |a| == DIGEST_LENGTH && |b| == DIGEST_LENGTH {
      assert Lower(a) == Lower(a)[..2] + Lower(a)[2..];
      assert Lower(b) == Lower(b)[..2] + Lower(b)[2..];
    }
  }

  // ---- the protocol --------------------------------------------------------

  datatype Outcome =
    | Stored(digest: string, size: nat)
    | AlreadyPresent(digest: string, size: nat)
    | InProgress
    | TooLarge
    | ChecksumMismatch
    | Aborted

  /**
   Where an upload stands. From the lock on it holds the lock; it has a temporary file while writing
   and once verified.
  */
  datatype Phase =
    | Starting
    | AwaitingLock
    | Locked
    | Writing(temp: nat, taken: nat)
    | Verified(temp: nat)
    | Releasing(outcome: Outcome)
    | Done(outcome: Outcome)

  datatype Upload = Upload(expected: string, key: Key, content: Bytes, maxBytes: nat, phase: Phase)

  datatype Disk = Disk(files: map<Key, Bytes>, temps: map<(Key, nat), Bytes>, locks: set<Key>,
                       uploads: map<nat, Upload>)

  datatype Action =
    | Begin(id: nat, expected: string, content: Bytes, maxBytes: nat)
    | Look(id: nat)
    | Acquire(id: nat)
    | OpenTemp(id: nat, temp: nat)
    | ReadChunk(id: nat, length: nat)
    | Finish(id: nat)
    | Replace(id: nat)
    | Fail(id: nat)
    | Release(id: nat)
    | Delete(key: Key)

  function InPhase(d: Disk, id: nat, u: Upload, phase: Phase): Disk {
    d.(uploads := d.uploads[id := u.(phase := phase)])
  }

  /** The fast path trusts what is already visible. */
  function LookStep(d: Disk, id: nat, u: Upload): Disk {
    if u.key in d.files then InPhase(d, id, u, Done(AlreadyPresent(u.expected, |d.files[u.key]|)))
    else InPhase(d, id, u, AwaitingLock)
  }

  function AcquireStep(d: Disk, id: nat, u: Upload): Disk {
    if u.key in d.locks then InPhase(d, id, u, Done(InProgress))
    else InPhase(d, id, u, Locked).(locks := d.locks + {u.key})
  }

  function OpenTempStep(d: Disk, id: nat, u: Upload, t: nat): Disk {
    InPhase(d, id, u, Writing(t, 0)).(temps := d.temps[(u.key, t) := []])
  }

  /** Giving up: the temporary file goes, the lock stays until the release. */
  function DropTemp(d: Disk, id: nat, u: Upload, t: nat, o: Outcome): Disk {
    InPhase(d, id, u, Releasing(o)).(temps := d.temps - {(u.key, t)})
  }

  function ReadChunkStep(d: Disk, id: nat, u: Upload, t: nat, taken: nat, n: nat): Disk
    requires taken + n <= |u.content| && (u.key, t) in d.temps
  {
    if taken + n > u.maxBytes then DropTemp(d, id, u, t, TooLarge)
    else InPhase(d, id, u, Writing(t, taken + n))
         .(temps := d.temps[(u.key, t) := d.temps[(u.key, t)] + u.content[taken..taken + n]])
  }

  function FinishStep(h: Hash, d: Disk, id: nat, u: Upload, t: nat): Disk {
    if h(u.content) != Lower(u.expected) then DropTemp(d, id, u, t, ChecksumMismatch)
    else InPhase(d, id, u, Verified(t))
  }

  function ReplaceStep(h: Hash, d: Disk, id: nat, u: Upload, t: nat): Disk
    requires (u.key, t) in d.temps
  {
    DropTemp(d, id, u, t, Stored(h(u.content), |u.content|)).(files := d.files[u.key := d.temps[(u.key, t)]])
  }

  function FailStep(d: Disk, id: nat, u: Upload): Disk {
    match u.phase
    case Locked => InPhase(d, id, u, Releasing(Aborted))
    case Writing(t, _) => DropTemp(d, id, u, t, Aborted)
    case Verified(t) => DropTemp(d, id, u, t, Aborted)
    case _ => d
  }

  function ReleaseStep(d: Disk, id: nat, u: Upload, o: Outcome): Disk {
    InPhase(d, id, u, Done(o)).(locks := d.locks - {u.key})
  }

  function UploadStep(h: Hash, d: Disk, id: nat, u: Upload, a: Action): Disk {
    match a
    case Look(_) => if u.phase.Starting? then LookStep(d, id, u) else d
    case Acquire(_) => if u.phase.AwaitingLock? then AcquireStep(d, id, u) else d
    case OpenTemp(_, t) => if u.phase.Locked? && (u.key, t) !in d.temps then OpenTempStep(d, id, u, t) else d
    case ReadChunk(_, n) =>
      if u.phase.Writing? && 0 < n <= |u.content| - u.phase.taken && (u.key, u.phase.temp) in d.temps then
        ReadChunkStep(d, id, u, u.phase.temp, u.phase.taken, n)
      else d
    case Finish(_) =>
      if u.phase.Writing? && u.phase.taken == |u.content| then FinishStep(h, d, id, u, u.phase.temp) else d
    case Replace(_) =>
      if u.phase.Verified? && (u.key, u.phase.temp) in d.temps then ReplaceStep(h, d, id, u, u.phase.temp) else d
    case Fail(_) => FailStep(d, id, u)
    case Release(_) => if u.phase.Releasing? then ReleaseStep(d, id, u, u.phase.outcome) else d
    case _ => d
  }

  /** One step of one upload, or a deletion; a step that is not due changes nothing. */
  function Step(h: Hash, d: Disk, a: Action): Disk {
    match a
    case Begin(id, expected, content, maxBytes) =>
      if id in d.uploads || KeyForSha256(expected).Err? then d
      else d.(uploads := d.uploads[id := Upload(expected, KeyForSha256(expected).value, content, maxBytes, Starting)])
    case Delete(key) => d.(files := d.files - {key})
    case _ => if a.id in d.uploads then UploadStep(h, d, a.id, d.uploads[a.id], a) else d
  }

  /** Nothing but the phase of this upload differs. */
  ghost predicate OnlyPhase(d: Disk, e: Disk, id: nat, phase: Phase)
    requires id in d.uploads
  {
    e == d.(uploads := d.uploads[id := d.uploads[id].(phase := phase)])
  }

  /**
   What the steps of an upload do to it and to the directory. It trusts a visible blob, or takes the
   lock, or gives up on a taken one; it writes under the lock into its own file, and drops that file
   when the content is too long, or wrong, or the upload fails; a verified file becomes the blob; and
   the lock goes last.
  */
  lemma StepsOfAnUpload(h: Hash, d: Disk, id: nat, n: nat, t: nat)
    requires id in d.uploads
    ensures var u := d.uploads[id];
            && (u.phase == Starting ==>
                  OnlyPhase(d, Step(h, d, Look(id)), id,
                            if u.key in d.files then Done(AlreadyPresent(u.expected, |d.files[u.key]|))
                            else AwaitingLock))
            && (u.phase == AwaitingLock && u.key in d.locks ==>
                  OnlyPhase(d, Step(h, d, Acquire(id)), id, Done(InProgress)))
            && (u.phase == AwaitingLock && u.key !in d.locks ==>
                  OnlyPhase(d.(locks := d.locks + {u.key}), Step(h, d, Acquire(id)), id, Locked))
            && (u.phase == Locked && (u.key, t) !in d.temps ==>
                  OnlyPhase(d.(temps := d.temps[(u.key, t) := []]), Step(h, d, OpenTemp(id, t)), id, Writing(t, 0)))
            && (u.phase.Writing? && (u.key, u.phase.temp) in d.temps && 0 < n <= |u.content| - u.phase.taken ==>
                  var file, taken := (u.key, u.phase.temp), u.phase.taken;
                  if taken + n > u.maxBytes then
                    OnlyPhase(d.(temps := d.temps - {file}), Step(h, d, ReadChunk(id, n)), id, Releasing(TooLarge))
                  else
                    OnlyPhase(d.(temps := d.temps[file := d.temps[file] + u.content[taken..taken + n]]),
                              Step(h, d, ReadChunk(id, n)), id, Writing(u.phase.temp, taken + n)))
            && (u.phase.Writing? && u.phase.taken == |u.content| ==>
                  if h(u.content) == Lower(u.expected) then
                    OnlyPhase(d, Step(h, d, Finish(id)), id, Verified(u.phase.temp))
                  else
                    OnlyPhase(d.(temps := d.temps - {(u.key, u.phase.temp)}), Step(h, d, Finish(id)), id,
                              Releasing(ChecksumMismatch)))
            && (u.phase.Verified? && (u.key, u.phase.temp) in d.temps ==>
                  var file := (u.key, u.phase.temp);
                  OnlyPhase(d.(files := d.files[u.key := d.temps[file]], temps := d.temps - {file}),
                            Step(h, d, Replace(id)), id, Releasing(Stored(h(u.content), |u.content|))))
            && (u.phase.Releasing? ==>
                  OnlyPhase(d.(locks := d.locks - {u.key}), Step(h, d, Release(id)), id, Done(u.phase.outcome)))
  {
  }

  /** A failure gives up whatever was held but the lock, and a deletion takes the blob away and nothing else. */
  lemma FailuresAndDeletions(h: Hash, d: Disk, id: nat, key: Key)
    ensures Step(h, d, Delete(key)) == d.(files := d.files - {key})
    ensures id in d.uploads ==>
              var u, e := d.uploads[id], Step(h, d, Fail(id));
              match u.phase
              case Locked => OnlyPhase(d, e, id, Releasing(Aborted))
              case Writing(t, _) => OnlyPhase(d.(temps := d.temps - {(u.key, t)}), e, id, Releasing(Aborted))
              case Verified(t) => OnlyPhase(d.(temps := d.temps - {(u.key, t)}), e, id, Releasing(Aborted))
              case _ => e == d
  {
  }

  function EmptyDisk(): Disk {
    Disk(map[], map[], {}, map[])
  }

  function RunFrom(h: Hash, d: Disk, actions: seq<Action>): Disk {
    if actions == [] then d else Step(h, RunFrom(h, d, actions[..|actions| - 1]), actions[|actions| - 1])
  }

  // ---- what every step keeps -----------------------------------------------

  predicate Holds(u: Upload) {
    u.phase.Locked? || u.phase.Writing? || u.phase.Verified? || u.phase.Releasing?
  }

  predicate OwnsTemp(u: Upload, k: Key, t: nat) {
    u.key == k && ((u.phase.Writing? && u.phase.temp == t) || (u.phase.Verified? && u.phase.temp == t))
  }

  /** What an upload may report, given what it was asked to store. */
  ghost predicate Justified(h: Hash, u: Upload, o: Outcome) {
    match o
    case Stored(digest, size) => digest == h(u.content) == Lower(u.expected) && size == |u.content| <= u.maxBytes
    case AlreadyPresent(digest, _) => digest == u.expected
    case TooLarge => |u.content| > u.maxBytes
    case ChecksumMismatch => |u.content| <= u.maxBytes && h(u.content) != Lower(u.expected)
    case InProgress => true
    case Aborted => true
  }

  ghost predicate UploadOk(h: Hash, d: Disk, u: Upload) {
    && KeyForSha256(u.expected) == Ok(u.key)
    && (Holds(u) ==> u.key in d.locks)
    && match u.phase
       case Writing(t, taken) =>
         && taken <= |u.content| && taken <= u.maxBytes
         && (u.key, t) in d.temps && d.temps[(u.key, t)] == u.content[..taken]
       case Verified(t) =>
         && (u.key, t) in d.temps && d.temps[(u.key, t)] == u.content
         && |u.content| <= u.maxBytes && h(u.content) == Lower(u.expected)
       case Releasing(o) => Justified(h, u, o) && !o.AlreadyPresent? && !o.InProgress?
       case Done(o) => Justified(h, u, o)
       case _ => true
  }

  ghost predicate Contend(u: Upload, v: Upload) {
    Holds(u) && Holds(v) && u.key == v.key
  }

  /** The lock of a key is held by one upload at most, and by one if it is taken. */
  ghost predicate LocksOk(d: Disk) {
    && (forall i, j | i in d.uploads && j in d.uploads && Contend(d.uploads[i], d.uploads[j]) :: i == j)
    && (forall k {:trigger HasHolder(d, k)} | k in d.locks :: HasHolder(d, k))
  }

  ghost predicate HasHolder(d: Disk, k: Key) {
    exists i :: i in d.uploads && d.uploads[i].key == k && Holds(d.uploads[i])
  }

  /** A temporary file belongs to an upload that is writing it, and so holds the lock of its key. */
  ghost predicate TempsOk(d: Disk) {
    forall k, t: nat {:trigger HasOwner(d, k, t)} | (k, t) in d.temps :: HasOwner(d, k, t)
  }

  ghost predicate HasOwner(d: Disk, k: Key, t: nat) {
    exists i :: i in d.uploads && OwnsTemp(d.uploads[i], k, t)
  }

  ghost predicate HasSource(d: Disk, k: Key, content: Bytes) {
    exists i :: i in d.uploads && d.uploads[i].key == k && d.uploads[i].content == content
  }

  /** A visible blob is the whole content of some upload to its key, and hashes to that key. */
  ghost predicate FilesOk(h: Hash, d: Disk) {
    forall k | k in d.files :: KeyForSha256(h(d.files[k])) == Ok(k) && HasSource(d, k, d.files[k])
  }

  ghost predicate Inv(h: Hash, d: Disk) {
    && (forall i | i in d.uploads :: UploadOk(h, d, d.uploads[i]))
    && LocksOk(d) && TempsOk(d) && FilesOk(h, d)
  }

  /** What one upload may change: its phase, the lock of its key, its own temporary file, its own blob. */
  ghost predicate Local(h: Hash, d: Disk, e: Disk, id: nat) {
    && id in d.uploads && id in e.uploads
    && e.uploads == d.uploads[id := e.uploads[id]]
    && e.uploads[id] == d.uploads[id].(phase := e.uploads[id].phase)
    && LocalLock(d, e, d.uploads[id], e.uploads[id])
    && LocalTemps(d, e, d.uploads[id], e.uploads[id])
    && forall k | k in e.files :: (k in d.files && e.files[k] == d.files[k]) ||
         (k == d.uploads[id].key && e.files[k] == d.uploads[id].content &&
          h(e.files[k]) == Lower(d.uploads[id].expected))
  }

  ghost predicate LocalLock(d: Disk, e: Disk, u: Upload, v: Upload) {
    && (forall k | k in d.locks && (k != u.key || !Holds(u)) :: k in e.locks)
    && (Holds(v) && !Holds(u) ==> u.key !in d.locks)
    && (forall k | k in e.locks :: if k == u.key && (Holds(u) || Holds(v)) then Holds(v) else k in d.locks)
  }

  ghost predicate LocalTemps(d: Disk, e: Disk, u: Upload, v: Upload) {
    && (forall k, t: nat | (k, t) in d.temps && !OwnsTemp(u, k, t) ::
          (k, t) in e.temps && e.temps[(k, t)] == d.temps[(k, t)])
    && (forall k, t: nat | (k, t) in e.temps && !OwnsTemp(v, k, t) :: (k, t) in d.temps && !OwnsTemp(u, k, t))
  }

  lemma OthersStayOk(h: Hash, d: Disk, e: Disk, id: nat, j: nat)
    requires Inv(h, d) && Local(h, d, e, id) && j in d.uploads && j != id
    ensures UploadOk(h, e, d.uploads[j])
  {
    var u, o := d.uploads[id], d.uploads[j];
    assert UploadOk(h, d, o);
    if Holds(o) {
      assert !Contend(u, o);
    }
  }

  lemma LocksStayOk(h: Hash, d: Disk, e: Disk, id: nat)
    requires Inv(h, d) && Local(h, d, e, id)
    ensures LocksOk(e)
  {
    forall i, j | i in e.uploads && j in e.uploads && Contend(e.uploads[i], e.uploads[j]) ensures i == j {
      assert UploadOk(h, d, d.uploads[i]) && UploadOk(h, d, d.uploads[j]);
    }
    forall k | k in e.locks ensures HasHolder(e, k) {
      if k == d.uploads[id].key && (Holds(d.uploads[id]) || Holds(e.uploads[id])) {
        assert Holds(e.uploads[id]);
      } else {
        assert HasHolder(d, k);
        var i :| i in d.uploads && d.uploads[i].key == k && Holds(d.uploads[i]);
        assert e.uploads[i] == d.uploads[i];
      }
    }
  }

  lemma LocalKeepsInv(h: Hash, d: Disk, e: Disk, id: nat)
    requires HexDigests(h) && Inv(h, d) && Local(h, d, e, id) && UploadOk(h, e, e.uploads[id])
    ensures Inv(h, e)
  {
    forall j | j in e.uploads ensures UploadOk(h, e, e.uploads[j]) {
      if j != id {
        OthersStayOk(h, d, e, id, j);
      }
    }
    LocksStayOk(h, d, e, id);
    forall k, t: nat | (k, t) in e.temps ensures HasOwner(e, k, t) {
      if !OwnsTemp(e.uploads[id], k, t) {
        assert HasOwner(d, k, t);
        var i :| i in d.uploads && OwnsTemp(d.uploads[i], k, t);
        assert e.uploads[i] == d.uploads[i];
      }
    }
    FilesStayOk(h, d, e, id);
  }

  lemma FilesStayOk(h: Hash, d: Disk, e: Disk, id: nat)
    requires HexDigests(h) && Inv(h, d) && Local(h, d, e, id)
    ensures FilesOk(h, e)
  {
    var u := d.uploads[id];
    assert UploadOk(h, d, u);
    SourcesStay(d, e);
    forall k | k in e.files ensures KeyForSha256(h(e.files[k])) == Ok(k) && HasSource(e, k, e.files[k]) {
      if k in d.files && e.files[k] == d.files[k] {
        assert HasSource(d, k, d.files[k]);
      } else {
        assert e.uploads[id].key == k && e.uploads[id].content == e.files[k];
        assert Lower(h(e.files[k])) == h(e.files[k]);
      }
    }
  }

  lemma SourcesStay(d: Disk, e: Disk)
    requires forall i | i in d.uploads ::
               i in e.uploads && e.uploads[i].key == d.uploads[i].key && e.uploads[i].content == d.uploads[i].content
    ensures forall k, c | HasSource(d, k, c) :: HasSource(e, k, c)
  {
    forall k, c | HasSource(d, k, c) ensures HasSource(e, k, c) {
      var i :| i in d.uploads && d.uploads[i].key == k && d.uploads[i].content == c;
      assert e.uploads[i].key == k && e.uploads[i].content == c;
    }
  }

  lemma PhaseStepKeepsInv(h: Hash, d: Disk, id: nat, phase: Phase)
    requires HexDigests(h) && Inv(h, d) && id in d.uploads
    requires var u := d.uploads[id]; var v := u.(phase := phase);
             Holds(u) == Holds(v) && UploadOk(h, d, v) && forall k, t: nat :: OwnsTemp(u, k, t) == OwnsTemp(v, k, t)
    ensures Inv(h, InPhase(d, id, d.uploads[id], phase))
  {
    LocalKeepsInv(h, d, InPhase(d, id, d.uploads[id], phase), id);
  }

  lemma DropTempKeepsInv(h: Hash, d: Disk, id: nat, t: nat, o: Outcome)
    requires HexDigests(h) && Inv(h, d) && id in d.uploads && Justified(h, d.uploads[id], o) && !o.AlreadyPresent?
    requires !o.InProgress?
    requires OwnsTemp(d.uploads[id], d.uploads[id].key, t)
    ensures Inv(h, DropTemp(d, id, d.uploads[id], t, o))
  {
    assert UploadOk(h, d, d.uploads[id]);
    LocalKeepsInv(h, d, DropTemp(d, id, d.uploads[id], t, o), id);
  }

  lemma LookKeepsInv(h: Hash, d: Disk, id: nat)
    requires HexDigests(h) && Inv(h, d) && id in d.uploads && d.uploads[id].phase.Starting?
    ensures Inv(h, LookStep(d, id, d.uploads[id]))
  {
    var u := d.uploads[id];
    assert UploadOk(h, d, u);
    if u.key in d.files {
      PhaseStepKeepsInv(h, d, id, Done(AlreadyPresent(u.expected, |d.files[u.key]|)));
    } else {
      PhaseStepKeepsInv(h, d, id, AwaitingLock);
    }
  }

  lemma AcquireKeepsInv(h: Hash, d: Disk, id: nat)
    requires HexDigests(h) && Inv(h, d) && id in d.uploads && d.uploads[id].phase.AwaitingLock?
    ensures Inv(h, AcquireStep(d, id, d.uploads[id]))
  {
    assert UploadOk(h, d, d.uploads[id]);
    LocalKeepsInv(h, d, AcquireStep(d, id, d.uploads[id]), id);
  }

  function WithTemp(d: Disk, id: nat, u: Upload, t: nat, taken: nat): Disk
    requires taken <= |u.content|
  {
    InPhase(d, id, u, Writing(t, taken)).(temps := d.temps[(u.key, t) := u.content[..taken]])
  }

  lemma WriteTempKeepsInv(h: Hash, d: Disk, id: nat, t: nat, taken: nat)
    requires HexDigests(h) && Inv(h, d) && id in d.uploads && Holds(d.uploads[id])
    requires taken <= |d.uploads[id].content| && taken <= d.uploads[id].maxBytes
    requires forall k, x: nat | OwnsTemp(d.uploads[id], k, x) :: x == t
    requires (d.uploads[id].key, t) !in d.temps || OwnsTemp(d.uploads[id], d.uploads[id].key, t)
    ensures Inv(h, WithTemp(d, id, d.uploads[id], t, taken))
  {
    assert UploadOk(h, d, d.uploads[id]);
    LocalKeepsInv(h, d, WithTemp(d, id, d.uploads[id], t, taken), id);
  }

  lemma OpenTempKeepsInv(h: Hash, d: Disk, id: nat, t: nat)
    requires HexDigests(h) && Inv(h, d) && id in d.uploads && d.uploads[id].phase.Locked?
    requires (d.uploads[id].key, t) !in d.temps
    ensures Inv(h, OpenTempStep(d, id, d.uploads[id], t))
  {
    WriteTempKeepsInv(h, d, id, t, 0);
    assert d.uploads[id].content[..0] == [];
  }

  lemma ReadChunkWrites(h: Hash, d: Disk, id: nat, u: Upload, t: nat, taken: nat, n: nat)
    requires UploadOk(h, d, u) && u.phase == Writing(t, taken) && taken + n <= |u.content|
    ensures ReadChunkStep(d, id, u, t, taken, n) ==
            if taken + n > u.maxBytes then DropTemp(d, id, u, t, TooLarge) else WithTemp(d, id, u, t, taken + n)
  {
    assert u.content[..taken] + u.content[taken..taken + n] == u.content[..taken + n];
  }

  lemma ReadChunkKeepsInv(h: Hash, d: Disk, id: nat, t: nat, taken: nat, n: nat)
    requires HexDigests(h) && Inv(h, d) && id in d.uploads && d.uploads[id].phase == Writing(t, taken)
    requires taken + n <= |d.uploads[id].content| && (d.uploads[id].key, t) in d.temps
    ensures Inv(h, ReadChunkStep(d, id, d.uploads[id], t, taken, n))
  {
    StoredUploadOk(h, d, id);
    ReadChunkWrites(h, d, id, d.uploads[id], t, taken, n);
    if taken + n > d.uploads[id].maxBytes {
      DropTempKeepsInv(h, d, id, t, TooLarge);
    } else {
      WriteTempKeepsInv(h, d, id, t, taken + n);
    }
  }

  lemma StoredUploadOk(h: Hash, d: Disk, id: nat)
    requires Inv(h, d) && id in d.uploads
    ensures UploadOk(h, d, d.uploads[id])
  {
  }

  lemma FinishKeepsInv(h: Hash, d: Disk, id: nat)
    requires HexDigests(h) && Inv(h, d) && id in d.uploads && d.uploads[id].phase.Writing?
    requires d.uploads[id].phase.taken == |d.uploads[id].content|
    ensures Inv(h, FinishStep(h, d, id, d.uploads[id], d.uploads[id].phase.temp))
  {
    var u := d.uploads[id];
    assert UploadOk(h, d, u);
    assert u.content[..|u.content|] == u.content;
    if h(u.content) != Lower(u.expected) {
      DropTempKeepsInv(h, d, id, u.phase.temp, ChecksumMismatch);
    } else {
      PhaseStepKeepsInv(h, d, id, Verified(u.phase.temp));
    }
  }

  lemma ReplaceKeepsInv(h: Hash, d: Disk, id: nat)
    requires HexDigests(h) && Inv(h, d) && id in d.uploads && d.uploads[id].phase.Verified?
    requires (d.uploads[id].key, d.uploads[id].phase.temp) in d.temps
    ensures Inv(h, ReplaceStep(h, d, id, d.uploads[id], d.uploads[id].phase.temp))
  {
    assert UploadOk(h, d, d.uploads[id]);
    LocalKeepsInv(h, d, ReplaceStep(h, d, id, d.uploads[id], d.uploads[id].phase.temp), id);
  }

  lemma FailKeepsInv(h: Hash, d: Disk, id: nat)
    requires HexDigests(h) && Inv(h, d) && id in d.uploads
    ensures Inv(h, FailStep(d, id, d.uploads[id]))
  {
    assert UploadOk(h, d, d.uploads[id]);
    match d.uploads[id].phase {
      case Locked => PhaseStepKeepsInv(h, d, id, Releasing(Aborted));
      case Writing(t, _) => DropTempKeepsInv(h, d, id, t, Aborted);
      case Verified(t) => DropTempKeepsInv(h, d, id, t, Aborted);
      case _ =>
    }
  }

  lemma ReleaseKeepsInv(h: Hash, d: Disk, id: nat)
    requires HexDigests(h) && Inv(h, d) && id in d.uploads && d.uploads[id].phase.Releasing?
    ensures Inv(h, ReleaseStep(d, id, d.uploads[id], d.uploads[id].phase.outcome))
  {
    assert UploadOk(h, d, d.uploads[id]);
    LocalKeepsInv(h, d, ReleaseStep(d, id, d.uploads[id], d.uploads[id].phase.outcome), id);
  }

  /** An upload that has not started yet owns nothing. */
  lemma NewcomerKeepsLocks(d: Disk, e: Disk, id: nat, u: Upload)
    requires LocksOk(d) && TempsOk(d) && id !in d.uploads && u.phase == Starting
    requires e == d.(uploads := d.uploads[id := u])
    ensures LocksOk(e) && TempsOk(e)
  {
    forall k | k in e.locks ensures HasHolder(e, k) {
      assert HasHolder(d, k);
      var i :| i in d.uploads && d.uploads[i].key == k && Holds(d.uploads[i]);
      assert e.uploads[i] == d.uploads[i];
    }
    forall k, t: nat | (k, t) in e.temps ensures HasOwner(e, k, t) {
      assert HasOwner(d, k, t);
      var i :| i in d.uploads && OwnsTemp(d.uploads[i], k, t);
      assert e.uploads[i] == d.uploads[i];
    }
  }

  lemma BeginKeepsInv(h: Hash, d: Disk, a: Action)
    requires HexDigests(h) && Inv(h, d) && a.Begin?
    ensures Inv(h, Step(h, d, a))
  {
    var e := Step(h, d, a);
    if e != d {
      NewcomerKeepsLocks(d, e, a.id, e.uploads[a.id]);
      SourcesStay(d, e);
      forall i | i in e.uploads ensures UploadOk(h, e, e.uploads[i]) {
        if i != a.id {
          assert UploadOk(h, d, d.uploads[i]);
        }
      }
    }
  }

  lemma DeleteKeepsInv(h: Hash, d: Disk, key: Key)
    requires Inv(h, d)
    ensures Inv(h, Step(h, d, Delete(key)))
  {
    var e := Step(h, d, Delete(key));
    SourcesStay(d, e);
    forall k | k in e.locks ensures HasHolder(e, k) {
      assert HasHolder(d, k);
    }
    forall k, t: nat | (k, t) in e.temps ensures HasOwner(e, k, t) {
      assert HasOwner(d, k, t);
    }
    forall i | i in e.uploads ensures UploadOk(h, e, e.uploads[i]) {
      assert UploadOk(h, d, d.uploads[i]);
    }
  }

  lemma StepKeepsInv(h: Hash, d: Disk, a: Action)
    requires HexDigests(h) && Inv(h, d)
    ensures Inv(h, Step(h, d, a))
  {
    match a {
      case Begin(_, _, _, _) => BeginKeepsInv(h, d, a);
      case Delete(key) => DeleteKeepsInv(h, d, key);
      case _ =>
        if a.id in d.uploads {
          UploadStepKeepsInv(h, d, a.id, a);
        }
    }
  }

  lemma UploadStepKeepsInv(h: Hash, d: Disk, id: nat, a: Action)
    requires HexDigests(h) && Inv(h, d) && id in d.uploads
    ensures Inv(h, UploadStep(h, d, id, d.uploads[id], a))
  {
    var u := d.uploads[id];
    match a {
      case Look(_) => if u.phase.Starting? { LookKeepsInv(h, d, id); }
      case Acquire(_) => if u.phase.AwaitingLock? { AcquireKeepsInv(h, d, id); }
      case OpenTemp(_, t) => if u.phase.Locked? && (u.key, t) !in d.temps { OpenTempKeepsInv(h, d, id, t); }
      case ReadChunk(_, n) =>
        if u.phase.Writing? && 0 < n <= |u.content| - u.phase.taken && (u.key, u.phase.temp) in d.temps {
          ReadChunkKeepsInv(h, d, id, u.phase.temp, u.phase.taken, n);
        }
      case Finish(_) => if u.phase.Writing? && u.phase.taken == |u.content| { FinishKeepsInv(h, d, id); }
      case Replace(_) => if u.phase.Verified? && (u.key, u.phase.temp) in d.temps { ReplaceKeepsInv(h, d, id); }
      case Fail(_) => FailKeepsInv(h, d, id);
      case Release(_) => if u.phase.Releasing? { ReleaseKeepsInv(h, d, id); }
      case _ =>
    }
  }

  /** In every interleaving of uploads and deletions, everything the invariant says holds at every point. */
  lemma {:induction false} EveryInterleavingIsSafe(h: Hash, actions: seq<Action>)
    requires HexDigests(h)
    ensures Inv(h, RunFrom(h, EmptyDisk(), actions))
  {
    if actions == [] {
    } else {
      EveryInterleavingIsSafe(h, actions[..|actions| - 1]);
      StepKeepsInv(h, RunFrom(h, EmptyDisk(), actions[..|actions| - 1]), actions[|actions| - 1]);
    }
  }

  // ---- what a reader of the directory can rely on --------------------------

  ghost predicate Reachable(h: Hash, d: Disk) {
    exists actions :: RunFrom(h, EmptyDisk(), actions) == d
  }

  lemma ReachableIsSafe(h: Hash, d: Disk)
    requires HexDigests(h) && Reachable(h, d)
    ensures Inv(h, d)
  {
    var actions :| RunFrom(h, EmptyDisk(), actions) == d;
    EveryInterleavingIsSafe(h, actions);
  }

  /** At most one upload holds the lock of a key, and a temporary file exists only under that lock. */
  lemma OneWriterPerKey(h: Hash, d: Disk)
    requires HexDigests(h) && Reachable(h, d)
    ensures forall i, j | i in d.uploads && j in d.uploads && Contend(d.uploads[i], d.uploads[j]) :: i == j
    ensures forall k, t: nat | (k, t) in d.temps :: k in d.locks
  {
    ReachableIsSafe(h, d);
    forall k, t: nat | (k, t) in d.temps ensures k in d.locks {
      assert HasOwner(d, k, t);
      var i :| i in d.uploads && OwnsTemp(d.uploads[i], k, t);
      assert UploadOk(h, d, d.uploads[i]);
    }
  }

  /** A visible blob is complete: it is everything some uploader sent, and its hash is its name. */
  lemma VisibleBlobIsComplete(h: Hash, d: Disk, key: Key)
    requires HexDigests(h) && Reachable(h, d) && key in d.files
    ensures KeyForSha256(h(d.files[key])) == Ok(key)
    ensures exists i :: i in d.uploads && d.uploads[i].key == key && d.uploads[i].content == d.files[key]
  {
    ReachableIsSafe(h, d);
    assert HasSource(d, key, d.files[key]);
  }

  /** When no upload is under way, no lock is taken and no temporary file is left behind. */
  lemma QuietDirectoryIsClean(h: Hash, d: Disk)
    requires HexDigests(h) && Reachable(h, d)
    requires forall i | i in d.uploads :: !Holds(d.uploads[i])
    ensures d.locks == {} && d.temps == map[]
  {
    ReachableIsSafe(h, d);
    OneWriterPerKey(h, d);
    assert forall k | k in d.locks :: HasHolder(d, k);
    assert d.locks == {};
    assert forall k, t: nat :: (k, t) !in d.temps;
    forall p: (Key, nat) ensures p !in d.temps {
      assert (p.0, p.1) !in d.temps;
    }
  }

  /** What a finished upload reports follows from what it was asked to store. */
  lemma OutcomesAreJustified(h: Hash, d: Disk, id: nat)
    requires HexDigests(h) && Reachable(h, d) && id in d.uploads && d.uploads[id].phase.Done?
    ensures Justified(h, d.uploads[id], d.uploads[id].phase.outcome)
  {
    ReachableIsSafe(h, d);
    assert UploadOk(h, d, d.uploads[id]);
  }

  /** Another upload holds the lock of the key that this one wants. */
  ghost predicate Contended(d: Disk, id: nat)
    requires id in d.uploads
  {
    exists j :: j in d.uploads && j != id && d.uploads[j].key == d.uploads[id].key && Holds(d.uploads[j])
  }

  lemma GivingUpStep(h: Hash, d: Disk, a: Action, id: nat, u: Upload)
    requires id in d.uploads && d.uploads[id] == u && UploadOk(h, d, u) && !a.Begin? && !a.Delete? && a.id == id
    ensures var phase := UploadStep(h, d, id, u, a).uploads[id].phase;
            phase != u.phase ==>
              && (phase == Done(InProgress) ==> a == Acquire(id) && !Holds(u) && u.key in d.locks)
              && (phase == Releasing(Aborted) ==> a == Fail(id) && Holds(u))
  {
  }

  lemma LockedByAnother(h: Hash, d: Disk, id: nat)
    requires HexDigests(h) && Reachable(h, d) && id in d.uploads
    ensures UploadOk(h, d, d.uploads[id])
    ensures !Holds(d.uploads[id]) && d.uploads[id].key in d.locks ==> Contended(d, id)
  {
    ReachableIsSafe(h, d);
    if d.uploads[id].key in d.locks {
      assert HasHolder(d, d.uploads[id].key);
    }
  }

  /**
   The two outcomes that do not follow from the request have a cause at their step: an upload is told
   that another one is in progress only while another one holds the lock of its key, and it is aborted
   only by a failure of its own.
  */
  lemma GivingUpHasACause(h: Hash, d: Disk, a: Action, id: nat)
    requires HexDigests(h) && Reachable(h, d) && id in d.uploads
    requires Step(h, d, a).uploads[id].phase != d.uploads[id].phase
    ensures Step(h, d, a).uploads[id].phase == Done(InProgress) ==> a == Acquire(id) && Contended(d, id)
    ensures Step(h, d, a).uploads[id].phase == Releasing(Aborted) ==> a == Fail(id) && Holds(d.uploads[id])
  {
    LockedByAnother(h, d, id);
    if !a.Begin? && !a.Delete? && a.id == id {
      GivingUpStep(h, d, a, id, d.uploads[id]);
    }
  }

  lemma StepKeepsNames(h: Hash, d: Disk, a: Action, key: Key)
    requires key in d.files && a != Delete(key)
    ensures key in Step(h, d, a).files
  {
  }

  /** Only a deletion takes a blob away; any other step leaves content of the very same digest. */
  lemma BlobsLeaveOnlyByDeletion(h: Hash, d: Disk, a: Action, key: Key)
    requires HexDigests(h) && Reachable(h, d) && key in d.files && a != Delete(key)
    ensures key in Step(h, d, a).files && h(Step(h, d, a).files[key]) == h(d.files[key])
  {
    ReachableIsSafe(h, d);
    StepKeepsInv(h, d, a);
    StepKeepsNames(h, d, a, key);
    SameKeySameDigest(h, d.files[key], Step(h, d, a).files[key], key);
  }

  lemma SameKeySameDigest(h: Hash, a: Bytes, b: Bytes, key: Key)
    requires HexDigests(h) && KeyForSha256(h(a)) == Ok(key) == KeyForSha256(h(b))
    ensures h(a) == h(b)
  {
    KeysTellDigestsApart(h(a), h(b));
    assert Lower(h(a)) == h(a) && Lower(h(b)) == h(b);
  }

  ghost predicate Succeeds(p: Phase) {
    (p.Releasing? && p.outcome.Stored?) || (p.Done? && p.outcome.AlreadyPresent?)
  }

  /** There are two ways to succeed: to find the blob, or to put it there. */
  lemma SuccessStep(h: Hash, d: Disk, a: Action, id: nat)
    requires id in d.uploads && Step(h, d, a).uploads[id].phase != d.uploads[id].phase
    requires Succeeds(Step(h, d, a).uploads[id].phase) && UploadOk(h, d, d.uploads[id])
    ensures var e, u := Step(h, d, a), d.uploads[id];
            || (u.key in d.files && e.files == d.files)
            || (u.phase.Verified? && (u.key, u.phase.temp) in d.temps &&
                e.files == d.files[u.key := d.temps[(u.key, u.phase.temp)]])
  {
  }

  /** Both ways leave a blob of the expected digest visible at that moment. */
  lemma SuccessMeansVisible(h: Hash, d: Disk, a: Action, id: nat)
    requires HexDigests(h) && Reachable(h, d) && id in d.uploads
    requires Step(h, d, a).uploads[id].phase != d.uploads[id].phase && Succeeds(Step(h, d, a).uploads[id].phase)
    ensures var e, u := Step(h, d, a), d.uploads[id];
            u.key in e.files && h(e.files[u.key]) == Lower(u.expected)
  {
    ReachableIsSafe(h, d);
    var u := d.uploads[id];
    assert UploadOk(h, d, u);
    SuccessStep(h, d, a, id);
    if u.key in d.files {
      KeysTellDigestsApart(h(d.files[u.key]), u.expected);
    }
  }
}
