/**
 The blob store as one caller sees it: upload, download with verification, deletion and listing.
 The uninterrupted upload is then shown to be one run of the interleaved protocol.
*/
module BlobStore {
  import opened Prelude
  import opened BlobProtocol

  datatype WriteReceipt = WriteReceipt(digest: string, size: nat)

  datatype PutError = UploadInProgress | BlobTooLarge | BlobChecksumMismatch

  datatype ReadError = BlobNotPresent | ChecksumMismatchOnRead

  /** A stream that hands out its bytes in pieces of any positive length up to the one asked for. */
  class ByteSource {
    var rest: Bytes

    constructor (content: Bytes)
      ensures rest == content
    {
      rest := content;
    }

    method Read(limit: nat) returns (chunk: Bytes)
      requires limit > 0
      modifies this
      ensures chunk + rest == old(rest) && |chunk| <= limit
      ensures chunk == [] <==> old(rest) == []
    {
      if rest == [] {
        return [];
      }
      var n :| 0 < n <= |rest| && n <= limit;
      chunk := rest[..n];
      rest := rest[n..];
    }
  }

  // ---- reading with verification -------------------------------------------

  function Concat(chunks: seq<Bytes>): Bytes {
    if chunks == [] then [] else Concat(chunks[..|chunks| - 1]) + chunks[|chunks| - 1]
  }

  class StreamWithVerify {
    const hash: Hash
    const expected: string
    const chunkSize: nat
    const source: ByteSource
    var fed: Bytes
    var consumed: bool

    constructor (hash: Hash, source: ByteSource, expected: string, chunkSize: nat)
      ensures this.hash == hash && this.source == source && this.expected == expected && this.chunkSize == chunkSize
      ensures fed == [] && !consumed
    {
      this.hash, this.source, this.expected, this.chunkSize := hash, source, expected, chunkSize;
      fed, consumed := [], false;
    }

    /** Whatever the chunk size, the chunks put together are the bytes that were left to read. */
    method IterChunks() returns (chunks: seq<Bytes>)
      requires chunkSize > 0
      modifies this, source
      ensures Concat(chunks) == old(source.rest)
      ensures fed == old(fed) + old(source.rest) && source.rest == [] && consumed
      ensures forall i :: 0 <= i < |chunks| ==> 0 < |chunks[i]| <= chunkSize
    {
      chunks := [];
      var more := true;
      while more
        invariant Concat(chunks) + source.rest == old(source.rest)
        invariant fed == old(fed) + Concat(chunks)
        invariant forall i :: 0 <= i < |chunks| ==> 0 < |chunks[i]| <= chunkSize
        invariant !more ==> source.rest == []
        decreases more, |source.rest|
      {
        var chunk := source.Read(chunkSize);
        if chunk == [] {
          more := false;
        } else {
          ghost var before := chunks;
          chunks := chunks + [chunk];
          assert chunks[..|chunks| - 1] == before;
          fed := fed + chunk;
        }
      }
      consumed := true;
    }

    /** The verdict is about the bytes seen so far, and compares the expected digest as it is written. */
    method VerifyAtEof() returns (r: Result<string, ReadError>)
      ensures r == if hash(fed) == expected then Ok(hash(fed)) else Err(ChecksumMismatchOnRead)
    {
      if hash(fed) != expected {
        return Err(ChecksumMismatchOnRead);
      }
      return Ok(hash(fed));
    }
  }

  // ---- the store -----------------------------------------------------------

  /** What an upload with the directory to itself reports. */
  function PutResult(h: Hash, files: map<Key, Bytes>, locks: set<Key>, key: Key, content: Bytes, expected: string,
                     maxBytes: nat)
    : Result<WriteReceipt, PutError>
  {
    if key in files then Ok(WriteReceipt(expected, |files[key]|))
    else if key in locks then Err(UploadInProgress)
    else if |content| > maxBytes then Err(BlobTooLarge)
    else if h(content) != Lower(expected) then Err(BlobChecksumMismatch)
    else Ok(WriteReceipt(h(content), |content|))
  }

  function PutFiles(h: Hash, files: map<Key, Bytes>, locks: set<Key>, key: Key, content: Bytes, expected: string,
                    maxBytes: nat)
    : map<Key, Bytes>
  {
    if key !in files && PutResult(h, files, locks, key, content, expected, maxBytes).Ok?
    then files[key := content] else files
  }

  class LocalFsBlobStore {
    const hash: Hash
    const chunkSize: nat
    var files: map<Key, Bytes>
    var temps: map<(Key, nat), Bytes>
    var locks: set<Key>

    constructor (hash: Hash, chunkSize: nat)
      ensures this.hash == hash && this.chunkSize == chunkSize
      ensures files == map[] && temps == map[] && locks == {}
    {
      this.hash, this.chunkSize := hash, chunkSize;
      files, temps, locks := map[], map[], {};
    }

    /** Copies the stream into the temporary file, or stops when the size cap is passed. */
    method Receive(key: Key, stream: ByteSource, maxBytes: nat, temp: nat) returns (hashed: Bytes, tooLarge: bool)
      requires chunkSize > 0 && (key, temp) in temps && temps[(key, temp)] == []
      modifies this`temps, stream
      ensures tooLarge <==> |old(stream.rest)| > maxBytes
      ensures stream.rest == []
      ensures !tooLarge ==> hashed == old(stream.rest) && temps == old(temps)[(key, temp) := hashed]
      ensures tooLarge ==> temps == old(temps) - {(key, temp)}
    {
      hashed, tooLarge := [], false;
      var bytesWritten := 0;
      var more := true;
      while more
        invariant hashed + stream.rest == old(stream.rest) && bytesWritten == |hashed| <= maxBytes
        invariant !tooLarge && temps == old(temps)[(key, temp) := hashed]
        invariant !more ==> stream.rest == []
        decreases more, |stream.rest|
      {
        var chunk := stream.Read(chunkSize);
        if chunk == [] {
          more := false;
        } else {
          bytesWritten := bytesWritten + |chunk|;
          if bytesWritten > maxBytes {
            Drain(stream);
            temps := temps - {(key, temp)};
            assert temps == old(temps) - {(key, temp)};
            return hashed, true;
          }
          hashed := hashed + chunk;
          temps := temps[(key, temp) := temps[(key, temp)] + chunk];
        }
      }
    }

    method Drain(stream: ByteSource)
      modifies stream
      ensures stream.rest == []
    {
      var more := true;
      while more
        invariant !more ==> stream.rest == []
        decreases more, |stream.rest|
      {
        var chunk := stream.Read(1024 * 1024);
        more := chunk != [];
      }
    }

    /**
     An upload with nobody else at work: the outcome depends on the content as a whole and never on
     how it was cut into chunks, only a verified blob becomes visible, and nothing else is left over.
    */
    method Put(key: Key, stream: ByteSource, expected: string, maxBytes: nat, temp: nat)
      returns (r: Result<WriteReceipt, PutError>)
      requires chunkSize > 0 && (key, temp) !in temps
      modifies this, stream
      ensures r == if key in old(files) then Ok(WriteReceipt(expected, |old(files)[key]|))
                   else if key in old(locks) then Err(UploadInProgress)
                   else if |old(stream.rest)| > maxBytes then Err(BlobTooLarge)
                   else if hash(old(stream.rest)) != Lower(expected) then Err(BlobChecksumMismatch)
                   else Ok(WriteReceipt(hash(old(stream.rest)), |old(stream.rest)|))
      ensures files == if r.Ok? && key !in old(files) then old(files)[key := old(stream.rest)] else old(files)
      ensures stream.rest == if key in old(files) || key in old(locks) then old(stream.rest) else []
      ensures r == PutResult(hash, old(files), old(locks), key, old(stream.rest), expected, maxBytes)
      ensures files == PutFiles(hash, old(files), old(locks), key, old(stream.rest), expected, maxBytes)
      ensures temps == old(temps) && locks == old(locks)
    {
      if key in files {
        return Ok(WriteReceipt(expected, |files[key]|));
      }
      if key in locks {
        return Err(UploadInProgress);
      }
      locks := locks + {key};
      temps := temps[(key, temp) := []];
      var hashed, tooLarge := Receive(key, stream, maxBytes, temp);
      if tooLarge {
        r := Err(BlobTooLarge);
      } else if hash(hashed) != Lower(expected) {
        temps := temps - {(key, temp)};
        r := Err(BlobChecksumMismatch);
      } else {
        files := files[key := temps[(key, temp)]];
        temps := temps - {(key, temp)};
        r := Ok(WriteReceipt(hash(hashed), |hashed|));
      }
      locks := locks - {key};
      assert temps == old(temps);
      assert locks == old(locks);
    }

    method Get(key: Key, expected: string) returns (r: Result<StreamWithVerify, ReadError>)
      ensures r.Err? <==> key !in files
      ensures r.Err? ==> r.error == BlobNotPresent
      ensures r.Ok? ==>
                fresh(r.value) && fresh(r.value.source) && r.value.fed == [] && r.value.source.rest == files[key]
      ensures r.Ok? ==> r.value.expected == expected && r.value.hash == hash && r.value.chunkSize == chunkSize
    {
      if key !in files {
        return Err(BlobNotPresent);
      }
      var source := new ByteSource(files[key]);
      var stream := new StreamWithVerify(hash, source, expected, chunkSize);
      r := Ok(stream);
    }

    method Delete(key: Key)
      modifies this`files
      ensures files == old(files) - {key}
    {
      files := files - {key};
    }

    /**
     A download: the bytes are exactly the stored ones for every chunk size, and the verification
     passes exactly when the caller wrote the digest of those bytes in lowercase.
    */
    method Download(key: Key, expected: string) returns (r: Result<Bytes, ReadError>)
      requires chunkSize > 0
      ensures r.Err? && r.error == BlobNotPresent <==> key !in files
      ensures r.Ok? <==> key in files && hash(files[key]) == expected
      ensures r.Ok? ==> r.value == files[key]
    {
      var opened_ := Get(key, expected);
      if opened_.Err? {
        return Err(opened_.error);
      }
      var stream := opened_.value;
      var chunks := stream.IterChunks();
      assert [] + files[key] == files[key];
      var verdict := stream.VerifyAtEof();
      if verdict.Err? {
        return Err(verdict.error);
      }
      return Ok(Concat(chunks));
    }
  }

  /**
   The read path compares digests literally while the write path ignores case. So for a blob visible
   in any reachable directory, verification against the digest it was requested by passes exactly
   when that digest is written in lowercase.
  */
  lemma VerificationPassesIffLowercase(h: Hash, d: Disk, expected: string)
    requires HexDigests(h) && Reachable(h, d)
    requires KeyForSha256(expected).Ok? && KeyForSha256(expected).value in d.files
    ensures h(d.files[KeyForSha256(expected).value]) == expected <==> expected == Lower(expected)
  {
    var key := KeyForSha256(expected).value;
    VisibleBlobIsComplete(h, d, key);
    var digest := h(d.files[key]);
    KeysTellDigestsApart(digest, expected);
    assert Lower(digest) == digest;
  }

  // ---- one upload is one run of the protocol --------------------------------

  function Sum(sizes: seq<nat>): nat {
    if sizes == [] then 0 else Sum(sizes[..|sizes| - 1]) + sizes[|sizes| - 1]
  }

  function Reads(id: nat, sizes: seq<nat>): (r: seq<Action>)
    ensures |r| == |sizes|
    ensures forall i :: 0 <= i < |r| ==> r[i] == ReadChunk(id, sizes[i])
  {
    seq(|sizes|, i requires 0 <= i < |sizes| => ReadChunk(id, sizes[i]))
  }

  function Reading(d: Disk, id: nat, t: nat, sizes: seq<nat>): Disk
    requires id in d.uploads && Sum(sizes) <= |d.uploads[id].content|
  {
    var u, taken := d.uploads[id], Sum(sizes);
    if taken <= u.maxBytes
    then InPhase(d, id, u, Writing(t, taken)).(temps := d.temps[(u.key, t) := u.content[..taken]])
    else DropTemp(d, id, u, t, TooLarge)
  }

  lemma ReadOne(h: Hash, d: Disk, id: nat, t: nat, taken: nat, n: nat)
    requires id in d.uploads && d.uploads[id].phase == Writing(t, taken) && 0 < n
    requires taken + n <= |d.uploads[id].content| && taken <= d.uploads[id].maxBytes
    requires (d.uploads[id].key, t) in d.temps && d.temps[(d.uploads[id].key, t)] == d.uploads[id].content[..taken]
    ensures Step(h, d, ReadChunk(id, n)) ==
            if taken + n > d.uploads[id].maxBytes then DropTemp(d, id, d.uploads[id], t, TooLarge)
            else InPhase(d, id, d.uploads[id], Writing(t, taken + n))
                 .(temps := d.temps[(d.uploads[id].key, t) := d.uploads[id].content[..taken + n]])
  {
    var u := d.uploads[id];
    assert u.content[..taken] + u.content[taken..taken + n] == u.content[..taken + n];
  }

  lemma {:induction false} ReadsAddUp(h: Hash, d: Disk, id: nat, t: nat, sizes: seq<nat>)
    requires id in d.uploads && d.uploads[id].phase == Writing(t, 0)
    requires (d.uploads[id].key, t) in d.temps && d.temps[(d.uploads[id].key, t)] == []
    requires Sum(sizes) <= |d.uploads[id].content| && forall i :: 0 <= i < |sizes| ==> sizes[i] > 0
    ensures RunFrom(h, d, Reads(id, sizes)) == Reading(d, id, t, sizes)
  {
    var u := d.uploads[id];
    if sizes == [] {
      assert Reading(d, id, t, sizes).temps == d.temps;
      assert d.uploads[id := u] == d.uploads;
    } else {
      var most, last := sizes[..|sizes| - 1], sizes[|sizes| - 1];
      var all := Reads(id, sizes);
      assert all[..|all| - 1] == Reads(id, most);
      ReadsAddUp(h, d, id, t, most);
      var before := Reading(d, id, t, most);
      assert RunFrom(h, d, all) == Step(h, before, ReadChunk(id, last));
      if Sum(most) <= u.maxBytes {
        ReadOne(h, before, id, t, Sum(most), last);
        assert before.uploads[id := u.(phase := Writing(t, Sum(sizes)))] ==
               d.uploads[id := u.(phase := Writing(t, Sum(sizes)))];
        assert before.temps[(u.key, t) := u.content[..Sum(sizes)]] == d.temps[(u.key, t) := u.content[..Sum(sizes)]];
        assert before.temps - {(u.key, t)} == d.temps - {(u.key, t)};
        assert before.uploads[id := u.(phase := Releasing(TooLarge))] ==
               d.uploads[id := u.(phase := Releasing(TooLarge))];
      }
    }
  }

  lemma {:induction false} RunConcat(h: Hash, d: Disk, a: seq<Action>, b: seq<Action>)
    ensures RunFrom(h, d, a + b) == RunFrom(h, RunFrom(h, d, a), b)
  {
    if b == [] {
      assert a + b == a;
    } else {
      RunConcat(h, d, a, b[..|b| - 1]);
      assert (a + b)[..|a + b| - 1] == a + b[..|b| - 1];
    }
  }

  lemma RunTwo(h: Hash, d: Disk, a: Action, b: Action)
    ensures RunFrom(h, d, [a, b]) == Step(h, Step(h, d, a), b)
  {
    assert [a, b][..1] == [a] && [a][..0] == [];
    assert RunFrom(h, d, [a][..0]) == d;
  }

  lemma RunOne(h: Hash, d: Disk, a: Action)
    ensures RunFrom(h, d, [a]) == Step(h, d, a)
  {
    assert [a][..0] == [];
  }

  predicate Drives(a: Action, id: nat) {
    !a.Begin? && !a.Delete? && a.id == id
  }

  lemma {:induction false} FinishedStays(h: Hash, d: Disk, id: nat, actions: seq<Action>)
    requires id in d.uploads && d.uploads[id].phase.Done?
    requires forall i :: 0 <= i < |actions| ==> Drives(actions[i], id)
    ensures RunFrom(h, d, actions) == d
  {
    if actions == [] {
    } else {
      FinishedStays(h, d, id, actions[..|actions| - 1]);
    }
  }

  function Opening(id: nat, expected: string, content: Bytes, maxBytes: nat): seq<Action> {
    [Begin(id, expected, content, maxBytes), Look(id)]
  }

  function Closing(id: nat): seq<Action> {
    [Finish(id), Replace(id)] + [Release(id)]
  }

  /** The steps of one upload that nobody interrupts, reading in pieces of the given sizes. */
  function Script(id: nat, expected: string, content: Bytes, maxBytes: nat, t: nat, sizes: seq<nat>): seq<Action> {
    Opening(id, expected, content, maxBytes) + ([Acquire(id), OpenTemp(id, t)] + (Reads(id, sizes) + Closing(id)))
  }

  function OutcomeOf(r: Result<WriteReceipt, PutError>, present: bool): Outcome {
    match r
    case Ok(receipt) =>
      if present then AlreadyPresent(receipt.digest, receipt.size) else Outcome.Stored(receipt.digest, receipt.size)
    case Err(UploadInProgress) => InProgress
    case Err(BlobTooLarge) => TooLarge
    case Err(BlobChecksumMismatch) => ChecksumMismatch
  }

  /** The directory after an uninterrupted upload, with the upload on record as finished. */
  function AfterPut(h: Hash, d: Disk, id: nat, u: Upload): Disk {
    var r := PutResult(h, d.files, d.locks, u.key, u.content, u.expected, u.maxBytes);
    d.(files := PutFiles(h, d.files, d.locks, u.key, u.content, u.expected, u.maxBytes),
       uploads := d.uploads[id := u.(phase := Done(OutcomeOf(r, u.key in d.files)))])
  }

  lemma ClosingRuns(h: Hash, e: Disk, id: nat)
    ensures RunFrom(h, e, Closing(id)) == Step(h, Step(h, Step(h, e, Finish(id)), Replace(id)), Release(id))
  {
    RunConcat(h, e, [Finish(id), Replace(id)], [Release(id)]);
    RunTwo(h, e, Finish(id), Replace(id));
    RunOne(h, Step(h, Step(h, e, Finish(id)), Replace(id)), Release(id));
  }

  /** An upload that gave up under the lock only has to let go of it. */
  lemma GivenUpFinishes(h: Hash, d: Disk, e: Disk, id: nat, u: Upload, o: Outcome)
    requires id !in d.uploads && u.key !in d.locks
    requires e == d.(uploads := d.uploads[id := u.(phase := Releasing(o))], locks := d.locks + {u.key})
    ensures Step(h, Step(h, e, Finish(id)), Replace(id)) == e
    ensures Step(h, e, Release(id)) == d.(uploads := d.uploads[id := u.(phase := Done(o))])
  {
    assert d.locks + {u.key} - {u.key} == d.locks;
    assert e.uploads[id := u.(phase := Done(o))] == d.uploads[id := u.(phase := Done(o))];
  }

  lemma WrittenFinishes(h: Hash, d: Disk, e: Disk, id: nat, u: Upload, t: nat)
    requires id !in d.uploads && (u.key, t) !in d.temps && u.key !in d.locks
    requires e == d.(uploads := d.uploads[id := u.(phase := Writing(t, |u.content|))],
                     temps := d.temps[(u.key, t) := u.content], locks := d.locks + {u.key})
    ensures Step(h, Step(h, e, Finish(id)), Replace(id)) ==
            if h(u.content) == Lower(u.expected) then
              d.(uploads := d.uploads[id := u.(phase := Releasing(Outcome.Stored(h(u.content), |u.content|)))],
                 files := d.files[u.key := u.content], locks := d.locks + {u.key})
            else d.(uploads := d.uploads[id := u.(phase := Releasing(ChecksumMismatch))], locks := d.locks + {u.key})
  {
    assert e.temps - {(u.key, t)} == d.temps;
    assert forall p, q :: d.uploads[id := u.(phase := p)][id := u.(phase := q)] == d.uploads[id := u.(phase := q)];
  }

  lemma ClosingFinishes(h: Hash, d: Disk, e: Disk, id: nat, u: Upload, t: nat)
    requires id !in d.uploads && (u.key, t) !in d.temps && u.key !in d.locks && u.key !in d.files
    requires if |u.content| <= u.maxBytes then
               e == d.(uploads := d.uploads[id := u.(phase := Writing(t, |u.content|))],
                       temps := d.temps[(u.key, t) := u.content], locks := d.locks + {u.key})
             else e == d.(uploads := d.uploads[id := u.(phase := Releasing(TooLarge))], locks := d.locks + {u.key})
    ensures RunFrom(h, e, Closing(id)) == AfterPut(h, d, id, u)
  {
    ClosingRuns(h, e, id);
    if |u.content| > u.maxBytes {
      GivenUpFinishes(h, d, e, id, u, TooLarge);
    } else {
      WrittenFinishes(h, d, e, id, u, t);
      var after := Step(h, Step(h, e, Finish(id)), Replace(id));
      if h(u.content) == Lower(u.expected) {
        GivenUpFinishes(h, d.(files := d.files[u.key := u.content]), after, id, u,
                        Outcome.Stored(h(u.content), |u.content|));
      } else {
        GivenUpFinishes(h, d, after, id, u, ChecksumMismatch);
      }
    }
  }

  lemma WritingRuns(h: Hash, d: Disk, e: Disk, id: nat, u: Upload, t: nat, sizes: seq<nat>)
    requires id !in d.uploads && (u.key, t) !in d.temps && u.key !in d.locks && u.key !in d.files
    requires Sum(sizes) == |u.content| && forall i :: 0 <= i < |sizes| ==> sizes[i] > 0
    requires e == d.(uploads := d.uploads[id := u.(phase := Writing(t, 0))], temps := d.temps[(u.key, t) := []],
                     locks := d.locks + {u.key})
    ensures RunFrom(h, e, Reads(id, sizes) + Closing(id)) == AfterPut(h, d, id, u)
  {
    ReadsAddUp(h, e, id, t, sizes);
    RunConcat(h, e, Reads(id, sizes), Closing(id));
    AllRead(d, e, id, u, t, sizes);
    ClosingFinishes(h, d, Reading(e, id, t, sizes), id, u, t);
  }

  /** Where the upload stands once it has read everything. */
  lemma AllRead(d: Disk, e: Disk, id: nat, u: Upload, t: nat, sizes: seq<nat>)
    requires id !in d.uploads && (u.key, t) !in d.temps && Sum(sizes) == |u.content|
    requires e == d.(uploads := d.uploads[id := u.(phase := Writing(t, 0))], temps := d.temps[(u.key, t) := []],
                     locks := d.locks + {u.key})
    ensures Reading(e, id, t, sizes) ==
            if |u.content| <= u.maxBytes then
              d.(uploads := d.uploads[id := u.(phase := Writing(t, |u.content|))],
                 temps := d.temps[(u.key, t) := u.content], locks := d.locks + {u.key})
            else d.(uploads := d.uploads[id := u.(phase := Releasing(TooLarge))], locks := d.locks + {u.key})
  {
    assert u.content[..|u.content|] == u.content;
    assert forall p, q :: d.uploads[id := u.(phase := p)][id := u.(phase := q)] == d.uploads[id := u.(phase := q)];
    assert e.temps[(u.key, t) := u.content] == d.temps[(u.key, t) := u.content];
    assert e.temps - {(u.key, t)} == d.temps;
  }

  lemma AcquireTwoSteps(h: Hash, d: Disk, e: Disk, id: nat, u: Upload, t: nat)
    requires id !in d.uploads && (u.key, t) !in d.temps && u.key !in d.files
    requires e == d.(uploads := d.uploads[id := u.(phase := AwaitingLock)])
    ensures Step(h, Step(h, e, Acquire(id)), OpenTemp(id, t)) ==
            if u.key in d.locks then d.(uploads := d.uploads[id := u.(phase := Done(InProgress))])
            else d.(uploads := d.uploads[id := u.(phase := Writing(t, 0))], temps := d.temps[(u.key, t) := []],
                    locks := d.locks + {u.key})
  {
    assert forall p, q :: d.uploads[id := u.(phase := p)][id := u.(phase := q)] == d.uploads[id := u.(phase := q)];
  }

  lemma AcquiringRuns(h: Hash, d: Disk, e: Disk, id: nat, u: Upload, t: nat, sizes: seq<nat>)
    requires id !in d.uploads && (u.key, t) !in d.temps && u.key !in d.files
    requires Sum(sizes) == |u.content| && forall i :: 0 <= i < |sizes| ==> sizes[i] > 0
    requires e == d.(uploads := d.uploads[id := u.(phase := AwaitingLock)])
    ensures RunFrom(h, e, [Acquire(id), OpenTemp(id, t)] + (Reads(id, sizes) + Closing(id))) == AfterPut(h, d, id, u)
  {
    var rest := Reads(id, sizes) + Closing(id);
    RunConcat(h, e, [Acquire(id), OpenTemp(id, t)], rest);
    RunTwo(h, e, Acquire(id), OpenTemp(id, t));
    AcquireTwoSteps(h, d, e, id, u, t);
    var ready := Step(h, Step(h, e, Acquire(id)), OpenTemp(id, t));
    if u.key in d.locks {
      FinishedStays(h, ready, id, rest);
    } else {
      WritingRuns(h, d, ready, id, u, t, sizes);
    }
  }

  /**
   The one-caller upload refines the protocol: its steps, run without interruption from any
   directory and with any division into chunks, end in exactly the files, locks, temporary files
   and outcome that the upload method promises.
  */
  lemma UninterruptedPutIsARun(h: Hash, d: Disk, id: nat, u: Upload, t: nat, sizes: seq<nat>)
    requires id !in d.uploads && (u.key, t) !in d.temps && KeyForSha256(u.expected) == Ok(u.key)
    requires Sum(sizes) == |u.content| && forall i :: 0 <= i < |sizes| ==> sizes[i] > 0
    ensures RunFrom(h, d, Script(id, u.expected, u.content, u.maxBytes, t, sizes)) == AfterPut(h, d, id, u)
  {
    var first := Opening(id, u.expected, u.content, u.maxBytes);
    var rest := [Acquire(id), OpenTemp(id, t)] + (Reads(id, sizes) + Closing(id));
    RunConcat(h, d, first, rest);
    OpeningRuns(h, d, id, u);
    var e := RunFrom(h, d, first);
    if u.key in d.files {
      FinishedStays(h, e, id, rest);
    } else {
      AcquiringRuns(h, d, e, id, u, t, sizes);
    }
  }

  lemma OpeningRuns(h: Hash, d: Disk, id: nat, u: Upload)
    requires id !in d.uploads && KeyForSha256(u.expected) == Ok(u.key)
    ensures RunFrom(h, d, Opening(id, u.expected, u.content, u.maxBytes)) ==
            if u.key in d.files then AfterPut(h, d, id, u)
            else d.(uploads := d.uploads[id := u.(phase := AwaitingLock)])
  {
    var first := Opening(id, u.expected, u.content, u.maxBytes);
    RunTwo(h, d, first[0], first[1]);
    assert forall p, q :: d.uploads[id := u.(phase := p)][id := u.(phase := q)] == d.uploads[id := u.(phase := q)];
  }

  // ---- listing the keys ----------------------------------------------------

  function BlobName(stem: string): string { stem + ".bin" }

  function LockName(stem: string): string { stem + ".bin" + ".lock" }

  function TempName(stem: string, unique: string): string { stem + ".bin" + ".tmp." + unique }

  predicate HexDigit(c: char) {
    '0' <= c <= '9' || 'a' <= c <= 'f'
  }

  predicate Hex(s: string) {
    forall i :: 0 <= i < |s| ==> HexDigit(s[i])
  }

  predicate EndsWith(s: string, suffix: string) {
    |suffix| <= |s| && s[|s| - |suffix|..] == suffix
  }

  predicate OccursAt(s: string, part: string, i: int) {
    0 <= i <= |s| - |part| && s[i..i + |part|] == part
  }

  predicate Contains(s: string, part: string) {
    exists i :: 0 <= i <= |s| && OccursAt(s, part, i)
  }

  lemma OccurrenceStart(s: string, part: string, i: int)
    requires part != []
    ensures OccursAt(s, part, i) ==> s[i] == part[0]
  {
    if OccursAt(s, part, i) {
      assert s[i..i + |part|][0] == s[i];
    }
  }

  /** The names that the store itself gives to files in a directory of blobs. */
  predicate StoreName(name: string, stem: string, unique: string) {
    Hex(stem) && Hex(unique) && unique != [] &&
      (name == BlobName(stem) || name == LockName(stem) || name == TempName(stem, unique))
  }

  predicate Listed(name: string) {
    EndsWith(name, ".bin") && !Contains(name, ".tmp.")
  }

  /** The listing takes exactly the visible blobs, and gives back their names. */
  lemma ListedIffBlob(name: string, stem: string, unique: string)
    requires StoreName(name, stem, unique)
    ensures Listed(name) <==> name == BlobName(stem)
    ensures Listed(name) ==> name[..|name| - 4] == stem
  {
    if name == BlobName(stem) {
      assert name[|name| - 4..] == ".bin" && name[..|name| - 4] == stem;
      forall i ensures !OccursAt(name, ".tmp.", i) {
        OccurrenceStart(name, ".tmp.", i);
        assert 0 <= i < |stem| ==> name[i] == stem[i];
      }
    } else {
      var last := name[|name| - 1];
      assert last == 'k' || (last == unique[|unique| - 1] && HexDigit(unique[|unique| - 1]));
      assert name[|name| - 4..][3] == last;
    }
  }

  datatype Shard = Shard(first2: string, names: seq<string>)

  ghost function KeysIn(first2: string, names: seq<string>): seq<Key> {
    if names == [] then []
    else
      var most, last := KeysIn(first2, names[..|names| - 1]), names[|names| - 1];
      if Listed(last) then most + [Key(first2, last[..|last| - 4])] else most
  }

  ghost function KeysOf(shards: seq<Shard>): seq<Key> {
    if shards == [] then []
    else KeysOf(shards[..|shards| - 1]) + KeysIn(shards[|shards| - 1].first2, shards[|shards| - 1].names)
  }

  /** A key is listed by a directory exactly if the directory names its blob. */
  ghost predicate Names(first2: string, names: seq<string>, k: Key) {
    k.first2 == first2 && BlobName(k.remaining62) in names && Listed(BlobName(k.remaining62))
  }

  lemma {:induction false} KeysInExactly(first2: string, names: seq<string>)
    requires Distinct(names)
    ensures Distinct(KeysIn(first2, names)) && forall k :: k in KeysIn(first2, names) <==> Names(first2, names, k)
  {
    if names == [] {
    } else {
      var most, last := names[..|names| - 1], names[|names| - 1];
      KeysInExactly(first2, most);
      assert names == most + [last] && last !in most;
      if Listed(last) {
        assert last == BlobName(last[..|last| - 4]);
        assert !Names(first2, most, Key(first2, last[..|last| - 4]));
      }
      forall k | Names(first2, names, k) && !Names(first2, most, k) ensures k == Key(first2, last[..|last| - 4]) {
        assert BlobName(k.remaining62)[..|k.remaining62|] == k.remaining62;
      }
    }
  }

  ghost predicate SomeDirectoryNames(shards: seq<Shard>, k: Key) {
    exists s :: s in shards && Names(s.first2, s.names, k)
  }

  /** One directory per prefix, and every name once. */
  ghost predicate ProperWalk(shards: seq<Shard>) {
    && (forall i, j :: 0 <= i < j < |shards| ==> shards[i].first2 != shards[j].first2)
    && (forall i :: 0 <= i < |shards| ==> Distinct(shards[i].names))
  }

  lemma {:induction false} KeysOfExactly(shards: seq<Shard>)
    requires ProperWalk(shards)
    ensures Distinct(KeysOf(shards)) && forall k :: k in KeysOf(shards) <==> SomeDirectoryNames(shards, k)
  {
    if shards == [] {
    } else {
      var most, last := shards[..|shards| - 1], shards[|shards| - 1];
      KeysOfExactly(most);
      KeysInExactly(last.first2, last.names);
      assert shards == most + [last];
      forall k | k in KeysOf(most) ensures k !in KeysIn(last.first2, last.names) {
        var s :| s in most && Names(s.first2, s.names, k);
      }
      DistinctConcat(KeysOf(most), KeysIn(last.first2, last.names));
      forall k
        ensures SomeDirectoryNames(shards, k) <==> SomeDirectoryNames(most, k) || Names(last.first2, last.names, k)
      {
        if Names(last.first2, last.names, k) {
          assert last in shards;
        }
      }
    }
  }

  lemma TempIsNotListed(stem: string, unique: string)
    ensures !Listed(TempName(stem, unique))
  {
    var name := TempName(stem, unique);
    assert name[|stem| + 4..|stem| + 9] == ".tmp.";
    assert OccursAt(name, ".tmp.", |stem| + 4);
  }

  lemma LockIsNotListed(stem: string)
    ensures !Listed(LockName(stem))
  {
    var name := LockName(stem);
    assert name[|name| - 4..][3] == 'k';
  }

  /** A walk over the directories of the disk meets only names of the store, and every visible blob. */
  ghost predicate Walks(d: Disk, shards: seq<Shard>, text: nat -> string) {
    && ProperWalk(shards)
    && (forall s, name :: s in shards && name in s.names ==> IsOnDisk(d, s.first2, name, text))
    && (forall k :: k in d.files ==>
          exists s :: s in shards && s.first2 == k.first2 && BlobName(k.remaining62) in s.names)
  }

  /** Lock files stay behind after their upload, so any key may have one. */
  ghost predicate IsOnDisk(d: Disk, first2: string, name: string, text: nat -> string) {
    || (exists k :: k in d.files && k.first2 == first2 && name == BlobName(k.remaining62))
    || (exists stem :: name == LockName(stem))
    || (exists k, t: nat :: (k, t) in d.temps && k.first2 == first2 && name == TempName(k.remaining62, text(t)))
  }

  lemma ListedNameIsABlob(d: Disk, first2: string, k: Key, text: nat -> string)
    requires IsOnDisk(d, first2, BlobName(k.remaining62), text) && Listed(BlobName(k.remaining62)) && k.first2 == first2
    ensures k in d.files
  {
    var name := BlobName(k.remaining62);
    if stem :| name == LockName(stem) {
      LockIsNotListed(stem);
    } else if x, t: nat :| (x, t) in d.temps && x.first2 == first2 && name == TempName(x.remaining62, text(t)) {
      TempIsNotListed(x.remaining62, text(t));
    } else {
      var x :| x in d.files && x.first2 == first2 && name == BlobName(x.remaining62);
      assert name[..|name| - 4] == x.remaining62 == k.remaining62;
    }
  }

  /**
   Over any reachable directory, with uploads under way or not, the listing is exact: it holds the keys
   of the visible blobs and no others, each once. Digests are taken to be hexadecimal.
  */
  lemma ListingIsExact(h: Hash, d: Disk, shards: seq<Shard>, text: nat -> string)
    requires HexDigests(h) && (forall b :: Hex(h(b))) && Reachable(h, d) && Walks(d, shards, text)
    ensures Distinct(KeysOf(shards)) && forall k :: k in KeysOf(shards) <==> k in d.files
  {
    KeysOfExactly(shards);
    forall k | k in KeysOf(shards) ensures k in d.files {
      var s :| s in shards && Names(s.first2, s.names, k);
      ListedNameIsABlob(d, s.first2, k, text);
    }
    forall k | k in d.files ensures k in KeysOf(shards) {
      VisibleBlobIsComplete(h, d, k);
      assert Hex(h(d.files[k]));
      ListedIffBlob(BlobName(k.remaining62), k.remaining62, "0");
      var s :| s in shards && s.first2 == k.first2 && BlobName(k.remaining62) in s.names;
      assert Names(s.first2, s.names, k);
    }
  }

  /** The walk over the shard directories, which come sorted. */
  method IterKeys(shards: seq<Shard>) returns (keys: seq<Key>)
    ensures keys == KeysOf(shards)
  {
    keys := [];
    for i := 0 to |shards|
      invariant keys == KeysOf(shards[..i])
    {
      var names := shards[i].names;
      ghost var before := keys;
      for j := 0 to |names|
        invariant keys == before + KeysIn(shards[i].first2, names[..j])
      {
        assert names[..j + 1][..j] == names[..j];
        if Listed(names[j]) {
          keys := keys + [Key(shards[i].first2, names[j][..|names[j]| - 4])];
        }
      }
      assert names[..|names|] == names;
      assert shards[..i + 1][..i] == shards[..i];
    }
    assert shards[..|shards|] == shards;
  }
}
