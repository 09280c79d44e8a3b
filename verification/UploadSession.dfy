/** One upload session: chunk writes and the finalize that commits its bytes. */
module UploadSessions {
  import opened Common
  import opened Digests
  import opened ObjectStore
  import opened Chunking
  import opened Streaming

  class UploadSession {
    const storage: Storage
    const org: string
    const id: string
    const tempKey: string
    const uploadId: int
    var hashed: Bytes
    var buffer: Bytes
    var parts: seq<int>
    var nextPart: int
    var total: nat
    var finalizing: bool
    ghost var blocks: seq<Bytes>

    ghost predicate Valid()
      reads this, storage
    {
      && storage.Valid() && State().Sized() && tempKey == UploadKey(org, id)
      && |parts| == |blocks| && nextPart == |parts| + 1 && total == |hashed|
      && (uploadId in storage.multiparts ==> Numbered(blocks, storage.multiparts[uploadId], parts))
    }

    /** Once a finish has claimed the session its parts and buffer may be spent, and nothing reads them again. */
    ghost predicate Usable()
      reads this, storage
    {
      storage.Valid() && (finalizing || Valid())
    }

    ghost function State(): Upload
      reads this
    {
      Upload(hashed, blocks, buffer)
    }

    /** Only this session's multipart upload may differ. */
    twostate predicate OthersKept()
      reads storage
    {
      storage.multiparts - {uploadId} == old(storage.multiparts) - {uploadId}
    }

    constructor (storage: Storage, org: string, id: string, uploadId: int)
      requires storage.Valid() && uploadId in storage.multiparts && storage.multiparts[uploadId] == map[]
      ensures Valid() && State() == EMPTY_UPLOAD && !finalizing
      ensures this.storage == storage && this.org == org && tempKey == UploadKey(org, id)
    {
      this.storage, this.org, this.id, tempKey, this.uploadId := storage, org, id, UploadKey(org, id), uploadId;
      hashed, buffer, parts, nextPart, total, finalizing, blocks := [], [], [], 1, 0, false, [];
    }

    /** Drains one full part and uploads it. A failed upload loses the drained bytes. */
    method SendPart() returns (r: Result<(), Fault>)
      requires Valid() && |buffer| >= PART_SIZE
      modifies this, storage
      ensures Valid() && finalizing == old(finalizing)
      ensures storage.objects == old(storage.objects) && OthersKept()
      ensures State() == if r.Ok? then old(State()).Flush() else old(State()).Drop()
      ensures r.Err? ==> r.error == StorageFailed
    {
      var part := buffer[..PART_SIZE];
      buffer := buffer[PART_SIZE..];
      var sent := storage.UploadPart(uploadId, nextPart, part);
      if sent.Err? {
        return Err(sent.error);
      }
      NumberedSnoc(blocks, old(storage.multiparts)[uploadId], parts, part);
      blocks := blocks + [part];
      parts := parts + [sent.value];
      nextPart := nextPart + 1;
      r := Ok(());
    }

    /**
     * Hashes and buffers a chunk, then uploads full parts until one fails or none is left.
     * On failure exactly one part's worth of bytes, already hashed, is in no part and no buffer.
     */
    method Write(chunk: Bytes) returns (r: Result<(), Fault>, ghost lost: Bytes)
      requires Valid()
      modifies this, storage
      ensures Valid() && finalizing == old(finalizing)
      ensures storage.objects == old(storage.objects) && OthersKept()
      ensures r.Ok? ==> State() == old(State()).Write(chunk)
      ensures r.Err? ==>
                && r.error == StorageFailed
                && hashed == old(hashed) + chunk && |lost| == PART_SIZE
                && Flatten(blocks) + lost + buffer == old(State()).Contents() + chunk
    {
      hashed := hashed + chunk;
      total := total + |chunk|;
      buffer := buffer + chunk;
      lost := [];
      ghost var start := State();
      assert start.Contents() == old(State()).Contents() + chunk;
      while |buffer| >= PART_SIZE
        invariant Valid() && finalizing == old(finalizing) && hashed == start.hashed
        invariant storage.objects == old(storage.objects) && OthersKept()
        invariant State().Drain() == start.Drain() && State().Contents() == start.Contents()
        decreases |buffer|
      {
        FlushKeeps(State());
        lost := buffer[..PART_SIZE];
        assert buffer == lost + buffer[PART_SIZE..];
        r := SendPart();
        if r.Err? {
          return;
        }
      }
      r := Ok(());
    }

    /**
     * Puts a tiny upload as one object, or completes the multipart after sending the tail.
     * Consumes buffer and parts, which is why only one finalize may ever get here.
     */
    method AssembleTemp() returns (r: Result<(), Fault>)
      requires Valid()
      modifies this, storage
      ensures storage.Valid() && OthersKept()
      ensures hashed == old(hashed) && total == old(total) && finalizing == old(finalizing)
      ensures r.Ok? ==> storage.objects == old(storage.objects)[tempKey := old(State()).Contents()]
      ensures r.Err? ==> r.error == StorageFailed && storage.objects == old(storage.objects)
      ensures buffer == [] && (r.Ok? ==> parts == [])
    {
      var last := buffer;
      buffer := [];
      if |parts| == 0 {
        var _ := storage.AbortMultipart(uploadId);
        assert old(State()).Contents() == last;
        r := storage.Put(tempKey, last);
        return;
      }
      if |last| > 0 {
        var sent := storage.UploadPart(uploadId, nextPart, last);
        if sent.Err? {
          r := Err(sent.error);
          return;
        }
        NumberedSnoc(blocks, old(storage.multiparts)[uploadId], parts, last);
        FlattenSnoc(blocks, last);
        parts := parts + [sent.value];
        blocks := blocks + [last];
      }
      assert Flatten(blocks) == old(State()).Contents();
      var all := parts;
      parts := [];
      if uploadId in storage.multiparts {
        AssembledFrom(blocks, storage.multiparts[uploadId], all);
      }
      r := storage.CompleteMultipart(tempKey, uploadId, all);
    }

    /** Absorbs the body sent with the final request, chunk by chunk, until it ends, fails or grows too large. */
    method Absorb(stream: seq<Result<Bytes, Fault>>, maxBlob: nat) returns (r: Result<(), Fault>)
      requires Valid()
      modifies this, storage
      ensures Valid() && finalizing == old(finalizing)
      ensures storage.objects == old(storage.objects) && OthersKept()
      ensures r.Ok? ==> State() == old(State()).WriteAll(Received(stream))
      ensures r.Ok? ==> forall i | 0 <= i < |stream| :: stream[i].Ok?
      ensures r.Ok? && maxBlob > 0 && stream != [] ==> total <= maxBlob
      ensures r.Err? ==>
                || r.error == StorageFailed
                || (r.error == StreamFailed && exists i | 0 <= i < |stream| :: stream[i].Err?)
                || (r.error == TooLarge && 0 < maxBlob < total)
    {
      for i := 0 to |stream|
        invariant Valid() && finalizing == old(finalizing)
        invariant storage.objects == old(storage.objects) && OthersKept()
        invariant forall j | 0 <= j < i :: stream[j].Ok?
        invariant maxBlob > 0 && i > 0 ==> total <= maxBlob
        invariant State() == old(State()).WriteAll(Received(stream[..i]))
      {
        if stream[i].Err? {
          return Err(StreamFailed);
        }
        ReceivedPrefix(stream, i);
        WriteAllSnoc(old(State()), Received(stream[..i]), stream[i].value);
        ghost var lost;
        r, lost := Write(stream[i].value);
        if r.Err? {
          return;
        }
        if maxBlob > 0 && total > maxBlob {
          var _ := storage.AbortMultipart(uploadId);
          return Err(TooLarge);
        }
      }
      assert stream[..|stream|] == stream;
      r := Ok(());
    }

    /**
     * `finish`: claims the session once, absorbs the final body, verifies, moves the assembled
     * object to its content-addressed key and records it. `admitted` is the quota verdict. When
     * the recording fails the error comes after the blob key has been written. A session that
     * still holds all it hashed stores content with the digest it reports.
     */
    method Finish(sha: Bytes -> Digest, stream: seq<Result<Bytes, Fault>>, expected: Digest, maxBlob: nat,
        admitted: bool, rows: map<Digest, nat>)
      returns (r: Result<Digest, Fault>, rows': map<Digest, nat>, recordFailed: bool)
      requires Usable() && Hashing(sha) && '/' !in org
      modifies this, storage
      ensures Usable() && finalizing && OthersKept()
      ensures old(finalizing) ==>
                r.Err? && !recordFailed && storage.objects == old(storage.objects) && State() == old(State())
      ensures r == Err(UnknownUpload) <==> old(finalizing)
      ensures r == Err(DigestMismatch) ==> !DigestsEqual(sha(old(State()).WriteAll(Received(stream)).hashed), expected)
      ensures r == Err(QuotaExceeded) ==> !admitted
      ensures r == Err(TooLarge) ==> 0 < maxBlob < |hashed|
      ensures r.Ok? && maxBlob > 0 && stream != [] ==> |old(State()).WriteAll(Received(stream)).hashed| <= maxBlob
      ensures r == Err(StreamFailed) ==> exists i | 0 <= i < |stream| :: stream[i].Err?
      ensures r.Err? ==> rows' == rows
      ensures r.Err? && !recordFailed ==> storage.objects - {tempKey} == old(storage.objects) - {tempKey}
      ensures r.Ok? || recordFailed ==>
                var u := old(State()).WriteAll(Received(stream));
                var digest := sha(u.hashed);
                && !old(finalizing) && admitted && DigestsEqual(digest, expected)
                && storage.objects - {tempKey}
                   == (old(storage.objects) - {tempKey})[BlobKey(org, digest) := u.Contents()]
                && BlobKey(org, digest) in storage.objects
                && (old(State()).Contents() == old(hashed) && |old(buffer)| < PART_SIZE ==>
                      sha(storage.objects[BlobKey(org, digest)]) == digest)
      ensures r.Ok? ==>
                var u := old(State()).WriteAll(Received(stream));
                && !recordFailed && r.value == sha(u.hashed)
                && rows' == if r.value in rows then rows else rows[r.value := |u.hashed|]
    {
      rows', recordFailed := rows, false;
      if finalizing {
        r := Err(UnknownUpload);
        return;
      }
      finalizing := true;
      var absorbed := Absorb(stream, maxBlob);
      if absorbed.Err? {
        r := Err(absorbed.error);
        return;
      }
      var computed := sha(hashed);
      if !DigestsEqual(computed, expected) {
        var _ := storage.AbortMultipart(uploadId);
        r := Err(DigestMismatch);
        return;
      }
      if !admitted {
        var _ := storage.AbortMultipart(uploadId);
        r := Err(QuotaExceeded);
        return;
      }
      ghost var content := State().Contents();
      var moved := MoveToBlob(computed);
      if moved.Err? {
        r := Err(moved.error);
        return;
      }
      if old(State()).Contents() == old(hashed) && |old(buffer)| < PART_SIZE {
        WholeStreamCommitted(old(State()), Received(stream));
      }
      recordFailed := *;
      if recordFailed {
        r := Err(StorageFailed);
        return;
      }
      if computed !in rows {
        rows' := rows[computed := total];
      }
      r := Ok(computed);
    }

    /** Assembles the temporary object, copies it to the blob key and drops it again. */
    method MoveToBlob(digest: Digest) returns (r: Result<(), Fault>)
      requires Valid() && Canonical(digest) && '/' !in org
      modifies this, storage
      ensures hashed == old(hashed) && total == old(total) && finalizing == old(finalizing)
      ensures storage.Valid() && OthersKept()
      ensures r.Err? ==> r.error == StorageFailed
      ensures r.Err? ==> storage.objects - {tempKey} == old(storage.objects) - {tempKey}
      ensures r.Ok? ==> BlobKey(org, digest) in storage.objects
      ensures r.Ok? ==> storage.objects[BlobKey(org, digest)] == old(State()).Contents()
      ensures r.Ok? ==> storage.objects - {tempKey} ==
                        (old(storage.objects) - {tempKey})[BlobKey(org, digest) := old(State()).Contents()]
    {
      ghost var content := State().Contents();
      var assembled := AssembleTemp();
      if assembled.Err? {
        return assembled;
      }
      UploadKeyIsNoBlob(org, id, org, digest);
      var copied := storage.Copy(tempKey, BlobKey(org, digest));
      if copied.Err? {
        return copied;
      }
      assert storage.objects - {tempKey} == (old(storage.objects) - {tempKey})[BlobKey(org, digest) := content];
      var _ := storage.Delete(tempKey);
      r := Ok(());
    }
  }

  /**
   * A finalize sent again: whatever became of the first, the second is refused, and objects and
   * rows are what the first one left.
   */
  method FinishTwice(s: UploadSession, sha: Bytes -> Digest, stream: seq<Result<Bytes, Fault>>,
      again: seq<Result<Bytes, Fault>>, expected: Digest, maxBlob: nat, admitted: bool, rows: map<Digest, nat>)
    returns (first: Result<Digest, Fault>, second: Result<Digest, Fault>, rows': map<Digest, nat>, recordFailed: bool)
    requires s.Usable() && Hashing(sha) && '/' !in s.org
    modifies s, s.storage
    ensures second.Err? && s.Usable()
    ensures first.Err? ==> rows' == rows
    ensures first.Err? && !recordFailed ==> s.storage.objects - {s.tempKey} == old(s.storage.objects) - {s.tempKey}
    ensures first.Ok? || recordFailed ==>
              var u := old(s.State()).WriteAll(Received(stream));
              s.storage.objects - {s.tempKey}
              == (old(s.storage.objects) - {s.tempKey})[BlobKey(s.org, sha(u.hashed)) := u.Contents()]
    ensures first.Ok? ==>
              rows' == if first.value in rows then rows
                       else rows[first.value := |old(s.State()).WriteAll(Received(stream)).hashed|]
  {
    first, rows', recordFailed := s.Finish(sha, stream, expected, maxBlob, admitted, rows);
    var lost;
    second, rows', lost := s.Finish(sha, again, expected, maxBlob, admitted, rows');
  }

  /**
   * A session that holds exactly what it hashed still does after any further chunks, so what
   * a finish then commits is the whole stream.
   */
  lemma WholeStreamCommitted(u: Upload, chunks: seq<Bytes>)
    requires u.Sized() && |u.buffer| < PART_SIZE && u.Contents() == u.hashed
    ensures u.WriteAll(chunks).Contents() == u.WriteAll(chunks).hashed == u.hashed + Flatten(chunks)
  {
    WriteAllKeeps(u, chunks);
  }
}
