/** Copying an upstream response body into object storage under its content-addressed key. */
module Streaming {
  import opened Common
  import opened Digests
  import opened ObjectStore
  import opened Chunking

  /** The bytes of a body stream up to its first error. */
  function Received(stream: seq<Result<Bytes, Fault>>): seq<Bytes> {
    if stream == [] || stream[0].Err? then [] else [stream[0].value] + Received(stream[1..])
  }

  lemma {:induction false} ReceivedPrefix(stream: seq<Result<Bytes, Fault>>, i: nat)
    requires i < |stream| && forall j | 0 <= j <= i :: stream[j].Ok?
    ensures Received(stream[..i + 1]) == Received(stream[..i]) + [stream[i].value]
  {
    if i == 0 {
      assert stream[..1][1..] == [];
    } else {
      assert stream[..i + 1][1..] == stream[1..][..i] && stream[..i][1..] == stream[1..][..i - 1];
      ReceivedPrefix(stream[1..], i - 1);
    }
  }

  /** What the loop holds: everything received, cut into uploaded parts and a tail. */
  ghost predicate Holds(storage: Storage, id: int, u: Upload, parts: seq<int>)
    reads storage
  {
    && storage.Valid() && id in storage.multiparts && u.Sized() && u.hashed == u.Contents()
    && Numbered(u.blocks, storage.multiparts[id], parts)
  }

  /** Sends every full part of `u.buffer`. */
  method SendFullParts(storage: Storage, id: int, ghost u: Upload, buffer: Bytes, parts: seq<int>, nextPart: int)
    returns (ghost u': Upload, buffer': Bytes, parts': seq<int>, nextPart': int, r: Result<(), Fault>)
    requires Holds(storage, id, u, parts) && buffer == u.buffer && nextPart == |parts| + 1
    modifies storage
    ensures storage.Valid() && storage.objects == old(storage.objects)
    ensures storage.failedAborts == old(storage.failedAborts)
    ensures id in storage.multiparts && storage.multiparts - {id} == old(storage.multiparts) - {id}
    ensures r.Ok? ==>
              u' == u.Drain() && Holds(storage, id, u', parts') && buffer' == u'.buffer && nextPart' == |parts'| + 1
    ensures r.Ok? ==> storage.failures == old(storage.failures)
    ensures r.Err? ==> r.error == StorageFailed && storage.failures > old(storage.failures)
  {
    u', buffer', parts', nextPart' := u, buffer, parts, nextPart;
    while |buffer'| >= PART_SIZE
      invariant Holds(storage, id, u', parts') && buffer' == u'.buffer && nextPart' == |parts'| + 1
      invariant u'.Drain() == u.Drain()
      invariant storage.objects == old(storage.objects) && storage.failedAborts == old(storage.failedAborts)
      invariant storage.failures == old(storage.failures)
      invariant storage.multiparts - {id} == old(storage.multiparts) - {id}
      decreases |buffer'|
    {
      var part := buffer'[..PART_SIZE];
      buffer' := buffer'[PART_SIZE..];
      FlushKeeps(u');
      NumberedSnoc(u'.blocks, storage.multiparts[id], parts', part);
      var sent := storage.UploadPart(id, nextPart', part);
      if sent.Err? {
        r := Err(sent.error);
        return;
      }
      u' := u'.Flush();
      parts' := parts' + [sent.value];
      nextPart' := nextPart' + 1;
    }
    r := Ok(());
  }

  /** Within the size limit; 0 means no limit. */
  predicate Fits(data: Bytes, maxBlob: nat) {
    maxBlob > 0 ==> |data| <= maxBlob
  }

  /** Each error has its own cause; `failed` says whether storage failed meanwhile. */
  predicate Deserved(stream: seq<Result<Bytes, Fault>>, maxBlob: nat, failed: bool, e: Fault) {
    match e
    case StorageFailed => failed
    case StreamFailed => exists i | 0 <= i < |stream| :: stream[i].Err?
    case TooLarge => maxBlob > 0 && |Flatten(Received(stream))| > maxBlob
    case _ => false
  }

  /** Reads the body, hashing it and sending full parts as they fill. */
  method ReadBody(storage: Storage, id: int, stream: seq<Result<Bytes, Fault>>, maxBlob: nat)
    returns (ghost u: Upload, hashed: Bytes, buffer: Bytes, parts: seq<int>, nextPart: int, r: Result<(), Fault>)
    requires storage.Valid() && id in storage.multiparts && storage.multiparts[id] == map[]
    modifies storage
    ensures storage.failures >= old(storage.failures)
    ensures storage.Valid() && storage.objects == old(storage.objects)
    ensures storage.failedAborts == old(storage.failedAborts)
    ensures id in storage.multiparts && storage.multiparts - {id} == old(storage.multiparts) - {id}
    ensures r.Ok? ==>
              && (forall i | 0 <= i < |stream| :: stream[i].Ok?)
              && Holds(storage, id, u, parts) && u == EMPTY_UPLOAD.WriteAll(Received(stream))
              && hashed == Flatten(Received(stream)) && Fits(hashed, maxBlob)
              && buffer == u.buffer && nextPart == |parts| + 1
              && storage.failures == old(storage.failures)
    ensures r.Err? ==> Deserved(stream, maxBlob, storage.failures > old(storage.failures), r.error)
  {
    u, hashed, buffer, parts, nextPart := EMPTY_UPLOAD, [], [], [], 1;
    for i := 0 to |stream|
      invariant forall j | 0 <= j < i :: stream[j].Ok?
      invariant Holds(storage, id, u, parts) && u == EMPTY_UPLOAD.WriteAll(Received(stream[..i]))
      invariant hashed == Flatten(Received(stream[..i])) && Fits(hashed, maxBlob)
      invariant buffer == u.buffer && nextPart == |parts| + 1
      invariant storage.objects == old(storage.objects) && storage.failedAborts == old(storage.failedAborts)
      invariant storage.failures == old(storage.failures)
      invariant storage.multiparts - {id} == old(storage.multiparts) - {id}
    {
      if stream[i].Err? {
        r := Err(StreamFailed);
        return;
      }
      var chunk := stream[i].value;
      StreamStep(stream, i, u);
      hashed := hashed + chunk;
      if maxBlob > 0 && |hashed| > maxBlob {
        r := Err(TooLarge);
        return;
      }
      buffer := buffer + chunk;
      u, buffer, parts, nextPart, r := SendFullParts(storage, id, u.Receive(chunk), buffer, parts, nextPart);
      if r.Err? {
        return;
      }
    }
    assert stream[..|stream|] == stream;
    r := Ok(());
  }

  lemma {:induction false} WriteAllSnoc(u: Upload, chunks: seq<Bytes>, chunk: Bytes)
    ensures u.WriteAll(chunks + [chunk]) == u.WriteAll(chunks).Write(chunk)
    decreases |chunks|
  {
    if chunks == [] {
      assert ([chunk])[1..] == [] && chunks + [chunk] == [chunk];
      assert u.Write(chunk).WriteAll([]) == u.Write(chunk);
    } else {
      assert (chunks + [chunk])[1..] == chunks[1..] + [chunk];
      WriteAllSnoc(u.Write(chunks[0]), chunks[1..], chunk);
    }
  }

  /** One more good chunk: what is received, held and hashed all grow by it. */
  lemma StreamStep(stream: seq<Result<Bytes, Fault>>, i: nat, u: Upload)
    requires i < |stream| && forall j | 0 <= j <= i :: stream[j].Ok?
    requires u == EMPTY_UPLOAD.WriteAll(Received(stream[..i])) && u.Sized() && u.hashed == u.Contents()
    ensures var chunk := stream[i].value;
            && EMPTY_UPLOAD.WriteAll(Received(stream[..i + 1])) == u.Receive(chunk).Drain()
            && Flatten(Received(stream[..i + 1])) == Flatten(Received(stream[..i])) + chunk
            && u.Receive(chunk).Sized() && u.Receive(chunk).hashed == u.Receive(chunk).Contents()
    ensures |Flatten(Received(stream[..i + 1]))| <= |Flatten(Received(stream))|
  {
    ReceivedPrefix(stream, i);
    WriteAllSnoc(EMPTY_UPLOAD, Received(stream[..i]), stream[i].value);
    FlattenSnoc(Received(stream[..i]), stream[i].value);
    ReceivedGrows(stream, i + 1);
  }

  lemma {:induction false} ReceivedGrows(stream: seq<Result<Bytes, Fault>>, i: nat)
    requires i <= |stream|
    ensures |Flatten(Received(stream[..i]))| <= |Flatten(Received(stream))|
  {
    if i > 0 && stream[0].Ok? {
      assert stream[..i][1..] == stream[1..][..i - 1];
      ReceivedGrows(stream[1..], i - 1);
    }
  }

  /** Commits a verified body: a small one by one put, a larger one by completing its parts. */
  method Commit(storage: Storage, id: int, key: string, ghost u: Upload, buffer: Bytes, parts: seq<int>, nextPart: int)
    returns (r: Result<(), Fault>)
    requires Holds(storage, id, u, parts) && buffer == u.buffer && nextPart == |parts| + 1
    modifies storage
    ensures storage.Valid() && storage.failures >= old(storage.failures)
    ensures r.Ok? ==> storage.objects == old(storage.objects)[key := u.Contents()]
    ensures r.Err? ==> r.error == StorageFailed
    ensures r.Err? ==> storage.objects == old(storage.objects) && storage.failures > old(storage.failures)
    ensures storage.failedAborts == old(storage.failedAborts) ==> storage.multiparts == old(storage.multiparts) - {id}
  {
    if |parts| == 0 {
      var _ := storage.AbortMultipart(id);
      assert u.Contents() == u.buffer;
      r := storage.Put(key, buffer);
      return;
    }
    var all := parts;
    ghost var blocks := u.blocks;
    if |buffer| > 0 {
      var last := storage.UploadPart(id, nextPart, buffer);
      if last.Err? {
        var _ := storage.AbortMultipart(id);
        r := Err(last.error);
        return;
      }
      all := all + [last.value];
      blocks := blocks + [buffer];
      FlattenSnoc(u.blocks, buffer);
    }
    assert Flatten(blocks) == u.Contents();
    AssembledFrom(blocks, storage.multiparts[id], all);
    r := storage.CompleteMultipart(key, id, all);
    if r.Err? {
      var _ := storage.AbortMultipart(id);
    }
  }

  /**
   * `stream_to_storage`. Success stores exactly the body, under a matching digest and within
   * the size limit; failure leaves every object alone and has a cause; and unless an abort
   * itself failed, the multipart upload opened here is gone on every path.
   */
  method StreamToStorage(sha: Bytes -> Digest, storage: Storage, key: string,
      stream: seq<Result<Bytes, Fault>>, expected: Digest, maxBlob: nat) returns (r: Result<nat, Fault>)
    requires storage.Valid()
    modifies storage
    ensures storage.Valid() && storage.failures >= old(storage.failures)
    ensures r.Ok? ==>
              var data := Flatten(Received(stream));
              && (forall i | 0 <= i < |stream| :: stream[i].Ok?)
              && storage.objects == old(storage.objects)[key := data]
              && DigestsEqual(sha(data), expected) && Fits(data, maxBlob) && r.value == |data|
    ensures r.Err? ==> storage.objects == old(storage.objects)
    ensures r.Err? ==>
              if r.error == DigestMismatch
              then (forall i | 0 <= i < |stream| :: stream[i].Ok?)
                   && !DigestsEqual(sha(Flatten(Received(stream))), expected)
              else Deserved(stream, maxBlob, storage.failures > old(storage.failures), r.error)
    ensures storage.failedAborts == old(storage.failedAborts) ==> storage.multiparts == old(storage.multiparts)
  {
    var created := storage.CreateMultipart();
    if created.Err? {
      return Err(created.error);
    }
    var id := created.value;
    assert storage.multiparts - {id} == old(storage.multiparts);
    ghost var u;
    var hashed, buffer, parts, nextPart, body;
    u, hashed, buffer, parts, nextPart, body := ReadBody(storage, id, stream, maxBlob);
    if body.Err? {
      var _ := storage.AbortMultipart(id);
      return Err(body.error);
    }
    if !DigestsEqual(sha(hashed), expected) {
      var _ := storage.AbortMultipart(id);
      return Err(DigestMismatch);
    }
    ChunkingIsIrrelevant(Received(stream));
    var committed := Commit(storage, id, key, u, buffer, parts, nextPart);
    if committed.Err? {
      return Err(committed.error);
    }
    r := Ok(|hashed|);
  }
}
