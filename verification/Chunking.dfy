/** Re-cutting an upload's byte stream into fixed-size parts, independently of how it arrives. */
module Chunking {
  import opened Common
  import opened ObjectStore

  /** S3 part size, 8 MiB. */
  const PART_SIZE: nat := 8 * 1024 * 1024

  /** An upload so far: every byte hashed, the bodies of the uploaded parts, and the unsent tail. */
  datatype Upload = Upload(hashed: Bytes, blocks: seq<Bytes>, buffer: Bytes) {
    function Contents(): Bytes {
      Flatten(blocks) + buffer
    }

    predicate Sized() {
      forall i | 0 <= i < |blocks| :: |blocks[i]| == PART_SIZE
    }

    function Receive(chunk: Bytes): Upload {
      Upload(hashed + chunk, blocks, buffer + chunk)
    }

    /** One part drained and uploaded. */
    function Flush(): Upload
      requires |buffer| >= PART_SIZE
    {
      Upload(hashed, blocks + [buffer[..PART_SIZE]], buffer[PART_SIZE..])
    }

    /** One part drained whose upload failed: its bytes are gone, though already hashed. */
    function Drop(): Upload
      requires |buffer| >= PART_SIZE
    {
      Upload(hashed, blocks, buffer[PART_SIZE..])
    }

    function Drain(): Upload
      decreases |buffer|
    {
      if |buffer| < PART_SIZE then this else Flush().Drain()
    }

    function Write(chunk: Bytes): Upload {
      Receive(chunk).Drain()
    }

    function WriteAll(chunks: seq<Bytes>): Upload
      decreases |chunks|
    {
      if chunks == [] then this else Write(chunks[0]).WriteAll(chunks[1..])
    }
  }

  const EMPTY_UPLOAD := Upload([], [], [])

  // ---- the reference: cut the whole stream at once ----

  function Cut(stream: Bytes): (blocks: seq<Bytes>)
    decreases |stream|
  {
    if |stream| < PART_SIZE then [] else [stream[..PART_SIZE]] + Cut(stream[PART_SIZE..])
  }

  function Rest(stream: Bytes): (tail: Bytes)
    ensures |tail| < PART_SIZE
    decreases |stream|
  {
    if |stream| < PART_SIZE then stream else Rest(stream[PART_SIZE..])
  }

  lemma {:induction false} CutWhole(stream: Bytes)
    ensures Flatten(Cut(stream)) + Rest(stream) == stream
    ensures forall i | 0 <= i < |Cut(stream)| :: |Cut(stream)[i]| == PART_SIZE
    decreases |stream|
  {
    if |stream| >= PART_SIZE {
      var head, tail := stream[..PART_SIZE], stream[PART_SIZE..];
      CutWhole(tail);
      assert Cut(stream) == [head] + Cut(tail) && Rest(stream) == Rest(tail);
      assert Flatten(Cut(stream)) == head + Flatten(Cut(tail)) by {
        assert ([head] + Cut(tail))[1..] == Cut(tail);
      }
      assert stream == head + tail;
    }
  }

  /** Full blocks followed by a short tail can be cut only one way. */
  lemma {:induction false} CutUnique(blocks: seq<Bytes>, tail: Bytes)
    requires forall i | 0 <= i < |blocks| :: |blocks[i]| == PART_SIZE
    requires |tail| < PART_SIZE
    ensures Cut(Flatten(blocks) + tail) == blocks && Rest(Flatten(blocks) + tail) == tail
  {
    if blocks != [] {
      var s := Flatten(blocks) + tail;
      assert s[..PART_SIZE] == blocks[0] && s[PART_SIZE..] == Flatten(blocks[1..]) + tail;
      CutUnique(blocks[1..], tail);
    }
  }

  lemma FlushKeeps(u: Upload)
    requires u.Sized() && |u.buffer| >= PART_SIZE
    ensures u.Flush().Sized() && u.Flush().Contents() == u.Contents()
  {
    FlattenSnoc(u.blocks, u.buffer[..PART_SIZE]);
    assert u.buffer == u.buffer[..PART_SIZE] + u.buffer[PART_SIZE..];
  }

  lemma {:induction false} DrainKeeps(u: Upload)
    requires u.Sized()
    ensures u.Drain().Sized() && |u.Drain().buffer| < PART_SIZE
    ensures u.Drain().hashed == u.hashed && u.Drain().Contents() == u.Contents()
    decreases |u.buffer|
  {
    if |u.buffer| >= PART_SIZE {
      FlushKeeps(u);
      DrainKeeps(u.Flush());
    }
  }

  lemma WriteKeeps(u: Upload, chunk: Bytes)
    requires u.Sized()
    ensures u.Write(chunk).Sized() && |u.Write(chunk).buffer| < PART_SIZE
    ensures u.Write(chunk).hashed == u.hashed + chunk && u.Write(chunk).Contents() == u.Contents() + chunk
  {
    DrainKeeps(u.Receive(chunk));
    assert u.Receive(chunk).Contents() == u.Contents() + chunk;
  }

  lemma {:induction false} WriteAllKeeps(u: Upload, chunks: seq<Bytes>)
    requires u.Sized() && |u.buffer| < PART_SIZE
    ensures var v := u.WriteAll(chunks);
            && v.Sized() && |v.buffer| < PART_SIZE
            && v.hashed == u.hashed + Flatten(chunks)
            && v.Contents() == u.Contents() + Flatten(chunks)
    decreases |chunks|
  {
    if chunks != [] {
      WriteKeeps(u, chunks[0]);
      WriteAllKeeps(u.Write(chunks[0]), chunks[1..]);
      assert u.hashed + chunks[0] + Flatten(chunks[1..]) == u.hashed + Flatten(chunks);
      assert u.Contents() + chunks[0] + Flatten(chunks[1..]) == u.Contents() + Flatten(chunks);
    }
  }

  /**
   * However a stream is chunked, the session ends with the whole stream hashed, and parts
   * and buffer exactly the stream cut at part boundaries.
   */
  lemma ChunkingIsIrrelevant(chunks: seq<Bytes>)
    ensures var stream := Flatten(chunks);
            EMPTY_UPLOAD.WriteAll(chunks) == Upload(stream, Cut(stream), Rest(stream))
  {
    WriteAllKeeps(EMPTY_UPLOAD, chunks);
    var v := EMPTY_UPLOAD.WriteAll(chunks);
    assert EMPTY_UPLOAD.Contents() == [] && v.Contents() == Flatten(chunks) && v.hashed == Flatten(chunks);
    CutUnique(v.blocks, v.buffer);
  }

  lemma SameStreamSameSession(chunks1: seq<Bytes>, chunks2: seq<Bytes>)
    ensures Flatten(chunks1) == Flatten(chunks2) <==>
            EMPTY_UPLOAD.WriteAll(chunks1) == EMPTY_UPLOAD.WriteAll(chunks2)
  {
    ChunkingIsIrrelevant(chunks1);
    ChunkingIsIrrelevant(chunks2);
  }

  // ---- part numbering ----

  /** Parts are numbered 1..n without gaps, and storage holds block i under number i + 1. */
  ghost predicate Numbered(blocks: seq<Bytes>, bodies: map<int, Bytes>, parts: seq<int>) {
    && |parts| == |blocks|
    && forall i | 0 <= i < |blocks| :: parts[i] == i + 1 && i + 1 in bodies && bodies[i + 1] == blocks[i]
  }

  lemma NumberedSnoc(blocks: seq<Bytes>, bodies: map<int, Bytes>, parts: seq<int>, block: Bytes)
    requires Numbered(blocks, bodies, parts)
    ensures Numbered(blocks + [block], bodies[|parts| + 1 := block], parts + [|parts| + 1])
  {
    var blocks', bodies', parts' := blocks + [block], bodies[|parts| + 1 := block], parts + [|parts| + 1];
    forall i | 0 <= i < |blocks'|
      ensures parts'[i] == i + 1 && i + 1 in bodies' && bodies'[i + 1] == blocks'[i]
    {
      if i < |blocks| {
        assert parts[i] == i + 1 && i + 1 in bodies;
        assert parts'[i] == parts[i] && blocks'[i] == blocks[i];
      } else {
        assert parts'[i] == |parts| + 1 == i + 1 && blocks'[i] == block;
      }
    }
    assert Numbered(blocks', bodies', parts');
  }

  lemma {:induction false} AssembledFrom(blocks: seq<Bytes>, bodies: map<int, Bytes>, parts: seq<int>)
    requires |parts| == |blocks|
    requires forall i | 0 <= i < |blocks| :: parts[i] in bodies && bodies[parts[i]] == blocks[i]
    ensures Assembled(bodies, parts) == Flatten(blocks)
  {
    if parts != [] {
      AssembledFrom(blocks[1..], bodies, parts[1..]);
    }
  }
}
