/** Upload sessions interleaving over shared storage: start, patch, finish, cancel and reap. */
module UploadProtocol {
  import opened Common
  import opened Digests
  import opened ObjectStore
  import opened Chunking

  /** Where the request holding a session's lock has got to; `Free` when none holds it. */
  datatype Pc =
    | Free
    | Receiving(finish: Option<Digest>)
    | Flushing(finish: Option<Digest>)
    | Admitting(digest: Digest)
    | Assembling(digest: Digest)
    | Completing(digest: Digest)
    | Copying(digest: Digest)
    | Cleaning(digest: Digest)
    | Recording(digest: Digest)

  /**
   * `multipart` says whether storage still has the session's multipart upload; `lost` counts
   * parts whose upload failed; `committed` lists what was copied to the content-addressed key.
   */
  datatype Session = Session(
    org: string,
    upload: Upload,
    multipart: bool,
    finalizing: bool,
    pc: Pc,
    lost: nat,
    committed: seq<Bytes>)

  type Row = (string, Digest)

  datatype Store = Store(objects: map<string, Bytes>, rows: map<Row, nat>)

  datatype World = World(store: Store, sessions: map<string, Session>)

  /** One atomic step of the request that holds, or takes, the lock of a session. */
  datatype Move =
    | LockPatch
    | LockFinish(expected: Digest)
    | Chunk(bytes: Bytes)
    | SendPart(ok: bool)
    | Flushed
    | EndPatch
    | Abandon(aborted: bool)
    | Verify(aborted: bool)
    | Admit(ok: bool, aborted: bool)
    | PutSmall(ok: bool, aborted: bool)
    | SendTail(ok: bool)
    | Complete(ok: bool)
    | Copy(ok: bool)
    | Clean(ok: bool)
    | Record(ok: bool)
    | Abort(aborted: bool)

  predicate CanMove(s: Session, m: Move) {
    match m
    case LockPatch => s.pc.Free? && !s.finalizing
    case LockFinish(_) => s.pc.Free? && !s.finalizing
    case Chunk(_) => s.pc.Receiving?
    case SendPart(ok) => s.pc.Flushing? && |s.upload.buffer| >= PART_SIZE && (ok ==> s.multipart)
    case Flushed => s.pc.Flushing? && |s.upload.buffer| < PART_SIZE
    case EndPatch => s.pc == Receiving(None)
    case Abandon(_) => s.pc.Receiving?
    case Verify(_) => s.pc.Receiving? && s.pc.finish.Some?
    case Admit(_, _) => s.pc.Admitting?
    case PutSmall(_, _) => s.pc.Assembling? && s.upload.blocks == []
    case SendTail(ok) => s.pc.Assembling? && s.upload.blocks != [] && (ok ==> s.multipart || s.upload.buffer == [])
    case Complete(ok) => s.pc.Completing? && (ok ==> s.multipart)
    case Copy(_) => s.pc.Copying?
    case Clean(_) => s.pc.Cleaning?
    case Record(_) => s.pc.Recording?
    case Abort(_) => s.pc.Free?
  }

  function Release(s: Session): Session {
    s.(pc := Free)
  }

  function Aborted(s: Session, aborted: bool): Session {
    s.(pc := Free, multipart := s.multipart && !aborted)
  }

  /** Steps up to and including quota admission touch only the session. */
  function Ingest(sha: Bytes -> Digest, s: Session, m: Move): Session
    requires CanMove(s, m) && (m.LockPatch? || m.LockFinish? || m.Chunk? || m.SendPart? || m.Flushed?
                               || m.EndPatch? || m.Abandon? || m.Verify? || m.Admit? || m.Abort?)
  {
    match m
    case LockPatch => s.(pc := Receiving(None))
    case LockFinish(expected) => s.(pc := Receiving(Some(expected)), finalizing := true)
    case Chunk(bytes) => s.(upload := s.upload.Receive(bytes), pc := Flushing(s.pc.finish))
    case SendPart(ok) =>
      if ok then s.(upload := s.upload.Flush())
      else Release(s.(upload := s.upload.Drop(), lost := s.lost + 1))
    case Flushed => s.(pc := Receiving(s.pc.finish))
    case EndPatch => Release(s)
    case Abandon(aborted) => Aborted(s, aborted)
    case Verify(aborted) =>
      if DigestsEqual(sha(s.upload.hashed), s.pc.finish.value)
      then s.(pc := Admitting(sha(s.upload.hashed)))
      else Aborted(s, aborted)
    case Admit(ok, aborted) => if ok then s.(pc := Assembling(s.pc.digest)) else Aborted(s, aborted)
    case Abort(aborted) => Aborted(s, aborted)
  }

  /** The commit path: assemble the temporary object, copy it, delete it, record the blob. */
  function CommitStep(w: Store, id: string, s: Session, m: Move): (Store, Session)
    requires CanMove(s, m) && (m.PutSmall? || m.SendTail? || m.Complete? || m.Copy? || m.Clean? || m.Record?)
  {
    var temp := UploadKey(s.org, id);
    match m
    case PutSmall(ok, aborted) =>
      var s' := s.(upload := s.upload.(buffer := []), multipart := s.multipart && !aborted);
      if ok then (w.(objects := w.objects[temp := s.upload.buffer]), s'.(pc := Copying(s.pc.digest)))
      else (w, Release(s'))
    case SendTail(ok) =>
      if s.upload.buffer == [] then (w, s.(pc := Completing(s.pc.digest)))
      else if ok
      then (w,
            s.(upload := Upload(s.upload.hashed, s.upload.blocks + [s.upload.buffer], []),
               pc := Completing(s.pc.digest)))
      else (w, Release(s.(upload := s.upload.(buffer := []))))
    case Complete(ok) =>
      var s' := s.(upload := s.upload.(blocks := []));
      if ok then (w.(objects := w.objects[temp := Flatten(s.upload.blocks)]),
                  s'.(multipart := false, pc := Copying(s.pc.digest)))
      else (w, Release(s'))
    case Copy(ok) =>
      if ok && temp in w.objects
      then (w.(objects := w.objects[BlobKey(s.org, s.pc.digest) := w.objects[temp]]),
            s.(committed := s.committed + [w.objects[temp]], pc := Cleaning(s.pc.digest)))
      else (w, Release(s))
    case Clean(ok) =>
      (if ok then w.(objects := w.objects - {temp}) else w, s.(pc := Recording(s.pc.digest)))
    case Record(ok) =>
      var row := (s.org, s.pc.digest);
      (if ok && row !in w.rows then w.(rows := w.rows[row := |s.upload.hashed|]) else w, Release(s))
  }

  predicate Commits(m: Move) {
    m.PutSmall? || m.SendTail? || m.Complete? || m.Copy? || m.Clean? || m.Record?
  }

  function Step(sha: Bytes -> Digest, w: Store, id: string, s: Session, m: Move): (Store, Session)
    requires CanMove(s, m)
  {
    if Commits(m) then CommitStep(w, id, s, m) else (w, Ingest(sha, s, m))
  }

  datatype Action =
    | Start(id: string, org: string)
    | Act(id: string, move: Move)
    | DeleteObject(org: string, digest: Digest)
    | DeleteRow(org: string, digest: Digest)

  /** The last two stand for blob deletion and garbage collection. */
  ghost predicate Takes(sha: Bytes -> Digest, w: World, a: Action, w': World) {
    match a
    case Start(id, org) =>
      && id !in w.sessions && '/' !in org
      && w' == w.(sessions := w.sessions[id := Session(org, EMPTY_UPLOAD, true, false, Free, 0, [])])
    case Act(id, m) =>
      && id in w.sessions && CanMove(w.sessions[id], m)
      && var (store', s') := Step(sha, w.store, id, w.sessions[id], m);
         w' == World(store', w.sessions[id := s'])
    case DeleteObject(org, digest) =>
      && '/' !in org && Canonical(digest)
      && w' == w.(store := w.store.(objects := w.store.objects - {BlobKey(org, digest)}))
    case DeleteRow(org, digest) => w' == w.(store := w.store.(rows := w.store.rows - {(org, digest)}))
  }

  ghost predicate Reachable(sha: Bytes -> Digest, w: World, steps: nat)
    decreases steps
  {
    if steps == 0 then w == World(Store(map[], map[]), map[])
    else exists w0, a :: Reachable(sha, w0, steps - 1) && Takes(sha, w0, a, w)
  }

  // ---- one session ----

  /** Nothing lost: exactly the hashed stream. Something lost: strictly shorter. */
  predicate Faithful(content: Bytes, s: Session) {
    if s.lost == 0 then content == s.upload.hashed else |content| < |s.upload.hashed|
  }

  predicate InFinish(s: Session) {
    match s.pc
    case Free => false
    case Receiving(f) => f.Some?
    case Flushing(f) => f.Some?
    case _ => true
  }

  ghost predicate SessionOk(sha: Bytes -> Digest, w: Store, id: string, s: Session) {
    && '/' !in s.org
    && (InFinish(s) ==> s.finalizing)
    && (!s.pc.Free? && !InFinish(s) ==> !s.finalizing)
    && (match s.pc
        case Free =>
          if s.finalizing then |s.committed| <= 1 && forall c <- s.committed :: Faithful(c, s)
          else s.committed == [] && Faithful(s.upload.Contents(), s)
        case Receiving(_) => s.committed == [] && Faithful(s.upload.Contents(), s)
        case Flushing(_) => s.committed == [] && Faithful(s.upload.Contents(), s)
        case Completing(d) =>
          d == sha(s.upload.hashed) && s.committed == [] && Faithful(Flatten(s.upload.blocks), s)
        case Copying(d) =>
          d == sha(s.upload.hashed) && s.committed == []
          && (UploadKey(s.org, id) in w.objects ==> Faithful(w.objects[UploadKey(s.org, id)], s))
        case Cleaning(d) => d == sha(s.upload.hashed) && |s.committed| == 1 && Faithful(s.committed[0], s)
        case Recording(d) => d == sha(s.upload.hashed) && |s.committed| == 1 && Faithful(s.committed[0], s)
        case _ => s.pc.digest == sha(s.upload.hashed) && s.committed == [] && Faithful(s.upload.Contents(), s))
  }

  lemma ReceiveFaithful(s: Session, bytes: Bytes)
    requires Faithful(s.upload.Contents(), s)
    ensures var s' := s.(upload := s.upload.Receive(bytes)); Faithful(s'.upload.Contents(), s')
  {
    var u' := s.upload.Receive(bytes);
    assert u'.Contents() == s.upload.Contents() + bytes;
  }

  lemma SendPartFaithful(s: Session, ok: bool)
    requires Faithful(s.upload.Contents(), s) && |s.upload.buffer| >= PART_SIZE
    ensures var s' := if ok then s.(upload := s.upload.Flush())
                      else s.(upload := s.upload.Drop(), lost := s.lost + 1);
            Faithful(s'.upload.Contents(), s')
  {
    var u := s.upload;
    FlattenSnoc(u.blocks, u.buffer[..PART_SIZE]);
    assert u.buffer == u.buffer[..PART_SIZE] + u.buffer[PART_SIZE..];
    assert u.Flush().Contents() == u.Contents();
    assert |u.Drop().Contents()| == |u.Contents()| - PART_SIZE;
  }

  lemma IngestKeeps(sha: Bytes -> Digest, w: Store, id: string, s: Session, m: Move)
    requires SessionOk(sha, w, id, s) && CanMove(s, m) && !Commits(m)
    ensures SessionOk(sha, w, id, Ingest(sha, s, m))
  {
    match m
    case Chunk(bytes) => ReceiveFaithful(s, bytes);
    case SendPart(ok) => SendPartFaithful(s, ok);
    case _ =>
  }

  lemma CommitStepKeeps(sha: Bytes -> Digest, w: Store, id: string, s: Session, m: Move)
    requires SessionOk(sha, w, id, s) && CanMove(s, m) && Commits(m)
    ensures SessionOk(sha, CommitStep(w, id, s, m).0, id, CommitStep(w, id, s, m).1)
  {
    match m
    case PutSmall(_, _) => assert s.upload.Contents() == s.upload.buffer;
    case SendTail(_) =>
      FlattenSnoc(s.upload.blocks, s.upload.buffer);
      assert s.upload.buffer == [] ==> s.upload.Contents() == Flatten(s.upload.blocks);
    case _ =>
  }

  // ---- all sessions together ----

  /** Which keys a session's step may write: its temporary key and its organisation's blob keys. */
  ghost predicate WritesOnlyOwn(w: Store, w': Store, id: string, org: string) {
    forall k :: (k in w.objects || k in w'.objects) && k != UploadKey(org, id)
                && !(exists d :: Canonical(d) && k == BlobKey(org, d)) ==>
      k in w.objects && k in w'.objects && w'.objects[k] == w.objects[k]
  }

  lemma CommitWritesOwn(sha: Bytes -> Digest, w: Store, id: string, s: Session, m: Move)
    requires Hashing(sha) && SessionOk(sha, w, id, s) && CanMove(s, m) && Commits(m)
    ensures WritesOnlyOwn(w, CommitStep(w, id, s, m).0, id, s.org)
  {
    if m.Copy? {
      assert Canonical(s.pc.digest);
    }
  }

  lemma OtherSessionsKeep(sha: Bytes -> Digest, w: Store, w': Store, id: string, org: string, id2: string, s2: Session)
    requires SessionOk(sha, w, id2, s2) && id2 != id && '/' !in org && WritesOnlyOwn(w, w', id, org)
    ensures SessionOk(sha, w', id2, s2)
  {
    var k := UploadKey(s2.org, id2);
    UploadKeyInjective(org, id, s2.org, id2);
    forall d | Canonical(d) ensures k != BlobKey(org, d) {
      UploadKeyIsNoBlob(s2.org, id2, org, d);
    }
  }

  ghost predicate SessionsOk(sha: Bytes -> Digest, w: World) {
    forall id <- w.sessions :: SessionOk(sha, w.store, id, w.sessions[id])
  }

  /** No session that committed had lost a part; sessions that lost one and never committed are harmless. */
  predicate NoLossyCommit(w: World) {
    forall id <- w.sessions :: w.sessions[id].committed != [] ==> w.sessions[id].lost == 0
  }

  /** Session `id` hashed a stream to `d` and committed the object now stored under that key. */
  predicate Source(sha: Bytes -> Digest, w: World, id: string, org: string, d: Digest)
    requires BlobKey(org, d) in w.store.objects
  {
    && id in w.sessions && w.sessions[id].org == org && sha(w.sessions[id].upload.hashed) == d
    && w.sessions[id].committed == [w.store.objects[BlobKey(org, d)]]
  }

  /** Every object under a blob key was committed there by some session. */
  ghost predicate Provenance(sha: Bytes -> Digest, w: World) {
    forall org, d {:trigger BlobKey(org, d)} :: '/' !in org && Canonical(d) && BlobKey(org, d) in w.store.objects ==>
      exists id :: Source(sha, w, id, org, d)
  }

  ghost predicate ObjectsHash(sha: Bytes -> Digest, w: Store) {
    forall org, d {:trigger BlobKey(org, d)} :: '/' !in org && Canonical(d) && BlobKey(org, d) in w.objects ==>
      sha(w.objects[BlobKey(org, d)]) == d
  }

  /** A row's size is the length of some content with its digest. */
  ghost predicate RowsMeasured(sha: Bytes -> Digest, w: Store) {
    forall row <- w.rows :: exists c :: sha(c) == row.1 && |c| == w.rows[row]
  }

  ghost predicate Inv(sha: Bytes -> Digest, w: World) {
    && SessionsOk(sha, w)
    && (NoLossyCommit(w) ==> ObjectsHash(sha, w.store))
    && Provenance(sha, w)
    && RowsMeasured(sha, w.store)
  }

  lemma CommitObjectsHash(sha: Bytes -> Digest, w: Store, id: string, s: Session, m: Move)
    requires Hashing(sha) && SessionOk(sha, w, id, s) && CanMove(s, m) && Commits(m)
    requires ObjectsHash(sha, w) && (CommitStep(w, id, s, m).1.committed != [] ==> s.lost == 0)
    ensures ObjectsHash(sha, CommitStep(w, id, s, m).0)
  {
    var w' := CommitStep(w, id, s, m).0;
    forall org, d | '/' !in org && Canonical(d) && BlobKey(org, d) in w'.objects
      ensures sha(w'.objects[BlobKey(org, d)]) == d
    {
      UploadKeyIsNoBlob(s.org, id, org, d);
      if m.Copy? {
        BlobKeyInjective(s.org, s.pc.digest, org, d);
      }
    }
  }

  lemma CommitRowsMeasured(sha: Bytes -> Digest, w: Store, id: string, s: Session, m: Move)
    requires SessionOk(sha, w, id, s) && CanMove(s, m) && Commits(m) && RowsMeasured(sha, w)
    ensures RowsMeasured(sha, CommitStep(w, id, s, m).0)
  {
    if m.Record? {
      assert sha(s.upload.hashed) == s.pc.digest;
    }
  }

  /** What a session has committed, and hashed by then, no step changes any more. */
  lemma CommittedStays(sha: Bytes -> Digest, w: Store, id: string, s: Session, m: Move)
    requires SessionOk(sha, w, id, s) && CanMove(s, m) && s.committed != []
    ensures var s' := Step(sha, w, id, s, m).1;
            s'.committed == s.committed && s'.upload.hashed == s.upload.hashed && s'.lost == s.lost && s'.org == s.org
  {
  }

  lemma ActNoLossyCommit(sha: Bytes -> Digest, w: World, id: string, m: Move)
    requires SessionsOk(sha, w) && id in w.sessions && CanMove(w.sessions[id], m)
    requires var (store', s') := Step(sha, w.store, id, w.sessions[id], m);
             NoLossyCommit(World(store', w.sessions[id := s']))
    ensures NoLossyCommit(w)
    ensures Step(sha, w.store, id, w.sessions[id], m).1.committed != [] ==> w.sessions[id].lost == 0
  {
    var s := w.sessions[id];
    var (store', s') := Step(sha, w.store, id, s, m);
    var w' := World(store', w.sessions[id := s']);
    assert SessionOk(sha, w.store, id, s);
    assert w'.sessions[id] == s' && s'.lost >= s.lost;
    if s.committed != [] {
      CommittedStays(sha, w.store, id, s, m);
    }
    assert forall k <- w.sessions :: k != id ==> w'.sessions[k] == w.sessions[k];
  }

  /** A step leaves each blob object with its source, or is itself the commit that wrote it. */
  lemma ActSource(sha: Bytes -> Digest, w: World, id: string, m: Move, w': World, org: string, d: Digest)
    requires Hashing(sha) && SessionsOk(sha, w) && Provenance(sha, w) && Takes(sha, w, Act(id, m), w')
    requires '/' !in org && Canonical(d) && BlobKey(org, d) in w'.store.objects
    ensures exists k :: Source(sha, w', k, org, d)
  {
    var s := w.sessions[id];
    var (store', s') := Step(sha, w.store, id, s, m);
    assert SessionOk(sha, w.store, id, s);
    UploadKeyIsNoBlob(s.org, id, org, d);
    if m.Copy? {
      BlobKeyInjective(s.org, s.pc.digest, org, d);
    }
    if m.Copy? && s'.committed != [] && s.org == org && s.pc.digest == d {
      assert Source(sha, w', id, org, d);
    } else {
      assert BlobKey(org, d) in w.store.objects && store'.objects[BlobKey(org, d)] == w.store.objects[BlobKey(org, d)];
      var k :| Source(sha, w, k, org, d);
      if k == id {
        CommittedStays(sha, w.store, id, s, m);
      }
      assert Source(sha, w', k, org, d);
    }
  }

  lemma ActKeepsSessions(sha: Bytes -> Digest, w: World, id: string, m: Move)
    requires Hashing(sha) && SessionsOk(sha, w) && id in w.sessions && CanMove(w.sessions[id], m)
    ensures var (store', s') := Step(sha, w.store, id, w.sessions[id], m);
            SessionsOk(sha, World(store', w.sessions[id := s']))
  {
    var s := w.sessions[id];
    var (store', s') := Step(sha, w.store, id, s, m);
    var w' := World(store', w.sessions[id := s']);
    assert SessionOk(sha, w.store, id, s);
    if Commits(m) {
      CommitStepKeeps(sha, w.store, id, s, m);
      CommitWritesOwn(sha, w.store, id, s, m);
      forall k <- w'.sessions ensures SessionOk(sha, store', k, w'.sessions[k]) {
        if k != id {
          OtherSessionsKeep(sha, w.store, store', id, s.org, k, w.sessions[k]);
        }
      }
    } else {
      IngestKeeps(sha, w.store, id, s, m);
    }
  }

  lemma ActKeeps(sha: Bytes -> Digest, w: World, id: string, m: Move)
    requires Hashing(sha) && Inv(sha, w) && id in w.sessions && CanMove(w.sessions[id], m)
    ensures var (store', s') := Step(sha, w.store, id, w.sessions[id], m);
            Inv(sha, World(store', w.sessions[id := s']))
  {
    var s := w.sessions[id];
    var (store', s') := Step(sha, w.store, id, s, m);
    var w' := World(store', w.sessions[id := s']);
    ActKeepsSessions(sha, w, id, m);
    assert SessionOk(sha, w.store, id, s);
    if Commits(m) {
      CommitRowsMeasured(sha, w.store, id, s, m);
    }
    if NoLossyCommit(w') {
      ActNoLossyCommit(sha, w, id, m);
      if Commits(m) {
        CommitObjectsHash(sha, w.store, id, s, m);
      }
    }
    forall org, d | '/' !in org && Canonical(d) && BlobKey(org, d) in store'.objects
      ensures exists k :: Source(sha, w', k, org, d)
    {
      ActSource(sha, w, id, m, w', org, d);
    }
  }

  /** Starting a session and deleting objects or rows leave the committing sessions as they were. */
  lemma OtherActionsKeep(sha: Bytes -> Digest, w: World, a: Action, w': World)
    requires Hashing(sha) && Inv(sha, w) && Takes(sha, w, a, w') && !a.Act?
    ensures Inv(sha, w')
  {
    assert forall k <- w.sessions :: k in w'.sessions && w'.sessions[k] == w.sessions[k];
    forall org, d | '/' !in org && Canonical(d) && BlobKey(org, d) in w'.store.objects
      ensures exists k :: Source(sha, w', k, org, d)
    {
      var k :| Source(sha, w, k, org, d);
      assert Source(sha, w', k, org, d);
    }
    OtherActionsKeepSessions(sha, w, a, w');
  }

  lemma OtherActionsKeepSessions(sha: Bytes -> Digest, w: World, a: Action, w': World)
    requires Hashing(sha) && SessionsOk(sha, w) && Takes(sha, w, a, w') && !a.Act?
    ensures SessionsOk(sha, w')
  {
    match a
    case Start(id, org) => assert forall k <- w'.sessions :: k != id ==> k in w.sessions;
    case DeleteObject(org, digest) =>
      forall id <- w'.sessions ensures SessionOk(sha, w'.store, id, w'.sessions[id]) {
        assert SessionOk(sha, w.store, id, w.sessions[id]);
      }
    case DeleteRow(_, _) =>
  }

  lemma TakesKeeps(sha: Bytes -> Digest, w: World, a: Action, w': World)
    requires Hashing(sha) && Inv(sha, w) && Takes(sha, w, a, w')
    ensures Inv(sha, w')
  {
    match a
    case Act(id, m) => ActKeeps(sha, w, id, m);
    case _ => OtherActionsKeep(sha, w, a, w');
  }

  lemma {:induction false} InvAlways(sha: Bytes -> Digest, w: World, steps: nat)
    requires Hashing(sha) && Reachable(sha, w, steps)
    ensures Inv(sha, w)
    decreases steps
  {
    if steps > 0 {
      var w0, a :| Reachable(sha, w0, steps - 1) && Takes(sha, w0, a, w);
      InvAlways(sha, w0, steps - 1);
      TakesKeeps(sha, w0, a, w);
    }
  }

  /**
   * In every interleaving a session commits at most once, and what it commits is the whole
   * stream it hashed if and only if none of its part uploads failed.
   */
  lemma CommitsWholeStreamExactly(sha: Bytes -> Digest, w: World, steps: nat, id: string)
    requires Hashing(sha) && Reachable(sha, w, steps) && id in w.sessions
    ensures var s := w.sessions[id];
            && |s.committed| <= 1
            && (s.committed != [] ==> (s.committed == [s.upload.hashed] <==> s.lost == 0))
  {
    InvAlways(sha, w, steps);
    var s := w.sessions[id];
    assert SessionOk(sha, w.store, id, s);
    if s.committed != [] {
      assert Faithful(s.committed[0], s);
      assert s.committed == [s.committed[0]];
    }
  }

  /** The hash being collision free, a commit hashes to the digest of its session exactly when no part was lost. */
  lemma CommitHashesExactly(sha: Bytes -> Digest, w: World, steps: nat, id: string)
    requires Hashing(sha) && Injective(sha) && Reachable(sha, w, steps)
    requires id in w.sessions && w.sessions[id].committed != []
    ensures var s := w.sessions[id]; sha(s.committed[0]) == sha(s.upload.hashed) <==> s.lost == 0
  {
    CommitsWholeStreamExactly(sha, w, steps, id);
    var s := w.sessions[id];
    assert s.committed == [s.committed[0]];
  }

  /** While no session that lost a part committed, the object under `blob_key(org, d)` hashes to `d`. */
  lemma StoredBlobsHashToTheirKey(sha: Bytes -> Digest, w: World, steps: nat, org: string, d: Digest)
    requires Hashing(sha) && Reachable(sha, w, steps) && NoLossyCommit(w)
    requires '/' !in org && Canonical(d) && BlobKey(org, d) in w.store.objects
    ensures sha(w.store.objects[BlobKey(org, d)]) == d
  {
    InvAlways(sha, w, steps);
  }

  /**
   * In every run at all, the hash being collision free, a stored object hashes to its key
   * exactly when some session that lost nothing committed it there.
   */
  lemma StoredBlobHashesExactly(sha: Bytes -> Digest, w: World, steps: nat, org: string, d: Digest)
    requires Hashing(sha) && Injective(sha) && Reachable(sha, w, steps)
    requires '/' !in org && Canonical(d) && BlobKey(org, d) in w.store.objects
    ensures sha(w.store.objects[BlobKey(org, d)]) == d <==>
            exists id :: Source(sha, w, id, org, d) && w.sessions[id].lost == 0
  {
    InvAlways(sha, w, steps);
    var source :| Source(sha, w, source, org, d);
    forall id | Source(sha, w, id, org, d)
      ensures sha(w.store.objects[BlobKey(org, d)]) == d <==> w.sessions[id].lost == 0
    {
      CommitHashesExactly(sha, w, steps, id);
    }
  }

  /**
   * The recorded size is the length of the stored object exactly when the object hashes to
   * its key; so always, while no session that lost a part committed.
   */
  lemma RecordedSizeIsLength(sha: Bytes -> Digest, w: World, steps: nat, org: string, d: Digest)
    requires Hashing(sha) && Injective(sha) && Reachable(sha, w, steps)
    requires '/' !in org && Canonical(d) && BlobKey(org, d) in w.store.objects && (org, d) in w.store.rows
    ensures var content := w.store.objects[BlobKey(org, d)];
            && (w.store.rows[(org, d)] == |content| <==> sha(content) == d)
            && (NoLossyCommit(w) ==> w.store.rows[(org, d)] == |content|)
  {
    InvAlways(sha, w, steps);
    var c :| sha(c) == d && |c| == w.store.rows[(org, d)];
    var id :| Source(sha, w, id, org, d);
    var s := w.sessions[id];
    assert SessionOk(sha, w.store, id, s);
    assert sha(s.upload.hashed) == sha(c);
    assert Faithful(s.committed[0], s);
  }

  // ---- the failing family is inhabited ----

  lemma Go(sha: Bytes -> Digest, w: World, n: nat, id: string, m: Move) returns (w': World, n': nat)
    requires Reachable(sha, w, n) && id in w.sessions && CanMove(w.sessions[id], m)
    ensures Reachable(sha, w', n')
    ensures var (store', s') := Step(sha, w.store, id, w.sessions[id], m);
            w' == World(store', w.sessions[id := s'])
  {
    var (store', s') := Step(sha, w.store, id, w.sessions[id], m);
    w', n' := World(store', w.sessions[id := s']), n + 1;
    assert Takes(sha, w, Act(id, m), w');
  }

  lemma CanonicalEqualsItself(d: Digest)
    requires Canonical(d)
    ensures DigestsEqual(d, d)
  {
    CanonicalParses(d);
  }

  /** A patch whose only part fails to upload, leaving an idle session that hashed it. */
  lemma LosingPatch(sha: Bytes -> Digest, data: Bytes) returns (w: World, n: nat)
    requires |data| == PART_SIZE
    ensures Reachable(sha, w, n) && w.store == Store(map[], map[])
    ensures w.sessions == map["u" := Session("o", Upload(data, [], []), true, false, Free, 1, [])]
  {
    var w0 := World(Store(map[], map[]), map[]);
    assert Reachable(sha, w0, 0);
    w, n := w0.(sessions := map["u" := Session("o", EMPTY_UPLOAD, true, false, Free, 0, [])]), 1;
    assert Takes(sha, w0, Start("u", "o"), w);
    assert Reachable(sha, w0, n - 1);
    w, n := Go(sha, w, n, "u", LockPatch);
    w, n := Go(sha, w, n, "u", Chunk(data));
    assert w.sessions["u"].upload == Upload(data, [], data);
    w, n := Go(sha, w, n, "u", SendPart(false));
    assert w.sessions["u"].upload == Upload(data, [], []);
  }

  /**
   * The bytes of one failed part upload can vanish from a blob that is nonetheless verified
   * and committed: eight mebibytes go in, an empty object comes out under their digest.
   */
  lemma LostPartIsCommittedShort(sha: Bytes -> Digest, data: Bytes) returns (w: World, n: nat)
    requires Hashing(sha) && |data| == PART_SIZE
    ensures Reachable(sha, w, n) && "u" in w.sessions
    ensures w.sessions["u"].upload.hashed == data && w.sessions["u"].committed == [[]]
    ensures BlobKey("o", sha(data)) in w.store.objects && w.store.objects[BlobKey("o", sha(data))] == []
  {
    CanonicalEqualsItself(sha(data));
    w, n := LosingPatch(sha, data);
    w, n := Go(sha, w, n, "u", LockFinish(sha(data)));
    w, n := Go(sha, w, n, "u", Verify(true));
    w, n := Go(sha, w, n, "u", Admit(true, true));
    w, n := Go(sha, w, n, "u", PutSmall(true, true));
    w, n := Go(sha, w, n, "u", Copy(true));
  }
}
