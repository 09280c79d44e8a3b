/** Upload sessions against the requests that were made: what was sent is what is hashed, verified and committed. */
module UploadHistory {
  import opened Common
  import opened Digests
  import opened ObjectStore
  import opened Chunking
  import opened UploadProtocol

  function Before(acts: seq<Action>): seq<Action>
    requires acts != []
  {
    acts[..|acts| - 1]
  }

  function Last(acts: seq<Action>): Action
    requires acts != []
  {
    acts[|acts| - 1]
  }

  /** A run, by the actions it took. */
  ghost predicate Led(sha: Bytes -> Digest, acts: seq<Action>, w: World)
    decreases |acts|
  {
    if acts == [] then w == World(Store(map[], map[]), map[])
    else exists w0 :: Led(sha, Before(acts), w0) && Takes(sha, w0, Last(acts), w)
  }

  lemma {:induction false} LedReachable(sha: Bytes -> Digest, acts: seq<Action>, w: World)
    requires Led(sha, acts, w)
    ensures Reachable(sha, w, |acts|)
    decreases |acts|
  {
    if acts != [] {
      var w0 :| Led(sha, Before(acts), w0) && Takes(sha, w0, Last(acts), w);
      LedReachable(sha, Before(acts), w0);
    }
  }

  /** The steps of one session since it was started. */
  function Moves(acts: seq<Action>, id: string): seq<Move>
    decreases |acts|
  {
    if acts == [] then []
    else
      var before := Moves(Before(acts), id);
      match Last(acts)
      case Start(i, _) => if i == id then [] else before
      case Act(i, m) => if i == id then before + [m] else before
      case _ => before
  }

  // ---- what the requests of a session asked for ----

  /** The bodies received, in order, patches and finish alike. */
  function Sent(ms: seq<Move>): Bytes
    decreases |ms|
  {
    if ms == [] then []
    else Sent(ms[..|ms| - 1]) + (match ms[|ms| - 1] case Chunk(bytes) => bytes case _ => [])
  }

  /** The digest the last finish request named. */
  function Asked(ms: seq<Move>): Option<Digest>
    decreases |ms|
  {
    if ms == [] then None
    else match ms[|ms| - 1] case LockFinish(expected) => Some(expected) case _ => Asked(ms[..|ms| - 1])
  }

  /** How many part uploads failed. */
  function Failed(ms: seq<Move>): nat
    decreases |ms|
  {
    if ms == [] then 0 else Failed(ms[..|ms| - 1]) + if ms[|ms| - 1] == SendPart(false) then 1 else 0
  }

  /** The quota admitted the blob. */
  predicate WasAdmitted(ms: seq<Move>) {
    exists i | 0 <= i < |ms| :: ms[i].Admit? && ms[i].ok
  }

  /** The temporary object could not be copied, or not be deleted. */
  predicate LeftBehind(ms: seq<Move>) {
    Copy(false) in ms || Clean(false) in ms
  }

  predicate Verified(ms: seq<Move>, d: Digest) {
    Asked(ms).Some? && DigestsEqual(d, Asked(ms).value)
  }

  /** The step aborts or completes the multipart upload. */
  predicate Closes(sha: Bytes -> Digest, before: seq<Move>, m: Move) {
    match m
    case Abandon(aborted) => aborted
    case Abort(aborted) => aborted
    case Verify(aborted) => aborted && !Verified(before, sha(Sent(before)))
    case Admit(ok, aborted) => aborted && !ok
    case PutSmall(_, aborted) => aborted
    case Complete(ok) => ok
    case _ => false
  }

  predicate Closed(sha: Bytes -> Digest, ms: seq<Move>)
    decreases |ms|
  {
    ms != [] && (Closed(sha, ms[..|ms| - 1]) || Closes(sha, ms[..|ms| - 1], ms[|ms| - 1]))
  }

  /** What a session's fields say of its requests. */
  ghost predicate HistoryOk(sha: Bytes -> Digest, ms: seq<Move>, s: Session) {
    && s.upload.hashed == Sent(ms) && s.lost == Failed(ms) && (s.multipart <==> !Closed(sha, ms))
    && (s.finalizing <==> Asked(ms).Some?)
    && (s.committed != [] ==> Verified(ms, sha(s.upload.hashed)) && WasAdmitted(ms))
    && match s.pc
       case Free => true
       case Receiving(f) => f == Asked(ms)
       case Flushing(f) => f == Asked(ms)
       case Admitting(d) => Verified(ms, d)
       case _ => Verified(ms, s.pc.digest) && WasAdmitted(ms)
  }

  lemma Snoc(sha: Bytes -> Digest, ms: seq<Move>, m: Move)
    ensures Closed(sha, ms + [m]) <==> Closed(sha, ms) || Closes(sha, ms, m)
    ensures Sent(ms + [m]) == Sent(ms) + match m case Chunk(bytes) => bytes case _ => []
    ensures Asked(ms + [m]) == match m case LockFinish(expected) => Some(expected) case _ => Asked(ms)
    ensures Failed(ms + [m]) == Failed(ms) + if m == SendPart(false) then 1 else 0
    ensures WasAdmitted(ms + [m]) <==> WasAdmitted(ms) || (m.Admit? && m.ok)
    ensures LeftBehind(ms + [m]) <==> LeftBehind(ms) || m == Copy(false) || m == Clean(false)
  {
    var more := ms + [m];
    assert more[..|more| - 1] == ms && more[|ms|] == m;
    assert forall i | 0 <= i < |ms| :: more[i] == ms[i];
  }

  lemma IngestHistory(sha: Bytes -> Digest, w: Store, id: string, s: Session, m: Move, ms: seq<Move>)
    requires SessionOk(sha, w, id, s) && HistoryOk(sha, ms, s) && CanMove(s, m) && !Commits(m)
    ensures HistoryOk(sha, ms + [m], Ingest(sha, s, m))
  {
    Snoc(sha, ms, m);
  }

  lemma CommitHistory(sha: Bytes -> Digest, w: Store, id: string, s: Session, m: Move, ms: seq<Move>)
    requires SessionOk(sha, w, id, s) && HistoryOk(sha, ms, s) && CanMove(s, m) && Commits(m)
    ensures HistoryOk(sha, ms + [m], CommitStep(w, id, s, m).1)
  {
    Snoc(sha, ms, m);
  }

  lemma HistoryStep(sha: Bytes -> Digest, w: Store, id: string, s: Session, m: Move, ms: seq<Move>)
    requires SessionOk(sha, w, id, s) && HistoryOk(sha, ms, s) && CanMove(s, m)
    ensures HistoryOk(sha, ms + [m], Step(sha, w, id, s, m).1)
  {
    if Commits(m) {
      CommitHistory(sha, w, id, s, m, ms);
    } else {
      IngestHistory(sha, w, id, s, m, ms);
    }
  }

  lemma {:induction false} HistoryAlways(sha: Bytes -> Digest, acts: seq<Action>, w: World, id: string)
    requires Hashing(sha) && Led(sha, acts, w) && id in w.sessions
    ensures HistoryOk(sha, Moves(acts, id), w.sessions[id])
    decreases |acts|
  {
    if acts != [] {
      var front, a := Before(acts), Last(acts);
      var w0 :| Led(sha, front, w0) && Takes(sha, w0, a, w);
      if a != Start(id, w.sessions[id].org) {
        HistoryAlways(sha, front, w0, id);
        if a.Act? && a.id == id {
          LedReachable(sha, front, w0);
          InvAlways(sha, w0, |front|);
          assert SessionOk(sha, w0.store, id, w0.sessions[id]);
          HistoryStep(sha, w0.store, id, w0.sessions[id], a.move, Moves(front, id));
        }
      }
    }
  }

  /** Parts go only to a multipart upload that is still open. */
  lemma PartsGoToOpenUploads(sha: Bytes -> Digest, acts: seq<Action>, w: World, id: string, m: Move)
    requires Hashing(sha) && Led(sha, acts, w) && id in w.sessions && CanMove(w.sessions[id], m)
    requires m == SendPart(true) || m == Complete(true) || (m == SendTail(true) && w.sessions[id].upload.buffer != [])
    ensures !Closed(sha, Moves(acts, id))
  {
    HistoryAlways(sha, acts, w, id);
  }

  // ---- how a session is cut ----

  /** Until its parts are assembled a session holds full parts and, unless one was lost or is due, a short tail. */
  ghost predicate CutOk(s: Session) {
    s.pc.Receiving? || s.pc.Flushing? || s.pc.Admitting? || s.pc.Assembling? || (s.pc.Free? && !s.finalizing) ==>
      s.upload.Sized() && (s.lost == 0 && !s.pc.Flushing? ==> |s.upload.buffer| < PART_SIZE)
  }

  lemma CutStep(sha: Bytes -> Digest, w: Store, id: string, s: Session, m: Move)
    requires SessionOk(sha, w, id, s) && CutOk(s) && CanMove(s, m)
    ensures CutOk(Step(sha, w, id, s, m).1)
  {
  }

  lemma {:induction false} CutAlways(sha: Bytes -> Digest, acts: seq<Action>, w: World, id: string)
    requires Hashing(sha) && Led(sha, acts, w) && id in w.sessions
    ensures CutOk(w.sessions[id])
    decreases |acts|
  {
    if acts != [] {
      var front, a := Before(acts), Last(acts);
      var w0 :| Led(sha, front, w0) && Takes(sha, w0, a, w);
      if a != Start(id, w.sessions[id].org) {
        CutAlways(sha, front, w0, id);
        if a.Act? && a.id == id {
          LedReachable(sha, front, w0);
          InvAlways(sha, w0, |front|);
          assert SessionOk(sha, w0.store, id, w0.sessions[id]);
          CutStep(sha, w0.store, id, w0.sessions[id], a.move);
        }
      }
    }
  }

  /** Between requests a session that lost nothing holds the stream sent so far, cut the one possible way. */
  lemma SessionIsCut(sha: Bytes -> Digest, acts: seq<Action>, w: World, id: string)
    requires Hashing(sha) && Led(sha, acts, w) && id in w.sessions
    requires w.sessions[id].pc.Free? && !w.sessions[id].finalizing && Failed(Moves(acts, id)) == 0
    ensures var sent := Sent(Moves(acts, id)); w.sessions[id].upload == Upload(sent, Cut(sent), Rest(sent))
  {
    var s := w.sessions[id];
    HistoryAlways(sha, acts, w, id);
    CutAlways(sha, acts, w, id);
    LedReachable(sha, acts, w);
    InvAlways(sha, w, |acts|);
    assert SessionOk(sha, w.store, id, s);
    CutUnique(s.upload.blocks, s.upload.buffer);
  }

  // ---- main results ----

  /**
   * In every run a session hashes exactly what its requests sent, in order. It commits at most
   * once, only after the quota admitted the blob and the digest of all that was sent proved to
   * be the one its finish request named, and what it commits is all that was sent if and only if
   * no part upload failed.
   */
  lemma CommitsWhatWasSentExactly(sha: Bytes -> Digest, acts: seq<Action>, w: World, id: string)
    requires Hashing(sha) && Led(sha, acts, w) && id in w.sessions
    ensures var s, ms := w.sessions[id], Moves(acts, id);
            && s.upload.hashed == Sent(ms)
            && |s.committed| <= 1
            && (s.committed != [] ==>
                  && Verified(ms, sha(Sent(ms))) && WasAdmitted(ms)
                  && (s.committed == [Sent(ms)] <==> Failed(ms) == 0))
  {
    HistoryAlways(sha, acts, w, id);
    LedReachable(sha, acts, w);
    CommitsWholeStreamExactly(sha, w, |acts|, id);
  }

  // ---- temporary objects ----

  /** A temporary object is there exactly while it waits to be copied and deleted, unless that failed. */
  ghost predicate TempOk(w: Store, id: string, s: Session, ms: seq<Move>) {
    && (s.pc.Copying? || s.pc.Cleaning? ==> UploadKey(s.org, id) in w.objects)
    && (UploadKey(s.org, id) in w.objects ==> s.pc.Copying? || s.pc.Cleaning? || LeftBehind(ms))
  }

  lemma TempIngest(sha: Bytes -> Digest, w: Store, id: string, s: Session, m: Move, ms: seq<Move>)
    requires CanMove(s, m) && !Commits(m) && TempOk(w, id, s, ms)
    ensures TempOk(w, id, Ingest(sha, s, m), ms + [m])
  {
    Snoc(sha, ms, m);
  }

  lemma TempCommit(sha: Bytes -> Digest, w: Store, id: string, s: Session, m: Move, ms: seq<Move>)
    requires Hashing(sha) && SessionOk(sha, w, id, s) && CanMove(s, m) && Commits(m) && TempOk(w, id, s, ms)
    ensures TempOk(CommitStep(w, id, s, m).0, id, CommitStep(w, id, s, m).1, ms + [m])
  {
    Snoc(sha, ms, m);
    if m.Copy? {
      UploadKeyIsNoBlob(s.org, id, s.org, s.pc.digest);
    }
  }

  lemma TempStep(sha: Bytes -> Digest, w: Store, id: string, s: Session, m: Move, ms: seq<Move>)
    requires Hashing(sha) && SessionOk(sha, w, id, s) && CanMove(s, m) && TempOk(w, id, s, ms)
    ensures TempOk(Step(sha, w, id, s, m).0, id, Step(sha, w, id, s, m).1, ms + [m])
  {
    if Commits(m) {
      TempCommit(sha, w, id, s, m, ms);
    } else {
      TempIngest(sha, w, id, s, m, ms);
    }
  }

  lemma TempOfOthers(sha: Bytes -> Digest, w: Store, id: string, s: Session, m: Move, id2: string, s2: Session,
      ms: seq<Move>)
    requires Hashing(sha) && SessionOk(sha, w, id, s) && CanMove(s, m) && id2 != id && '/' !in s2.org
    requires TempOk(w, id2, s2, ms)
    ensures TempOk(Step(sha, w, id, s, m).0, id2, s2, ms)
  {
    if Commits(m) {
      CommitWritesOwn(sha, w, id, s, m);
      UploadKeyInjective(s.org, id, s2.org, id2);
      forall d | Canonical(d) ensures UploadKey(s2.org, id2) != BlobKey(s.org, d) {
        UploadKeyIsNoBlob(s2.org, id2, s.org, d);
      }
    }
  }

  /** A temporary key in use belongs to a session that was started. */
  ghost predicate TempsOwned(w: World) {
    forall org, id {:trigger UploadKey(org, id)} :: '/' !in org && UploadKey(org, id) in w.store.objects ==>
      id in w.sessions && w.sessions[id].org == org
  }

  ghost predicate TempsOk(acts: seq<Action>, w: World) {
    && TempsOwned(w)
    && forall id <- w.sessions :: TempOk(w.store, id, w.sessions[id], Moves(acts, id))
  }

  lemma ActTemps(sha: Bytes -> Digest, acts: seq<Action>, w: World, id: string, m: Move, w': World)
    requires Hashing(sha) && Inv(sha, w) && acts != [] && Last(acts) == Act(id, m) && Takes(sha, w, Act(id, m), w')
    requires TempsOk(Before(acts), w)
    ensures TempsOk(acts, w')
  {
    var s := w.sessions[id];
    assert SessionOk(sha, w.store, id, s);
    TempStep(sha, w.store, id, s, m, Moves(Before(acts), id));
    forall k <- w'.sessions | k != id ensures TempOk(w'.store, k, w'.sessions[k], Moves(acts, k)) {
      assert SessionOk(sha, w.store, k, w.sessions[k]);
      TempOfOthers(sha, w.store, id, s, m, k, w.sessions[k], Moves(Before(acts), k));
    }
    ActTempsOwned(sha, w, id, m);
  }

  lemma ActTempsOwned(sha: Bytes -> Digest, w: World, id: string, m: Move)
    requires Hashing(sha) && SessionsOk(sha, w) && TempsOwned(w) && id in w.sessions && CanMove(w.sessions[id], m)
    ensures var (store', s') := Step(sha, w.store, id, w.sessions[id], m);
            TempsOwned(World(store', w.sessions[id := s']))
  {
    var s := w.sessions[id];
    var (store', s') := Step(sha, w.store, id, s, m);
    assert SessionOk(sha, w.store, id, s);
    forall org, k | '/' !in org && UploadKey(org, k) in store'.objects
      ensures k in w.sessions[id := s'] && w.sessions[id := s'][k].org == org
    {
      UploadKeyInjective(s.org, id, org, k);
      if UploadKey(org, k) !in w.store.objects && m.Copy? {
        UploadKeyIsNoBlob(org, k, s.org, s.pc.digest);
      }
    }
  }

  lemma OtherActionTemps(sha: Bytes -> Digest, acts: seq<Action>, w: World, w': World)
    requires Inv(sha, w) && acts != [] && !Last(acts).Act? && Takes(sha, w, Last(acts), w')
    requires TempsOk(Before(acts), w)
    ensures TempsOk(acts, w')
  {
    match Last(acts)
    case Start(id, org) =>
    case DeleteObject(org, digest) =>
      forall k <- w'.sessions ensures TempOk(w'.store, k, w'.sessions[k], Moves(acts, k)) {
        assert SessionOk(sha, w.store, k, w.sessions[k]);
        UploadKeyIsNoBlob(w.sessions[k].org, k, org, digest);
      }
    case DeleteRow(_, _) =>
  }

  /**
   * In every run a session's temporary object is gone again whenever no finish is between
   * assembling it and deleting it, unless copying or deleting it failed.
   */
  lemma {:induction false} TemporaryObjectsGo(sha: Bytes -> Digest, acts: seq<Action>, w: World)
    requires Hashing(sha) && Led(sha, acts, w)
    ensures TempsOk(acts, w)
    decreases |acts|
  {
    if acts != [] {
      var w0 :| Led(sha, Before(acts), w0) && Takes(sha, w0, Last(acts), w);
      TemporaryObjectsGo(sha, Before(acts), w0);
      LedReachable(sha, Before(acts), w0);
      InvAlways(sha, w0, |acts| - 1);
      match Last(acts)
      case Act(id, m) => ActTemps(sha, acts, w0, id, m, w);
      case _ => OtherActionTemps(sha, acts, w0, w);
    }
  }

  // ---- a finish that meets no failure goes through ----

  lemma Go(sha: Bytes -> Digest, acts: seq<Action>, w: World, id: string, m: Move)
    returns (acts': seq<Action>, w': World)
    requires Led(sha, acts, w) && id in w.sessions && CanMove(w.sessions[id], m)
    ensures acts' == acts + [Act(id, m)] && Led(sha, acts', w')
    ensures var (store', s') := Step(sha, w.store, id, w.sessions[id], m);
            w' == World(store', w.sessions[id := s'])
  {
    var (store', s') := Step(sha, w.store, id, w.sessions[id], m);
    acts', w' := acts + [Act(id, m)], World(store', w.sessions[id := s']);
    assert Before(acts') == acts && Last(acts') == Act(id, m);
    assert Takes(sha, w, Act(id, m), w');
  }

  /** From the lock to the admitted blob. */
  lemma ClaimAndAdmit(sha: Bytes -> Digest, acts: seq<Action>, w: World, id: string, expected: Digest)
    returns (acts': seq<Action>, w': World)
    requires Led(sha, acts, w) && id in w.sessions && w.sessions[id].pc.Free? && !w.sessions[id].finalizing
    requires DigestsEqual(sha(w.sessions[id].upload.hashed), expected)
    ensures Led(sha, acts', w') && w'.store == w.store && id in w'.sessions
    ensures var s := w.sessions[id];
            w'.sessions[id] == s.(finalizing := true, pc := Assembling(sha(s.upload.hashed)))
  {
    acts', w' := Go(sha, acts, w, id, LockFinish(expected));
    acts', w' := Go(sha, acts', w', id, Verify(true));
    acts', w' := Go(sha, acts', w', id, Admit(true, true));
  }

  /** To the assembled temporary object, by either way of assembling it. */
  lemma Assemble(sha: Bytes -> Digest, acts: seq<Action>, w: World, id: string, d: Digest)
    returns (acts': seq<Action>, w': World)
    requires Led(sha, acts, w) && id in w.sessions && w.sessions[id].pc == Assembling(d) && w.sessions[id].multipart
    ensures Led(sha, acts', w') && id in w'.sessions && w'.store.rows == w.store.rows
    ensures var s, s' := w.sessions[id], w'.sessions[id];
            && s'.org == s.org && s'.committed == s.committed && s'.upload.hashed == s.upload.hashed
            && s'.pc == Copying(d)
            && w'.store.objects == w.store.objects[UploadKey(s.org, id) := s.upload.Contents()]
  {
    var s := w.sessions[id];
    if s.upload.blocks == [] {
      assert s.upload.Contents() == s.upload.buffer;
      acts', w' := Go(sha, acts, w, id, PutSmall(true, true));
    } else {
      FlattenSnoc(s.upload.blocks, s.upload.buffer);
      assert s.upload.buffer == [] ==> s.upload.Contents() == Flatten(s.upload.blocks);
      acts', w' := Go(sha, acts, w, id, SendTail(true));
      acts', w' := Go(sha, acts', w', id, Complete(true));
    }
  }

  /** From there to the recorded blob. */
  lemma CommitAssembled(sha: Bytes -> Digest, acts: seq<Action>, w: World, id: string, d: Digest)
    returns (acts': seq<Action>, w': World)
    requires Led(sha, acts, w) && id in w.sessions && w.sessions[id].pc == Copying(d)
    requires UploadKey(w.sessions[id].org, id) in w.store.objects
    requires UploadKey(w.sessions[id].org, id) != BlobKey(w.sessions[id].org, d)
    ensures Led(sha, acts', w') && id in w'.sessions
    ensures var s, s' := w.sessions[id], w'.sessions[id];
            var content := w.store.objects[UploadKey(s.org, id)];
            && s'.committed == s.committed + [content] && s'.pc.Free?
            && w'.store.objects == w.store.objects[BlobKey(s.org, d) := content] - {UploadKey(s.org, id)}
            && w'.store.rows == if (s.org, d) in w.store.rows then w.store.rows
                                else w.store.rows[(s.org, d) := |s.upload.hashed|]
  {
    acts', w' := Go(sha, acts, w, id, Copy(true));
    acts', w' := Go(sha, acts', w', id, Clean(true));
    acts', w' := Go(sha, acts', w', id, Record(true));
  }

  /**
   * Any idle session asked to finish under the digest of what it hashed commits its contents,
   * records them with their size, and leaves no temporary object, when no call fails.
   */
  lemma FinishGoesThrough(sha: Bytes -> Digest, acts: seq<Action>, w: World, id: string, expected: Digest)
    returns (acts': seq<Action>, w': World)
    requires Hashing(sha) && Led(sha, acts, w) && id in w.sessions
    requires var s := w.sessions[id];
             && s.pc.Free? && !s.finalizing && s.multipart && DigestsEqual(sha(s.upload.hashed), expected)
    ensures Led(sha, acts', w') && id in w'.sessions
    ensures var s := w.sessions[id];
            var d := sha(s.upload.hashed);
            && w'.sessions[id].committed == [s.upload.Contents()] && w'.sessions[id].pc.Free?
            && BlobKey(s.org, d) in w'.store.objects && w'.store.objects[BlobKey(s.org, d)] == s.upload.Contents()
            && UploadKey(s.org, id) !in w'.store.objects
            && (s.org, d) in w'.store.rows
            && ((s.org, d) !in w.store.rows ==> w'.store.rows[(s.org, d)] == |s.upload.hashed|)
  {
    var s := w.sessions[id];
    LedReachable(sha, acts, w);
    InvAlways(sha, w, |acts|);
    assert SessionOk(sha, w.store, id, s);
    UploadKeyIsNoBlob(s.org, id, s.org, sha(s.upload.hashed));
    acts', w' := ClaimAndAdmit(sha, acts, w, id, expected);
    acts', w' := Assemble(sha, acts', w', id, sha(s.upload.hashed));
    acts', w' := CommitAssembled(sha, acts', w', id, sha(s.upload.hashed));
  }
}
