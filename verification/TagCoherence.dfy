/** When a cached tag may be trusted: with tag writers that could undo each other kept apart. */
module TagCoherence {
  import opened Common
  import opened Cache
  import opened CacheCoherence

  predicate Agrees(w: World, repo: string, tag: string, digest: Digest) {
    (repo, tag) in w.tags && w.tags[(repo, tag)] == digest
  }

  /** `p` is in flight and will still overwrite or pop the cached entry of this tag. */
  predicate Owes(p: Proc, repo: string, tag: string) {
    match p
    case Reader(_, _, _, _) => false
    case Push(r, reference, _, imported, pc) =>
      r == repo && reference == tag && !imported && (pc.Tagged? || pc.Invalidated?)
    case Delete(r, _, pc) => r == repo && (pc.Stored? || pc.Invalidated?)
  }

  /** `p` will still raise the generation, cancelling every fill read before its commit. */
  predicate OwesBump(p: Proc, repo: string, tag: string) {
    Owes(p, repo, tag) && (p.Push? ==> p.wpc.Tagged?)
  }

  predicate Owed(procs: seq<Proc>, repo: string, tag: string) {
    exists i | 0 <= i < |procs| :: Owes(procs[i], repo, tag)
  }

  predicate BumpOwed(procs: seq<Proc>, repo: string, tag: string) {
    exists i | 0 <= i < |procs| :: OwesBump(procs[i], repo, tag)
  }

  /** Every cached tag is the database's, or a writer still in flight will replace or pop it. */
  ghost predicate TagsCoherent(s: State) {
    forall repo, tag {:trigger Key(repo, tag)} :: '|' !in repo && Key(repo, tag) in s.world.cache.tags ==>
      Agrees(s.world, repo, tag, s.world.cache.tags[Key(repo, tag)]) || Owed(s.procs, repo, tag)
  }

  /** No two pushes of one tag, and no tag push and delete of one repository, are in flight together. */
  ghost predicate Apart(procs: seq<Proc>) {
    forall i, j | 0 <= i < |procs| && 0 <= j < |procs| && i != j && procs[i].InFlight() && procs[j].InFlight() ::
      !SameTag(procs[i], procs[j]) && !PushAndDelete(procs[i], procs[j])
  }

  /** The discipline under which cached tags are exact. */
  predicate Disciplined(policy: Policy) {
    !policy.samePushes && !policy.pushDeletes && !policy.tagImports && !policy.drops
  }

  /** A tag push past its upsert still finds its own digest in the tag table. */
  ghost predicate PushOk(w: World, p: Proc) {
    p.Push? ==>
      && (p.imported ==> IsDigest(p.reference))
      && !p.wpc.TagCached?
      && (p.wpc.Tagged? || p.wpc.Invalidated? ==>
            !IsDigest(p.reference) && Agrees(w, p.repo, p.reference, p.wpc.digest))
  }

  /** A fill that will still be accepted holds the database's tag, or a bump is coming. */
  ghost predicate FillOk(w: World, procs: seq<Proc>, p: Proc) {
    p.Reader? && p.rpc.FillingTag? && w.cache.enabled && p.rpc.gen == w.cache.generation ==>
      Agrees(w, p.repo, p.reference, p.rpc.digest) || BumpOwed(procs, p.repo, p.reference)
  }

  ghost predicate FillsOk(w: World, procs: seq<Proc>) {
    forall i | 0 <= i < |procs| :: FillOk(w, procs, procs[i])
  }

  ghost predicate PushesOk(w: World, procs: seq<Proc>) {
    forall i | 0 <= i < |procs| :: PushOk(w, procs[i])
  }

  ghost predicate TagInv(s: State) {
    && TagsCoherent(s)
    && Apart(s.procs)
    && PushesOk(s.world, s.procs)
    && FillsOk(s.world, s.procs)
    && (!s.world.cache.enabled ==> s.world.cache.tags == map[])
  }

  // ---- the pieces of one step ----

  lemma OwedStays(procs: seq<Proc>, i: nat, p': Proc, repo: string, tag: string)
    requires i < |procs| && Owed(procs, repo, tag)
    requires Owes(procs[i], repo, tag) ==> Owes(p', repo, tag)
    ensures Owed(procs[i := p'], repo, tag)
  {
    var j :| 0 <= j < |procs| && Owes(procs[j], repo, tag);
    assert Owes(procs[i := p'][j], repo, tag);
  }

  lemma BumpOwedStays(procs: seq<Proc>, i: nat, p': Proc, repo: string, tag: string)
    requires i < |procs| && BumpOwed(procs, repo, tag)
    requires OwesBump(procs[i], repo, tag) ==> OwesBump(p', repo, tag)
    ensures BumpOwed(procs[i := p'], repo, tag)
  {
    var j :| 0 <= j < |procs| && OwesBump(procs[j], repo, tag);
    assert OwesBump(procs[i := p'][j], repo, tag);
  }

  /** Only the tag a push names, or tags of the repository a delete works in, are touched. */
  ghost predicate TouchesOwn(w: World, w': World, p: Proc) {
    forall n: Name | !(p.TagPush() && n == (p.repo, p.reference)) && !(p.Delete? && n.0 == p.repo) ::
      (n in w.tags <==> n in w'.tags) && (n in w.tags ==> w'.tags[n] == w.tags[n])
  }

  /** What stays of a request that takes a step: what it is, and that it was in flight. */
  predicate Continues(p: Proc, p': Proc) {
    && p'.repo == p.repo && p'.reference == p.reference && p'.Push? == p.Push? && p'.Delete? == p.Delete?
    && (p'.InFlight() ==> p.InFlight())
  }

  lemma ApartStays(procs: seq<Proc>, i: nat, p': Proc)
    requires Apart(procs) && i < |procs| && Continues(procs[i], p')
    ensures Apart(procs[i := p'])
  {
  }

  lemma PushesStay(w: World, w': World, procs: seq<Proc>, i: nat, p': Proc)
    requires PushesOk(w, procs) && Apart(procs) && i < |procs|
    requires w'.tags == w.tags || (procs[i].InFlight() && TouchesOwn(w, w', procs[i]))
    requires PushOk(w', p')
    ensures PushesOk(w', procs[i := p'])
  {
    forall j | 0 <= j < |procs| && j != i ensures PushOk(w', procs[j]) {
      assert PushOk(w, procs[j]);
    }
  }

  /** Raising the generation cancels every pending fill. */
  lemma BumpClearsFills(sha: Bytes -> Digest, s: State, w': World, i: nat, p': Proc)
    requires Inv(sha, s) && i < |s.procs| && !p'.Reader?
    requires w'.cache.enabled ==> s.world.cache.generation < w'.cache.generation
    ensures FillsOk(w', s.procs[i := p'])
  {
    forall j | 0 <= j < |s.procs| && j != i ensures FillOk(w', s.procs[i := p'], s.procs[j]) {
      assert ProcOk(sha, s.world, s.procs[j]);
    }
  }

  /** Fills survive a step that keeps the tags, or leaves a bump owed where it changed them. */
  lemma FillsStay(w: World, w': World, procs: seq<Proc>, i: nat, p': Proc)
    requires FillsOk(w, procs) && i < |procs|
    requires w'.cache.enabled == w.cache.enabled && w'.cache.generation == w.cache.generation
    requires forall repo, tag :: OwesBump(procs[i], repo, tag) ==> OwesBump(p', repo, tag)
    requires forall repo, tag, d :: Agrees(w, repo, tag, d) ==> Agrees(w', repo, tag, d) || OwesBump(p', repo, tag)
    requires FillOk(w', procs[i := p'], p')
    ensures FillsOk(w', procs[i := p'])
  {
    var procs' := procs[i := p'];
    forall j | 0 <= j < |procs| && j != i ensures FillOk(w', procs', procs[j]) {
      var q := procs[j];
      assert FillOk(w, procs, q);
      if q.Reader? && q.rpc.FillingTag? && w.cache.enabled && q.rpc.gen == w.cache.generation {
        if BumpOwed(procs, q.repo, q.reference) {
          BumpOwedStays(procs, i, p', q.repo, q.reference);
        } else if OwesBump(p', q.repo, q.reference) {
          assert OwesBump(procs'[i], q.repo, q.reference);
        }
      }
    }
  }

  /** Cached tags survive a step that keeps them and the database's tags, or owes what it changed. */
  lemma CachedStay(s: State, w': World, i: nat, p': Proc)
    requires TagsCoherent(s) && i < |s.procs|
    requires w'.cache.tags == s.world.cache.tags
    requires forall repo, tag :: Owes(s.procs[i], repo, tag) ==> Owes(p', repo, tag)
    requires forall repo, tag, d :: Agrees(s.world, repo, tag, d) ==> Agrees(w', repo, tag, d) || Owes(p', repo, tag)
    ensures TagsCoherent(State(w', s.procs[i := p']))
  {
    var procs' := s.procs[i := p'];
    forall repo, tag | '|' !in repo && Key(repo, tag) in w'.cache.tags
      ensures Agrees(w', repo, tag, w'.cache.tags[Key(repo, tag)]) || Owed(procs', repo, tag)
    {
      if Owed(s.procs, repo, tag) {
        OwedStays(s.procs, i, p', repo, tag);
      } else if Owes(p', repo, tag) {
        assert Owes(procs'[i], repo, tag);
      }
    }
  }

  /** A cached tag written with the database's value, or while someone owes it, is coherent. */
  lemma CachePut(s: State, i: nat, p': Proc, repo: string, tag: string, digest: Digest)
    requires TagsCoherent(s) && i < |s.procs| && '|' !in repo
    requires !s.world.cache.enabled ==> s.world.cache.tags == map[]
    requires forall r, t :: Owes(s.procs[i], r, t) ==> Owes(p', r, t) || (r == repo && t == tag)
    requires Agrees(s.world, repo, tag, digest) || Owed(s.procs[i := p'], repo, tag)
    ensures TagsCoherent(State(s.world.(cache := s.world.cache.PutTag(repo, tag, digest)), s.procs[i := p']))
  {
    KeysInjective();
    var w' := s.world.(cache := s.world.cache.PutTag(repo, tag, digest));
    forall r, t | '|' !in r && Key(r, t) in w'.cache.tags
      ensures Agrees(w', r, t, w'.cache.tags[Key(r, t)]) || Owed(s.procs[i := p'], r, t)
    {
      if Key(r, t) in s.world.cache.tags && !(r == repo && t == tag) && Owed(s.procs, r, t) {
        OwedStays(s.procs, i, p', r, t);
      }
    }
  }

  // ---- one step of each kind of request ----

  lemma ReaderKeeps(sha: Bytes -> Digest, s: State, i: nat)
    requires Inv(sha, s) && TagInv(s) && i < |s.procs| && s.procs[i].Reader?
    ensures var (w', p') := ReaderStep(s.world, s.procs[i]); TagInv(State(w', s.procs[i := p']))
  {
    var w, p := s.world, s.procs[i];
    var (w', p') := ReaderStep(w, p);
    assert ProcOk(sha, w, p) && FillOk(w, s.procs, p);
    ApartStays(s.procs, i, p');
    PushesStay(w, w', s.procs, i, p');
    FillsStay(w, w', s.procs, i, p');
    if p.rpc.FillingTag? {
      FillTagKeeps(s, i);
    } else {
      CachedStay(s, w', i, p');
    }
  }

  lemma FillTagKeeps(s: State, i: nat)
    requires TagInv(s) && i < |s.procs| && s.procs[i].Reader? && s.procs[i].rpc.FillingTag? && '|' !in s.procs[i].repo
    ensures var (w', p') := ReaderStep(s.world, s.procs[i]); TagsCoherent(State(w', s.procs[i := p']))
  {
    var w, p := s.world, s.procs[i];
    var (w', p') := ReaderStep(w, p);
    assert FillOk(w, s.procs, p);
    if w.cache.enabled && p.rpc.gen == w.cache.generation {
      if !Agrees(w, p.repo, p.reference, p.rpc.digest) {
        var j :| 0 <= j < |s.procs| && OwesBump(s.procs[j], p.repo, p.reference);
        assert Owes(s.procs[i := p'][j], p.repo, p.reference);
      }
      CachePut(s, i, p', p.repo, p.reference, p.rpc.digest);
    } else {
      CachedStay(s, w', i, p');
    }
  }

  lemma UpsertKeeps(s: State, i: nat)
    requires TagInv(s) && i < |s.procs| && s.procs[i].Push? && s.procs[i].wpc.Stored? && !IsDigest(s.procs[i].reference)
    ensures var p := s.procs[i];
            var w' := s.world.(tags := s.world.tags[(p.repo, p.reference) := p.wpc.digest]);
            TagInv(State(w', s.procs[i := p.(wpc := Tagged(p.wpc.digest, p.wpc.version))]))
  {
    var w, p := s.world, s.procs[i];
    var w' := w.(tags := w.tags[(p.repo, p.reference) := p.wpc.digest]);
    var p' := p.(wpc := Tagged(p.wpc.digest, p.wpc.version));
    assert PushOk(w, p);
    ApartStays(s.procs, i, p');
    PushesStay(w, w', s.procs, i, p');
    FillsStay(w, w', s.procs, i, p');
    CachedStay(s, w', i, p');
  }

  /** Invalidation changes no tag; a push that has tagged still owes the cache its entry. */
  lemma InvalidateStepKeeps(sha: Bytes -> Digest, s: State, i: nat, digest: Digest, version: nat, p': Proc)
    requires Inv(sha, s) && TagInv(s) && i < |s.procs|
    requires !p'.Reader? && Continues(s.procs[i], p')
    requires forall repo, tag :: Owes(s.procs[i], repo, tag) ==> Owes(p', repo, tag)
    requires PushOk(s.world, p')
    ensures TagInv(State(Invalidate(s.world, s.procs[i].repo, digest, version), s.procs[i := p']))
  {
    var w' := Invalidate(s.world, s.procs[i].repo, digest, version);
    ApartStays(s.procs, i, p');
    PushesStay(s.world, w', s.procs, i, p');
    BumpClearsFills(sha, s, w', i, p');
    CachedStay(s, w', i, p');
  }

  lemma PutTagKeeps(sha: Bytes -> Digest, s: State, i: nat)
    requires Inv(sha, s) && TagInv(s) && i < |s.procs| && s.procs[i].Push? && s.procs[i].wpc.Invalidated?
    ensures var p := s.procs[i];
            var w' := s.world.(cache := s.world.cache.PutTag(p.repo, p.reference, p.wpc.digest));
            TagInv(State(w', s.procs[i := p.(wpc := Finished)]))
  {
    var w, p := s.world, s.procs[i];
    var w' := w.(cache := w.cache.PutTag(p.repo, p.reference, p.wpc.digest));
    var p' := p.(wpc := Finished);
    assert PushOk(w, p) && ProcOk(sha, w, p);
    ApartStays(s.procs, i, p');
    PushesStay(w, w', s.procs, i, p');
    FillsStay(w, w', s.procs, i, p');
    CachePut(s, i, p', p.repo, p.reference, p.wpc.digest);
  }

  /** A step of a writer that touches neither tags nor cache, before it owes anything. */
  lemma QuietKeeps(s: State, w': World, i: nat, p': Proc)
    requires TagInv(s) && i < |s.procs|
    requires !p'.Reader? && Continues(s.procs[i], p')
    requires w'.tags == s.world.tags && w'.cache == s.world.cache
    requires forall repo, tag :: !Owes(s.procs[i], repo, tag)
    requires PushOk(s.world, p')
    ensures TagInv(State(w', s.procs[i := p']))
  {
    ApartStays(s.procs, i, p');
    PushesStay(s.world, w', s.procs, i, p');
    FillsStay(s.world, w', s.procs, i, p');
    CachedStay(s, w', i, p');
  }

  lemma PushKeeps(sha: Bytes -> Digest, s: State, i: nat)
    requires Inv(sha, s) && TagInv(s) && i < |s.procs| && s.procs[i].Push?
    ensures var (w', p') := PushStep(sha, s.world, s.procs[i]); TagInv(State(w', s.procs[i := p']))
  {
    var w, p := s.world, s.procs[i];
    var (w', p') := PushStep(sha, w, p);
    assert PushOk(w, p);
    match p.wpc
    case Ready => QuietKeeps(s, w', i, p');
    case Stored(digest, version) =>
      if IsDigest(p.reference) {
        InvalidateStepKeeps(sha, s, i, digest, version, p');
      } else {
        UpsertKeeps(s, i);
      }
    case Tagged(digest, version) => InvalidateStepKeeps(sha, s, i, digest, version, p');
    case Invalidated(digest) => PutTagKeeps(sha, s, i);
    case Resolved(_) => assert s.procs[i := p'] == s.procs;
    case Finished | Unknown | Aborted => assert s.procs[i := p'] == s.procs;
  }

  lemma CommitDeleteKeepsTags(s: State, i: nat, n: Name, version: nat)
    requires TagInv(s) && i < |s.procs|
    requires s.procs[i].Delete? && s.procs[i].dpc == Resolved(n.1) && n.0 == s.procs[i].repo
    ensures var w' := DropTags(Commit(s.world, n, None), n.0, n.1);
            TagInv(State(w', s.procs[i := s.procs[i].(dpc := Stored(n.1, version))]))
  {
    var p' := s.procs[i].(dpc := Stored(n.1, version));
    var w' := DropTags(Commit(s.world, n, None), n.0, n.1);
    ApartStays(s.procs, i, p');
    PushesStay(s.world, w', s.procs, i, p');
    FillsStay(s.world, w', s.procs, i, p');
    CachedStay(s, w', i, p');
  }

  lemma PopTagsKeeps(sha: Bytes -> Digest, s: State, i: nat)
    requires Inv(sha, s) && TagInv(s) && i < |s.procs| && s.procs[i].Delete? && s.procs[i].dpc.Invalidated?
    ensures var p := s.procs[i];
            var w' := s.world.(cache := s.world.cache.InvalidateRepoTags(p.repo));
            TagInv(State(w', s.procs[i := p.(dpc := Finished)]))
  {
    var w, p := s.world, s.procs[i];
    var w' := w.(cache := w.cache.InvalidateRepoTags(p.repo));
    var p' := p.(dpc := Finished);
    assert ProcOk(sha, w, p);
    ApartStays(s.procs, i, p');
    PushesStay(w, w', s.procs, i, p');
    BumpClearsFills(sha, s, w', i, p');
    forall r, t | '|' !in r && Key(r, t) in w'.cache.tags
      ensures Agrees(w', r, t, w'.cache.tags[Key(r, t)]) || Owed(s.procs[i := p'], r, t)
    {
      PrefixExact(r, t, p.repo);
      if Owed(s.procs, r, t) {
        OwedStays(s.procs, i, p', r, t);
      }
    }
  }

  lemma DeleteKeeps(sha: Bytes -> Digest, s: State, i: nat)
    requires Inv(sha, s) && TagInv(s) && i < |s.procs| && s.procs[i].Delete?
    ensures var (w', p') := DeleteStep(s.world, s.procs[i]); TagInv(State(w', s.procs[i := p']))
  {
    var w, p := s.world, s.procs[i];
    var (w', p') := DeleteStep(w, p);
    match p.dpc
    case Ready => QuietKeeps(s, w', i, p');
    case Resolved(digest) => CommitDeleteKeepsTags(s, i, (p.repo, digest), |Writes(w, (p.repo, digest))| + 1);
    case Stored(digest, version) => InvalidateStepKeeps(sha, s, i, digest, version, p');
    case Invalidated(digest) => PopTagsKeeps(sha, s, i);
    case _ => assert s.procs[i := p'] == s.procs;
  }

  lemma StartKeeps(policy: Policy, s: State, p: Proc)
    requires TagInv(s) && Admitted(policy, s, p) && Disciplined(policy)
    ensures TagInv(s.(procs := s.procs + [p]))
  {
    var procs' := s.procs + [p];
    forall repo, tag | Owed(s.procs, repo, tag) ensures Owed(procs', repo, tag) {
      var j :| 0 <= j < |s.procs| && Owes(s.procs[j], repo, tag);
      assert Owes(procs'[j], repo, tag);
    }
    forall repo, tag | BumpOwed(s.procs, repo, tag) ensures BumpOwed(procs', repo, tag) {
      var j :| 0 <= j < |s.procs| && OwesBump(s.procs[j], repo, tag);
      assert OwesBump(procs'[j], repo, tag);
    }
    forall j | 0 <= j < |procs'| ensures FillOk(s.world, procs', procs'[j]) {
      if j < |s.procs| {
        assert FillOk(s.world, s.procs, s.procs[j]);
      }
    }
  }

  lemma TakesKeepsTags(sha: Bytes -> Digest, policy: Policy, s: State, a: Action, s': State)
    requires Inv(sha, s) && TagInv(s) && Takes(sha, policy, s, a, s') && Disciplined(policy)
    ensures TagInv(s')
  {
    match a
    case Start(p) => StartKeeps(policy, s, p);
    case Advance(i) =>
      match s.procs[i] {
        case Reader(_, _, _, _) => ReaderKeeps(sha, s, i);
        case Push(_, _, _, _, _) => PushKeeps(sha, s, i);
        case Delete(_, _, _) => DeleteKeeps(sha, s, i);
      }
    case Fail(i) => QuietKeeps(s, s.world, i, Ended(s.procs[i]));
    case EvictEntries(ms, ts) =>
  }

  lemma {:induction false} TagInvAlways(sha: Bytes -> Digest, policy: Policy, s: State, steps: nat)
    requires Reachable(sha, policy, s, steps) && Disciplined(policy)
    ensures TagInv(s)
    decreases steps
  {
    if steps == 0 {
      InitialCoherent(s);
    } else {
      var s0, a :| Reachable(sha, policy, s0, steps - 1) && Takes(sha, policy, s0, a, s);
      TagInvAlways(sha, policy, s0, steps - 1);
      InvAlways(sha, policy, s0, steps - 1);
      TakesKeepsTags(sha, policy, s0, a, s);
    }
  }

  lemma InitialCoherent(s: State)
    requires Initial(s)
    ensures TagInv(s)
  {
    assert s.world.cache.tags == map[] && s.procs == [];
  }

  lemma IdleOwesNothing(procs: seq<Proc>, repo: string, tag: string)
    requires Idle(procs, repo)
    ensures !Owed(procs, repo, tag)
  {
    forall j | 0 <= j < |procs| ensures !Owes(procs[j], repo, tag) {
      assert procs[j].InFlight() ==> procs[j].repo != repo;
    }
  }

  /** With a repository's writers at rest, a cached tag is the database's tag row. */
  lemma QuietRepoTagsExact(sha: Bytes -> Digest, policy: Policy, s: State, steps: nat, repo: string, tag: string)
    requires Reachable(sha, policy, s, steps) && Disciplined(policy)
    requires '|' !in repo && Idle(s.procs, repo) && s.world.cache.Tag(repo, tag).Some?
    ensures Agrees(s.world, repo, tag, s.world.cache.Tag(repo, tag).value)
  {
    TagInvAlways(sha, policy, s, steps);
    assert Key(repo, tag) in s.world.cache.tags;
    IdleOwesNothing(s.procs, repo, tag);
  }
}
