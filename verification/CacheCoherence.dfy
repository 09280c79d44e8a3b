/** Readers, pushes, imports and deletes racing over the database and the read cache. */
module CacheCoherence {
  import opened Common
  import opened Cache

  datatype Manifest = Manifest(mediaType: string, content: Bytes)

  /** `(repo_id, digest)` or `(repo_id, tag)`. */
  type Name = (string, string)

  /** A stored manifest and the number, within its name, of the write that stored it. */
  datatype Versioned = Versioned(manifest: Manifest, version: nat)

  datatype ReaderPc =
    | Starting
    | Resolving(gen: nat)
    | ReadingTag(gen: nat)
    | FillingTag(gen: nat, digest: Digest)
    | LookingUp(gen: nat, digest: Digest)
    | ReadingRow(gen: nat, digest: Digest)
    | FillingRow(gen: nat, digest: Digest, entry: Versioned)
    | Served(digest: Digest, entry: Versioned)
    | NoManifest(digest: Digest, version: nat)
    | NoTag

  datatype WriterPc =
    | Ready
    | Resolved(digest: Digest)
    | Stored(digest: Digest, version: nat)
    | Tagged(digest: Digest, version: nat)
    | TagCached(digest: Digest, version: nat)
    | Invalidated(digest: Digest)
    | Finished
    | Unknown
    | Aborted
  {
    predicate Over() {
      Finished? || Unknown? || Aborted?
    }
  }

  /** A request in progress, paused between two atomic steps. */
  datatype Proc =
    | Reader(repo: string, reference: string, floor: map<Name, nat>, rpc: ReaderPc)
    | Push(repo: string, reference: string, manifest: Manifest, imported: bool, wpc: WriterPc)
    | Delete(repo: string, reference: string, dpc: WriterPc)
  {
    predicate InFlight() {
      (Push? && !wpc.Over()) || (Delete? && !dpc.Over())
    }

    predicate TagPush() {
      Push? && !IsDigest(reference)
    }
  }

  /**
   * What the requests share. `writes` is the history of committed writes per (repository,
   * digest): a push appends the manifest, a delete appends `None`. `floor` is the newest
   * write whose invalidation is done.
   */
  datatype World = World(
    rows: map<Name, Versioned>,
    tags: map<Name, Digest>,
    writes: map<Name, seq<Option<Manifest>>>,
    floor: map<Name, nat>,
    cache: CacheState<Versioned>)

  datatype State = State(world: World, procs: seq<Proc>)

  function Writes(w: World, n: Name): seq<Option<Manifest>> {
    if n in w.writes then w.writes[n] else []
  }

  function Floor(floor: map<Name, nat>, n: Name): nat {
    if n in floor then floor[n] else 0
  }

  // ---- atomic effects ----

  function Commit(w: World, n: Name, m: Option<Manifest>): World {
    var ws := Writes(w, n) + [m];
    w.(writes := w.writes[n := ws],
       rows := if m.Some? then w.rows[n := Versioned(m.value, |ws|)] else w.rows - {n})
  }

  /** `delete_manifest` also drops every tag of the repository that pointed at the digest. */
  function DropTags(w: World, repo: string, digest: Digest): World {
    w.(tags := map n | n in w.tags && !(n.0 == repo && w.tags[n] == digest) :: w.tags[n])
  }

  function Invalidate(w: World, repo: string, digest: Digest, version: nat): World {
    var n := (repo, digest);
    w.(cache := w.cache.InvalidateManifest(repo, digest),
       floor := if version > Floor(w.floor, n) then w.floor[n := version] else w.floor)
  }

  // ---- one step of each kind of request ----

  /** `serve_local`, from the generation snapshot to the response. */
  function ReaderStep(w: World, p: Proc): (World, Proc)
    requires p.Reader?
  {
    match p.rpc
    case Starting => (w, p.(rpc := Resolving(w.cache.Generation())))
    case Resolving(gen) =>
      if IsDigest(p.reference) then (w, p.(rpc := LookingUp(gen, p.reference)))
      else if w.cache.Tag(p.repo, p.reference).Some?
      then (w, p.(rpc := LookingUp(gen, w.cache.Tag(p.repo, p.reference).value)))
      else (w, p.(rpc := ReadingTag(gen)))
    case ReadingTag(gen) =>
      if (p.repo, p.reference) in w.tags
      then (w, p.(rpc := FillingTag(gen, w.tags[(p.repo, p.reference)])))
      else (w, p.(rpc := NoTag))
    case FillingTag(gen, digest) =>
      (w.(cache := w.cache.PutTagIfCurrent(p.repo, p.reference, digest, gen)), p.(rpc := LookingUp(gen, digest)))
    case LookingUp(gen, digest) =>
      if w.cache.Manifest(p.repo, digest).Some?
      then (w, p.(rpc := Served(digest, w.cache.Manifest(p.repo, digest).value)))
      else (w, p.(rpc := ReadingRow(gen, digest)))
    case ReadingRow(gen, digest) =>
      if (p.repo, digest) in w.rows
      then (w, p.(rpc := FillingRow(gen, digest, w.rows[(p.repo, digest)])))
      else (w, p.(rpc := NoManifest(digest, |Writes(w, (p.repo, digest))|)))
    case FillingRow(gen, digest, entry) =>
      (w.(cache := w.cache.PutManifestIfCurrent(p.repo, digest, entry, gen)), p.(rpc := Served(digest, entry)))
    case _ => (w, p)
  }

  /** `manifests::put`, or `proxy::store_manifest` when `imported`. */
  function PushStep(sha: Bytes -> Digest, w: World, p: Proc): (World, Proc)
    requires p.Push?
  {
    match p.wpc
    case Ready =>
      var digest := sha(p.manifest.content);
      var n := (p.repo, digest);
      (Commit(w, n, Some(p.manifest)), p.(wpc := Stored(digest, |Writes(w, n)| + 1)))
    case Stored(digest, version) =>
      if IsDigest(p.reference)
      then (Invalidate(w, p.repo, digest, version), p.(wpc := Finished))
      else (w.(tags := w.tags[(p.repo, p.reference) := digest]), p.(wpc := Tagged(digest, version)))
    case Tagged(digest, version) =>
      if p.imported
      then (w.(cache := w.cache.PutTag(p.repo, p.reference, digest)), p.(wpc := TagCached(digest, version)))
      else (Invalidate(w, p.repo, digest, version), p.(wpc := Invalidated(digest)))
    case TagCached(digest, version) => (Invalidate(w, p.repo, digest, version), p.(wpc := Finished))
    case Invalidated(digest) =>
      (w.(cache := w.cache.PutTag(p.repo, p.reference, digest)), p.(wpc := Finished))
    case _ => (w, p)
  }

  /** `manifests::delete`. */
  function DeleteStep(w: World, p: Proc): (World, Proc)
    requires p.Delete?
  {
    match p.dpc
    case Ready =>
      if IsDigest(p.reference) then (w, p.(dpc := Resolved(p.reference)))
      else if (p.repo, p.reference) in w.tags then (w, p.(dpc := Resolved(w.tags[(p.repo, p.reference)])))
      else (w, p.(dpc := Unknown))
    case Resolved(digest) =>
      var n := (p.repo, digest);
      (DropTags(Commit(w, n, None), p.repo, digest), p.(dpc := Stored(digest, |Writes(w, n)| + 1)))
    case Stored(digest, version) => (Invalidate(w, p.repo, digest, version), p.(dpc := Invalidated(digest)))
    case Invalidated(digest) => (w.(cache := w.cache.InvalidateRepoTags(p.repo)), p.(dpc := Finished))
    case _ => (w, p)
  }

  function Step(sha: Bytes -> Digest, w: World, p: Proc): (World, Proc) {
    match p
    case Reader(_, _, _, _) => ReaderStep(w, p)
    case Push(_, _, _, _, _) => PushStep(sha, w, p)
    case Delete(_, _, _) => DeleteStep(w, p)
  }

  /** Where a transaction may fail and end the request with an error. */
  predicate MayFail(p: Proc) {
    match p
    case Reader(_, _, _, _) => false
    case Push(_, reference, _, _, pc) => pc.Ready? || (pc.Stored? && !IsDigest(reference))
    case Delete(_, _, pc) => pc.Ready? || pc.Resolved?
  }

  function Ended(p: Proc): Proc
    requires p.Push? || p.Delete?
  {
    if p.Push? then p.(wpc := Aborted) else p.(dpc := Aborted)
  }

  // ---- schedules ----

  /**
   * Which schedules are allowed: two pushes of one tag in flight together, a tag push and a
   * delete of one repository together, imports that move tags, and writers that vanish between
   * two of their steps (a dropped connection ends the handler wherever it waits).
   */
  datatype Policy = Policy(samePushes: bool, pushDeletes: bool, tagImports: bool, drops: bool)

  predicate Idle(procs: seq<Proc>, repo: string) {
    forall i | 0 <= i < |procs| :: procs[i].InFlight() ==> procs[i].repo != repo
  }

  /** Two pushes of the same tag. */
  predicate SameTag(p: Proc, q: Proc) {
    p.TagPush() && q.TagPush() && p.repo == q.repo && p.reference == q.reference
  }

  /** A tag push and a delete in the same repository. */
  predicate PushAndDelete(p: Proc, q: Proc) {
    ((p.TagPush() && q.Delete?) || (p.Delete? && q.TagPush())) && p.repo == q.repo
  }

  predicate Compatible(policy: Policy, p: Proc, q: Proc) {
    && (SameTag(p, q) ==> policy.samePushes)
    && (PushAndDelete(p, q) ==> policy.pushDeletes)
  }

  ghost predicate Admitted(policy: Policy, s: State, p: Proc) {
    && '|' !in p.repo
    && (forall i | 0 <= i < |s.procs| && s.procs[i].InFlight() :: Compatible(policy, s.procs[i], p))
    && match p
       case Reader(_, _, floor, pc) => floor == s.world.floor && pc == Starting
       case Push(_, reference, _, imported, pc) =>
         pc == Ready && (imported && !IsDigest(reference) ==> policy.tagImports)
       case Delete(_, _, pc) => pc == Ready
  }

  datatype Action =
    | Start(p: Proc)
    | Advance(i: nat)
    | Fail(i: nat)
    | Vanish(i: nat)
    | EvictEntries(ms: set<string>, ts: set<string>)

  ghost predicate Takes(sha: Bytes -> Digest, policy: Policy, s: State, a: Action, s': State) {
    match a
    case Start(p) => Admitted(policy, s, p) && s' == s.(procs := s.procs + [p])
    case Advance(i) =>
      && i < |s.procs|
      && s' == State(Step(sha, s.world, s.procs[i]).0, s.procs[i := Step(sha, s.world, s.procs[i]).1])
    case Fail(i) =>
      && i < |s.procs| && MayFail(s.procs[i])
      && s' == s.(procs := s.procs[i := Ended(s.procs[i])])
    case Vanish(i) =>
      && policy.drops && i < |s.procs| && s.procs[i].InFlight()
      && s' == s.(procs := s.procs[i := Ended(s.procs[i])])
    case EvictEntries(ms, ts) => s' == s.(world := s.world.(cache := s.world.cache.Evict(ms, ts)))
  }

  ghost predicate Initial(s: State) {
    s == State(World(map[], map[], map[], map[], CacheState(s.world.cache.enabled, 0, map[], map[])), [])
  }

  ghost predicate Reachable(sha: Bytes -> Digest, policy: Policy, s: State, steps: nat)
    decreases steps
  {
    if steps == 0 then Initial(s)
    else exists s0, a :: Reachable(sha, policy, s0, steps - 1) && Takes(sha, policy, s0, a, s)
  }

  // ---- manifests: every schedule ----

  /** `entry` is exactly what write number `entry.version` of `n` stored. */
  ghost predicate Recorded(sha: Bytes -> Digest, w: World, n: Name, entry: Versioned) {
    && 1 <= entry.version <= |Writes(w, n)|
    && Writes(w, n)[entry.version - 1] == Some(entry.manifest)
    && sha(entry.manifest.content) == n.1
  }

  ghost predicate FloorsBelow(lower: map<Name, nat>, upper: map<Name, nat>) {
    forall n :: Floor(lower, n) <= Floor(upper, n)
  }

  ghost predicate WriterOk(w: World, repo: string, pc: WriterPc) {
    pc.Stored? || pc.Tagged? || pc.TagCached? ==> pc.version <= |Writes(w, (repo, pc.digest))|
  }

  ghost predicate ReaderOk(sha: Bytes -> Digest, w: World, repo: string, floor: map<Name, nat>, pc: ReaderPc) {
    match pc
    case FillingRow(gen, digest, e) =>
      && Recorded(sha, w, (repo, digest), e)
      && e.version >= Floor(floor, (repo, digest))
      && gen <= w.cache.generation
      && (w.cache.enabled && gen == w.cache.generation ==> e.version >= Floor(w.floor, (repo, digest)))
    case Served(digest, e) =>
      Recorded(sha, w, (repo, digest), e) && e.version >= Floor(floor, (repo, digest))
    case NoManifest(digest, version) =>
      && Floor(floor, (repo, digest)) <= version <= |Writes(w, (repo, digest))|
      && (version > 0 ==> Writes(w, (repo, digest))[version - 1] == None)
    case Starting => true
    case NoTag => true
    case _ => pc.gen <= w.cache.generation
  }

  ghost predicate ProcOk(sha: Bytes -> Digest, w: World, p: Proc) {
    && '|' !in p.repo
    && match p
       case Reader(repo, _, floor, pc) => FloorsBelow(floor, w.floor) && ReaderOk(sha, w, repo, floor, pc)
       case Push(repo, _, _, _, pc) => WriterOk(w, repo, pc)
       case Delete(repo, _, pc) => WriterOk(w, repo, pc)
  }

  ghost predicate RowsOk(sha: Bytes -> Digest, w: World) {
    && (forall n :: n in w.rows ==> Recorded(sha, w, n, w.rows[n]) && w.rows[n].version == |Writes(w, n)|)
    && (forall n :: n !in w.rows && |Writes(w, n)| > 0 ==> Writes(w, n)[|Writes(w, n)| - 1] == None)
    && (forall n :: Floor(w.floor, n) <= |Writes(w, n)|)
  }

  ghost predicate CachedOk(sha: Bytes -> Digest, w: World) {
    && (!w.cache.enabled ==> w.cache.manifests == map[])
    && forall repo, digest {:trigger Key(repo, digest)} :: '|' !in repo && Key(repo, digest) in w.cache.manifests ==>
      var e := w.cache.manifests[Key(repo, digest)];
      Recorded(sha, w, (repo, digest), e) && e.version >= Floor(w.floor, (repo, digest))
  }

  ghost predicate WorldOk(sha: Bytes -> Digest, w: World) {
    RowsOk(sha, w) && CachedOk(sha, w)
  }

  ghost predicate Inv(sha: Bytes -> Digest, s: State) {
    && WorldOk(sha, s.world)
    && (forall i | 0 <= i < |s.procs| :: ProcOk(sha, s.world, s.procs[i]))
  }

  /** What no step takes back: histories and floors grow, and a floor rises only with a new generation. */
  ghost predicate Grows(w: World, w': World) {
    && (forall n :: Writes(w, n) <= Writes(w', n))
    && FloorsBelow(w.floor, w'.floor)
    && w'.cache.enabled == w.cache.enabled
    && w.cache.generation <= w'.cache.generation
    && (w.cache.enabled && w.cache.generation == w'.cache.generation ==> w'.floor == w.floor)
  }

  lemma ProcOkStable(sha: Bytes -> Digest, w: World, w': World, p: Proc)
    requires ProcOk(sha, w, p) && Grows(w, w')
    ensures ProcOk(sha, w', p)
  {
    if p.Reader? {
      forall n ensures Floor(p.floor, n) <= Floor(w'.floor, n) {
        assert Floor(p.floor, n) <= Floor(w.floor, n) <= Floor(w'.floor, n);
      }
    }
  }

  ghost predicate Keeps(sha: Bytes -> Digest, w: World, w': World) {
    WorldOk(sha, w') && Grows(w, w')
  }

  lemma CommitKeeps(sha: Bytes -> Digest, w: World, n: Name, m: Option<Manifest>)
    requires WorldOk(sha, w) && (m.Some? ==> sha(m.value.content) == n.1)
    ensures Keeps(sha, w, Commit(w, n, m))
  {
    var w' := Commit(w, n, m);
    forall k ensures Writes(w, k) <= Writes(w', k) && (k != n ==> Writes(w', k) == Writes(w, k)) {}
    forall k | k in w'.rows
      ensures Recorded(sha, w', k, w'.rows[k]) && w'.rows[k].version == |Writes(w', k)|
    {
      if k != n {
        assert k in w.rows;
      }
    }
  }

  lemma InvalidateKeeps(sha: Bytes -> Digest, w: World, repo: string, digest: Digest, version: nat)
    requires WorldOk(sha, w) && '|' !in repo && version <= |Writes(w, (repo, digest))|
    ensures Keeps(sha, w, Invalidate(w, repo, digest, version))
  {
    KeysInjective();
    assert forall n :: Writes(Invalidate(w, repo, digest, version), n) == Writes(w, n);
  }

  lemma FillKeeps(sha: Bytes -> Digest, w: World, repo: string, digest: Digest, e: Versioned, gen: nat)
    requires WorldOk(sha, w) && '|' !in repo
    requires Recorded(sha, w, (repo, digest), e)
    requires w.cache.enabled && gen == w.cache.generation ==> e.version >= Floor(w.floor, (repo, digest))
    ensures Keeps(sha, w, w.(cache := w.cache.PutManifestIfCurrent(repo, digest, e, gen)))
  {
    KeysInjective();
    assert forall n :: Writes(w.(cache := w.cache.PutManifestIfCurrent(repo, digest, e, gen)), n) == Writes(w, n);
  }

  lemma EvictKeeps(sha: Bytes -> Digest, w: World, ms: set<string>, ts: set<string>)
    requires WorldOk(sha, w)
    ensures Keeps(sha, w, w.(cache := w.cache.Evict(ms, ts)))
  {
    assert forall n :: Writes(w.(cache := w.cache.Evict(ms, ts)), n) == Writes(w, n);
  }

  /** Dropping tags or repository tags only touches tag tables, and may raise the generation. */
  lemma OtherKeeps(sha: Bytes -> Digest, w: World, w': World)
    requires WorldOk(sha, w)
    requires w'.rows == w.rows && w'.writes == w.writes && w'.floor == w.floor
    requires w'.cache.enabled == w.cache.enabled && w'.cache.generation >= w.cache.generation
    requires w'.cache.manifests == w.cache.manifests
    ensures Keeps(sha, w, w')
  {
    assert forall n :: Writes(w', n) == Writes(w, n);
  }

  /** A hit is at least as new as the floor now, hence as the floor when the read began. */
  lemma HitOk(sha: Bytes -> Digest, w: World, p: Proc, digest: Digest)
    requires WorldOk(sha, w) && p.Reader? && ProcOk(sha, w, p) && w.cache.Manifest(p.repo, digest).Some?
    ensures ProcOk(sha, w, p.(rpc := Served(digest, w.cache.Manifest(p.repo, digest).value)))
  {
    assert Floor(p.floor, (p.repo, digest)) <= Floor(w.floor, (p.repo, digest));
  }

  /** So is a row, or its absence, read from the database. */
  lemma RowReadOk(sha: Bytes -> Digest, w: World, p: Proc, gen: nat, digest: Digest)
    requires WorldOk(sha, w) && p.Reader? && ProcOk(sha, w, p) && gen <= w.cache.generation
    ensures var n := (p.repo, digest);
            if n in w.rows then ProcOk(sha, w, p.(rpc := FillingRow(gen, digest, w.rows[n])))
            else ProcOk(sha, w, p.(rpc := NoManifest(digest, |Writes(w, n)|)))
  {
    var n := (p.repo, digest);
    assert Floor(p.floor, n) <= Floor(w.floor, n) <= |Writes(w, n)|;
  }

  lemma ReaderFillKeeps(sha: Bytes -> Digest, w: World, p: Proc)
    requires WorldOk(sha, w) && p.Reader? && ProcOk(sha, w, p) && p.rpc.FillingRow?
    ensures Keeps(sha, w, ReaderStep(w, p).0) && ProcOk(sha, ReaderStep(w, p).0, ReaderStep(w, p).1)
  {
    FillKeeps(sha, w, p.repo, p.rpc.digest, p.rpc.entry, p.rpc.gen);
    ProcOkStable(sha, w, ReaderStep(w, p).0, p);
  }

  lemma ReaderStepKeeps(sha: Bytes -> Digest, w: World, p: Proc)
    requires WorldOk(sha, w) && p.Reader? && ProcOk(sha, w, p)
    ensures Keeps(sha, w, ReaderStep(w, p).0) && ProcOk(sha, ReaderStep(w, p).0, ReaderStep(w, p).1)
  {
    match p.rpc
    case FillingRow(_, _, _) => ReaderFillKeeps(sha, w, p);
    case FillingTag(gen, digest) => ReaderFillTagKeeps(sha, w, p);
    case _ =>
      OtherKeeps(sha, w, w);
      ReaderReadsOk(sha, w, p);
  }

  lemma ReaderFillTagKeeps(sha: Bytes -> Digest, w: World, p: Proc)
    requires WorldOk(sha, w) && p.Reader? && p.rpc.FillingTag? && ProcOk(sha, w, p)
    ensures Keeps(sha, w, ReaderStep(w, p).0) && ProcOk(sha, ReaderStep(w, p).0, ReaderStep(w, p).1)
  {
    OtherKeeps(sha, w, ReaderStep(w, p).0);
  }

  /** Steps that only read leave the world alone, and what they read is good enough to serve. */
  lemma ReaderReadsOk(sha: Bytes -> Digest, w: World, p: Proc)
    requires WorldOk(sha, w) && p.Reader? && ProcOk(sha, w, p) && !p.rpc.FillingRow? && !p.rpc.FillingTag?
    ensures ReaderStep(w, p).0 == w && ProcOk(sha, w, ReaderStep(w, p).1)
  {
    match p.rpc
    case LookingUp(gen, digest) =>
      if w.cache.Manifest(p.repo, digest).Some? {
        HitOk(sha, w, p, digest);
      }
    case ReadingRow(gen, digest) => RowReadOk(sha, w, p, gen, digest);
    case _ =>
  }

  lemma PushWorldKeeps(sha: Bytes -> Digest, w: World, p: Proc)
    requires WorldOk(sha, w) && p.Push? && ProcOk(sha, w, p)
    ensures Keeps(sha, w, PushStep(sha, w, p).0)
  {
    match p.wpc
    case Ready => CommitKeeps(sha, w, (p.repo, sha(p.manifest.content)), Some(p.manifest));
    case Stored(digest, version) =>
      if IsDigest(p.reference) {
        InvalidateKeeps(sha, w, p.repo, digest, version);
      } else {
        OtherKeeps(sha, w, w.(tags := w.tags[(p.repo, p.reference) := digest]));
      }
    case Tagged(digest, version) =>
      if p.imported {
        OtherKeeps(sha, w, w.(cache := w.cache.PutTag(p.repo, p.reference, digest)));
      } else {
        InvalidateKeeps(sha, w, p.repo, digest, version);
      }
    case TagCached(digest, version) => InvalidateKeeps(sha, w, p.repo, digest, version);
    case Invalidated(digest) => OtherKeeps(sha, w, w.(cache := w.cache.PutTag(p.repo, p.reference, digest)));
    case _ => OtherKeeps(sha, w, w);
  }

  lemma DeleteWorldKeeps(sha: Bytes -> Digest, w: World, p: Proc)
    requires WorldOk(sha, w) && p.Delete? && ProcOk(sha, w, p)
    ensures Keeps(sha, w, DeleteStep(w, p).0)
  {
    match p.dpc
    case Resolved(digest) => CommitDeleteKeeps(sha, w, p.repo, digest);
    case Stored(digest, version) => InvalidateKeeps(sha, w, p.repo, digest, version);
    case Invalidated(digest) => OtherKeeps(sha, w, w.(cache := w.cache.InvalidateRepoTags(p.repo)));
    case _ => OtherKeeps(sha, w, w);
  }

  lemma CommitDeleteKeeps(sha: Bytes -> Digest, w: World, repo: string, digest: Digest)
    requires WorldOk(sha, w)
    ensures Keeps(sha, w, DropTags(Commit(w, (repo, digest), None), repo, digest))
  {
    var w1 := Commit(w, (repo, digest), None);
    CommitKeeps(sha, w, (repo, digest), None);
    OtherKeeps(sha, w1, DropTags(w1, repo, digest));
  }

  /** A writer's version stays within its digest's history. */
  lemma WriterProcOk(sha: Bytes -> Digest, w: World, p: Proc)
    requires !p.Reader? && ProcOk(sha, w, p) && Grows(w, Step(sha, w, p).0)
    ensures ProcOk(sha, Step(sha, w, p).0, Step(sha, w, p).1)
  {
    var w' := Step(sha, w, p).0;
    var pc := if p.Push? then p.wpc else p.dpc;
    if pc.Stored? || pc.Tagged? || pc.TagCached? {
      assert Writes(w, (p.repo, pc.digest)) <= Writes(w', (p.repo, pc.digest));
    }
  }

  lemma StepKeeps(sha: Bytes -> Digest, w: World, p: Proc)
    requires WorldOk(sha, w) && ProcOk(sha, w, p)
    ensures Keeps(sha, w, Step(sha, w, p).0) && ProcOk(sha, Step(sha, w, p).0, Step(sha, w, p).1)
  {
    match p
    case Reader(_, _, _, _) => ReaderStepKeeps(sha, w, p);
    case Push(_, _, _, _, _) =>
      PushWorldKeeps(sha, w, p);
      WriterProcOk(sha, w, p);
    case Delete(_, _, _) =>
      DeleteWorldKeeps(sha, w, p);
      WriterProcOk(sha, w, p);
  }

  /** Other processes ride along; only process `i` needs checking afresh. */
  lemma Reassemble(sha: Bytes -> Digest, s: State, w': World, i: nat, p': Proc)
    requires Inv(sha, s) && i < |s.procs| && Keeps(sha, s.world, w') && ProcOk(sha, w', p')
    ensures Inv(sha, State(w', s.procs[i := p']))
  {
    forall j | 0 <= j < |s.procs| && j != i ensures ProcOk(sha, w', s.procs[j]) {
      ProcOkStable(sha, s.world, w', s.procs[j]);
    }
  }

  lemma EndKeeps(sha: Bytes -> Digest, s: State, i: nat)
    requires Inv(sha, s) && i < |s.procs| && (s.procs[i].Push? || s.procs[i].Delete?)
    ensures Inv(sha, s.(procs := s.procs[i := Ended(s.procs[i])]))
  {
    OtherKeeps(sha, s.world, s.world);
    assert ProcOk(sha, s.world, s.procs[i]);
    Reassemble(sha, s, s.world, i, Ended(s.procs[i]));
  }

  lemma TakesKeeps(sha: Bytes -> Digest, policy: Policy, s: State, a: Action, s': State)
    requires Inv(sha, s) && Takes(sha, policy, s, a, s')
    ensures Inv(sha, s')
  {
    match a
    case Start(p) => assert ProcOk(sha, s.world, p);
    case Advance(i) =>
      StepKeeps(sha, s.world, s.procs[i]);
      Reassemble(sha, s, Step(sha, s.world, s.procs[i]).0, i, Step(sha, s.world, s.procs[i]).1);
    case Fail(i) => EndKeeps(sha, s, i);
    case Vanish(i) => EndKeeps(sha, s, i);
    case EvictEntries(ms, ts) =>
      EvictKeeps(sha, s.world, ms, ts);
      forall j | 0 <= j < |s.procs| ensures ProcOk(sha, s'.world, s.procs[j]) {
        ProcOkStable(sha, s.world, s'.world, s.procs[j]);
      }
  }

  lemma {:induction false} InvAlways(sha: Bytes -> Digest, policy: Policy, s: State, steps: nat)
    requires Reachable(sha, policy, s, steps)
    ensures Inv(sha, s)
    decreases steps
  {
    if steps > 0 {
      var s0, a :| Reachable(sha, policy, s0, steps - 1) && Takes(sha, policy, s0, a, s);
      InvAlways(sha, policy, s0, steps - 1);
      TakesKeeps(sha, policy, s0, a, s);
    }
  }

  /**
   * Whatever the schedule, a read that started after some write had finished invalidating
   * serves that write or a newer one, byte for byte, under the digest it reports; and it
   * reports a manifest missing only if that write or a newer one removed it, or none ever
   * stored it.
   */
  lemma ReadsNeverStale(sha: Bytes -> Digest, policy: Policy, s: State, steps: nat, i: nat)
    requires Reachable(sha, policy, s, steps) && i < |s.procs| && s.procs[i].Reader?
    ensures var p := s.procs[i];
            && (p.rpc.Served? ==>
                  var n := (p.repo, p.rpc.digest);
                  && Recorded(sha, s.world, n, p.rpc.entry)
                  && Floor(p.floor, n) <= p.rpc.entry.version)
            && (p.rpc.NoManifest? ==>
                  var n := (p.repo, p.rpc.digest);
                  && Floor(p.floor, n) <= p.rpc.version <= |Writes(s.world, n)|
                  && (p.rpc.version > 0 ==> Writes(s.world, n)[p.rpc.version - 1] == None))
  {
    InvAlways(sha, policy, s, steps);
    assert ProcOk(sha, s.world, s.procs[i]);
  }

  lemma FreshEntry(sha: Bytes -> Digest, w: World, repo: string, digest: Digest)
    requires WorldOk(sha, w) && '|' !in repo
    requires Floor(w.floor, (repo, digest)) == |Writes(w, (repo, digest))| && w.cache.Manifest(repo, digest).Some?
    ensures (repo, digest) in w.rows && w.cache.Manifest(repo, digest).value == w.rows[(repo, digest)]
  {
    var n := (repo, digest);
    var e := w.cache.manifests[Key(repo, digest)];
    assert Recorded(sha, w, n, e) && e.version == |Writes(w, n)|;
    assert n in w.rows;
    assert Recorded(sha, w, n, w.rows[n]);
  }

  /** Once every committed write of a digest has invalidated, a cached manifest is the stored row. */
  lemma SettledManifestIsStored(
      sha: Bytes -> Digest, policy: Policy, s: State, steps: nat, repo: string, digest: Digest)
    requires Reachable(sha, policy, s, steps) && '|' !in repo
    requires Floor(s.world.floor, (repo, digest)) == |Writes(s.world, (repo, digest))|
    requires s.world.cache.Manifest(repo, digest).Some?
    ensures (repo, digest) in s.world.rows
    ensures s.world.cache.Manifest(repo, digest).value == s.world.rows[(repo, digest)]
  {
    InvAlways(sha, policy, s, steps);
    FreshEntry(sha, s.world, repo, digest);
  }
}
