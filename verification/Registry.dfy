/** Whole requests over the content tables and object storage, and what every history of them keeps. */
module Registry {
  import opened Common
  import opened Digests
  import opened Manifests
  import opened Content

  /** `objects` are the blobs whose content-addressed object exists. */
  datatype World = World(tables: Tables, objects: set<BlobId>)

  datatype PushError = DigestInvalid | ManifestInvalid | BlobUnknown

  datatype Env = Env(sha: Bytes -> Digest, decode: Decoder)

  /** The checks `put` makes before it stores anything. */
  function CheckPush(env: Env, t: Tables, org: string, reference: string, body: Bytes): Option<PushError> {
    if IsDigest(reference) && !DigestsEqual(reference, env.sha(body)) then Some(DigestInvalid)
    else match env.decode(body)
         case None => Some(ManifestInvalid)
         case Some(doc) =>
           if forall d <- BlobRefs(doc) :: BlobId(org, d) in t.blobs then None else Some(BlobUnknown)
  }

  /** Creates the repository on first use, stores the manifest, and moves the tag if one was named. */
  function StoreManifest(t: Tables, repo: Repo, reference: string, digest: Digest, m: Stored, doc: Json): Tables {
    var stored := PutManifest(t.(repos := t.repos + {repo}), ManifestKey(repo, digest), m, LinksOf(doc));
    if IsDigest(reference) then stored else stored.(tags := stored.tags[TagKey(repo, reference) := digest])
  }

  function Push(env: Env, t: Tables, repo: Repo, reference: string, m: Stored): Tables {
    if CheckPush(env, t, repo.org, reference, m.content).Some? then t
    else match env.decode(m.content)
         case Some(doc) => StoreManifest(t, repo, reference, env.sha(m.content), m, doc)
         case None => t
  }

  /** `proxy::store_manifest`: no check that the referenced blobs are present. */
  function Import(env: Env, t: Tables, repo: Repo, reference: string, m: Stored): Tables {
    if IsDigest(reference) && !DigestsEqual(reference, env.sha(m.content)) then t
    else match env.decode(m.content)
         case Some(doc) => StoreManifest(t, repo, reference, env.sha(m.content), m, doc)
         case None => t
  }

  function Resolve(t: Tables, repo: Repo, reference: string): Option<Digest> {
    if repo !in t.repos then None
    else if IsDigest(reference) then Some(reference)
    else if TagKey(repo, reference) in t.tags then Some(t.tags[TagKey(repo, reference)])
    else None
  }

  function Collect(w: World, removed: set<BlobId>): World {
    World(w.tables.(blobs := w.tables.blobs - removed), w.objects - removed)
  }

  datatype Op =
    | ClientPush(repo: Repo, reference: string, m: Stored)
    | ImportManifest(repo: Repo, reference: string, m: Stored)
    | FinishUpload(b: BlobId, row: BlobRow, copied: bool, recorded: bool)
    | BlobDelete(b: BlobId, objectDeleted: bool)
    | ManifestDelete(repo: Repo, reference: string)
    | RepoDelete(repo: Repo)
    | GcSweep(cutoff: int, failed: set<BlobId>)

  function Do(env: Env, w: World, op: Op): World {
    var t := w.tables;
    match op
    case ClientPush(repo, reference, m) => w.(tables := Push(env, t, repo, reference, m))
    case ImportManifest(repo, reference, m) => w.(tables := Import(env, t, repo, reference, m))
    case FinishUpload(b, row, copied, recorded) =>
      if !copied then w
      else World(if recorded then RecordBlob(t, b, row) else t, w.objects + {b})
    case BlobDelete(b, objectDeleted) =>
      if b !in t.blobs || BlobReferenced(t, b) then w
      else World(DeleteBlob(t, b), if objectDeleted then w.objects - {b} else w.objects)
    case ManifestDelete(repo, reference) =>
      (match Resolve(t, repo, reference)
       case Some(digest) => w.(tables := DeleteManifest(t, ManifestKey(repo, digest)))
       case None => w)
    case RepoDelete(repo) => w.(tables := DeleteRepo(t, repo))
    case GcSweep(cutoff, failed) => Collect(w, UnreferencedBlobs(t, cutoff) - failed)
  }

  function After(env: Env, ops: seq<Op>): World
    decreases |ops|
  {
    if ops == [] then World(EMPTY_TABLES, {})
    else Do(env, After(env, ops[..|ops| - 1]), ops[|ops| - 1])
  }

  /** Rows hang off existing repositories and manifests. */
  ghost predicate Owned(t: Tables) {
    && (forall k <- t.manifests :: k.repo in t.repos)
    && (forall g <- t.tags :: ManifestKey(g.repo, t.tags[g]) in t.manifests)
  }

  /** Referenced blobs have rows; blob rows have objects. */
  ghost predicate BlobsClosed(w: World) {
    && (forall l <- w.tables.blobLinks :: BlobId(l.owner.repo.org, l.target) in w.tables.blobs)
    && (forall b <- w.tables.blobs :: b in w.objects)
  }

  lemma StoreManifestOwned(t: Tables, repo: Repo, reference: string, digest: Digest, m: Stored, doc: Json)
    requires Owned(t)
    ensures Owned(StoreManifest(t, repo, reference, digest, m, doc))
  {
  }

  lemma DoOwned(env: Env, w: World, op: Op)
    requires Owned(w.tables)
    ensures Owned(Do(env, w, op).tables)
  {
    match op
    case ClientPush(repo, reference, m) =>
      if env.decode(m.content).Some? {
        StoreManifestOwned(w.tables, repo, reference, env.sha(m.content), m, env.decode(m.content).value);
      }
    case ImportManifest(repo, reference, m) =>
      if env.decode(m.content).Some? {
        StoreManifestOwned(w.tables, repo, reference, env.sha(m.content), m, env.decode(m.content).value);
      }
    case _ =>
  }

  lemma DoAgrees(env: Env, w: World, op: Op)
    requires Agrees(env.decode, w.tables)
    ensures Agrees(env.decode, Do(env, w, op).tables)
  {
    var t := w.tables;
    match op
    case ClientPush(repo, reference, m) => StoreAgrees(env, t, repo, reference, m);
    case ImportManifest(repo, reference, m) => StoreAgrees(env, t, repo, reference, m);
    case ManifestDelete(repo, reference) =>
      if Resolve(t, repo, reference).Some? {
        DeleteManifestAgrees(env.decode, t, ManifestKey(repo, Resolve(t, repo, reference).value));
      }
    case RepoDelete(repo) => DeleteRepoAgrees(env.decode, t, repo);
    case _ =>
  }

  lemma StoreAgrees(env: Env, t: Tables, repo: Repo, reference: string, m: Stored)
    requires Agrees(env.decode, t)
    ensures Agrees(env.decode, Push(env, t, repo, reference, m))
    ensures Agrees(env.decode, Import(env, t, repo, reference, m))
  {
    if env.decode(m.content).Some? {
      var t1 := t.(repos := t.repos + {repo});
      PutManifestAgrees(env.decode, t1, ManifestKey(repo, env.sha(m.content)), m, env.decode(m.content).value);
    }
  }

  lemma {:induction false} AlwaysAgrees(env: Env, ops: seq<Op>)
    ensures Agrees(env.decode, After(env, ops).tables) && Owned(After(env, ops).tables)
    decreases |ops|
  {
    if ops != [] {
      AlwaysAgrees(env, ops[..|ops| - 1]);
      DoAgrees(env, After(env, ops[..|ops| - 1]), ops[|ops| - 1]);
      DoOwned(env, After(env, ops[..|ops| - 1]), ops[|ops| - 1]);
    }
  }

  /** After any history, a blob counts as referenced exactly when some stored manifest lists it. */
  lemma ReferencedIsFullScan(env: Env, ops: seq<Op>, b: BlobId)
    ensures var t := After(env, ops).tables;
            BlobReferenced(t, b) <==>
              exists k <- t.manifests ::
                k.repo.org == b.org && b.digest in BlobRefsIn(env.decode, t.manifests[k].content)
  {
    AlwaysAgrees(env, ops);
    var t := After(env, ops).tables;
    if k :| k in t.manifests && k.repo.org == b.org && b.digest in BlobRefsIn(env.decode, t.manifests[k].content) {
      assert Link(k, b.digest) in t.blobLinks;
    }
  }

  /** And the referrers of a subject are exactly the stored manifests whose `subject` it is. */
  lemma ReferrersAreFullScan(env: Env, ops: seq<Op>, repo: Repo, subject: Digest, referrer: Digest,
      artifactType: string)
    ensures var t := After(env, ops).tables;
            var k := ManifestKey(repo, referrer);
            (referrer, artifactType) in ListReferrers(t, repo, subject) <==>
              k in t.manifests && SubjectIn(env.decode, t.manifests[k].content) == Some((subject, artifactType))
  {
    AlwaysAgrees(env, ops);
    var t := After(env, ops).tables;
    var k := ManifestKey(repo, referrer);
    if k in t.manifests && SubjectIn(env.decode, t.manifests[k].content) == Some((subject, artifactType)) {
      assert Link(k, subject) in t.referrers;
    }
  }

  /** Children likewise: index links survive exactly as long as the index that lists them. */
  lemma ChildrenAreFullScan(env: Env, ops: seq<Op>, k: ManifestKey, child: Digest)
    ensures var t := After(env, ops).tables;
            Link(k, child) in t.childLinks <==>
              k in t.manifests && child in ChildRefsIn(env.decode, t.manifests[k].content)
  {
    AlwaysAgrees(env, ops);
  }

  // ---- closure ----

  /** Storing a manifest keeps the store closed exactly when the blobs it references are recorded. */
  lemma StoreKeepsClosedExactly(w: World, repo: Repo, reference: string, digest: Digest, m: Stored, doc: Json)
    requires BlobsClosed(w)
    ensures BlobsClosed(w.(tables := StoreManifest(w.tables, repo, reference, digest, m, doc))) <==>
            forall d <- BlobRefs(doc) :: BlobId(repo.org, d) in w.tables.blobs
  {
    var k := ManifestKey(repo, digest);
    var t' := StoreManifest(w.tables, repo, reference, digest, m, doc);
    assert forall d <- BlobRefs(doc) :: Link(k, d) in t'.blobLinks;
  }

  /** Removing a set of blobs keeps the store closed exactly when none of them is referenced. */
  lemma CollectKeepsClosedExactly(w: World, removed: set<BlobId>)
    requires BlobsClosed(w) && Agreeing(w.tables)
    ensures BlobsClosed(Collect(w, removed)) <==> forall b <- removed :: !BlobReferenced(w.tables, b)
  {
    var w' := Collect(w, removed);
    if BlobsClosed(w') {
      forall b <- removed ensures !BlobReferenced(w.tables, b) {
        forall l <- w.tables.blobLinks ensures !(l.owner.repo.org == b.org && l.target == b.digest) {
          assert l in w'.tables.blobLinks;
        }
      }
    }
  }

  /** Link rows belong to existing repositories. */
  ghost predicate Agreeing(t: Tables) {
    forall l <- t.blobLinks :: l.owner.repo in t.repos
  }

  lemma DoClosed(env: Env, w: World, op: Op)
    requires BlobsClosed(w) && Agreeing(w.tables) && !op.ImportManifest?
    ensures BlobsClosed(Do(env, w, op))
  {
    match op
    case ClientPush(repo, reference, m) =>
      if CheckPush(env, w.tables, repo.org, reference, m.content).None? {
        StoreKeepsClosedExactly(w, repo, reference, env.sha(m.content), m, env.decode(m.content).value);
      }
    case BlobDelete(b, objectDeleted) =>
      if b in w.tables.blobs && !BlobReferenced(w.tables, b) {
        CollectKeepsClosedExactly(w, {b});
      }
    case GcSweep(cutoff, failed) => CollectKeepsClosedExactly(w, UnreferencedBlobs(w.tables, cutoff) - failed);
    case _ =>
  }

  /**
   * After any history of client pushes, upload finishes, deletes and sweeps, every referenced
   * blob has a row, every blob row an object, and every tag a stored manifest. Failed object
   * deletes and failed recordings are included.
   */
  lemma {:induction false} AlwaysClosed(env: Env, ops: seq<Op>)
    requires forall op <- ops :: !op.ImportManifest?
    ensures BlobsClosed(After(env, ops)) && Owned(After(env, ops).tables)
    decreases |ops|
  {
    AlwaysAgrees(env, ops);
    if ops != [] {
      AlwaysClosed(env, ops[..|ops| - 1]);
      AlwaysAgrees(env, ops[..|ops| - 1]);
      DoClosed(env, After(env, ops[..|ops| - 1]), ops[|ops| - 1]);
    }
  }
}
