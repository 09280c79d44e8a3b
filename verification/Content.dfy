/** The content tables: repositories, manifests with their derived link rows, tags and blobs. */
module Content {
  import opened Common
  import opened Manifests

  /** A repository, identified by its unique `(org, name)`. */
  datatype Repo = Repo(org: string, name: string)

  datatype ManifestKey = ManifestKey(repo: Repo, digest: Digest)

  datatype Stored = Stored(mediaType: string, content: Bytes)

  /** A row `(repo_id, manifest_digest, target_digest)`. */
  datatype Link = Link(owner: ManifestKey, target: Digest)

  datatype TagKey = TagKey(repo: Repo, name: string)

  datatype BlobId = BlobId(org: string, digest: Digest)

  datatype BlobRow = BlobRow(size: nat, createdAt: int)

  /** `referrers` maps (referrer, subject) to the artifact type. */
  datatype Tables = Tables(
    repos: set<Repo>,
    manifests: map<ManifestKey, Stored>,
    blobLinks: set<Link>,
    childLinks: set<Link>,
    referrers: map<Link, string>,
    tags: map<TagKey, Digest>,
    blobs: map<BlobId, BlobRow>)

  const EMPTY_TABLES := Tables({}, map[], {}, {}, map[], map[], map[])

  datatype Links = Links(blobs: seq<Digest>, children: seq<Digest>, subject: Option<(Digest, string)>)

  function LinksOf(doc: Json): Links {
    Links(BlobRefs(doc), ChildRefs(doc), Subject(doc))
  }

  // ---- writes ----

  function Relink(links: set<Link>, k: ManifestKey, targets: seq<Digest>): set<Link> {
    (set l | l in links && l.owner != k) + (set d | d in targets :: Link(k, d))
  }

  function Rerefer(rows: map<Link, string>, k: ManifestKey, subject: Option<(Digest, string)>): map<Link, string> {
    var kept := map l | l in rows && l.owner != k :: rows[l];
    match subject
    case None => kept
    case Some((d, artifactType)) => kept[Link(k, d) := artifactType]
  }

  function PutManifest(t: Tables, k: ManifestKey, m: Stored, links: Links): Tables {
    t.(manifests := t.manifests[k := m],
       blobLinks := Relink(t.blobLinks, k, links.blobs),
       childLinks := Relink(t.childLinks, k, links.children),
       referrers := Rerefer(t.referrers, k, links.subject))
  }

  function DeleteManifest(t: Tables, k: ManifestKey): Tables {
    t.(manifests := t.manifests - {k},
       blobLinks := Relink(t.blobLinks, k, []),
       childLinks := Relink(t.childLinks, k, []),
       referrers := Rerefer(t.referrers, k, None),
       tags := (map g | g in t.tags && !(g.repo == k.repo && t.tags[g] == k.digest) :: t.tags[g]))
  }

  /** Deleting a repository cascades to everything keyed by it. Blobs belong to the organisation. */
  function DeleteRepo(t: Tables, repo: Repo): Tables {
    t.(repos := t.repos - {repo},
       manifests := (map k | k in t.manifests && k.repo != repo :: t.manifests[k]),
       blobLinks := (set l | l in t.blobLinks && l.owner.repo != repo),
       childLinks := (set l | l in t.childLinks && l.owner.repo != repo),
       referrers := (map l | l in t.referrers && l.owner.repo != repo :: t.referrers[l]),
       tags := (map g | g in t.tags && g.repo != repo :: t.tags[g]))
  }

  /** `ON CONFLICT DO NOTHING`: a recorded blob keeps its size and its age. */
  function RecordBlob(t: Tables, b: BlobId, row: BlobRow): Tables {
    if b in t.blobs then t else t.(blobs := t.blobs[b := row])
  }

  function DeleteBlob(t: Tables, b: BlobId): Tables {
    t.(blobs := t.blobs - {b})
  }

  // ---- queries ----

  predicate BlobReferenced(t: Tables, b: BlobId) {
    exists l <- t.blobLinks :: l.owner.repo in t.repos && l.owner.repo.org == b.org && l.target == b.digest
  }

  function UnreferencedBlobs(t: Tables, cutoff: int): set<BlobId> {
    set b | b in t.blobs && t.blobs[b].createdAt < cutoff && !BlobReferenced(t, b)
  }

  /** The referrer digests and artifact types `list_referrers` joins for a subject. */
  function ListReferrers(t: Tables, repo: Repo, subject: Digest): set<(Digest, string)> {
    set l | l in t.referrers && l.owner.repo == repo && l.target == subject && l.owner in t.manifests ::
      (l.owner.digest, t.referrers[l])
  }

  // ---- agreement of the derived rows with the stored bytes ----

  /** The rows are exactly what re-parsing every stored manifest gives. */
  ghost predicate LinksAgree(rows: set<Link>, manifests: map<ManifestKey, Stored>, refs: Bytes -> seq<Digest>) {
    forall l :: l in rows <==> l.owner in manifests && l.target in refs(manifests[l.owner].content)
  }

  ghost predicate ReferrersAgree(rows: map<Link, string>, manifests: map<ManifestKey, Stored>,
      subject: Bytes -> Option<(Digest, string)>) {
    && (forall l <- rows :: l.owner in manifests && subject(manifests[l.owner].content) == Some((l.target, rows[l])))
    && (forall k <- manifests :: subject(manifests[k].content).Some? ==>
          Link(k, subject(manifests[k].content).value.0) in rows)
  }

  lemma RelinkAgrees(rows: set<Link>, manifests: map<ManifestKey, Stored>, refs: Bytes -> seq<Digest>,
      k: ManifestKey, m: Stored)
    requires LinksAgree(rows, manifests, refs)
    ensures LinksAgree(Relink(rows, k, refs(m.content)), manifests[k := m], refs)
    ensures LinksAgree(Relink(rows, k, []), manifests - {k}, refs)
  {
  }

  lemma RereferAgrees(rows: map<Link, string>, manifests: map<ManifestKey, Stored>,
      subject: Bytes -> Option<(Digest, string)>, k: ManifestKey, m: Stored)
    requires ReferrersAgree(rows, manifests, subject)
    ensures ReferrersAgree(Rerefer(rows, k, subject(m.content)), manifests[k := m], subject)
    ensures ReferrersAgree(Rerefer(rows, k, None), manifests - {k}, subject)
  {
  }

  /** The registry's parser: bytes that are not JSON are never stored. */
  type Decoder = Bytes -> Option<Json>

  function BlobRefsIn(decode: Decoder, content: Bytes): seq<Digest> {
    match decode(content) case Some(doc) => BlobRefs(doc) case None => []
  }

  function ChildRefsIn(decode: Decoder, content: Bytes): seq<Digest> {
    match decode(content) case Some(doc) => ChildRefs(doc) case None => []
  }

  function SubjectIn(decode: Decoder, content: Bytes): Option<(Digest, string)> {
    match decode(content) case Some(doc) => Subject(doc) case None => None
  }

  ghost predicate Agrees(decode: Decoder, t: Tables) {
    && LinksAgree(t.blobLinks, t.manifests, c => BlobRefsIn(decode, c))
    && LinksAgree(t.childLinks, t.manifests, c => ChildRefsIn(decode, c))
    && ReferrersAgree(t.referrers, t.manifests, c => SubjectIn(decode, c))
  }

  lemma PutManifestAgrees(decode: Decoder, t: Tables, k: ManifestKey, m: Stored, doc: Json)
    requires Agrees(decode, t) && decode(m.content) == Some(doc)
    ensures Agrees(decode, PutManifest(t, k, m, LinksOf(doc)))
  {
    RelinkAgrees(t.blobLinks, t.manifests, c => BlobRefsIn(decode, c), k, m);
    RelinkAgrees(t.childLinks, t.manifests, c => ChildRefsIn(decode, c), k, m);
    RereferAgrees(t.referrers, t.manifests, c => SubjectIn(decode, c), k, m);
  }

  lemma DeleteManifestAgrees(decode: Decoder, t: Tables, k: ManifestKey)
    requires Agrees(decode, t)
    ensures Agrees(decode, DeleteManifest(t, k))
  {
    var m := Stored("", []);
    RelinkAgrees(t.blobLinks, t.manifests, c => BlobRefsIn(decode, c), k, m);
    RelinkAgrees(t.childLinks, t.manifests, c => ChildRefsIn(decode, c), k, m);
    RereferAgrees(t.referrers, t.manifests, c => SubjectIn(decode, c), k, m);
  }

  lemma DeleteRepoAgrees(decode: Decoder, t: Tables, repo: Repo)
    requires Agrees(decode, t)
    ensures Agrees(decode, DeleteRepo(t, repo))
  {
  }
}
