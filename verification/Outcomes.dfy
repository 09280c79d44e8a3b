/** What each request does to the registry, told by the stored manifests alone. */
module Outcomes {
  import opened Common
  import opened Digests
  import opened Manifests
  import opened Content
  import opened Registry

  /** Some manifest of the organisation lists the blob. */
  ghost predicate Listed(env: Env, t: Tables, b: BlobId) {
    exists k <- t.manifests :: k.repo.org == b.org && b.digest in BlobRefsIn(env.decode, t.manifests[k].content)
  }

  /** A sweep may take the blob: recorded before the cutoff, and listed by no manifest. */
  ghost predicate Garbage(env: Env, t: Tables, cutoff: int, b: BlobId) {
    b in t.blobs && t.blobs[b].createdAt < cutoff && !Listed(env, t, b)
  }

  /** Only blob rows may differ, by rows that are gone. */
  ghost predicate OnlyBlobsGo(t: Tables, t': Tables) {
    && t' == t.(blobs := t'.blobs)
    && forall b <- t'.blobs :: b in t.blobs && t'.blobs[b] == t.blobs[b]
  }

  /** After any history a sweep takes row and object of exactly the garbage whose object could be deleted. */
  lemma SweepExactly(env: Env, ops: seq<Op>, cutoff: int, failed: set<BlobId>)
    ensures var w := After(env, ops);
            var w' := Do(env, w, GcSweep(cutoff, failed));
            && OnlyBlobsGo(w.tables, w'.tables)
            && (forall b <- w.tables.blobs ::
                  b in w'.tables.blobs <==> b in failed || !Garbage(env, w.tables, cutoff, b))
            && w'.objects <= w.objects
            && (forall b <- w.objects :: b in w'.objects <==> b in failed || !Garbage(env, w.tables, cutoff, b))
  {
    var t := After(env, ops).tables;
    forall b ensures BlobReferenced(t, b) <==> Listed(env, t, b) {
      ReferencedIsFullScan(env, ops, b);
    }
  }

  /** A blob delete takes exactly a recorded blob that no manifest lists; the object may stay behind. */
  lemma BlobDeleteExactly(env: Env, ops: seq<Op>, b: BlobId, objectDeleted: bool)
    ensures var w := After(env, ops);
            var w' := Do(env, w, BlobDelete(b, objectDeleted));
            && OnlyBlobsGo(w.tables, w'.tables)
            && (b in w'.tables.blobs <==> b in w.tables.blobs && Listed(env, w.tables, b))
            && (forall c <- w.tables.blobs :: c != b ==> c in w'.tables.blobs)
            && w'.objects <= w.objects
            && (forall c <- w.objects ::
                  c !in w'.objects <==> c == b && objectDeleted && b in w.tables.blobs && !Listed(env, w.tables, b))
  {
    ReferencedIsFullScan(env, ops, b);
  }

  /** What a reference names in a repository. */
  function Names(t: Tables, repo: Repo, reference: string): set<Digest> {
    if repo !in t.repos then {}
    else if IsDigest(reference) then {reference}
    else set g | g in t.tags && g == TagKey(repo, reference) :: t.tags[g]
  }

  /** A manifest delete takes the named manifest and every tag on it, and nothing else but its derived rows. */
  lemma ManifestDeleteExactly(env: Env, w: World, repo: Repo, reference: string)
    ensures var t := w.tables;
            var w' := Do(env, w, ManifestDelete(repo, reference));
            var t' := w'.tables;
            var named := Names(t, repo, reference);
            && w'.objects == w.objects && t'.blobs == t.blobs && t'.repos == t.repos
            && t'.manifests == (map k | k in t.manifests && !(k.repo == repo && k.digest in named) :: t.manifests[k])
            && t'.tags == (map g | g in t.tags && !(g.repo == repo && t.tags[g] in named) :: t.tags[g])
  {
    var named := Names(w.tables, repo, reference);
    assert forall d | d in named :: Resolve(w.tables, repo, reference) == Some(d);
    if Resolve(w.tables, repo, reference).Some? {
      assert named == {Resolve(w.tables, repo, reference).value};
    } else {
      assert named == {};
    }
  }

  /** A repository delete takes the repository, its manifests and its tags; blobs stay. */
  lemma RepoDeleteExactly(env: Env, w: World, repo: Repo)
    ensures var t := w.tables;
            var w' := Do(env, w, RepoDelete(repo));
            var t' := w'.tables;
            && w'.objects == w.objects && t'.blobs == t.blobs && t'.repos == t.repos - {repo}
            && (forall k :: k in t'.manifests <==> k in t.manifests && k.repo != repo)
            && (forall k <- t'.manifests :: t'.manifests[k] == t.manifests[k])
            && (forall g :: g in t'.tags <==> g in t.tags && g.repo != repo)
            && (forall g <- t'.tags :: t'.tags[g] == t.tags[g])
  {
  }

  /** A finished upload places its object, and records the blob unless that fails or it is recorded already. */
  lemma FinishUploadExactly(env: Env, w: World, b: BlobId, row: BlobRow, copied: bool, recorded: bool)
    ensures var t := w.tables;
            var w' := Do(env, w, FinishUpload(b, row, copied, recorded));
            && w'.objects == w.objects + (if copied then {b} else {})
            && w'.tables == t.(blobs := w'.tables.blobs)
            && w'.tables.blobs.Keys == t.blobs.Keys + (if copied && recorded then {b} else {})
            && (forall c <- w'.tables.blobs :: w'.tables.blobs[c] == if c in t.blobs then t.blobs[c] else row)
  {
  }

  /** The manifest is stored under its own digest, the repository exists, and a tag reference points at it. */
  ghost predicate Stores(env: Env, w: World, w': World, repo: Repo, reference: string, m: Stored) {
    var t, t', digest := w.tables, w'.tables, env.sha(m.content);
    && w'.objects == w.objects && t'.blobs == t.blobs && t'.repos == t.repos + {repo}
    && t'.manifests == t.manifests[ManifestKey(repo, digest) := m]
    && t'.tags == if IsDigest(reference) then t.tags else t.tags[TagKey(repo, reference) := digest]
  }

  /** The first reason to refuse a push is the one given. */
  lemma RefusalsExactly(env: Env, t: Tables, org: string, reference: string, body: Bytes)
    ensures var refusal := CheckPush(env, t, org, reference, body);
            var misnamed := IsDigest(reference) && !DigestsEqual(reference, env.sha(body));
            && (refusal == Some(DigestInvalid) <==> misnamed)
            && (refusal == Some(ManifestInvalid) <==> !misnamed && env.decode(body).None?)
            && (refusal == Some(BlobUnknown) <==>
                  && !misnamed && env.decode(body).Some?
                  && exists d <- BlobRefsIn(env.decode, body) :: BlobId(org, d) !in t.blobs)
  {
  }

  /**
   * After any history a push is accepted exactly when a digest reference is the content's own
   * digest, the content is a document, and every blob it lists is recorded; it then stores it,
   * and otherwise nothing.
   */
  lemma PushExactly(env: Env, ops: seq<Op>, repo: Repo, reference: string, m: Stored)
    ensures var w := After(env, ops);
            var w' := Do(env, w, ClientPush(repo, reference, m));
            if && (IsDigest(reference) ==> DigestsEqual(reference, env.sha(m.content)))
               && env.decode(m.content).Some?
               && (forall d <- BlobRefsIn(env.decode, m.content) :: BlobId(repo.org, d) in w.tables.blobs)
            then Stores(env, w, w', repo, reference, m)
            else w' == w
  {
  }

  /** An imported manifest is stored without looking its blobs up. */
  lemma ImportExactly(env: Env, w: World, repo: Repo, reference: string, m: Stored)
    ensures var w' := Do(env, w, ImportManifest(repo, reference, m));
            if && (IsDigest(reference) ==> DigestsEqual(reference, env.sha(m.content)))
               && env.decode(m.content).Some?
            then Stores(env, w, w', repo, reference, m)
            else w' == w
  {
  }
}
