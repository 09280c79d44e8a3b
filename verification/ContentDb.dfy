/** The content tables updated in place, row by row, as the queries do. */
module ContentDb {
  import opened Common
  import opened Digests
  import opened Manifests
  import opened Content
  import opened Registry

  class Database {
    var repos: set<Repo>
    var manifests: map<ManifestKey, Stored>
    var blobLinks: set<Link>
    var childLinks: set<Link>
    var referrers: map<Link, string>
    var tags: map<TagKey, Digest>
    var blobs: map<BlobId, BlobRow>

    ghost function State(): Tables
      reads this
    {
      Tables(repos, manifests, blobLinks, childLinks, referrers, tags, blobs)
    }

    constructor ()
      ensures State() == EMPTY_TABLES
    {
      repos, manifests, blobLinks, childLinks, referrers, tags, blobs := {}, map[], {}, {}, map[], map[], map[];
    }

    method BlobExists(b: BlobId) returns (exists': bool)
      ensures exists' <==> b in blobs
    {
      exists' := b in blobs;
    }

    method RecordBlob(b: BlobId, row: BlobRow)
      modifies this`blobs
      ensures State() == Content.RecordBlob(old(State()), b, row)
    {
      if b !in blobs {
        blobs := blobs[b := row];
      }
    }

    method DeleteBlob(b: BlobId)
      modifies this`blobs
      ensures State() == Content.DeleteBlob(old(State()), b)
    {
      blobs := blobs - {b};
    }

    method UpsertTag(g: TagKey, digest: Digest)
      modifies this`tags
      ensures State() == old(State()).(tags := old(tags)[g := digest])
    {
      tags := tags[g := digest];
    }

    /** Deletes a manifest's blob rows and inserts the new ones one at a time. */
    method ReplaceBlobLinks(k: ManifestKey, targets: seq<Digest>)
      modifies this`blobLinks
      ensures blobLinks == Relink(old(blobLinks), k, targets)
    {
      blobLinks := set l | l in blobLinks && l.owner != k;
      assert blobLinks == Relink(old(blobLinks), k, targets[..0]);
      for i := 0 to |targets|
        invariant blobLinks == Relink(old(blobLinks), k, targets[..i])
      {
        blobLinks := blobLinks + {Link(k, targets[i])};
        assert targets[..i + 1] == targets[..i] + [targets[i]];
      }
      assert targets[..|targets|] == targets;
    }

    method ReplaceChildLinks(k: ManifestKey, targets: seq<Digest>)
      modifies this`childLinks
      ensures childLinks == Relink(old(childLinks), k, targets)
    {
      childLinks := set l | l in childLinks && l.owner != k;
      assert childLinks == Relink(old(childLinks), k, targets[..0]);
      for i := 0 to |targets|
        invariant childLinks == Relink(old(childLinks), k, targets[..i])
      {
        childLinks := childLinks + {Link(k, targets[i])};
        assert targets[..i + 1] == targets[..i] + [targets[i]];
      }
      assert targets[..|targets|] == targets;
    }

    method ReplaceReferrer(k: ManifestKey, subject: Option<(Digest, string)>)
      modifies this`referrers
      ensures referrers == Rerefer(old(referrers), k, subject)
    {
      referrers := map l | l in referrers && l.owner != k :: referrers[l];
      if subject.Some? {
        var (d, artifactType) := subject.value;
        referrers := referrers[Link(k, d) := artifactType];
      }
    }

    method PutManifest(k: ManifestKey, m: Stored, links: Links)
      modifies this`manifests, this`blobLinks, this`childLinks, this`referrers
      ensures State() == Content.PutManifest(old(State()), k, m, links)
    {
      manifests := manifests[k := m];
      ReplaceBlobLinks(k, links.blobs);
      ReplaceChildLinks(k, links.children);
      ReplaceReferrer(k, links.subject);
    }

    method DeleteManifest(k: ManifestKey)
      modifies this`manifests, this`blobLinks, this`childLinks, this`referrers, this`tags
      ensures State() == Content.DeleteManifest(old(State()), k)
    {
      tags := map g | g in tags && !(g.repo == k.repo && tags[g] == k.digest) :: tags[g];
      ReplaceBlobLinks(k, []);
      ReplaceChildLinks(k, []);
      ReplaceReferrer(k, None);
      manifests := manifests - {k};
    }

    /** `manifests::put`: nothing is stored unless every check passes. */
    method Push(env: Env, repo: Repo, reference: string, m: Stored) returns (r: Result<Digest, PushError>)
      modifies this
      ensures State() == Registry.Push(env, old(State()), repo, reference, m)
      ensures var failed := CheckPush(env, old(State()), repo.org, reference, m.content);
              r == if failed.Some? then Err(failed.value) else Ok(env.sha(m.content))
    {
      var digest := env.sha(m.content);
      if IsDigest(reference) && !DigestsEqual(reference, digest) {
        return Err(DigestInvalid);
      }
      var parsed := env.decode(m.content);
      if parsed.None? {
        return Err(ManifestInvalid);
      }
      var doc := parsed.value;
      var refs := ParseBlobRefs(doc);
      for i := 0 to |refs|
        invariant State() == old(State())
        invariant forall d <- refs[..i] :: BlobId(repo.org, d) in blobs
      {
        var present := BlobExists(BlobId(repo.org, refs[i]));
        if !present {
          assert refs[i] in BlobRefs(doc);
          return Err(BlobUnknown);
        }
        assert refs[..i + 1] == refs[..i] + [refs[i]];
      }
      assert refs[..|refs|] == refs;
      repos := repos + {repo};
      PutManifest(ManifestKey(repo, digest), m, Links(refs, ChildRefs(doc), Subject(doc)));
      if !IsDigest(reference) {
        UpsertTag(TagKey(repo, reference), digest);
      }
      r := Ok(digest);
    }
  }

  /** The content-addressed objects of object storage. A failed delete changes nothing, and is kept in `failed`. */
  class Bucket {
    var objects: set<BlobId>
    ghost var failed: set<BlobId>

    method Delete(b: BlobId) returns (ok: bool)
      modifies this
      ensures objects == (if ok then old(objects) - {b} else old(objects))
      ensures failed == if ok then old(failed) else old(failed) + {b}
    {
      ok := *;
      if ok {
        objects := objects - {b};
      } else {
        failed := failed + {b};
      }
    }
  }

  /** The blob whose object is gone and whose row could not be deleted. */
  datatype SweepError = RowKept(b: BlobId)

  /** `Halved`: the object went and the row stayed. */
  datatype Fate = Gone | Kept | Halved

  method DeleteOne(db: Database, bucket: Bucket, b: BlobId) returns (fate: Fate)
    modifies db`blobs, bucket
    ensures db.blobs == if fate.Gone? then old(db.blobs) - {b} else old(db.blobs)
    ensures bucket.objects == if fate.Kept? then old(bucket.objects) else old(bucket.objects) - {b}
    ensures bucket.failed == if fate.Kept? then old(bucket.failed) + {b} else old(bucket.failed)
  {
    var ok := bucket.Delete(b);
    if !ok {
      return Kept;
    }
    var rowFails := *;
    if rowFails {
      return Halved;
    }
    db.DeleteBlob(b);
    fate := Gone;
  }

  lemma OneLess<T>(listed: set<T>, todo: set<T>, removed: set<T>, failed: set<T>, b: T)
    requires listed == todo + removed + failed && b in todo && removed !! todo
    ensures listed == todo - {b} + (removed + {b}) + failed == todo - {b} + removed + (failed + {b})
    ensures removed + {b} !! todo - {b} && b !in removed
  {
  }

  lemma MinusOne<T, V>(m: map<T, V>, s: set<T>, removed: set<T>, b: T)
    ensures m - removed - {b} == m - (removed + {b}) && s - removed - {b} == s - (removed + {b})
  {
  }

  /** Deletes the listed blobs one after the other, object first. */
  method DeleteListed(db: Database, bucket: Bucket, listed: set<BlobId>)
    returns (r: Result<nat, SweepError>, ghost removed: set<BlobId>)
    modifies db`blobs, bucket
    ensures removed <= listed && bucket.failed <= listed
    ensures db.blobs == old(db.blobs) - removed
    ensures bucket.objects == old(bucket.objects) - removed - (if r.Ok? then {} else {r.error.b})
    ensures r.Ok? ==> r.value == |removed| && removed + bucket.failed == listed
    ensures r.Err? ==> r.error.b in listed - removed
  {
    var collected := 0;
    removed, bucket.failed := {}, {};
    var todo := listed;
    while todo != {}
      invariant removed !! todo && collected == |removed|
      invariant db.blobs == old(db.blobs) - removed && bucket.objects == old(bucket.objects) - removed
      invariant listed == todo + removed + bucket.failed
      decreases todo
    {
      var b :| b in todo;
      OneLess(listed, todo, removed, bucket.failed, b);
      MinusOne(old(db.blobs), old(bucket.objects), removed, b);
      todo := todo - {b};
      var fate := DeleteOne(db, bucket, b);
      if fate.Halved? {
        return Err(RowKept(b)), removed;
      }
      if fate.Gone? {
        collected := collected + 1;
        removed := removed + {b};
      }
    }
    r := Ok(collected);
  }

  /**
   * One sweep. Exactly the blobs older than the cutoff that no link references and whose object
   * could be deleted lose object and row, the rest keep both, and the count returned is how many
   * went. The first row that cannot be deleted ends the sweep, and that blob keeps a row without
   * an object.
   */
  method CollectGarbage(db: Database, bucket: Bucket, cutoff: int)
    returns (r: Result<nat, SweepError>, ghost removed: set<BlobId>)
    modifies db`blobs, bucket
    ensures forall b <- removed ::
              b in old(db.blobs) && old(db.blobs)[b].createdAt < cutoff && !BlobReferenced(old(db.State()), b)
    ensures db.blobs == old(db.blobs) - removed
    ensures bucket.objects == old(bucket.objects) - removed - (if r.Ok? then {} else {r.error.b})
    ensures r.Ok? ==> r.value == |removed|
    ensures r.Ok? ==> forall b <- old(db.blobs) ::
              || b in removed || b in bucket.failed
              || old(db.blobs)[b].createdAt >= cutoff || BlobReferenced(old(db.State()), b)
    ensures r.Err? ==> r.error.b in old(db.blobs) && r.error.b !in removed
                       && old(db.blobs)[r.error.b].createdAt < cutoff && !BlobReferenced(old(db.State()), r.error.b)
  {
    var listed := UnreferencedBlobs(
      Tables(db.repos, db.manifests, db.blobLinks, db.childLinks, db.referrers, db.tags, db.blobs), cutoff);
    r, removed := DeleteListed(db, bucket, listed);
    assert r.Err? ==> r.error.b in listed;
    assert forall b <- old(db.blobs) :: b !in listed ==>
             old(db.blobs)[b].createdAt >= cutoff || BlobReferenced(old(db.State()), b);
  }
}
