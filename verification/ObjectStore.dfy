/** Object storage: whole objects by key, and multipart uploads in progress. */
module ObjectStore {
  import opened Common
  import opened Digests

  datatype Fault =
    | StorageFailed
    | StreamFailed
    | TooLarge
    | DigestMismatch
    | QuotaExceeded
    | UnknownUpload
    | UpstreamRefused

  /** `orgs/<org>/blobs/<algo>/<hex>`. */
  function BlobKey(org: string, digest: string): string {
    match SplitOnce(digest, ':')
    case Some((algo, hex)) => "orgs/" + org + "/blobs/" + algo + "/" + hex
    case None => "orgs/" + org + "/blobs/sha256/" + digest
  }

  /** `orgs/<org>/_uploads/<upload_id>`. */
  function UploadKey(org: string, uploadId: string): string {
    "orgs/" + org + "/_uploads/" + uploadId
  }

  lemma CanonicalBlobKey(org: string, digest: string)
    requires Canonical(digest)
    ensures BlobKey(org, digest) == "orgs/" + org + "/blobs/sha256/" + digest[7..]
  {
    CanonicalSplits(digest);
  }

  lemma CanonicalSplits(digest: string)
    requires Canonical(digest)
    ensures SplitOnce(digest, ':') == Some(("sha256", digest[7..]))
  {
    assert digest[..7] == "sha256:" && digest[6] == digest[..7][6];
    assert forall i | 0 <= i < 6 :: digest[i] == digest[..7][i];
    IndexOfIs(digest, ':', 6);
    assert digest[..6] == digest[..7][..6] == "sha256";
  }

  /** Organisation ids hold no slash, so the first path component ends where it should. */
  lemma OrgPathsDiffer(org1: string, rest1: string, org2: string, rest2: string)
    requires '/' !in org1 && '/' !in org2
    requires "orgs/" + org1 + "/" + rest1 == "orgs/" + org2 + "/" + rest2
    ensures org1 == org2 && rest1 == rest2
  {
    var p, q := "orgs/" + org1 + "/" + rest1, "orgs/" + org2 + "/" + rest2;
    var a, b := org1 + ("/" + rest1), org2 + ("/" + rest2);
    assert p == "orgs/" + a && q == "orgs/" + b;
    assert a == p[5..] && b == q[5..];
    FirstSlash(org1, rest1);
    FirstSlash(org2, rest2);
    assert org1 == a[..|org1|] && rest1 == a[|org1| + 1..];
  }

  lemma FirstSlash(org: string, rest: string)
    requires '/' !in org
    ensures IndexOf(org + ("/" + rest), '/') == |org|
    ensures org + ("/" + rest) == org + "/" + rest
    ensures (org + ("/" + rest))[..|org|] == org && (org + ("/" + rest))[|org| + 1..] == rest
  {
    IndexOfIs(org + ("/" + rest), '/', |org|);
  }

  /** Content-addressed keys identify the organisation and the digest. */
  lemma BlobKeyInjective(org1: string, d1: string, org2: string, d2: string)
    requires '/' !in org1 && '/' !in org2 && Canonical(d1) && Canonical(d2)
    ensures BlobKey(org1, d1) == BlobKey(org2, d2) <==> org1 == org2 && d1 == d2
  {
    CanonicalBlobKey(org1, d1);
    CanonicalBlobKey(org2, d2);
    if BlobKey(org1, d1) == BlobKey(org2, d2) {
      var r1, r2 := "blobs/sha256/" + d1[7..], "blobs/sha256/" + d2[7..];
      BlobPath(org1, d1[7..]);
      BlobPath(org2, d2[7..]);
      OrgPathsDiffer(org1, r1, org2, r2);
      SameTail(d1, d2);
    }
  }

  lemma BlobPath(org: string, hex: string)
    ensures "orgs/" + org + "/blobs/sha256/" + hex == "orgs/" + org + "/" + ("blobs/sha256/" + hex)
  {
  }

  lemma SameTail(d1: string, d2: string)
    requires Canonical(d1) && Canonical(d2) && "blobs/sha256/" + d1[7..] == "blobs/sha256/" + d2[7..]
    ensures d1 == d2
  {
    assert d1[7..] == ("blobs/sha256/" + d1[7..])[13..] == ("blobs/sha256/" + d2[7..])[13..] == d2[7..];
    assert d1 == d1[..7] + d1[7..] && d2 == d2[..7] + d2[7..];
  }

  /** A temporary upload key is never a blob key. */
  lemma UploadKeyIsNoBlob(org1: string, id: string, org2: string, d: string)
    requires '/' !in org1 && '/' !in org2 && Canonical(d)
    ensures UploadKey(org1, id) != BlobKey(org2, d)
  {
    CanonicalBlobKey(org2, d);
    var r1, r2 := "_uploads/" + id, "blobs/sha256/" + d[7..];
    assert UploadKey(org1, id) == "orgs/" + org1 + "/" + r1;
    BlobPath(org2, d[7..]);
    assert r1[0] == '_' && r2[0] == 'b';
    if UploadKey(org1, id) == BlobKey(org2, d) {
      OrgPathsDiffer(org1, r1, org2, r2);
    }
  }

  lemma UploadKeyInjective(org1: string, id1: string, org2: string, id2: string)
    requires '/' !in org1 && '/' !in org2
    ensures UploadKey(org1, id1) == UploadKey(org2, id2) <==> org1 == org2 && id1 == id2
  {
    var r1, r2 := "_uploads/" + id1, "_uploads/" + id2;
    assert UploadKey(org1, id1) == "orgs/" + org1 + "/" + r1;
    assert UploadKey(org2, id2) == "orgs/" + org2 + "/" + r2;
    if UploadKey(org1, id1) == UploadKey(org2, id2) {
      OrgPathsDiffer(org1, r1, org2, r2);
      assert id1 == r1[9..] && id2 == r2[9..];
    }
  }

  /** The bodies of the listed parts, in list order. */
  function Assembled(bodies: map<int, Bytes>, parts: seq<int>): Bytes
    requires forall i | 0 <= i < |parts| :: parts[i] in bodies
  {
    if parts == [] then [] else bodies[parts[0]] + Assembled(bodies, parts[1..])
  }

  /** Any call may fail, and a failed call changes nothing but the failure counters. */
  class Storage {
    var objects: map<string, Bytes>
    var multiparts: map<int, map<int, Bytes>>
    var nextId: nat
    ghost var failures: nat
    ghost var failedAborts: nat

    ghost predicate Valid()
      reads this
    {
      forall id <- multiparts :: id < nextId
    }

    constructor ()
      ensures Valid() && objects == map[] && multiparts == map[]
    {
      objects, multiparts, nextId, failures, failedAborts := map[], map[], 0, 0, 0;
    }

    method CreateMultipart() returns (r: Result<int, Fault>)
      requires Valid()
      modifies this
      ensures Valid() && objects == old(objects) && failedAborts == old(failedAborts)
      ensures r.Err? ==> r.error == StorageFailed
      ensures r.Ok? ==> r.value !in old(multiparts) && multiparts == old(multiparts)[r.value := map[]]
      ensures r.Ok? ==> failures == old(failures)
      ensures r.Err? ==> multiparts == old(multiparts) && failures > old(failures)
    {
      if * {
        failures := failures + 1;
        return Err(StorageFailed);
      }
      r := Ok(nextId);
      multiparts := multiparts[nextId := map[]];
      nextId := nextId + 1;
    }

    method UploadPart(id: int, number: int, body: Bytes) returns (r: Result<int, Fault>)
      requires Valid()
      modifies this
      ensures Valid() && objects == old(objects) && failedAborts == old(failedAborts)
      ensures r.Err? ==> r.error == StorageFailed
      ensures r.Ok? ==> r.value == number && id in old(multiparts)
      ensures r.Ok? ==> multiparts == old(multiparts)[id := old(multiparts)[id][number := body]]
      ensures r.Ok? ==> failures == old(failures)
      ensures r.Err? ==> multiparts == old(multiparts)
      ensures r.Err? && id in multiparts ==> failures > old(failures)
    {
      if id !in multiparts {
        return Err(StorageFailed);
      }
      if * {
        failures := failures + 1;
        return Err(StorageFailed);
      }
      multiparts := multiparts[id := multiparts[id][number := body]];
      r := Ok(number);
    }

    method CompleteMultipart(key: string, id: int, parts: seq<int>) returns (r: Result<(), Fault>)
      requires Valid()
      modifies this
      ensures Valid() && failedAborts == old(failedAborts)
      ensures r.Err? ==> r.error == StorageFailed
      ensures r.Ok? ==> id in old(multiparts) && (forall i | 0 <= i < |parts| :: parts[i] in old(multiparts)[id])
      ensures r.Ok? ==> objects == old(objects)[key := Assembled(old(multiparts)[id], parts)]
      ensures r.Ok? ==> multiparts == old(multiparts) - {id} && failures == old(failures)
      ensures r.Err? ==> objects == old(objects) && multiparts == old(multiparts)
      ensures r.Err? && id in multiparts && (forall i | 0 <= i < |parts| :: parts[i] in multiparts[id]) ==>
                failures > old(failures)
    {
      if id !in multiparts || !(forall i | 0 <= i < |parts| :: parts[i] in multiparts[id]) {
        return Err(StorageFailed);
      }
      if * {
        failures := failures + 1;
        return Err(StorageFailed);
      }
      objects := objects[key := Assembled(multiparts[id], parts)];
      multiparts := multiparts - {id};
      r := Ok(());
    }

    method AbortMultipart(id: int) returns (r: Result<(), Fault>)
      requires Valid()
      modifies this
      ensures Valid() && objects == old(objects)
      ensures r.Err? ==> r.error == StorageFailed
      ensures r.Ok? ==>
                multiparts == old(multiparts) - {id} && failures == old(failures) && failedAborts == old(failedAborts)
      ensures r.Err? ==> multiparts == old(multiparts) && failures > old(failures) && failedAborts > old(failedAborts)
    {
      if * {
        failures := failures + 1;
        failedAborts := failedAborts + 1;
        return Err(StorageFailed);
      }
      multiparts := multiparts - {id};
      r := Ok(());
    }

    method Put(key: string, body: Bytes) returns (r: Result<(), Fault>)
      requires Valid()
      modifies this
      ensures Valid() && multiparts == old(multiparts) && failedAborts == old(failedAborts)
      ensures r.Err? ==> r.error == StorageFailed
      ensures r.Ok? ==> objects == old(objects)[key := body] && failures == old(failures)
      ensures r.Err? ==> objects == old(objects) && failures > old(failures)
    {
      if * {
        failures := failures + 1;
        return Err(StorageFailed);
      }
      objects := objects[key := body];
      r := Ok(());
    }

    /** Server-side copy. */
    method Copy(source: string, target: string) returns (r: Result<(), Fault>)
      requires Valid()
      modifies this
      ensures Valid() && multiparts == old(multiparts) && failedAborts == old(failedAborts)
      ensures r.Err? ==> r.error == StorageFailed
      ensures r.Ok? ==> source in old(objects) && objects == old(objects)[target := old(objects)[source]]
      ensures r.Ok? ==> failures == old(failures)
      ensures r.Err? ==> objects == old(objects) && (source in objects ==> failures > old(failures))
    {
      if source !in objects {
        return Err(StorageFailed);
      }
      if * {
        failures := failures + 1;
        return Err(StorageFailed);
      }
      objects := objects[target := objects[source]];
      r := Ok(());
    }

    method Delete(key: string) returns (r: Result<(), Fault>)
      requires Valid()
      modifies this
      ensures Valid() && multiparts == old(multiparts) && failedAborts == old(failedAborts)
      ensures r.Err? ==> r.error == StorageFailed
      ensures r.Ok? ==> objects == old(objects) - {key} && failures == old(failures)
      ensures r.Err? ==> objects == old(objects) && failures > old(failures)
    {
      if * {
        failures := failures + 1;
        return Err(StorageFailed);
      }
      objects := objects - {key};
      r := Ok(());
    }
  }
}
