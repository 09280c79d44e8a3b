/** Bulk import: copying one upstream reference, and everything its manifests reach, into a repository. */
module Import {
  import opened Common
  import opened Digests
  import opened Manifests

  datatype Fetched = Missing | Failed | Found(content: Bytes)

  /** The upstream, fixed while one tag is copied, as the importer sees it. */
  datatype Upstream = Upstream(fetch: string -> Fetched, sha: Bytes -> Digest, decode: Bytes -> Option<Json>)

  datatype ImportError = TooDeep | Unreachable | DigestMismatch | NotJson | CopyFailed | StoreFailed

  datatype Descriptor = Descriptor(digest: Digest, size: int)

  datatype Copied = Copied(blobs: nat, bytes: int)

  const MAX_MANIFEST_DEPTH: nat := 8

  // ---- reading manifests ----

  function SizeOf(v: Json): int {
    match v.Get("size") case Some(Number(n)) => n case _ => 0
  }

  function DescriptorsIn(items: seq<Json>): seq<Descriptor> {
    if items == [] then []
    else
      (match items[0].GetString("digest") case Some(d) => [Descriptor(d, SizeOf(items[0]))] case None => [])
      + DescriptorsIn(items[1..])
  }

  /** Exactly the entries with a digest, each with the number under its size, or 0. */
  lemma {:induction false} DescriptorsComplete(items: seq<Json>, d: Digest, n: int)
    ensures Descriptor(d, n) in DescriptorsIn(items) <==>
            exists i | 0 <= i < |items| ::
              && items[i].GetString("digest") == Some(d)
              && if items[i].Get("size").Some? && items[i].Get("size").value.Number?
                 then items[i].Get("size") == Some(Number(n)) else n == 0
  {
    if items != [] {
      DescriptorsComplete(items[1..], d, n);
      var rest := items[1..];
      assert forall i | 0 <= i < |rest| :: rest[i] == items[i + 1];
      assert Descriptor(d, n) in DescriptorsIn(items) <==>
          || (items[0].GetString("digest") == Some(d) && SizeOf(items[0]) == n)
          || Descriptor(d, n) in DescriptorsIn(rest);
    }
  }

  function BlobDescriptors(v: Json): seq<Descriptor> {
    (match v.Get("config") case Some(c) => DescriptorsIn([c]) case None => []) + DescriptorsIn(v.GetArray("layers"))
  }

  function DigestsOf(ds: seq<Descriptor>): seq<Digest> {
    if ds == [] then [] else [ds[0].digest] + DigestsOf(ds[1..])
  }

  lemma {:induction false} DigestsOfAppend(xs: seq<Descriptor>, ys: seq<Descriptor>)
    ensures DigestsOf(xs + ys) == DigestsOf(xs) + DigestsOf(ys)
  {
    if xs == [] {
      assert xs + ys == ys;
    } else {
      assert (xs + ys)[1..] == xs[1..] + ys;
      DigestsOfAppend(xs[1..], ys);
    }
  }

  lemma {:induction false} DescriptorsInDigests(items: seq<Json>)
    ensures DigestsOf(DescriptorsIn(items)) == DescriptorDigests(items)
  {
    if items != [] {
      DescriptorsInDigests(items[1..]);
      match items[0].GetString("digest")
      case Some(d) => DigestsOfAppend([Descriptor(d, SizeOf(items[0]))], DescriptorsIn(items[1..]));
      case None => assert DescriptorsIn(items) == DescriptorsIn(items[1..]);
    }
  }

  /** The importer copies exactly the blobs that the link rows of the manifest will reference. */
  lemma DescriptorsAreBlobRefs(v: Json)
    ensures DigestsOf(BlobDescriptors(v)) == BlobRefs(v)
  {
    DescriptorsInDigests(v.GetArray("layers"));
    match v.Get("config")
    case Some(c) =>
      DescriptorsInDigests([c]);
      DigestsOfAppend(DescriptorsIn([c]), DescriptorsIn(v.GetArray("layers")));
      assert DescriptorDigests([c]) == match c.GetString("digest") case Some(d) => [d] case None => [];
    case None =>
      assert BlobDescriptors(v) == DescriptorsIn(v.GetArray("layers"));
  }

  lemma {:induction false} DigestsOfHolds(ds: seq<Descriptor>, d: Digest)
    requires d in DigestsOf(ds)
    ensures exists i | 0 <= i < |ds| :: ds[i].digest == d
  {
    if ds[0].digest != d {
      DigestsOfHolds(ds[1..], d);
      var i :| 0 <= i < |ds[1..]| && ds[1..][i].digest == d;
      assert ds[i + 1].digest == d;
    }
  }

  // ---- the upstream graph ----

  function ChildrenIn(up: Upstream, content: Bytes): seq<Digest> {
    match up.decode(content) case Some(doc) => ChildRefs(doc) case None => []
  }

  function BlobsIn(up: Upstream, content: Bytes): seq<Digest> {
    match up.decode(content) case Some(doc) => BlobRefs(doc) case None => []
  }

  /** The child references of what the upstream serves for a reference. */
  function ChildrenAt(up: Upstream): string -> seq<string> {
    reference => match up.fetch(reference) case Found(content) => ChildrenIn(up, content) case _ => []
  }

  /** `reference` is `steps` child links below `root`. */
  ghost predicate Leads(children: string -> seq<string>, root: string, reference: string, steps: nat)
    decreases steps
  {
    if steps == 0 then reference == root
    else exists via: string :: Leads(children, root, via, steps - 1) && reference in children(via)
  }

  /** What holds of the root and passes from each reference to its children holds all the way down. */
  lemma {:induction false} LeadsStays(children: string -> seq<string>, ok: string -> bool, root: string,
      reference: string, steps: nat)
    requires ok(root) && forall via, c | ok(via) && c in children(via) :: ok(c)
    requires Leads(children, root, reference, steps)
    ensures ok(reference)
    decreases steps
  {
    if steps > 0 {
      var via: string :| Leads(children, root, via, steps - 1) && reference in children(via);
      LeadsStays(children, ok, root, via, steps - 1);
    }
  }

  /** A manifest with this digest is found within `most` child links of `root`. */
  ghost predicate FoundBelow(up: Upstream, root: string, digest: Digest, most: nat) {
    exists reference: string, steps: nat ::
      && steps <= most && Leads(ChildrenAt(up), root, reference, steps)
      && up.fetch(reference).Found? && up.sha(up.fetch(reference).content) == digest
  }

  /** Absent upstream, or among `digests`; and what a digest asks for has that digest. */
  predicate Settled(up: Upstream, digests: set<Digest>, reference: string) {
    match up.fetch(reference)
    case Missing => true
    case Failed => false
    case Found(content) =>
      up.sha(content) in digests && (IsDigest(reference) ==> DigestsEqual(reference, up.sha(content)))
  }

  function DigestAt(up: Upstream, reference: string): Option<Digest> {
    match up.fetch(reference)
    case Found(content) => Some(up.sha(content))
    case _ => None
  }

  /** The first `n` references are settled. */
  predicate AllSettled(up: Upstream, digests: set<Digest>, references: seq<string>, n: nat)
    requires n <= |references|
  {
    forall i | 0 <= i < n :: Settled(up, digests, references[i])
  }

  lemma OneMoreSettled(up: Upstream, before: set<Digest>, after: set<Digest>, references: seq<string>, i: nat)
    requires i < |references| && before <= after
    requires AllSettled(up, before, references, i) && Settled(up, after, references[i])
    ensures AllSettled(up, after, references, i + 1)
  {
  }

  /** What a stored manifest guarantees: an image its blobs, an index each of its children. */
  ghost predicate Complete(up: Upstream, digests: set<Digest>, blobs: set<Digest>, content: Bytes) {
    && up.decode(content).Some?
    && (ChildrenIn(up, content) == [] ==> forall d <- BlobsIn(up, content) :: d in blobs)
    && AllSettled(up, digests, ChildrenIn(up, content), |ChildrenIn(up, content)|)
  }

  ghost predicate AllComplete(up: Upstream, stored: map<Digest, Bytes>, visited: set<Digest>, blobs: set<Digest>) {
    forall d <- stored :: up.sha(stored[d]) == d && Complete(up, visited, blobs, stored[d])
  }

  function TotalSize(ds: seq<Descriptor>): int
    decreases |ds|
  {
    if ds == [] then 0 else TotalSize(ds[..|ds| - 1]) + ds[|ds| - 1].size
  }

  lemma {:induction false} TotalSizeAppend(xs: seq<Descriptor>, ys: seq<Descriptor>)
    ensures TotalSize(xs + ys) == TotalSize(xs) + TotalSize(ys)
    decreases |ys|
  {
    if ys == [] {
      assert xs + ys == xs;
    } else {
      assert (xs + ys)[..|xs + ys| - 1] == xs + ys[..|ys| - 1];
      TotalSizeAppend(xs, ys[..|ys| - 1]);
    }
  }

  /** The descriptors a list of results says were actually fetched, in order. */
  function Fresh(ds: seq<Descriptor>, rs: seq<Result<bool, ImportError>>): seq<Descriptor>
    requires |rs| <= |ds|
    decreases |rs|
  {
    if rs == [] then []
    else
      var before := Fresh(ds, rs[..|rs| - 1]);
      if rs[|rs| - 1] == Ok(true) then before + [ds[|rs| - 1]] else before
  }

  lemma FreshSnoc(ds: seq<Descriptor>, rs: seq<Result<bool, ImportError>>, r: Result<bool, ImportError>)
    requires |rs| < |ds|
    ensures Fresh(ds, rs + [r]) == if r == Ok(true) then Fresh(ds, rs) + [ds[|rs|]] else Fresh(ds, rs)
  {
    assert (rs + [r])[..|rs|] == rs;
  }

  lemma TotalSizeSnoc(ds: seq<Descriptor>, d: Descriptor)
    ensures TotalSize(ds + [d]) == TotalSize(ds) + d.size
  {
    assert (ds + [d])[..|ds|] == ds;
  }

  /** `c` is what was downloaded in between: how many blobs, and the sizes their manifests declare. */
  ghost predicate Accounts(past: seq<Descriptor>, now: seq<Descriptor>, c: Copied) {
    |now| == |past| + c.blobs && TotalSize(now) == TotalSize(past) + c.bytes
  }

  /**
   * The progress of one tag's copy: manifests visited, stored and in what order, the
   * organisation's blobs, and the descriptors this copy downloaded.
   */
  datatype Progress = Progress(
    visited: set<Digest>,
    stored: map<Digest, Bytes>,
    log: seq<Digest>,
    blobs: set<Digest>,
    downloads: seq<Descriptor>)
  {
    /** Visited and not yet stored: the manifests the current reference is nested in. */
    function Open(): set<Digest> {
      visited - stored.Keys
    }

    /** Every stored manifest is complete, and was stored once. */
    ghost predicate Sound(up: Upstream) {
      && stored.Keys <= visited
      && AllComplete(up, stored, visited, blobs)
      && (forall d :: d in log <==> d in stored)
      && (forall i, j | 0 <= i < j < |log| :: log[i] != log[j])
    }

    ghost predicate Below(up: Upstream, root: string) {
      forall d <- visited :: FoundBelow(up, root, d, MAX_MANIFEST_DEPTH)
    }

    /** What a copy may do, however it ends; each download records one new blob. */
    ghost predicate Grows(next: Progress) {
      && visited <= next.visited && blobs <= next.blobs
      && (forall d <- stored :: d in next.stored && next.stored[d] == stored[d])
      && log <= next.log && downloads <= next.downloads
      && |next.blobs| - |blobs| == |next.downloads| - |downloads|
    }
  }

  lemma GrowsTrans(a: Progress, b: Progress, c: Progress)
    requires a.Grows(b) && b.Grows(c)
    ensures a.Grows(c)
  {
  }

  /** More visited digests and more blobs never undo completeness. */
  lemma MoreKeepsSound(up: Upstream, p: Progress, visited: set<Digest>, blobs: set<Digest>, downloads: seq<Descriptor>)
    requires p.Sound(up) && p.visited <= visited && p.blobs <= blobs
    ensures p.(visited := visited, blobs := blobs, downloads := downloads).Sound(up)
  {
  }

  lemma VisitKeeps(up: Upstream, p: Progress, root: string, reference: string, depth: nat)
    requires depth <= MAX_MANIFEST_DEPTH && p.Sound(up) && p.Below(up, root)
    requires Leads(ChildrenAt(up), root, reference, depth) && up.fetch(reference).Found?
    requires up.sha(up.fetch(reference).content) !in p.visited
    ensures var digest := up.sha(up.fetch(reference).content);
            var q := p.(visited := p.visited + {digest});
            q.Sound(up) && q.Below(up, root) && p.Grows(q) && digest in q.Open() && q.Open() - {digest} == p.Open()
  {
    MoreKeepsSound(up, p, p.visited + {up.sha(up.fetch(reference).content)}, p.blobs, p.downloads);
  }

  lemma StoreKeeps(up: Upstream, p: Progress, digest: Digest, content: Bytes)
    requires p.Sound(up) && digest in p.Open()
    requires up.sha(content) == digest && Complete(up, p.visited, p.blobs, content)
    ensures var q := p.(stored := p.stored[digest := content], log := p.log + [digest]);
            q.Sound(up) && p.Grows(q) && q.Open() == p.Open() - {digest}
  {
  }

  // ---- why a copy fails ----

  /** A reference below the root gives this reason to give up. */
  ghost predicate Explains(up: Upstream, root: string, e: ImportError) {
    exists reference: string, steps: nat ::
      Leads(ChildrenAt(up), root, reference, steps) && Troubles(up, reference, steps, e)
  }

  predicate Troubles(up: Upstream, reference: string, steps: nat, e: ImportError) {
    var got := up.fetch(reference);
    match e
    case TooDeep => steps > MAX_MANIFEST_DEPTH
    case Unreachable => got.Failed?
    case DigestMismatch => got.Found? && IsDigest(reference) && !DigestsEqual(reference, up.sha(got.content))
    case NotJson => got.Found? && up.decode(got.content).None?
    case _ => false
  }

  // ---- which tags move ----

  ghost predicate Reaches(up: Upstream, root: string, reference: string) {
    exists steps: nat :: Leads(ChildrenAt(up), root, reference, steps)
  }

  predicate SameTagAt(before: map<string, Digest>, after: map<string, Digest>, t: string) {
    (t in after <==> t in before) && (t in before ==> after[t] == before[t])
  }

  /** A tag moves only when it is a reference below the root, and then to the manifest served for it. */
  ghost predicate TagsFollow(up: Upstream, root: string, before: map<string, Digest>, after: map<string, Digest>) {
    forall t ::
      || SameTagAt(before, after, t)
      || (Reaches(up, root, t) && !IsDigest(t) && t in after && DigestAt(up, t) == Some(after[t]))
  }

  /** `reference` was what a stored manifest was copied for: when it is no digest, it is a tag by now. */
  ghost predicate Names(up: Upstream, root: string, tags: map<string, Digest>, reference: string, digest: Digest) {
    && Reaches(up, root, reference) && DigestAt(up, reference) == Some(digest)
    && (IsDigest(reference) || (reference in tags && tags[reference] == digest))
  }

  ghost predicate AllNamed(up: Upstream, root: string, stored: set<Digest>, tags: map<string, Digest>) {
    forall d <- stored :: exists reference :: Names(up, root, tags, reference, d)
  }

  ghost predicate TagsOk(up: Upstream, root: string, before: map<string, Digest>, stored: set<Digest>,
      tags: map<string, Digest>) {
    TagsFollow(up, root, before, tags) && AllNamed(up, root, stored, tags)
  }

  lemma StoreKeepsTags(up: Upstream, root: string, before: map<string, Digest>, stored: set<Digest>,
      tags: map<string, Digest>, reference: string, digest: Digest)
    requires TagsOk(up, root, before, stored, tags)
    requires Reaches(up, root, reference) && DigestAt(up, reference) == Some(digest)
    ensures var tags' := if IsDigest(reference) then tags else tags[reference := digest];
            TagsOk(up, root, before, stored + {digest}, tags')
  {
    var tags' := if IsDigest(reference) then tags else tags[reference := digest];
    forall t ensures SameTagAt(before, tags', t)
                  || (Reaches(up, root, t) && !IsDigest(t) && t in tags' && DigestAt(up, t) == Some(tags'[t])) {
      assert t != reference ==> SameTagAt(tags, tags', t);
    }
    forall d <- stored + {digest} ensures exists r :: Names(up, root, tags', r, d) {
      if d == digest {
        assert Names(up, root, tags', reference, d);
      } else {
        var r :| Names(up, root, tags, r, d);
        assert Names(up, root, tags', r, d);
      }
    }
  }

  /** No other reference below the root is served the same manifest. */
  ghost predicate OnlyReference(up: Upstream, root: string, t: string) {
    && Reaches(up, root, t) && DigestAt(up, t).Some?
    && (forall other | Reaches(up, root, other) && DigestAt(up, other) == DigestAt(up, t) :: other == t)
  }

  lemma AllRefsPresent(doc: Json, blobs: set<Digest>)
    requires forall d <- BlobDescriptors(doc) :: d.digest in blobs
    ensures forall d <- BlobRefs(doc) :: d in blobs
  {
    DescriptorsAreBlobRefs(doc);
    var ds := BlobDescriptors(doc);
    forall d <- BlobRefs(doc) ensures d in blobs {
      DigestsOfHolds(ds, d);
      var j :| 0 <= j < |ds| && ds[j].digest == d;
      assert ds[j] in ds;
    }
  }

  /** The copy of one tag. */
  class TagCopy {
    const up: Upstream
    var visited: set<Digest>
    var stored: map<Digest, Bytes>
    var log: seq<Digest>
    var tags: map<string, Digest>
    var blobs: set<Digest>
    ghost var downloads: seq<Descriptor>
    ghost var faults: nat
    ghost const firstTags: map<string, Digest>

    ghost predicate TagsKept(root: string)
      reads this
    {
      TagsOk(up, root, firstTags, stored.Keys, tags)
    }

    /** An error has its reason in the upstream, or in a copy or a store that failed since. */
    ghost predicate Explained(root: string, r: Result<Copied, ImportError>, before: nat)
      reads this
    {
      r.Err? ==> if r.error.CopyFailed? || r.error.StoreFailed? then faults > before else Explains(up, root, r.error)
    }

    ghost function State(): Progress
      reads this
    {
      Progress(visited, stored, log, blobs, downloads)
    }

    constructor (up: Upstream, blobs: set<Digest>, tags: map<string, Digest>)
      ensures this.up == up && this.tags == tags == firstTags && faults == 0
      ensures State() == Progress({}, map[], [], blobs, [])
    {
      this.up, this.blobs, this.tags, firstTags := up, blobs, tags, tags;
      visited, stored, log, downloads, faults := {}, map[], [], [], 0;
    }

    /** `copy_blob_once` with nothing else running: only a missing blob is fetched, and that may fail. */
    method CopyBlobOnce(d: Descriptor) returns (r: Result<bool, ImportError>)
      modifies this`blobs, this`downloads, this`faults
      ensures r.Ok? ==> r.value == (d.digest !in old(blobs)) && blobs == old(blobs) + {d.digest}
      ensures r.Err? ==> d.digest !in old(blobs) && blobs == old(blobs)
      ensures downloads == old(downloads) + if r == Ok(true) then [d] else []
      ensures if r.Ok? then faults == old(faults) else r == Err(CopyFailed) && faults == old(faults) + 1
    {
      if d.digest in blobs {
        assert blobs == blobs + {d.digest};
        return Ok(false);
      }
      var ok := *;
      if !ok {
        faults := faults + 1;
        return Err(CopyFailed);
      }
      blobs := blobs + {d.digest};
      downloads := downloads + [d];
      r := Ok(true);
    }

    /** Every copy runs to its end, whether or not others fail. */
    method CopyAll(ds: seq<Descriptor>) returns (results: seq<Result<bool, ImportError>>)
      modifies this`blobs, this`downloads, this`faults
      ensures |results| == |ds| && downloads == old(downloads) + Fresh(ds, results)
      ensures old(blobs) <= blobs && |blobs| == |old(blobs)| + |Fresh(ds, results)|
      ensures forall j | 0 <= j < |ds| && results[j].Ok? :: ds[j].digest in blobs
      ensures faults >= old(faults)
      ensures forall j | 0 <= j < |ds| && results[j].Err? :: results[j] == Err(CopyFailed) && faults > old(faults)
    {
      results := [];
      for i := 0 to |ds|
        invariant |results| == i && downloads == old(downloads) + Fresh(ds, results)
        invariant old(blobs) <= blobs && |blobs| == |old(blobs)| + |Fresh(ds, results)|
        invariant forall j | 0 <= j < i && results[j].Ok? :: ds[j].digest in blobs
        invariant faults >= old(faults)
        invariant forall j | 0 <= j < i && results[j].Err? :: results[j] == Err(CopyFailed) && faults > old(faults)
      {
        ghost var before := blobs;
        var one := CopyBlobOnce(ds[i]);
        FreshSnoc(ds, results, one);
        assert one == Ok(false) ==> blobs == before;
        results := results + [one];
      }
    }

    /** The first error, or what was downloaded in all. */
    static method Collect(ds: seq<Descriptor>, results: seq<Result<bool, ImportError>>)
      returns (r: Result<Copied, ImportError>)
      requires |results| == |ds|
      ensures r.Ok? ==> r.value.blobs == |Fresh(ds, results)| && r.value.bytes == TotalSize(Fresh(ds, results))
      ensures r.Ok? ==> forall j | 0 <= j < |ds| :: results[j].Ok?
      ensures r.Err? ==> exists j | 0 <= j < |ds| ::
                results[j] == Err(r.error) && forall i | 0 <= i < j :: results[i].Ok?
    {
      var blobs, bytes := 0, 0;
      for i := 0 to |ds|
        invariant blobs == |Fresh(ds, results[..i])| && bytes == TotalSize(Fresh(ds, results[..i]))
        invariant forall j | 0 <= j < i :: results[j].Ok?
      {
        if results[i].Err? {
          return Err(results[i].error);
        }
        FreshSnoc(ds, results[..i], results[i]);
        assert results[..i + 1] == results[..i] + [results[i]];
        if results[i].value {
          TotalSizeSnoc(Fresh(ds, results[..i]), ds[i]);
          blobs, bytes := blobs + 1, bytes + ds[i].size;
        }
      }
      assert results[..|ds|] == results;
      r := Ok(Copied(blobs, bytes));
    }

    /** The config and layer blobs of one image. */
    method CopyBlobs(doc: Json) returns (r: Result<Copied, ImportError>)
      modifies this`blobs, this`downloads, this`faults
      ensures old(blobs) <= blobs && old(downloads) <= downloads
      ensures |blobs| - |old(blobs)| == |downloads| - |old(downloads)|
      ensures r.Ok? ==> forall d <- BlobRefs(doc) :: d in blobs
      ensures r.Ok? ==> Accounts(old(downloads), downloads, r.value)
      ensures faults >= old(faults) && (r.Err? ==> r == Err(CopyFailed) && faults > old(faults))
    {
      var ds := BlobDescriptors(doc);
      var results := CopyAll(ds);
      TotalSizeAppend(old(downloads), Fresh(ds, results));
      r := Collect(ds, results);
      if r.Ok? {
        AllRefsPresent(doc, blobs);
      }
    }

    /** `store_manifest`, which may fail; a reference that is not a digest becomes a tag. */
    method StoreManifest(reference: string, digest: Digest, content: Bytes) returns (ok: bool)
      modifies this`stored, this`log, this`tags, this`faults
      ensures faults == old(faults) + if ok then 0 else 1
      ensures State() == if ok
                         then old(State()).(stored := old(stored)[digest := content], log := old(log) + [digest])
                         else old(State())
      ensures tags == if ok && !IsDigest(reference) then old(tags)[reference := digest] else old(tags)
    {
      ok := *;
      if ok {
        stored := stored[digest := content];
        log := log + [digest];
        if !IsDigest(reference) {
          tags := tags[reference := digest];
        }
      } else {
        faults := faults + 1;
      }
    }

    /** The blobs of an image, or the children of an index. */
    method CopyContents(content: Bytes, doc: Json, reference: string, depth: nat, ghost root: string)
      returns (r: Result<Copied, ImportError>)
      requires State().Sound(up) && State().Below(up, root) && TagsKept(root)
      requires depth <= MAX_MANIFEST_DEPTH && Leads(ChildrenAt(up), root, reference, depth)
      requires up.fetch(reference) == Found(content) && up.decode(content) == Some(doc)
      modifies this
      ensures State().Sound(up) && State().Below(up, root) && TagsKept(root)
      ensures old(State()).Grows(State())
      ensures r.Ok? ==> Complete(up, visited, blobs, content) && State().Open() == old(State().Open())
      ensures r.Ok? ==> Accounts(old(downloads), downloads, r.value)
      ensures faults >= old(faults) && Explained(root, r, old(faults))
      decreases MAX_MANIFEST_DEPTH + 1 - depth, 2
    {
      var children := ChildRefs(doc);
      if children == [] {
        ghost var before := State();
        r := CopyBlobs(doc);
        MoreKeepsSound(up, before, before.visited, blobs, downloads);
      } else {
        forall i | 0 <= i < |children| ensures Leads(ChildrenAt(up), root, children[i], depth + 1) {
          LeadsChild(up, root, reference, depth, children[i]);
        }
        r := CopyChildren(children, depth, root);
      }
    }

    /** `copy_reference`. It ends for every upstream, cyclic or not: the depth bounds it. */
    method CopyReference(reference: string, depth: nat, ghost root: string)
      returns (r: Result<Copied, ImportError>)
      requires State().Sound(up) && State().Below(up, root) && TagsKept(root)
      requires depth <= MAX_MANIFEST_DEPTH + 1 && Leads(ChildrenAt(up), root, reference, depth)
      modifies this
      ensures State().Sound(up) && State().Below(up, root) && TagsKept(root)
      ensures old(State()).Grows(State())
      ensures r.Ok? ==> Settled(up, visited, reference) && State().Open() == old(State().Open())
      ensures depth == 0 && r.Ok? && !IsDigest(reference) && !Settled(up, old(visited), reference) ==>
                reference in tags && Some(tags[reference]) == DigestAt(up, reference)
      ensures r.Ok? ==> Accounts(old(downloads), downloads, r.value)
      ensures faults >= old(faults) && Explained(root, r, old(faults))
      decreases MAX_MANIFEST_DEPTH + 1 - depth, 4
    {
      if depth > MAX_MANIFEST_DEPTH {
        assert Troubles(up, reference, depth, TooDeep);
        return Err(TooDeep);
      }
      var got := up.fetch(reference);
      if got.Failed? {
        assert Troubles(up, reference, depth, Unreachable);
        return Err(Unreachable);
      }
      if got.Missing? {
        return Ok(Copied(0, 0));
      }
      var digest := up.sha(got.content);
      if IsDigest(reference) && !DigestsEqual(reference, digest) {
        assert Troubles(up, reference, depth, DigestMismatch);
        return Err(DigestMismatch);
      }
      if digest in visited {
        return Ok(Copied(0, 0));
      }
      r := CopyFresh(reference, digest, got.content, depth, root);
    }

    /** What `copy_reference` does with a manifest it has not visited. */
    method CopyFresh(reference: string, digest: Digest, content: Bytes, depth: nat, ghost root: string)
      returns (r: Result<Copied, ImportError>)
      requires State().Sound(up) && State().Below(up, root) && TagsKept(root)
      requires depth <= MAX_MANIFEST_DEPTH && Leads(ChildrenAt(up), root, reference, depth)
      requires up.fetch(reference) == Found(content) && up.sha(content) == digest && digest !in visited
      modifies this
      ensures State().Sound(up) && State().Below(up, root) && TagsKept(root)
      ensures old(State()).Grows(State())
      ensures r.Ok? ==> digest in visited && State().Open() == old(State().Open())
      ensures r.Ok? && !IsDigest(reference) && depth == 0 ==> reference in tags && tags[reference] == digest
      ensures r.Ok? ==> Accounts(old(downloads), downloads, r.value)
      ensures faults >= old(faults) && Explained(root, r, old(faults))
      decreases MAX_MANIFEST_DEPTH + 1 - depth, 3
    {
      VisitKeeps(up, State(), root, reference, depth);
      visited := visited + {digest};
      var doc := up.decode(content);
      if doc.None? {
        assert Troubles(up, reference, depth, NotJson);
        return Err(NotJson);
      }
      ghost var visiting := State();
      r := CopyContents(content, doc.value, reference, depth, root);
      GrowsTrans(old(State()), visiting, State());
      if r.Ok? {
        ghost var copied := State();
        var ok := StoreCopied(reference, digest, content, root);
        GrowsTrans(old(State()), copied, State());
        if !ok {
          r := Err(StoreFailed);
        }
      }
    }

    /** Storing what has been copied in full. */
    method StoreCopied(reference: string, digest: Digest, content: Bytes, ghost root: string) returns (ok: bool)
      requires State().Sound(up) && State().Below(up, root) && TagsKept(root)
      requires digest in State().Open() && up.fetch(reference) == Found(content) && up.sha(content) == digest
      requires Complete(up, visited, blobs, content) && Reaches(up, root, reference)
      modifies this`stored, this`log, this`tags, this`faults
      ensures faults == old(faults) + if ok then 0 else 1
      ensures State().Sound(up) && State().Below(up, root) && TagsKept(root)
      ensures old(State()).Grows(State())
      ensures ok ==> State().Open() == old(State().Open()) - {digest}
      ensures ok && !IsDigest(reference) ==> reference in tags && tags[reference] == digest
    {
      StoreKeeps(up, State(), digest, content);
      StoreKeepsTags(up, root, firstTags, stored.Keys, tags, reference, digest);
      ok := StoreManifest(reference, digest, content);
      assert ok ==> stored.Keys == old(stored.Keys) + {digest};
    }

    /** The references an index lists, each one level deeper than the index. */
    method CopyChildren(children: seq<Digest>, depth: nat, ghost root: string)
      returns (r: Result<Copied, ImportError>)
      requires State().Sound(up) && State().Below(up, root) && TagsKept(root)
      requires depth <= MAX_MANIFEST_DEPTH
      requires forall i | 0 <= i < |children| :: Leads(ChildrenAt(up), root, children[i], depth + 1)
      modifies this
      ensures State().Sound(up) && State().Below(up, root) && TagsKept(root)
      ensures old(State()).Grows(State())
      ensures r.Ok? ==> AllSettled(up, visited, children, |children|) && State().Open() == old(State().Open())
      ensures r.Ok? ==> Accounts(old(downloads), downloads, r.value)
      ensures faults >= old(faults) && Explained(root, r, old(faults))
      decreases MAX_MANIFEST_DEPTH + 1 - depth, 1
    {
      var copied := Copied(0, 0);
      ghost var start := State();
      for i := 0 to |children|
        invariant State().Sound(up) && State().Below(up, root) && start.Grows(State()) && TagsKept(root)
        invariant AllSettled(up, visited, children, i) && State().Open() == start.Open()
        invariant Accounts(start.downloads, downloads, copied) && faults >= old(faults)
      {
        ghost var before := State();
        r := CopyReference(children[i], depth + 1, root);
        GrowsTrans(start, before, State());
        if r.Err? {
          return;
        }
        OneMoreSettled(up, before.visited, visited, children, i);
        copied := Copied(copied.blobs + r.value.blobs, copied.bytes + r.value.bytes);
      }
      r := Ok(copied);
    }
  }

  lemma LeadsChild(up: Upstream, root: string, reference: string, depth: nat, child: Digest)
    requires Leads(ChildrenAt(up), root, reference, depth) && up.fetch(reference).Found?
    requires child in ChildrenIn(up, up.fetch(reference).content)
    ensures Leads(ChildrenAt(up), root, child, depth + 1)
  {
    assert child in ChildrenAt(up)(reference);
  }

  // ---- one tag, start to finish ----

  lemma NothingOpen(up: Upstream, p: Progress)
    requires p.Sound(up) && p.Open() == {}
    ensures p.visited == p.stored.Keys && AllComplete(up, p.stored, p.stored.Keys, p.blobs)
  {
    assert p.visited == p.Open() + p.stored.Keys;
  }

  /** With no collisions, what is stored under a digest is the manifest the upstream serves. */
  lemma ChildReached(up: Upstream, p: Progress, via: string, child: string)
    requires Injective(up.sha) && p.Sound(up) && p.Open() == {} && Settled(up, p.visited, via)
    requires child in ChildrenAt(up)(via)
    ensures Settled(up, p.visited, child)
  {
    var digest := up.sha(up.fetch(via).content);
    assert digest in p.visited - p.Open();
    assert up.sha(p.stored[digest]) == digest;
  }

  /** Everything found below the root has been visited, however far down. */
  lemma AllReached(up: Upstream, p: Progress, root: string, reference: string, steps: nat)
    requires Injective(up.sha) && p.Sound(up) && p.Open() == {} && Settled(up, p.visited, root)
    requires Leads(ChildrenAt(up), root, reference, steps)
    ensures Settled(up, p.visited, reference)
  {
    var ok := (r: string) => Settled(up, p.visited, r);
    forall via, c | ok(via) && c in ChildrenAt(up)(via) ensures ok(c) {
      ChildReached(up, p, via, c);
    }
    LeadsStays(ChildrenAt(up), ok, root, reference, steps);
  }

  /** So a finished copy has visited exactly the manifests the reference reaches. */
  lemma VisitedIsReachable(up: Upstream, p: Progress, root: string, digest: Digest, most: nat)
    requires Injective(up.sha) && p.Sound(up) && p.Open() == {} && Settled(up, p.visited, root) && p.Below(up, root)
    requires most >= MAX_MANIFEST_DEPTH
    ensures digest in p.visited <==> FoundBelow(up, root, digest, most)
  {
    if FoundBelow(up, root, digest, most) {
      var reference: string, steps: nat :| steps <= most && Leads(ChildrenAt(up), root, reference, steps)
        && up.fetch(reference).Found? && up.sha(up.fetch(reference).content) == digest;
      AllReached(up, p, root, reference, steps);
    }
  }

  lemma OnlyRootMoves(up: Upstream, root: string, before: map<string, Digest>, after: map<string, Digest>)
    requires TagsFollow(up, root, before, after)
    requires forall t | Reaches(up, root, t) && t != root :: IsDigest(t)
    ensures after - {root} == before - {root}
  {
    forall t | t != root ensures SameTagAt(before, after, t) {}
    assert forall t | t in (after - {root}).Keys :: t in (before - {root}).Keys;
  }

  /** A tag below the root moves even when it is no more than a child reference of an index. */
  lemma ChildTagMoves(up: Upstream, p: Progress, root: string, before: map<string, Digest>, tags: map<string, Digest>,
      t: string)
    requires Injective(up.sha) && p.Sound(up) && p.Open() == {} && Settled(up, p.visited, root)
    requires TagsOk(up, root, before, p.stored.Keys, tags)
    requires OnlyReference(up, root, t) && !IsDigest(t)
    ensures t in tags && DigestAt(up, t) == Some(tags[t])
  {
    var steps: nat :| Leads(ChildrenAt(up), root, t, steps);
    AllReached(up, p, root, t, steps);
    var digest := DigestAt(up, t).value;
    assert digest in p.visited - p.Open();
    var r :| Names(up, root, tags, r, digest);
  }

  /**
   * One iteration of `copy_repo`: a fresh visited set, then `copy_reference` from depth 0.
   * When it succeeds, the manifests stored are exactly those the tag reaches, each stored once,
   * every image has its blobs, every child of an index is stored or absent upstream, the tag
   * points at its manifest, and the blobs counted are the blobs newly recorded. Another tag moves
   * only to the manifest served for it, as a reference below the tag: none does when every child
   * reference is a digest, and each one does that alone leads to its manifest.
   */
  method CopyTag(up: Upstream, tag: string, blobs: set<Digest>, tags: map<string, Digest>)
    returns (r: Result<Copied, ImportError>, stored: map<Digest, Bytes>, log: seq<Digest>,
      blobs': set<Digest>, tags': map<string, Digest>)
    ensures blobs <= blobs' && |log| == |stored| && forall d :: d in log <==> d in stored
    ensures r.Ok? ==> AllComplete(up, stored, stored.Keys, blobs') && Settled(up, stored.Keys, tag)
    ensures r.Ok? && Injective(up.sha) ==>
              forall reference, steps: nat | Leads(ChildrenAt(up), tag, reference, steps) ::
                match up.fetch(reference)
                case Missing => true
                case Failed => false
                case Found(content) =>
                  && up.sha(content) in stored
                  && (IsDigest(reference) ==> DigestsEqual(reference, up.sha(content)))
    ensures r.Err? && !r.error.CopyFailed? && !r.error.StoreFailed? ==> Explains(up, tag, r.error)
    ensures r.Ok? && Injective(up.sha) ==>
              forall d, most: nat | most >= MAX_MANIFEST_DEPTH :: d in stored <==> FoundBelow(up, tag, d, most)
    ensures r.Ok? && !IsDigest(tag) && DigestAt(up, tag).Some? ==>
              tag in tags' && tags'[tag] == DigestAt(up, tag).value
    ensures r.Ok? ==> r.value.blobs == |blobs'| - |blobs|
    ensures TagsFollow(up, tag, tags, tags')
    ensures (forall t | Reaches(up, tag, t) && t != tag :: IsDigest(t)) ==> tags' - {tag} == tags - {tag}
    ensures r.Ok? && Injective(up.sha) ==>
              forall t | OnlyReference(up, tag, t) && !IsDigest(t) :: t in tags' && DigestAt(up, t) == Some(tags'[t])
  {
    var copy := new TagCopy(up, blobs, tags);
    assert Leads(ChildrenAt(up), tag, tag, 0);
    r := copy.CopyReference(tag, 0, tag);
    stored, log, blobs', tags' := copy.stored, copy.log, copy.blobs, copy.tags;
    DistinctCount(log, stored.Keys);
    if forall t | Reaches(up, tag, t) && t != tag :: IsDigest(t) {
      OnlyRootMoves(up, tag, tags, tags');
    }
    if r.Ok? {
      NothingOpen(up, copy.State());
      if Injective(up.sha) {
        forall reference, steps: nat | Leads(ChildrenAt(up), tag, reference, steps)
          ensures Settled(up, stored.Keys, reference) && !up.fetch(reference).Failed?
        {
          AllReached(up, copy.State(), tag, reference, steps);
        }
        forall d, most: nat | most >= MAX_MANIFEST_DEPTH ensures d in stored <==> FoundBelow(up, tag, d, most) {
          VisitedIsReachable(up, copy.State(), tag, d, most);
        }
        forall t | OnlyReference(up, tag, t) && !IsDigest(t) ensures t in tags' && DigestAt(up, t) == Some(tags'[t]) {
          ChildTagMoves(up, copy.State(), tag, tags, tags', t);
        }
      }
    }
  }

  // ---- an import that moves another tag ----

  function IndexNaming(child: string): Json {
    Object(map["manifests" := Array([Object(map["digest" := String(child)])])])
  }

  /** "latest" is an index whose one child has the "digest" `child`. */
  function ServesIndex(sha: Bytes -> Digest, child: string): Upstream {
    Upstream(
      (r: string) => if r == "latest" then Found([0]) else if r == child then Found([1]) else Missing,
      sha,
      (content: Bytes) => Some(if content == [0] then IndexNaming(child) else Object(map[])))
  }

  lemma ChildOfIndex(child: string)
    ensures ChildRefs(IndexNaming(child)) == [child]
  {
    var item := Object(map["digest" := String(child)]);
    assert IndexNaming(child).GetArray("manifests") == [item];
    assert item.GetString("digest") == Some(child);
    assert DescriptorDigests([item]) == [child] + DescriptorDigests([item][1..]);
  }

  lemma ChildIsOnlyReference(sha: Bytes -> Digest, child: string)
    requires Injective(sha) && child != "latest"
    ensures OnlyReference(ServesIndex(sha, child), "latest", child)
    ensures DigestAt(ServesIndex(sha, child), child) == Some(sha([1]))
  {
    var up := ServesIndex(sha, child);
    ChildOfIndex(child);
    assert ChildrenIn(up, [0]) == [child];
    assert child in ChildrenAt(up)("latest");
    assert Leads(ChildrenAt(up), "latest", "latest", 0);
    assert Leads(ChildrenAt(up), "latest", child, 1);
    var image: Bytes, index: Bytes := [1], [0];
    assert image[0] != index[0];
    assert up.fetch("latest") == Found(index) && up.fetch(child) == Found(image);
    assert sha(index) != sha(image);
    forall r | DigestAt(up, r) == Some(sha(image)) ensures r == child {
      assert r == "latest" || r == child || up.fetch(r) == Missing;
    }
  }

  /** Importing "latest" repoints a tag it was never asked for, whatever that tag held before. */
  method ImportMovesAnotherTag(sha: Bytes -> Digest, child: string, tags: map<string, Digest>)
    returns (r: Result<Copied, ImportError>, tags': map<string, Digest>)
    requires Injective(sha) && child != "latest" && !IsDigest(child)
    ensures r.Ok? ==> child in tags' && tags'[child] == sha([1])
  {
    ChildIsOnlyReference(sha, child);
    var stored, log, blobs;
    r, stored, log, blobs, tags' := CopyTag(ServesIndex(sha, child), "latest", {}, tags);
  }

  lemma {:induction false} DistinctCount(log: seq<Digest>, digests: set<Digest>)
    requires forall d :: d in log <==> d in digests
    requires forall i, j | 0 <= i < j < |log| :: log[i] != log[j]
    ensures |log| == |digests|
    decreases |log|
  {
    if log == [] {
      assert digests == {};
    } else {
      var d := log[|log| - 1];
      assert forall e :: e in log[..|log| - 1] <==> e in digests - {d};
      DistinctCount(log[..|log| - 1], digests - {d});
    }
  }
}
