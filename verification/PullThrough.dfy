/** Caching one upstream blob on a pull, alone and against other pulls of the same blob. */
module PullThrough {
  import opened Common
  import opened Digests
  import opened ObjectStore
  import opened Chunking
  import opened Streaming
  import opened Sums

  /** What the upstream answers; `length` is its advertised content length, if any. */
  datatype Answer = Refused | Body(length: Option<nat>, stream: seq<Result<Bytes, Fault>>)

  predicate OverQuota(quota: nat, used: nat, more: nat) {
    quota > 0 && used + more > quota
  }

  /**
   * `cache_blob`. `used` and `usedLater` are what the two quota queries return. Success leaves
   * the verified body under the blob's key, within both limits, and a row with its length
   * (an existing row wins). Failure has a cause, leaves the rows alone and, for a blob that was
   * not stored before, no new object behind unless the storage or the database failed.
   */
  method CacheBlob(sha: Bytes -> Digest, storage: Storage, org: string, digest: Digest, answer: Answer,
      rows: map<Digest, nat>, quota: nat, used: nat, usedLater: nat, maxBlob: nat)
    returns (r: Result<(), Fault>, rows': map<Digest, nat>, recordFailed: bool)
    requires storage.Valid()
    modifies storage
    ensures r.Ok? ==> answer.Body? && (maxBlob > 0 && answer.length.Some? ==> answer.length.value <= maxBlob)
    ensures r.Err? && !recordFailed ==>
              var data := if answer.Body? then Flatten(Received(answer.stream)) else [];
              match r.error
              case UpstreamRefused => answer.Refused?
              case UnknownUpload => false
              case TooLarge =>
                && maxBlob > 0 && answer.Body?
                && (|data| > maxBlob || (answer.length.Some? && answer.length.value > maxBlob))
              case QuotaExceeded =>
                && quota > 0 && answer.Body?
                && (usedLater + |data| > quota || (answer.length.Some? && used + answer.length.value > quota))
              case DigestMismatch => answer.Body? && !DigestsEqual(sha(data), digest)
              case StreamFailed => answer.Body? && exists i | 0 <= i < |answer.stream| :: answer.stream[i].Err?
              case StorageFailed => storage.failures > old(storage.failures)
    ensures r.Ok? ==>
              var data := Flatten(Received(answer.stream));
              && storage.objects == old(storage.objects)[BlobKey(org, digest) := data]
              && DigestsEqual(sha(data), digest) && Fits(data, maxBlob)
              && rows' == if digest in rows then rows else rows[digest := |data|]
    ensures r.Ok? && quota > 0 ==>
              && usedLater + |Flatten(Received(answer.stream))| <= quota
              && (answer.length.Some? ==> used + answer.length.value <= quota)
    ensures recordFailed ==> r == Err(StorageFailed) && answer.Body?
    ensures recordFailed ==>
              storage.objects == old(storage.objects)[BlobKey(org, digest) := Flatten(Received(answer.stream))]
    ensures r.Err? ==> rows' == rows
    ensures r.Err? ==> storage.objects - {BlobKey(org, digest)} == old(storage.objects) - {BlobKey(org, digest)}
    ensures (r.Err? && BlobKey(org, digest) !in old(storage.objects)
             && storage.failures == old(storage.failures) && !recordFailed) ==> storage.objects == old(storage.objects)
    ensures storage.failedAborts == old(storage.failedAborts) ==> storage.multiparts == old(storage.multiparts)
  {
    rows', recordFailed := rows, false;
    if answer.Refused? {
      return Err(UpstreamRefused), rows, false;
    }
    if answer.length.Some? {
      if maxBlob > 0 && answer.length.value > maxBlob {
        return Err(TooLarge), rows, false;
      }
      if OverQuota(quota, used, answer.length.value) {
        return Err(QuotaExceeded), rows, false;
      }
    }
    var key := BlobKey(org, digest);
    var total := StreamToStorage(sha, storage, key, answer.stream, digest, maxBlob);
    if total.Err? {
      return Err(total.error), rows, false;
    }
    if OverQuota(quota, usedLater, total.value) {
      var _ := storage.Delete(key);
      assert old(storage.objects)[key := Flatten(Received(answer.stream))] - {key} == old(storage.objects) - {key};
      assert key !in old(storage.objects) ==> old(storage.objects) - {key} == old(storage.objects);
      return Err(QuotaExceeded), rows, false;
    }
    recordFailed := *;
    if recordFailed {
      return Err(StorageFailed), rows, true;
    }
    if digest !in rows {
      rows' := rows[digest := total.value];
    }
    r := Ok(());
  }

  // ---- fetches and uploads of one organisation interleaved ----

  /** A fetch streams, measures, and records or drops; a finish is admitted, places its object, and records. */
  datatype Pc = Missed | Streamed | Passed | Breached | Checking | Admitted | Placed | Finished

  datatype Request = Request(blob: Digest, pc: Pc)
  {
    predicate Fetching() {
      pc.Missed? || pc.Streamed? || pc.Passed? || pc.Breached?
    }

    predicate Uploading() {
      pc.Checking? || pc.Admitted? || pc.Placed?
    }
  }

  /** `rows` are the recorded blobs, `objects` those whose object exists. */
  datatype State = State(rows: set<Digest>, objects: set<Digest>, requests: seq<Request>)

  /** Whether a fetch of a blob may overlap another fetch of it, and an upload of it. */
  datatype Limits = Limits(quota: nat, fetches: bool, uploads: bool)

  datatype Action =
    | Miss(d: Digest)
    | Stream(i: nat)
    | Measure(i: nat)
    | Drop(i: nat, ok: bool)
    | Begin(d: Digest)
    | Admit(i: nat)
    | Place(i: nat)
    | Record(i: nat)
    | Fail(i: nat)

  function Moved(s: State, i: nat, pc: Pc): seq<Request>
    requires i < |s.requests|
  {
    s.requests[i := Request(s.requests[i].blob, pc)]
  }

  predicate At(s: State, i: nat, pc: Pc) {
    i < |s.requests| && s.requests[i].pc == pc
  }

  ghost predicate Sizes(size: Digest -> int) {
    forall d :: size(d) >= 0
  }

  ghost predicate Breaches(size: Digest -> int, l: Limits, rows: set<Digest>, d: Digest) {
    l.quota > 0 && Sum(rows, size) + size(d) > l.quota
  }

  /** No request in flight stands in the way of a new one for this blob. */
  predicate Clear(l: Limits, s: State, d: Digest, fetch: bool) {
    forall i | 0 <= i < |s.requests| && s.requests[i].blob == d ::
      && (s.requests[i].Fetching() ==> if fetch then l.fetches else l.uploads)
      && (s.requests[i].Uploading() && fetch ==> l.uploads)
  }

  ghost predicate Takes(size: Digest -> int, l: Limits, s: State, a: Action, s': State) {
    match a
    case Miss(d) =>
      d !in s.rows && Clear(l, s, d, true) && s' == s.(requests := s.requests + [Request(d, Missed)])
    case Stream(i) =>
      At(s, i, Missed) && s' == State(s.rows, s.objects + {s.requests[i].blob}, Moved(s, i, Streamed))
    case Measure(i) =>
      && At(s, i, Streamed)
      && s' == s.(requests := Moved(s, i, if Breaches(size, l, s.rows, s.requests[i].blob) then Breached else Passed))
    case Drop(i, ok) =>
      && At(s, i, Breached)
      && s' == State(s.rows, if ok then s.objects - {s.requests[i].blob} else s.objects, Moved(s, i, Finished))
    case Begin(d) => Clear(l, s, d, false) && s' == s.(requests := s.requests + [Request(d, Checking)])
    case Admit(i) =>
      && At(s, i, Checking)
      && (s.requests[i].blob in s.rows || !Breaches(size, l, s.rows, s.requests[i].blob))
      && s' == s.(requests := Moved(s, i, Admitted))
    case Place(i) =>
      At(s, i, Admitted) && s' == State(s.rows, s.objects + {s.requests[i].blob}, Moved(s, i, Placed))
    case Record(i) =>
      && (At(s, i, Passed) || At(s, i, Placed))
      && s' == State(s.rows + {s.requests[i].blob}, s.objects, Moved(s, i, Finished))
    case Fail(i) =>
      i < |s.requests| && !s.requests[i].pc.Breached? && s' == s.(requests := Moved(s, i, Finished))
  }

  ghost predicate Next(size: Digest -> int, l: Limits, s: State, s': State) {
    exists a :: Takes(size, l, s, a, s')
  }

  ghost predicate Reachable(size: Digest -> int, l: Limits, s: State, steps: nat)
    decreases steps
  {
    if steps == 0 then s == State({}, {}, [])
    else exists s0 :: Reachable(size, l, s0, steps - 1) && Next(size, l, s0, s)
  }

  // ---- kept apart ----

  /** A fetch in flight is the only request in flight for its blob, and the blob is not recorded. */
  ghost predicate Alone(s: State) {
    forall i | 0 <= i < |s.requests| && s.requests[i].Fetching() ::
      && s.requests[i].blob !in s.rows
      && forall j | 0 <= j < |s.requests| && j != i && s.requests[j].blob == s.requests[i].blob ::
           s.requests[j].pc.Finished?
  }

  ghost predicate Kept(s: State) {
    && s.rows <= s.objects
    && forall i | && 0 <= i < |s.requests|
                  && (s.requests[i].pc.Streamed? || s.requests[i].pc.Passed? || s.requests[i].pc.Placed?) ::
         s.requests[i].blob in s.objects
  }

  lemma TakesAlone(size: Digest -> int, l: Limits, s: State, a: Action, s': State)
    requires !l.fetches && !l.uploads && Alone(s) && Takes(size, l, s, a, s')
    ensures Alone(s')
  {
  }

  lemma TakesKept(size: Digest -> int, l: Limits, s: State, a: Action, s': State)
    requires !l.fetches && !l.uploads && Alone(s) && Kept(s) && Takes(size, l, s, a, s')
    ensures Kept(s')
  {
  }

  lemma {:induction false} ApartAlways(size: Digest -> int, l: Limits, s: State, steps: nat)
    requires !l.fetches && !l.uploads && Reachable(size, l, s, steps)
    ensures Alone(s) && Kept(s)
    decreases steps
  {
    if steps > 0 {
      var s0 :| Reachable(size, l, s0, steps - 1) && Next(size, l, s0, s);
      var a :| Takes(size, l, s0, a, s);
      ApartAlways(size, l, s0, steps - 1);
      TakesAlone(size, l, s0, a, s);
      TakesKept(size, l, s0, a, s);
    }
  }

  // ---- a quota too wide to matter ----

  /** The blob fits an empty organisation. */
  predicate FitsAlone(size: Digest -> int, l: Limits, d: Digest) {
    l.quota == 0 || size(d) <= l.quota
  }

  ghost predicate AllFit(size: Digest -> int, l: Limits, ds: set<Digest>) {
    forall d <- ds :: FitsAlone(size, l, d)
  }

  /**
   * Blobs that fit one by one can together leave no room to count `d` again: `others` and `d`
   * recorded, another `d` would exceed the quota.
   */
  ghost predicate Tight(size: Digest -> int, l: Limits, others: set<Digest>, d: Digest) {
    && l.quota > 0 && d !in others && AllFit(size, l, others + {d})
    && Sum(others + {d}, size) + size(d) > l.quota
  }

  ghost predicate SomeTight(size: Digest -> int, l: Limits) {
    exists others, d :: Tight(size, l, others, d)
  }

  /** Only blobs that cannot be recorded at all are ever found over the quota, and dropped. */
  ghost predicate Roomy(size: Digest -> int, l: Limits, s: State) {
    && AllFit(size, l, s.rows) && s.rows <= s.objects
    && forall i | 0 <= i < |s.requests| :: RequestRoomy(size, l, s, s.requests[i])
  }

  ghost predicate RequestRoomy(size: Digest -> int, l: Limits, s: State, r: Request) {
    && (r.pc.Passed? || r.pc.Admitted? || r.pc.Placed? ==> FitsAlone(size, l, r.blob))
    && (r.pc.Breached? ==> !FitsAlone(size, l, r.blob))
    && (r.pc.Passed? || r.pc.Placed? || (r.pc.Streamed? && FitsAlone(size, l, r.blob)) ==> r.blob in s.objects)
  }

  lemma PassedFits(size: Digest -> int, l: Limits, rows: set<Digest>, d: Digest)
    requires Sizes(size) && !Breaches(size, l, rows, d)
    ensures FitsAlone(size, l, d)
  {
    SumMonotone({}, rows, size);
  }

  lemma BreachedNeverFits(size: Digest -> int, l: Limits, rows: set<Digest>, d: Digest)
    requires Sizes(size) && !SomeTight(size, l) && AllFit(size, l, rows) && Breaches(size, l, rows, d)
    ensures !FitsAlone(size, l, d)
  {
    if FitsAlone(size, l, d) {
      SumMonotone(rows, rows - {d} + {d}, size);
      assert Tight(size, l, rows - {d}, d);
    }
  }

  lemma TakesRoomy(size: Digest -> int, l: Limits, s: State, a: Action, s': State)
    requires Sizes(size) && !SomeTight(size, l) && Roomy(size, l, s) && Takes(size, l, s, a, s')
    ensures Roomy(size, l, s')
  {
    match a
    case Measure(i) =>
      if Breaches(size, l, s.rows, s.requests[i].blob) {
        BreachedNeverFits(size, l, s.rows, s.requests[i].blob);
      } else {
        PassedFits(size, l, s.rows, s.requests[i].blob);
      }
    case Admit(i) =>
      if s.requests[i].blob !in s.rows {
        PassedFits(size, l, s.rows, s.requests[i].blob);
      }
    case _ =>
  }

  lemma {:induction false} RoomyAlways(size: Digest -> int, l: Limits, s: State, steps: nat)
    requires Sizes(size) && !SomeTight(size, l) && Reachable(size, l, s, steps)
    ensures Roomy(size, l, s)
    decreases steps
  {
    if steps > 0 {
      var s0 :| Reachable(size, l, s0, steps - 1) && Next(size, l, s0, s);
      var a :| Takes(size, l, s0, a, s);
      RoomyAlways(size, l, s0, steps - 1);
      TakesRoomy(size, l, s0, a, s);
    }
  }

  // ---- a row that loses its object ----

  lemma Go(size: Digest -> int, l: Limits, s: State, n: nat, a: Action, s': State) returns (n': nat)
    requires Reachable(size, l, s, n) && Takes(size, l, s, a, s')
    ensures Reachable(size, l, s', n')
  {
    n' := n + 1;
    assert Next(size, l, s, s');
  }

  /** One request is about to record `d`, the other has streamed it and not measured yet. */
  predicate Poised(s: State, d: Digest, first: Request) {
    && (first == Request(d, Passed) || first == Request(d, Admitted))
    && |s.requests| >= 2 && s.requests[0] == first && s.requests[1] == Request(d, Streamed)
  }

  lemma EmptyBreachesNothing(size: Digest -> int, l: Limits, d: Digest)
    requires FitsAlone(size, l, d)
    ensures !Breaches(size, l, {}, d)
  {
  }

  lemma TwoFetchesPoised(size: Digest -> int, l: Limits, d: Digest) returns (s: State, n: nat)
    requires l.fetches && FitsAlone(size, l, d)
    ensures Reachable(size, l, s, n) && s == State({}, {d}, [Request(d, Passed), Request(d, Streamed)])
  {
    EmptyBreachesNothing(size, l, d);
    var s0, s1 := State({}, {}, []), State({}, {}, [Request(d, Missed)]);
    var s2 := State({}, {}, [Request(d, Missed), Request(d, Missed)]);
    var s3 := State({}, {d}, [Request(d, Streamed), Request(d, Missed)]);
    var s4 := State({}, {d}, [Request(d, Streamed), Request(d, Streamed)]);
    n := 0;
    assert Reachable(size, l, s0, n);
    n := Go(size, l, s0, n, Miss(d), s1);
    n := Go(size, l, s1, n, Miss(d), s2);
    n := Go(size, l, s2, n, Stream(0), s3);
    n := Go(size, l, s3, n, Stream(1), s4);
    s := State({}, {d}, [Request(d, Passed), Request(d, Streamed)]);
    n := Go(size, l, s4, n, Measure(0), s);
  }

  lemma UploadAndFetchPoised(size: Digest -> int, l: Limits, d: Digest) returns (s: State, n: nat)
    requires l.uploads && FitsAlone(size, l, d)
    ensures Reachable(size, l, s, n) && s == State({}, {d}, [Request(d, Admitted), Request(d, Streamed)])
  {
    EmptyBreachesNothing(size, l, d);
    var s0, s1 := State({}, {}, []), State({}, {}, [Request(d, Checking)]);
    var s2 := State({}, {}, [Request(d, Admitted)]);
    var s3 := State({}, {}, [Request(d, Admitted), Request(d, Missed)]);
    n := 0;
    assert Reachable(size, l, s0, n);
    n := Go(size, l, s0, n, Begin(d), s1);
    n := Go(size, l, s1, n, Admit(0), s2);
    n := Go(size, l, s2, n, Miss(d), s3);
    s := State({}, {d}, [Request(d, Admitted), Request(d, Streamed)]);
    n := Go(size, l, s3, n, Stream(1), s);
  }

  /** Finishes past the check, in line to record. */
  function Line(xs: seq<Digest>): seq<Request> {
    if xs == [] then [] else [Request(xs[0], Admitted)] + Line(xs[1..])
  }

  /** Finishes of all of `xs` pass the check before any of them records. */
  lemma {:induction false} AdmitAll(size: Digest -> int, l: Limits, s: State, n: nat, xs: seq<Digest>)
    returns (s': State, n': nat)
    requires Reachable(size, l, s, n) && s.rows == {} && forall x <- xs :: FitsAlone(size, l, x)
    requires forall i, j | 0 <= i < |s.requests| && s.requests[i].Fetching() && 0 <= j < |xs| ::
               xs[j] != s.requests[i].blob
    ensures Reachable(size, l, s', n') && s'.rows == {} && s'.requests == s.requests + Line(xs)
    decreases |xs|
  {
    if xs == [] {
      s', n' := s, n;
    } else {
      var s1, n1 := AdmitOne(size, l, s, n, xs[0]);
      s', n' := AdmitAll(size, l, s1, n1, xs[1..]);
      LineCons(s.requests, xs);
    }
  }

  lemma LineCons(front: seq<Request>, xs: seq<Digest>)
    requires xs != []
    ensures front + [Request(xs[0], Admitted)] + Line(xs[1..]) == front + Line(xs)
  {
  }

  lemma AdmitOne(size: Digest -> int, l: Limits, s: State, n: nat, x: Digest) returns (s': State, n': nat)
    requires Reachable(size, l, s, n) && s.rows == {} && FitsAlone(size, l, x)
    requires forall i | 0 <= i < |s.requests| && s.requests[i].Fetching() :: x != s.requests[i].blob
    ensures Reachable(size, l, s', n') && s'.rows == {} && s'.requests == s.requests + [Request(x, Admitted)]
  {
    EmptyBreachesNothing(size, l, x);
    var s1 := s.(requests := s.requests + [Request(x, Checking)]);
    n' := Go(size, l, s, n, Begin(x), s1);
    s' := s.(requests := s.requests + [Request(x, Admitted)]);
    assert s'.requests == Moved(s1, |s.requests|, Admitted);
    n' := Go(size, l, s1, n', Admit(|s.requests|), s');
  }

  function SetOf(xs: seq<Digest>): set<Digest> {
    set x | x in xs
  }

  /** The line behind `front` records its blobs, one after the other. */
  lemma {:induction false} RecordAll(size: Digest -> int, l: Limits, s: State, n: nat, front: seq<Request>,
      xs: seq<Digest>)
    returns (s': State, n': nat)
    requires Reachable(size, l, s, n) && s.requests == front + Line(xs)
    ensures Reachable(size, l, s', n') && s'.rows == s.rows + SetOf(xs) && front <= s'.requests
    decreases |xs|
  {
    if xs == [] {
      s', n' := s, n;
      assert SetOf(xs) == {};
    } else {
      var s1, n1 := RecordOne(size, l, s, n, |front|, xs[0]);
      assert s1.requests == front + [Request(xs[0], Finished)] + Line(xs[1..]);
      s', n' := RecordAll(size, l, s1, n1, front + [Request(xs[0], Finished)], xs[1..]);
      assert SetOf(xs) == {xs[0]} + SetOf(xs[1..]);
    }
  }

  lemma RecordOne(size: Digest -> int, l: Limits, s: State, n: nat, i: nat, x: Digest) returns (s': State, n': nat)
    requires Reachable(size, l, s, n) && i < |s.requests| && s.requests[i] == Request(x, Admitted)
    ensures Reachable(size, l, s', n') && s'.rows == s.rows + {x} && s'.requests == Moved(s, i, Finished)
  {
    var s1 := State(s.rows, s.objects + {x}, Moved(s, i, Placed));
    n' := Go(size, l, s, n, Place(i), s1);
    s' := State(s.rows + {x}, s1.objects, Moved(s1, i, Finished));
    n' := Go(size, l, s1, n', Record(i), s');
  }

  /** With the others recorded, the first request records `d`; the second counts it twice and drops its object. */
  lemma RecordThenDrop(size: Digest -> int, l: Limits, s: State, n: nat, others: set<Digest>, d: Digest, first: Request)
    returns (s': State, n': nat)
    requires Reachable(size, l, s, n) && Poised(s, d, first) && s.rows == others && Tight(size, l, others, d)
    ensures Reachable(size, l, s', n') && d in s'.rows && d !in s'.objects
  {
    var s1;
    if first.pc.Passed? {
      s1 := State(s.rows + {d}, s.objects, Moved(s, 0, Finished));
      n' := Go(size, l, s, n, Record(0), s1);
    } else {
      s1, n' := RecordOne(size, l, s, n, 0, d);
    }
    assert s1.rows == others + {d} && s1.requests[1] == Request(d, Streamed);
    var s2 := s1.(requests := Moved(s1, 1, Breached));
    n' := Go(size, l, s1, n', Measure(1), s2);
    s' := State(s2.rows, s2.objects - {d}, Moved(s2, 1, Finished));
    n' := Go(size, l, s2, n', Drop(1, true), s');
  }

  lemma {:induction false} Listing(ds: set<Digest>) returns (xs: seq<Digest>)
    ensures SetOf(xs) == ds
  {
    if ds == {} {
      xs := [];
    } else {
      var x :| x in ds;
      var rest := Listing(ds - {x});
      xs := rest + [x];
      assert SetOf(xs) == SetOf(rest) + {x};
    }
  }

  lemma ObjectLost(size: Digest -> int, l: Limits, others: set<Digest>, d: Digest) returns (s: State, n: nat)
    requires (l.fetches || l.uploads) && Tight(size, l, others, d)
    ensures Reachable(size, l, s, n) && d in s.rows && d !in s.objects
  {
    if l.fetches {
      s, n := TwoFetchesPoised(size, l, d);
    } else {
      s, n := UploadAndFetchPoised(size, l, d);
    }
    var first := s.requests[0];
    var xs := Listing(others);
    assert forall x <- xs :: x in SetOf(xs);
    var s1, n1 := AdmitAll(size, l, s, n, xs);
    var s2, n2 := RecordAll(size, l, s1, n1, s.requests, xs);
    s, n := RecordThenDrop(size, l, s2, n2, others, d, first);
  }

  // ---- main results ----

  /**
   * In every schedule of pulls, imports and uploads each blob row keeps its object, if and only
   * if a fetch of a blob overlaps neither another fetch nor an upload of it, or the quota is
   * so wide that no blobs fitting one by one could together exceed it on a recount.
   */
  lemma RowsKeepObjectsExactly(size: Digest -> int, l: Limits)
    requires Sizes(size)
    ensures (forall s, n: nat :: Reachable(size, l, s, n) ==> s.rows <= s.objects) <==>
            (!l.fetches && !l.uploads) || !SomeTight(size, l)
  {
    if !l.fetches && !l.uploads {
      forall s, n: nat | Reachable(size, l, s, n) ensures s.rows <= s.objects {
        ApartAlways(size, l, s, n);
      }
    } else if SomeTight(size, l) {
      var others, d :| Tight(size, l, others, d);
      var s, n := ObjectLost(size, l, others, d);
      assert Reachable(size, l, s, n) && !(s.rows <= s.objects);
    } else {
      forall s, n: nat | Reachable(size, l, s, n) ensures s.rows <= s.objects {
        RoomyAlways(size, l, s, n);
      }
    }
  }

  /** A nearly full quota is tight: room for `d` once and not twice on top of what is recorded. */
  lemma NearlyFullIsTight(size: Digest -> int, l: Limits, recorded: set<Digest>, d: Digest)
    requires Sizes(size) && d !in recorded
    requires Sum(recorded, size) + size(d) <= l.quota < Sum(recorded, size) + 2 * size(d)
    ensures Tight(size, l, recorded, d)
  {
    SumAdd(recorded, size, d);
    forall x <- recorded + {d} ensures size(x) <= l.quota {
      SumMonotone({x}, recorded + {d}, size);
      SumSingle({x}, size, x);
    }
  }

  /** Without a quota no recount can exceed it. */
  lemma UnlimitedRowsKeepObjects(size: Digest -> int, l: Limits, s: State, n: nat)
    requires Sizes(size) && l.quota == 0 && Reachable(size, l, s, n)
    ensures s.rows <= s.objects
  {
    RoomyAlways(size, l, s, n);
  }
}
