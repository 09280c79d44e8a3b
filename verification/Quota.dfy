/** The storage quota under concurrent finalizes and fetches: how far usage can overshoot, exactly. */
module Quota {
  import opened Common
  import opened Sums

  /** A blob, identified by its digest. */
  datatype Blob = Blob(digest: Digest)

  /**
   * An upload's finalize, from the blob-existence check to the recorded row, or a fetch from the
   * upstream, which comes to measure after a miss and its download.
   */
  datatype Pc = Checking | Measuring | Passed

  datatype Request = Request(blob: Blob, pc: Pc)

  /** The recorded blobs of one organisation and its finalizes and fetches in flight. */
  datatype State = State(rows: set<Blob>, inflight: map<nat, Request>)

  /** Every blob has a length. */
  ghost predicate Sizes(size: Blob -> int) {
    forall d :: 0 <= size(d)
  }

  /**
   * `quota` bytes (0 for no quota), `most` bytes in the largest blob, `width` requests at once,
   * and whether there are uploads, and fetches, among them.
   */
  datatype Limits = Limits(quota: nat, most: nat, width: nat, uploads: bool, fetches: bool)

  ghost function Used(size: Blob -> int, s: State): int {
    Sum(s.rows, size)
  }

  datatype Action =
    | Begin(id: nat, blob: Blob)
    | Fetch(id: nat, blob: Blob)
    | CheckExists(id: nat)
    | Admit(id: nat)
    | Refuse(id: nat)
    | RecordBlob(id: nat)
    | GiveUp(id: nat)
    | DeleteBlob(blob: Blob)

  ghost predicate Takes(size: Blob -> int, l: Limits, s: State, a: Action, s': State) {
    match a
    case Begin(id, blob) =>
      && l.uploads && id !in s.inflight && |s.inflight| < l.width && size(blob) <= l.most
      && s' == s.(inflight := s.inflight[id := Request(blob, Checking)])
    case Fetch(id, blob) =>
      && l.fetches && id !in s.inflight && |s.inflight| < l.width && size(blob) <= l.most && blob !in s.rows
      && s' == s.(inflight := s.inflight[id := Request(blob, Measuring)])
    case CheckExists(id) =>
      && id in s.inflight && s.inflight[id].pc == Checking
      && s' == s.(inflight := s.inflight[id := Request(s.inflight[id].blob,
                                                      if s.inflight[id].blob in s.rows then Passed else Measuring)])
    case Admit(id) =>
      && id in s.inflight && s.inflight[id].pc == Measuring
      && (l.quota == 0 || Used(size, s) + size(s.inflight[id].blob) <= l.quota)
      && s' == s.(inflight := s.inflight[id := Request(s.inflight[id].blob, Passed)])
    case Refuse(id) =>
      && id in s.inflight && s.inflight[id].pc == Measuring
      && l.quota > 0 && Used(size, s) + size(s.inflight[id].blob) > l.quota
      && s' == s.(inflight := s.inflight - {id})
    case RecordBlob(id) =>
      && id in s.inflight && s.inflight[id].pc == Passed
      && s' == State(s.rows + {s.inflight[id].blob}, s.inflight - {id})
    case GiveUp(id) => id in s.inflight && s' == s.(inflight := s.inflight - {id})
    case DeleteBlob(blob) => s' == s.(rows := s.rows - {blob})
  }

  ghost predicate Next(size: Blob -> int, l: Limits, s: State, s': State) {
    exists a :: Takes(size, l, s, a, s')
  }

  ghost predicate Reachable(size: Blob -> int, l: Limits, rows: set<Blob>, s: State, steps: nat)
    decreases steps
  {
    if steps == 0 then s == State(rows, map[])
    else exists s0 :: Reachable(size, l, rows, s0, steps - 1) && Next(size, l, s0, s)
  }

  /** Digests whose finalize is past the quota check. */
  ghost function Past(inflight: map<nat, Request>): set<Blob> {
    set id | id in inflight && inflight[id].pc == Passed :: inflight[id].blob
  }

  lemma {:induction false} PastSize(inflight: map<nat, Request>)
    ensures |Past(inflight)| <= |inflight|
    decreases |inflight|
  {
    if id: nat :| id in inflight {
      var rest := inflight - {id};
      assert rest.Keys == inflight.Keys - {id};
      PastSize(rest);
      forall d | d in Past(inflight) ensures d in Past(rest) + {inflight[id].blob} {
        var k :| k in inflight && inflight[k].pc == Passed && inflight[k].blob == d;
        assert k != id ==> k in rest && rest[k] == inflight[k];
      }
      Subset(Past(inflight), Past(rest) + {inflight[id].blob});
    } else {
      assert Past(inflight) == {};
    }
  }

  lemma {:induction false} Subset<T>(s: set<T>, t: set<T>)
    requires s <= t
    ensures |s| <= |t|
  {
    if s != {} {
      var x :| x in s;
      Subset(s - {x}, t - {x});
    }
  }

  /** Usage, and what admitted finalizes will still add. */
  ghost function Committed(size: Blob -> int, s: State): int {
    Sum(s.rows + Past(s.inflight), size)
  }

  ghost predicate Inv(size: Blob -> int, l: Limits, s: State) {
    && |s.inflight| <= l.width
    && (forall id <- s.inflight :: size(s.inflight[id].blob) <= l.most)
    && l.width >= 1 && l.quota > 0 && Committed(size, s) <= l.quota + Times(l.width - 1, l.most)
  }

  lemma PastAdmit(inflight: map<nat, Request>, id: nat)
    requires id in inflight && inflight[id].pc != Passed
    ensures var d := inflight[id].blob;
            Past(inflight[id := Request(d, Passed)]) == Past(inflight - {id}) + {d}
  {
    var d := inflight[id].blob;
    var after, others := inflight[id := Request(d, Passed)], inflight - {id};
    assert id in after && after[id].blob == d;
    forall x | x in Past(after) ensures x in Past(others) + {d} {
      var k :| k in after && after[k].pc == Passed && after[k].blob == x;
      assert k != id ==> k in others && others[k] == after[k];
    }
    forall x | x in Past(others) ensures x in Past(after) {
      var k :| k in others && others[k].pc == Passed && others[k].blob == x;
      assert k in after && after[k] == others[k];
    }
  }

  lemma AdmitSum(size: Blob -> int, rows: set<Blob>, d: Blob, past: set<Blob>, most: nat)
    requires Sizes(size) && forall x <- past :: size(x) <= most
    ensures Sum(rows + past + {d}, size) <= Sum(rows, size) + size(d) + Times(|past|, most)
  {
    SumBounded(past, size, most);
    SumUnion(rows, past, size);
    SumAdd(rows + past, size, d);
  }

  lemma PastBounded(size: Blob -> int, inflight: map<nat, Request>, most: nat)
    requires forall id <- inflight :: size(inflight[id].blob) <= most
    ensures forall x <- Past(inflight) :: size(x) <= most
  {
    forall x | x in Past(inflight) ensures size(x) <= most {
      var k :| k in inflight && inflight[k].pc == Passed && inflight[k].blob == x;
    }
  }

  /** An admission leaves at most `width - 1` other finalizes past the check. */
  lemma AdmitCommitted(size: Blob -> int, l: Limits, s: State, id: nat)
    requires Sizes(size) && l.width >= 1 && |s.inflight| <= l.width
    requires forall k <- s.inflight :: size(s.inflight[k].blob) <= l.most
    requires id in s.inflight && s.inflight[id].pc == Measuring
    ensures Sum(s.rows + Past(s.inflight[id := Request(s.inflight[id].blob, Passed)]), size)
         <= Used(size, s) + size(s.inflight[id].blob) + Times(l.width - 1, l.most)
  {
    var others := s.inflight - {id};
    var d, past := s.inflight[id].blob, Past(others);
    assert others.Keys == s.inflight.Keys - {id};
    PastSize(others);
    PastBounded(size, others, l.most);
    PastAdmit(s.inflight, id);
    AdmitSum(size, s.rows, d, past, l.most);
    TimesMonotone(|past|, l.width - 1, l.most);
    assert s.rows + (past + {d}) == s.rows + past + {d};
  }

  lemma AdmitKeeps(size: Blob -> int, l: Limits, s: State, id: nat)
    requires Sizes(size) && Inv(size, l, s) && id in s.inflight && s.inflight[id].pc == Measuring
    requires Used(size, s) + size(s.inflight[id].blob) <= l.quota
    ensures Inv(size, l, s.(inflight := s.inflight[id := Request(s.inflight[id].blob, Passed)]))
  {
    AdmitCommitted(size, l, s, id);
    assert s.inflight[id := Request(s.inflight[id].blob, Passed)].Keys == s.inflight.Keys;
  }

  /** Every other step leaves recorded and admitted digests within what they were. */
  lemma ShrinkKeeps(size: Blob -> int, l: Limits, s: State, s': State)
    requires Sizes(size) && Inv(size, l, s) && |s'.inflight| <= l.width
    requires forall id <- s'.inflight :: size(s'.inflight[id].blob) <= l.most
    requires s'.rows + Past(s'.inflight) <= s.rows + Past(s.inflight)
    ensures Inv(size, l, s')
  {
    SumMonotone(s'.rows + Past(s'.inflight), s.rows + Past(s.inflight), size);
  }

  lemma BeginKeeps(size: Blob -> int, l: Limits, s: State, id: nat, blob: Blob)
    requires Sizes(size) && Inv(size, l, s) && id !in s.inflight && |s.inflight| < l.width && size(blob) <= l.most
    ensures Inv(size, l, s.(inflight := s.inflight[id := Request(blob, Checking)]))
  {
    var s' := s.(inflight := s.inflight[id := Request(blob, Checking)]);
    assert s'.inflight.Keys == s.inflight.Keys + {id};
    ShrinkKeeps(size, l, s, s');
  }

  lemma FetchKeeps(size: Blob -> int, l: Limits, s: State, id: nat, blob: Blob)
    requires Sizes(size) && Inv(size, l, s) && id !in s.inflight && |s.inflight| < l.width && size(blob) <= l.most
    ensures Inv(size, l, s.(inflight := s.inflight[id := Request(blob, Measuring)]))
  {
    var s' := s.(inflight := s.inflight[id := Request(blob, Measuring)]);
    assert s'.inflight.Keys == s.inflight.Keys + {id};
    ShrinkKeeps(size, l, s, s');
  }

  lemma CheckExistsKeeps(size: Blob -> int, l: Limits, s: State, id: nat)
    requires Sizes(size) && Inv(size, l, s) && id in s.inflight && s.inflight[id].pc == Checking
    ensures var d := s.inflight[id].blob;
            Inv(size, l, s.(inflight := s.inflight[id := Request(d, if d in s.rows then Passed else Measuring)]))
  {
    var d := s.inflight[id].blob;
    var s' := s.(inflight := s.inflight[id := Request(d, if d in s.rows then Passed else Measuring)]);
    assert s'.inflight.Keys == s.inflight.Keys;
    ShrinkKeeps(size, l, s, s');
  }

  lemma RecordKeeps(size: Blob -> int, l: Limits, s: State, id: nat)
    requires Sizes(size) && Inv(size, l, s) && id in s.inflight && s.inflight[id].pc == Passed
    ensures Inv(size, l, State(s.rows + {s.inflight[id].blob}, s.inflight - {id}))
  {
    var s' := State(s.rows + {s.inflight[id].blob}, s.inflight - {id});
    assert s'.inflight.Keys == s.inflight.Keys - {id};
    ShrinkKeeps(size, l, s, s');
  }

  lemma TakesKeeps(size: Blob -> int, l: Limits, s: State, a: Action, s': State)
    requires Sizes(size) && Inv(size, l, s) && Takes(size, l, s, a, s')
    ensures Inv(size, l, s')
  {
    match a
    case Begin(id, blob) => BeginKeeps(size, l, s, id, blob);
    case Fetch(id, blob) => FetchKeeps(size, l, s, id, blob);
    case CheckExists(id) => CheckExistsKeeps(size, l, s, id);
    case Admit(id) => AdmitKeeps(size, l, s, id);
    case Refuse(id) => RemoveKeeps(size, l, s, id);
    case RecordBlob(id) => RecordKeeps(size, l, s, id);
    case GiveUp(id) => RemoveKeeps(size, l, s, id);
    case DeleteBlob(_) => ShrinkKeeps(size, l, s, s');
  }

  lemma NextKeeps(size: Blob -> int, l: Limits, s: State, s': State)
    requires Sizes(size) && Inv(size, l, s) && Next(size, l, s, s')
    ensures Inv(size, l, s')
  {
    var a :| Takes(size, l, s, a, s');
    TakesKeeps(size, l, s, a, s');
  }

  lemma RemoveKeeps(size: Blob -> int, l: Limits, s: State, id: nat)
    requires Sizes(size) && Inv(size, l, s) && id in s.inflight
    ensures Inv(size, l, s.(inflight := s.inflight - {id}))
  {
    var s' := s.(inflight := s.inflight - {id});
    assert s'.inflight.Keys == s.inflight.Keys - {id};
    ShrinkKeeps(size, l, s, s');
  }

  lemma InitialOk(size: Blob -> int, l: Limits, rows: set<Blob>)
    requires l.width >= 1 && l.quota > 0 && Sum(rows, size) <= l.quota
    ensures Inv(size, l, State(rows, map[]))
  {
    assert rows + Past(map[]) == rows;
  }

  lemma {:induction false} InvAlways(size: Blob -> int, l: Limits, rows: set<Blob>, s: State, steps: nat)
    requires Sizes(size) && l.width >= 1 && l.quota > 0 && Sum(rows, size) <= l.quota
    requires Reachable(size, l, rows, s, steps)
    ensures Inv(size, l, s)
    decreases steps
  {
    if steps == 0 {
      InitialOk(size, l, rows);
    } else {
      var s0 :| Reachable(size, l, rows, s0, steps - 1) && Next(size, l, s0, s);
      InvAlways(size, l, rows, s0, steps - 1);
      NextKeeps(size, l, s0, s);
    }
  }

  /**
   * With at most `width` finalizes and fetches in flight, stored bytes plus the admitted digests
   * not yet recorded never exceed the quota by more than `width - 1` largest blobs; alone in
   * flight, neither ever breaches it.
   */
  lemma OvershootBound(size: Blob -> int, l: Limits, rows: set<Blob>, s: State, steps: nat)
    requires Sizes(size) && l.width >= 1 && l.quota > 0 && Sum(rows, size) <= l.quota
    requires Reachable(size, l, rows, s, steps)
    ensures Used(size, s) <= Committed(size, s) <= l.quota + (l.width - 1) * l.most
    ensures l.width == 1 ==> Used(size, s) <= l.quota
  {
    InvAlways(size, l, rows, s, steps);
    UsedWithin(size, s);
    BoundIsProduct(size, l, s);
  }

  lemma BoundIsProduct(size: Blob -> int, l: Limits, s: State)
    requires Inv(size, l, s)
    ensures Committed(size, s) <= l.quota + (l.width - 1) * l.most
    ensures l.width == 1 ==> Committed(size, s) <= l.quota
  {
    TimesIsProduct(l.width - 1, l.most);
  }

  lemma UsedWithin(size: Blob -> int, s: State)
    requires Sizes(size)
    ensures Used(size, s) <= Committed(size, s)
  {
    SumMonotone(s.rows, s.rows + Past(s.inflight), size);
  }

  /** A measured request is admitted exactly when it fits, and refused exactly when it does not. */
  lemma VerdictExactly(size: Blob -> int, l: Limits, s: State, id: nat)
    requires id in s.inflight && s.inflight[id].pc == Measuring
    ensures var fits := l.quota == 0 || Used(size, s) + size(s.inflight[id].blob) <= l.quota;
            && ((exists s' :: Takes(size, l, s, Admit(id), s')) <==> fits)
            && ((exists s' :: Takes(size, l, s, Refuse(id), s')) <==> !fits)
  {
    var fits := l.quota == 0 || Used(size, s) + size(s.inflight[id].blob) <= l.quota;
    if fits {
      assert Takes(size, l, s, Admit(id),
                   s.(inflight := s.inflight[id := Request(s.inflight[id].blob, Passed)]));
    } else {
      assert Takes(size, l, s, Refuse(id), s.(inflight := s.inflight - {id}));
    }
  }

  // ---- the bound is attained ----

  lemma Go(size: Blob -> int, l: Limits, rows: set<Blob>, s: State, n: nat, a: Action, s': State) returns (n': nat)
    requires Reachable(size, l, rows, s, n) && Takes(size, l, s, a, s')
    ensures Reachable(size, l, rows, s', n')
  {
    n' := n + 1;
    assert Next(size, l, s, s');
  }

  lemma GoBegin(size: Blob -> int, l: Limits, rows: set<Blob>, s: State, n: nat, id: nat, d: Blob)
    returns (s': State, n': nat)
    requires Reachable(size, l, rows, s, n) && l.uploads
    requires id !in s.inflight && |s.inflight| < l.width && size(d) <= l.most
    ensures Reachable(size, l, rows, s', n') && s' == s.(inflight := s.inflight[id := Request(d, Checking)])
  {
    s' := s.(inflight := s.inflight[id := Request(d, Checking)]);
    n' := Go(size, l, rows, s, n, Begin(id, d), s');
  }

  lemma GoCheckExists(size: Blob -> int, l: Limits, rows: set<Blob>, s: State, n: nat, id: nat)
    returns (s': State, n': nat)
    requires Reachable(size, l, rows, s, n) && id in s.inflight && s.inflight[id].pc == Checking
    requires s.inflight[id].blob !in s.rows
    ensures Reachable(size, l, rows, s', n')
    ensures s' == s.(inflight := s.inflight[id := Request(s.inflight[id].blob, Measuring)])
  {
    s' := s.(inflight := s.inflight[id := Request(s.inflight[id].blob, Measuring)]);
    n' := Go(size, l, rows, s, n, CheckExists(id), s');
  }

  lemma GoAdmit(size: Blob -> int, l: Limits, rows: set<Blob>, s: State, n: nat, id: nat)
    returns (s': State, n': nat)
    requires Reachable(size, l, rows, s, n) && id in s.inflight && s.inflight[id].pc == Measuring
    requires Used(size, s) + size(s.inflight[id].blob) <= l.quota
    ensures Reachable(size, l, rows, s', n')
    ensures s' == s.(inflight := s.inflight[id := Request(s.inflight[id].blob, Passed)])
  {
    s' := s.(inflight := s.inflight[id := Request(s.inflight[id].blob, Passed)]);
    n' := Go(size, l, rows, s, n, Admit(id), s');
  }

  lemma GoRecord(size: Blob -> int, l: Limits, rows: set<Blob>, s: State, n: nat, id: nat)
    returns (s': State, n': nat)
    requires Reachable(size, l, rows, s, n) && id in s.inflight && s.inflight[id].pc == Passed
    ensures Reachable(size, l, rows, s', n')
    ensures s' == State(s.rows + {s.inflight[id].blob}, s.inflight - {id})
  {
    s' := State(s.rows + {s.inflight[id].blob}, s.inflight - {id});
    n' := Go(size, l, rows, s, n, RecordBlob(id), s');
  }

  /** The first `k` of the given blobs sit past the check; nothing new is recorded. */
  ghost predicate AllAdmitted(s: State, rows: set<Blob>, ds: seq<Blob>, k: nat)
    requires k <= |ds|
  {
    && s.rows == rows && |s.inflight| == k
    && forall i: nat :: (i in s.inflight <==> i < k) && (i < k ==> s.inflight[i] == Request(ds[i], Passed))
  }

  lemma GoMeasure(size: Blob -> int, l: Limits, rows: set<Blob>, s: State, n: nat, id: nat, d: Blob)
    returns (s': State, n': nat)
    requires Reachable(size, l, rows, s, n) && id !in s.inflight && |s.inflight| < l.width
    requires size(d) <= l.most && d !in s.rows && (l.uploads || l.fetches)
    ensures Reachable(size, l, rows, s', n') && s' == s.(inflight := s.inflight[id := Request(d, Measuring)])
  {
    if l.fetches {
      s' := s.(inflight := s.inflight[id := Request(d, Measuring)]);
      n' := Go(size, l, rows, s, n, Fetch(id, d), s');
    } else {
      s', n' := GoBegin(size, l, rows, s, n, id, d);
      s', n' := GoCheckExists(size, l, rows, s', n', id);
      assert s'.inflight == s.inflight[id := Request(d, Measuring)];
    }
  }

  lemma AdmitOne(size: Blob -> int, l: Limits, rows: set<Blob>, ds: seq<Blob>, s: State, n: nat, k: nat)
    returns (s': State, n': nat)
    requires Reachable(size, l, rows, s, n) && k < |ds| && |ds| == l.width && AllAdmitted(s, rows, ds, k)
    requires ds[k] !in rows && size(ds[k]) == l.most && Sum(rows, size) + l.most == l.quota && (l.uploads || l.fetches)
    ensures Reachable(size, l, rows, s', n') && AllAdmitted(s', rows, ds, k + 1)
  {
    s', n' := GoMeasure(size, l, rows, s, n, k, ds[k]);
    s', n' := GoAdmit(size, l, rows, s', n', k);
    assert s'.inflight == s.inflight[k := Request(ds[k], Passed)];
    OneMoreAdmitted(s, s', rows, ds, k);
  }

  lemma OneMoreAdmitted(s: State, s': State, rows: set<Blob>, ds: seq<Blob>, k: nat)
    requires k < |ds| && AllAdmitted(s, rows, ds, k)
    requires s' == s.(inflight := s.inflight[k := Request(ds[k], Passed)])
    ensures AllAdmitted(s', rows, ds, k + 1)
  {
    assert s'.inflight.Keys == s.inflight.Keys + {k};
  }

  lemma {:induction false} AdmitMany(size: Blob -> int, l: Limits, rows: set<Blob>, ds: seq<Blob>, k: nat)
    returns (s: State, n: nat)
    requires k <= |ds| == l.width && Sum(rows, size) + l.most == l.quota && (l.uploads || l.fetches)
    requires forall d <- ds :: d !in rows && size(d) == l.most
    ensures Reachable(size, l, rows, s, n) && AllAdmitted(s, rows, ds, k)
    decreases k
  {
    if k == 0 {
      s, n := State(rows, map[]), 0;
      assert Reachable(size, l, rows, s, n);
    } else {
      s, n := AdmitMany(size, l, rows, ds, k - 1);
      s, n := AdmitOne(size, l, rows, ds, s, n, k - 1);
    }
  }

  ghost function FirstOf(ds: seq<Blob>, k: nat): set<Blob>
    requires k <= |ds|
  {
    set i | 0 <= i < k :: ds[i]
  }

  ghost predicate Recorded(s: State, rows: set<Blob>, ds: seq<Blob>, k: nat)
    requires k <= |ds|
  {
    && s.rows == rows + FirstOf(ds, k)
    && forall i: nat | k <= i < |ds| :: i in s.inflight && s.inflight[i] == Request(ds[i], Passed)
  }

  lemma OneMoreRecorded(s: State, s': State, rows: set<Blob>, ds: seq<Blob>, k: nat)
    requires k < |ds| && Recorded(s, rows, ds, k)
    requires s' == State(s.rows + {s.inflight[k].blob}, s.inflight - {k})
    ensures Recorded(s', rows, ds, k + 1)
  {
    assert FirstOf(ds, k + 1) == FirstOf(ds, k) + {ds[k]};
  }

  lemma {:induction false} RecordMany(size: Blob -> int, l: Limits, rows: set<Blob>, ds: seq<Blob>, k: nat)
    returns (s: State, n: nat)
    requires k <= |ds| == l.width && Sum(rows, size) + l.most == l.quota && (l.uploads || l.fetches)
    requires forall d <- ds :: d !in rows && size(d) == l.most
    requires forall i, j | 0 <= i < j < |ds| :: ds[i] != ds[j]
    ensures Reachable(size, l, rows, s, n) && Recorded(s, rows, ds, k)
    decreases k
  {
    if k == 0 {
      s, n := AdmitMany(size, l, rows, ds, |ds|);
      assert s.rows == rows + FirstOf(ds, 0);
    } else {
      var s1, n1 := RecordMany(size, l, rows, ds, k - 1);
      s, n := GoRecord(size, l, rows, s1, n1, k - 1);
      OneMoreRecorded(s1, s, rows, ds, k - 1);
    }
  }

  lemma {:induction false} SumGrows(size: Blob -> int, rows: set<Blob>, ds: seq<Blob>, most: nat, k: nat)
    requires k <= |ds| && forall d <- ds :: d !in rows && size(d) == most
    requires forall i, j | 0 <= i < j < |ds| :: ds[i] != ds[j]
    ensures Sum(rows + FirstOf(ds, k), size) == Sum(rows, size) + Times(k, most)
  {
    if k == 0 {
      assert rows + FirstOf(ds, 0) == rows;
    } else {
      var before := rows + FirstOf(ds, k - 1);
      SumGrows(size, rows, ds, most, k - 1);
      assert ds[k - 1] in ds && ds[k - 1] !in before;
      SumAdd(before, size, ds[k - 1]);
      assert rows + FirstOf(ds, k) == before + {ds[k - 1]};
    }
  }

  /**
   * Enough room for one more largest blob lets `width` of them in at once, by uploads alone as by
   * fetches alone: the bound is exact.
   */
  lemma OvershootAttained(size: Blob -> int, l: Limits, rows: set<Blob>, ds: seq<Blob>)
    returns (s: State, n: nat)
    requires l.width >= 1 && |ds| == l.width && Sum(rows, size) + l.most == l.quota && (l.uploads || l.fetches)
    requires forall d <- ds :: d !in rows && size(d) == l.most
    requires forall i, j | 0 <= i < j < |ds| :: ds[i] != ds[j]
    ensures Reachable(size, l, rows, s, n) && Used(size, s) == l.quota + (l.width - 1) * l.most
  {
    s, n := RecordMany(size, l, rows, ds, l.width);
    SumGrows(size, rows, ds, l.most, l.width);
    Excess(Sum(rows, size), l);
  }

  lemma Excess(used: int, l: Limits)
    requires l.width >= 1 && used + l.most == l.quota
    ensures used + Times(l.width, l.most) == l.quota + (l.width - 1) * l.most
  {
    TimesIsProduct(l.width - 1, l.most);
  }
}
