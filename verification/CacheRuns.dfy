/** Whole runs over the cache: what a request reports or has done when it ends, against the moments of its life. */
module CacheRuns {
  import opened Common
  import opened Cache
  import opened CacheCoherence
  import opened TagCoherence

  /** The moments of a run, one state each, from an empty registry on. */
  ghost predicate IsRun(sha: Bytes -> Digest, policy: Policy, run: seq<State>) {
    && run != [] && Initial(run[0])
    && forall k: nat | 0 < k < |run| :: Enters(sha, policy, run, k)
  }

  /** Moment `k` follows the one before it. */
  ghost predicate Enters(sha: Bytes -> Digest, policy: Policy, run: seq<State>, k: nat)
    requires 0 < k < |run|
  {
    Follows(sha, policy, run[k - 1], run[k])
  }

  ghost predicate Follows(sha: Bytes -> Digest, policy: Policy, s: State, s': State) {
    exists a :: Takes(sha, policy, s, a, s')
  }

  /** The shared state at every moment from `q` to `k`. */
  ghost function During(run: seq<State>, q: nat, k: nat): set<World>
    requires k < |run|
  {
    set j | q <= j <= k :: run[j].world
  }

  /** Request `i` is there at moment `k` and was not yet at moment `q`. */
  predicate BegunBetween(run: seq<State>, q: nat, k: nat, i: nat) {
    q <= k < |run| && |run[q].procs| <= i < |run[k].procs|
  }

  function TagRow(w: World, n: Name): Option<Digest> {
    if n in w.tags then Some(w.tags[n]) else None
  }

  // ---- what happened at some moment ----

  ghost predicate Was(past: set<World>, n: Name, row: Option<Digest>) {
    exists w :: w in past && TagRow(w, n) == row
  }

  /** The manifest was the stored row, by the write of this number. */
  ghost predicate WasStored(past: set<World>, n: Name, entry: Versioned) {
    exists w :: w in past && n in w.rows && w.rows[n] == entry
  }

  /** The digest had no row after the write of this number, and no tag pointed at it. */
  ghost predicate WasRemoved(past: set<World>, n: Name, version: nat) {
    exists w :: w in past && n !in w.rows && |Writes(w, n)| == version
      && forall tag :: TagRow(w, (n.0, tag)) != Some(n.1)
  }

  /** Stored, and invalidated since. */
  ghost predicate Stands(past: set<World>, floor: map<Name, nat>, n: Name, m: Manifest) {
    exists v: nat :: v <= Floor(floor, n) && WasStored(past, n, Versioned(m, v))
  }

  ghost predicate Stayed(past: set<World>, floor: map<Name, nat>, n: Name) {
    exists v: nat :: v <= Floor(floor, n) && WasRemoved(past, n, v)
  }

  ghost predicate StoredBy(past: set<World>, n: Name, m: Manifest, version: nat) {
    exists v: nat :: v <= version && WasStored(past, n, Versioned(m, v))
  }

  ghost predicate RemovedBefore(past: set<World>, n: Name, version: nat) {
    exists v: nat :: v < version && WasRemoved(past, n, v)
  }

  /** What a reference may stand for: itself, or what its tag row was. */
  ghost predicate Named(past: set<World>, repo: string, reference: string, digest: Digest) {
    if IsDigest(reference) then digest == reference else Was(past, (repo, reference), Some(digest))
  }

  // ---- what each request has done so far ----

  predicate Carries(pc: ReaderPc) {
    pc.FillingTag? || pc.LookingUp? || pc.ReadingRow? || pc.FillingRow? || pc.Served? || pc.NoManifest?
  }

  ghost predicate ReaderDone(past: set<World>, repo: string, reference: string, pc: ReaderPc) {
    && (IsDigest(reference) ==> !pc.ReadingTag? && !pc.FillingTag? && (Carries(pc) ==> pc.digest == reference))
    && (pc.NoTag? ==> !IsDigest(reference) && Was(past, (repo, reference), None))
  }

  predicate HasTagged(pc: WriterPc) {
    pc.Tagged? || pc.TagCached? || pc.Invalidated?
  }

  ghost predicate PushDone(past: set<World>, floor: map<Name, nat>, n: Name, reference: string, m: Manifest,
      pc: WriterPc) {
    && !pc.Resolved? && !pc.Unknown?
    && (pc.Stored? || HasTagged(pc) ==> pc.digest == n.1)
    && (pc.Stored? || pc.Tagged? || pc.TagCached? ==> WasStored(past, n, Versioned(m, pc.version)))
    && (pc.Invalidated? || pc.Finished? ==> Stands(past, floor, n, m))
    && (HasTagged(pc) || (pc.Finished? && !IsDigest(reference)) ==> Was(past, (n.0, reference), Some(n.1)))
  }

  ghost predicate DeleteDone(past: set<World>, floor: map<Name, nat>, repo: string, reference: string, pc: WriterPc) {
    && !pc.Tagged? && !pc.TagCached?
    && (pc.Resolved? || pc.Stored? || pc.Invalidated? ==> Named(past, repo, reference, pc.digest))
    && (pc.Stored? ==> WasRemoved(past, (repo, pc.digest), pc.version))
    && (pc.Invalidated? ==> Stayed(past, floor, (repo, pc.digest)))
    && (pc.Finished? ==> exists d :: Named(past, repo, reference, d) && Stayed(past, floor, (repo, d)))
    && (pc.Unknown? ==> !IsDigest(reference) && Was(past, (repo, reference), None))
  }

  /** Of a request that began after the first of these moments, when the floors were `start`. */
  ghost predicate Done(sha: Bytes -> Digest, past: set<World>, floor: map<Name, nat>, start: map<Name, nat>, p: Proc) {
    match p
    case Reader(repo, reference, low, pc) => FloorsBelow(start, low) && ReaderDone(past, repo, reference, pc)
    case Push(repo, reference, m, _, pc) => PushDone(past, floor, (repo, sha(m.content)), reference, m, pc)
    case Delete(repo, reference, pc) => DeleteDone(past, floor, repo, reference, pc)
  }

  lemma DoneStays(sha: Bytes -> Digest, past: set<World>, later: set<World>, floor: map<Name, nat>,
      higher: map<Name, nat>, start: map<Name, nat>, p: Proc)
    requires Done(sha, past, floor, start, p) && past <= later && FloorsBelow(floor, higher)
    ensures Done(sha, later, higher, start, p)
  {
    forall n, m | Stands(past, floor, n, m) ensures Stands(later, higher, n, m) {
      var v: nat :| v <= Floor(floor, n) && WasStored(past, n, Versioned(m, v));
      assert v <= Floor(higher, n) && WasStored(later, n, Versioned(m, v));
    }
    forall n | Stayed(past, floor, n) ensures Stayed(later, higher, n) {
      var v: nat :| v <= Floor(floor, n) && WasRemoved(past, n, v);
      assert v <= Floor(higher, n) && WasRemoved(later, n, v);
    }
    if p.Delete? && p.dpc.Finished? {
      var d :| Named(past, p.repo, p.reference, d) && Stayed(past, floor, (p.repo, d));
      assert Named(later, p.repo, p.reference, d) && Stayed(later, higher, (p.repo, d));
    }
  }

  lemma ReaderStepDone(sha: Bytes -> Digest, past: set<World>, w: World, w': World, start: map<Name, nat>, p: Proc)
    requires p.Reader? && w in past && w' == ReaderStep(w, p).0 && Done(sha, past, w'.floor, start, p)
    ensures Done(sha, past, w'.floor, start, ReaderStep(w, p).1)
  {
  }

  lemma InvalidateStands(past: set<World>, w: World, n: Name, v: nat)
    ensures forall m | WasStored(past, n, Versioned(m, v)) :: Stands(past, Invalidate(w, n.0, n.1, v).floor, n, m)
    ensures WasRemoved(past, n, v) ==> Stayed(past, Invalidate(w, n.0, n.1, v).floor, n)
  {
    assert v <= Floor(Invalidate(w, n.0, n.1, v).floor, n);
  }

  lemma CommitStores(past: set<World>, w: World, n: Name, m: Manifest)
    requires Commit(w, n, Some(m)) in past
    ensures WasStored(past, n, Versioned(m, |Writes(w, n)| + 1))
  {
    var w' := Commit(w, n, Some(m));
    assert n in w'.rows && w'.rows[n] == Versioned(m, |Writes(w, n)| + 1);
  }

  lemma CommitRemoves(past: set<World>, w: World, n: Name)
    requires DropTags(Commit(w, n, None), n.0, n.1) in past
    ensures WasRemoved(past, n, |Writes(w, n)| + 1)
  {
    var w' := DropTags(Commit(w, n, None), n.0, n.1);
    assert n !in w'.rows && |Writes(w', n)| == |Writes(w, n)| + 1;
  }

  lemma UpsertNames(past: set<World>, w: World, n: Name, digest: Digest)
    requires w.(tags := w.tags[n := digest]) in past
    ensures Was(past, n, Some(digest))
  {
    assert TagRow(w.(tags := w.tags[n := digest]), n) == Some(digest);
  }

  lemma PushStoredDone(sha: Bytes -> Digest, past: set<World>, w: World, w': World, n: Name, p: Proc)
    requires p.Push? && p.wpc.Stored? && n == (p.repo, sha(p.manifest.content))
    requires w' == PushStep(sha, w, p).0 && w' in past
    requires PushDone(past, w'.floor, n, p.reference, p.manifest, p.wpc)
    ensures PushDone(past, w'.floor, n, p.reference, p.manifest, PushStep(sha, w, p).1.wpc)
  {
    if IsDigest(p.reference) {
      InvalidateStands(past, w, n, p.wpc.version);
    } else {
      UpsertNames(past, w, (p.repo, p.reference), p.wpc.digest);
    }
  }

  lemma PushStepDone(sha: Bytes -> Digest, past: set<World>, w: World, w': World, n: Name, p: Proc)
    requires p.Push? && n == (p.repo, sha(p.manifest.content))
    requires w' == PushStep(sha, w, p).0 && w' in past
    requires PushDone(past, w'.floor, n, p.reference, p.manifest, p.wpc)
    ensures PushDone(past, w'.floor, n, p.reference, p.manifest, PushStep(sha, w, p).1.wpc)
  {
    match p.wpc
    case Ready => CommitStores(past, w, n, p.manifest);
    case Stored(_, _) => PushStoredDone(sha, past, w, w', n, p);
    case Tagged(_, v) => InvalidateStands(past, w, n, v);
    case TagCached(_, v) => InvalidateStands(past, w, n, v);
    case _ =>
  }

  lemma DeleteStepDone(past: set<World>, w: World, w': World, p: Proc)
    requires p.Delete? && w' == DeleteStep(w, p).0 && w in past && w' in past
    requires DeleteDone(past, w'.floor, p.repo, p.reference, p.dpc)
    ensures DeleteDone(past, w'.floor, p.repo, p.reference, DeleteStep(w, p).1.dpc)
  {
    match p.dpc
    case Resolved(digest) => CommitRemoves(past, w, (p.repo, digest));
    case Stored(digest, v) => InvalidateStands(past, w, (p.repo, digest), v);
    case _ =>
  }

  lemma StepDone(sha: Bytes -> Digest, past: set<World>, w: World, start: map<Name, nat>, p: Proc)
    requires w in past && Step(sha, w, p).0 in past && Done(sha, past, Step(sha, w, p).0.floor, start, p)
    ensures Done(sha, past, Step(sha, w, p).0.floor, start, Step(sha, w, p).1)
  {
    var w' := Step(sha, w, p).0;
    match p
    case Reader(_, _, _, _) => ReaderStepDone(sha, past, w, w', start, p);
    case Push(_, _, _, _, _) => PushStepDone(sha, past, w, w', (p.repo, sha(p.manifest.content)), p);
    case Delete(_, _, _) => DeleteStepDone(past, w, w', p);
  }

  // ---- along a run ----

  lemma {:induction false} RunReachable(sha: Bytes -> Digest, policy: Policy, run: seq<State>, k: nat)
    requires IsRun(sha, policy, run) && k < |run|
    ensures Reachable(sha, policy, run[k], k) && Inv(sha, run[k])
    decreases k
  {
    if k > 0 {
      RunReachable(sha, policy, run, k - 1);
      assert Enters(sha, policy, run, k);
    }
    InvAlways(sha, policy, run[k], k);
  }

  lemma {:induction false} RunTo(sha: Bytes -> Digest, policy: Policy, s: State, n: nat) returns (run: seq<State>)
    requires Reachable(sha, policy, s, n)
    ensures IsRun(sha, policy, run) && |run| == n + 1 && run[n] == s
    decreases n
  {
    if n == 0 {
      run := [s];
    } else {
      var s0, a :| Reachable(sha, policy, s0, n - 1) && Takes(sha, policy, s0, a, s);
      var front := RunTo(sha, policy, s0, n - 1);
      run := OneMore(sha, policy, front, a, s);
    }
  }

  lemma OneMore(sha: Bytes -> Digest, policy: Policy, run: seq<State>, a: Action, s: State) returns (run': seq<State>)
    requires IsRun(sha, policy, run) && Takes(sha, policy, run[|run| - 1], a, s)
    ensures run' == run + [s] && IsRun(sha, policy, run')
  {
    run' := run + [s];
    forall k: nat | 0 < k < |run'| ensures Enters(sha, policy, run', k) {
      if k < |run| {
        assert Enters(sha, policy, run, k);
      } else {
        assert Follows(sha, policy, run[|run| - 1], s);
      }
    }
  }

  lemma FollowsGrows(sha: Bytes -> Digest, policy: Policy, s: State, a: Action, s': State)
    requires Inv(sha, s) && Takes(sha, policy, s, a, s')
    ensures Grows(s.world, s'.world)
  {
    match a
    case Advance(i) =>
      assert ProcOk(sha, s.world, s.procs[i]);
      StepKeeps(sha, s.world, s.procs[i]);
    case EvictEntries(ms, ts) => EvictKeeps(sha, s.world, ms, ts);
    case _ => OtherKeeps(sha, s.world, s.world);
  }

  /** One more moment, for a request that was there before it. */
  lemma TakesDone(sha: Bytes -> Digest, policy: Policy, past: set<World>, start: map<Name, nat>, s: State, a: Action,
      s': State, i: nat)
    requires Inv(sha, s) && Takes(sha, policy, s, a, s') && i < |s.procs|
    requires s.world in past && s'.world in past && Done(sha, past, s.world.floor, start, s.procs[i])
    ensures i < |s'.procs| && Done(sha, past, s'.world.floor, start, s'.procs[i])
  {
    FollowsGrows(sha, policy, s, a, s');
    DoneStays(sha, past, past, s.world.floor, s'.world.floor, start, s.procs[i]);
    if a == Advance(i) {
      StepDone(sha, past, s.world, start, s.procs[i]);
    }
  }

  /** A request just begun has done nothing yet. */
  lemma BegunDone(sha: Bytes -> Digest, policy: Policy, past: set<World>, start: map<Name, nat>, s: State, p: Proc)
    requires Admitted(policy, s, p) && FloorsBelow(start, s.world.floor)
    ensures Done(sha, past, s.world.floor, start, p)
  {
  }

  ghost predicate AllDone(sha: Bytes -> Digest, past: set<World>, start: map<Name, nat>, first: nat, s: State) {
    && FloorsBelow(start, s.world.floor)
    && forall i | first <= i < |s.procs| :: Done(sha, past, s.world.floor, start, s.procs[i])
  }

  lemma FloorsTrans(a: map<Name, nat>, b: map<Name, nat>, c: map<Name, nat>)
    requires FloorsBelow(a, b) && FloorsBelow(b, c)
    ensures FloorsBelow(a, c)
  {
    forall n ensures Floor(a, n) <= Floor(c, n) {
      assert Floor(a, n) <= Floor(b, n) <= Floor(c, n);
    }
  }

  lemma AllDoneStep(sha: Bytes -> Digest, policy: Policy, past: set<World>, start: map<Name, nat>, first: nat, s: State,
      a: Action, s': State)
    requires Inv(sha, s) && Takes(sha, policy, s, a, s') && first <= |s.procs| && s.world in past
    requires AllDone(sha, past, start, first, s)
    ensures |s.procs| <= |s'.procs| && AllDone(sha, past + {s'.world}, start, first, s')
  {
    var later := past + {s'.world};
    FollowsGrows(sha, policy, s, a, s');
    FloorsTrans(start, s.world.floor, s'.world.floor);
    forall i | first <= i < |s'.procs| ensures Done(sha, later, s'.world.floor, start, s'.procs[i]) {
      if i < |s.procs| {
        DoneStays(sha, past, later, s.world.floor, s.world.floor, start, s.procs[i]);
        TakesDone(sha, policy, later, start, s, a, s', i);
      } else {
        BegunDone(sha, policy, later, start, s, a.p);
      }
    }
  }

  lemma OneMoreWorld(run: seq<State>, q: nat, k: nat)
    requires q <= k < |run| - 1
    ensures During(run, q, k + 1) == During(run, q, k) + {run[k + 1].world} && run[k].world in During(run, q, k)
  {
  }

  /** Whatever began after the first state has done, by the second, what its progress says. */
  ghost predicate DoneSince(sha: Bytes -> Digest, past: set<World>, base: State, s: State) {
    |base.procs| <= |s.procs| && AllDone(sha, past, base.world.floor, |base.procs|, s)
  }

  lemma OneMoreMoment(sha: Bytes -> Digest, policy: Policy, past: set<World>, base: State, s: State, s': State)
    requires Inv(sha, s) && Follows(sha, policy, s, s') && s.world in past && DoneSince(sha, past, base, s)
    ensures DoneSince(sha, past + {s'.world}, base, s')
  {
    var a :| Takes(sha, policy, s, a, s');
    AllDoneStep(sha, policy, past, base.world.floor, |base.procs|, s, a, s');
  }

  lemma NextMoment(sha: Bytes -> Digest, policy: Policy, run: seq<State>, q: nat, k: nat)
    requires IsRun(sha, policy, run) && q <= k < |run| - 1 && DoneSince(sha, During(run, q, k), run[q], run[k])
    ensures DoneSince(sha, During(run, q, k + 1), run[q], run[k + 1])
  {
    RunReachable(sha, policy, run, k);
    OneMoreWorld(run, q, k);
    assert Enters(sha, policy, run, k + 1);
    OneMoreMoment(sha, policy, During(run, q, k), run[q], run[k], run[k + 1]);
  }

  lemma {:induction false} DoneAlways(sha: Bytes -> Digest, policy: Policy, run: seq<State>, q: nat, k: nat)
    requires IsRun(sha, policy, run) && q <= k < |run|
    ensures DoneSince(sha, During(run, q, k), run[q], run[k])
    decreases k
  {
    if q < k {
      DoneAlways(sha, policy, run, q, k - 1);
      NextMoment(sha, policy, run, q, k - 1);
    }
  }

  lemma DoneBetween(sha: Bytes -> Digest, policy: Policy, run: seq<State>, q: nat, k: nat, i: nat)
    requires IsRun(sha, policy, run) && BegunBetween(run, q, k, i)
    ensures Done(sha, During(run, q, k), run[k].world.floor, run[q].world.floor, run[k].procs[i])
    ensures ProcOk(sha, run[k].world, run[k].procs[i])
  {
    DoneAlways(sha, policy, run, q, k);
    RunReachable(sha, policy, run, k);
  }

  // ---- tags ----

  /** Everything that may still reach the cache or a reader for this tag was its row at some of these moments. */
  ghost predicate TagFresh(past: set<World>, first: nat, s: State, n: Name) {
    && (Key(n.0, n.1) in s.world.cache.tags ==> Was(past, n, Some(s.world.cache.tags[Key(n.0, n.1)])))
    && forall i | 0 <= i < |s.procs| && s.procs[i].repo == n.0 && s.procs[i].reference == n.1 ::
         ProcFresh(past, first <= i, s.world, s.procs[i], n)
  }

  ghost predicate ProcFresh(past: set<World>, late: bool, w: World, p: Proc, n: Name) {
    match p
    case Reader(_, _, _, pc) =>
      Carries(pc) && (late || (pc.FillingTag? && w.cache.enabled && pc.gen == w.cache.generation)) ==>
        Was(past, n, Some(pc.digest))
    case Push(_, _, _, _, pc) => HasTagged(pc) ==> Was(past, n, Some(pc.digest))
    case Delete(_, _, _) => true
  }

  predicate IsTag(n: Name) {
    '|' !in n.0 && !IsDigest(n.1)
  }

  /** A step changes the cached tag only to something fresh. */
  lemma CachedFresh(sha: Bytes -> Digest, past: set<World>, first: nat, s: State, i: nat, n: Name)
    requires Inv(sha, s) && IsTag(n) && i < |s.procs| && TagFresh(past, first, s, n)
    ensures var w' := Step(sha, s.world, s.procs[i]).0;
            Key(n.0, n.1) in w'.cache.tags ==> Was(past, n, Some(w'.cache.tags[Key(n.0, n.1)]))
  {
    KeysInjective();
    assert ProcOk(sha, s.world, s.procs[i]);
  }

  /** A reader takes the tag from the cache or the table. */
  lemma ReaderStepFresh(past: set<World>, late: bool, w: World, p: Proc, n: Name)
    requires p.Reader? && IsTag(n) && p.repo == n.0 && p.reference == n.1
    requires ProcFresh(past, late, w, p, n) && w in past
    requires Key(n.0, n.1) in w.cache.tags ==> Was(past, n, Some(w.cache.tags[Key(n.0, n.1)]))
    ensures ProcFresh(past, late, ReaderStep(w, p).0, ReaderStep(w, p).1, n)
  {
    if p.rpc.ReadingTag? && n in w.tags {
      assert TagRow(w, n) == Some(w.tags[n]);
    }
  }

  lemma PushStepFresh(sha: Bytes -> Digest, past: set<World>, w: World, p: Proc, n: Name)
    requires p.Push? && IsTag(n) && p.repo == n.0 && p.reference == n.1
    requires (HasTagged(p.wpc) ==> Was(past, n, Some(p.wpc.digest))) && PushStep(sha, w, p).0 in past
    ensures var pc := PushStep(sha, w, p).1.wpc; HasTagged(pc) ==> Was(past, n, Some(pc.digest))
  {
    if p.wpc.Stored? {
      UpsertNames(past, w, n, p.wpc.digest);
    }
  }

  lemma ProcStepFresh(sha: Bytes -> Digest, past: set<World>, late: bool, w: World, p: Proc, n: Name)
    requires IsTag(n) && p.repo == n.0 && p.reference == n.1
    requires ProcFresh(past, late, w, p, n) && w in past && Step(sha, w, p).0 in past
    requires Key(n.0, n.1) in w.cache.tags ==> Was(past, n, Some(w.cache.tags[Key(n.0, n.1)]))
    ensures ProcFresh(past, late, Step(sha, w, p).0, Step(sha, w, p).1, n)
  {
    match p
    case Reader(_, _, _, _) => ReaderStepFresh(past, late, w, p, n);
    case Push(_, _, _, _, _) => PushStepFresh(sha, past, w, p, n);
    case Delete(_, _, _) =>
  }

  lemma ProcFreshStays(sha: Bytes -> Digest, past: set<World>, later: set<World>, late: bool, w: World, w': World,
      p: Proc, n: Name)
    requires ProcFresh(past, late, w, p, n) && past <= later && ProcOk(sha, w, p) && Grows(w, w')
    ensures ProcFresh(later, late, w', p, n)
  {
  }

  lemma TagFreshStep(sha: Bytes -> Digest, policy: Policy, past: set<World>, first: nat, s: State, a: Action, s': State,
      n: Name)
    requires Inv(sha, s) && Takes(sha, policy, s, a, s') && IsTag(n) && first <= |s.procs| && s.world in past
    requires TagFresh(past, first, s, n)
    ensures TagFresh(past + {s'.world}, first, s', n)
  {
    var later := past + {s'.world};
    FollowsGrows(sha, policy, s, a, s');
    if a.Advance? {
      CachedFresh(sha, past, first, s, a.i, n);
    }
    forall j | 0 <= j < |s'.procs| && s'.procs[j].repo == n.0 && s'.procs[j].reference == n.1
      ensures ProcFresh(later, first <= j, s'.world, s'.procs[j], n)
    {
      if j < |s.procs| {
        OneProcFresh(sha, policy, past, later, first <= j, s, a, s', j, n);
      }
    }
  }

  lemma OneProcFresh(sha: Bytes -> Digest, policy: Policy, past: set<World>, later: set<World>, late: bool, s: State,
      a: Action, s': State, j: nat, n: Name)
    requires Inv(sha, s) && Takes(sha, policy, s, a, s') && j < |s.procs| && IsTag(n) && Grows(s.world, s'.world)
    requires past <= later && s.world in later && s'.world in later
    requires s.procs[j].repo == n.0 && s.procs[j].reference == n.1 && ProcFresh(past, late, s.world, s.procs[j], n)
    requires Key(n.0, n.1) in s.world.cache.tags ==> Was(past, n, Some(s.world.cache.tags[Key(n.0, n.1)]))
    ensures ProcFresh(later, late, s'.world, s'.procs[j], n)
  {
    assert ProcOk(sha, s.world, s.procs[j]);
    if a == Advance(j) {
      assert ProcFresh(later, late, s.world, s.procs[j], n);
      ProcStepFresh(sha, later, late, s.world, s.procs[j], n);
    } else {
      ProcFreshStays(sha, past, later, late, s.world, s'.world, s.procs[j], n);
    }
  }

  lemma {:induction false} TagFreshAlways(sha: Bytes -> Digest, policy: Policy, run: seq<State>, q: nat, k: nat,
      n: Name)
    requires IsRun(sha, policy, run) && q <= k < |run| && IsTag(n)
    requires TagFresh({run[q].world}, |run[q].procs|, run[q], n)
    ensures TagFresh(During(run, q, k), |run[q].procs|, run[k], n)
    decreases k
  {
    if q == k {
      assert During(run, q, k) == {run[q].world};
    } else {
      TagFreshAlways(sha, policy, run, q, k - 1, n);
      OneMoreTagMoment(sha, policy, run, q, k - 1, n);
    }
  }

  lemma OneMoreTagMoment(sha: Bytes -> Digest, policy: Policy, run: seq<State>, q: nat, k: nat, n: Name)
    requires IsRun(sha, policy, run) && q <= k < |run| - 1 && IsTag(n)
    requires TagFresh(During(run, q, k), |run[q].procs|, run[k], n)
    ensures TagFresh(During(run, q, k + 1), |run[q].procs|, run[k + 1], n)
  {
    RunReachable(sha, policy, run, k);
    DoneAlways(sha, policy, run, q, k);
    OneMoreWorld(run, q, k);
    assert Enters(sha, policy, run, k + 1);
    var a :| Takes(sha, policy, run[k], a, run[k + 1]);
    TagFreshStep(sha, policy, During(run, q, k), |run[q].procs|, run[k], a, run[k + 1], n);
  }

  lemma BumpOwedIsOwed(procs: seq<Proc>, repo: string, tag: string)
    ensures BumpOwed(procs, repo, tag) ==> Owed(procs, repo, tag)
  {
    if BumpOwed(procs, repo, tag) {
      var j :| 0 <= j < |procs| && OwesBump(procs[j], repo, tag);
      assert Owes(procs[j], repo, tag);
    }
  }

  /** With no writer still owing the tag, what is cached or about to be is its row now. */
  lemma QuietFresh(sha: Bytes -> Digest, s: State, n: Name)
    requires Inv(sha, s) && TagInv(s) && IsTag(n) && !Owed(s.procs, n.0, n.1)
    ensures TagFresh({s.world}, |s.procs|, s, n)
  {
    forall d | Agrees(s.world, n.0, n.1, d) ensures Was({s.world}, n, Some(d)) {
      assert TagRow(s.world, n) == Some(d);
    }
    forall i | 0 <= i < |s.procs| && s.procs[i].repo == n.0 && s.procs[i].reference == n.1
      ensures ProcFresh({s.world}, false, s.world, s.procs[i], n)
    {
      assert PushOk(s.world, s.procs[i]) && FillOk(s.world, s.procs, s.procs[i]);
      BumpOwedIsOwed(s.procs, n.0, n.1);
    }
  }

  // ---- what readers report ----

  /**
   * At every moment of every run, a read of a digest reports that digest and never a missing
   * tag, and a read of a tag reports a digest that was the tag's row at some moment.
   */
  lemma ReportsItsReference(sha: Bytes -> Digest, policy: Policy, run: seq<State>, k: nat, i: nat)
    requires IsRun(sha, policy, run) && k < |run| && i < |run[k].procs| && run[k].procs[i].Reader?
    ensures var p := run[k].procs[i];
            && (p.rpc.Served? || p.rpc.NoManifest? ==> Named(During(run, 0, k), p.repo, p.reference, p.rpc.digest))
            && (p.rpc.NoTag? ==> !IsDigest(p.reference))
  {
    var n := (run[k].procs[i].repo, run[k].procs[i].reference);
    DoneBetween(sha, policy, run, 0, k, i);
    if IsTag(n) {
      TagFreshAlways(sha, policy, run, 0, k, n);
      assert ProcFresh(During(run, 0, k), true, run[k].world, run[k].procs[i], n);
    }
  }

  /** A tag is reported missing only when it was missing at some moment since the read began. */
  lemma MissingTagWasMissing(sha: Bytes -> Digest, policy: Policy, run: seq<State>, q: nat, k: nat, i: nat)
    requires IsRun(sha, policy, run) && BegunBetween(run, q, k, i)
    requires run[k].procs[i].Reader? && run[k].procs[i].rpc.NoTag?
    ensures Was(During(run, q, k), (run[k].procs[i].repo, run[k].procs[i].reference), None)
  {
    DoneBetween(sha, policy, run, q, k, i);
  }

  /**
   * Under the discipline, the digest a tag resolves to was its row since the read began, if no
   * writer had by then changed the row without having updated the cache.
   */
  lemma TagReadSinceItBegan(sha: Bytes -> Digest, policy: Policy, run: seq<State>, q: nat, k: nat, i: nat)
    requires IsRun(sha, policy, run) && Disciplined(policy) && BegunBetween(run, q, k, i)
    requires var p := run[k].procs[i];
             p.Reader? && Carries(p.rpc) && !IsDigest(p.reference) && !Owed(run[q].procs, p.repo, p.reference)
    ensures var p := run[k].procs[i]; Was(During(run, q, k), (p.repo, p.reference), Some(p.rpc.digest))
  {
    var n := (run[k].procs[i].repo, run[k].procs[i].reference);
    DoneBetween(sha, policy, run, q, k, i);
    RunReachable(sha, policy, run, q);
    TagInvAlways(sha, policy, run[q], q);
    QuietFresh(sha, run[q], n);
    TagFreshAlways(sha, policy, run, q, k, n);
    assert ProcFresh(During(run, q, k), true, run[k].world, run[k].procs[i], n);
  }

  // ---- what writers have done ----

  /** A finished push stored its manifest and moved its tag after it began, and has invalidated. */
  lemma FinishedPushStored(sha: Bytes -> Digest, policy: Policy, run: seq<State>, q: nat, k: nat, j: nat)
    requires IsRun(sha, policy, run) && BegunBetween(run, q, k, j)
    requires run[k].procs[j].Push? && run[k].procs[j].wpc.Finished?
    ensures var p := run[k].procs[j];
            var digest := sha(p.manifest.content);
            && Stands(During(run, q, k), run[k].world.floor, (p.repo, digest), p.manifest)
            && (!IsDigest(p.reference) ==> Was(During(run, q, k), (p.repo, p.reference), Some(digest)))
  {
    DoneBetween(sha, policy, run, q, k, j);
  }

  /** A finished delete removed what its reference named, with every tag on it, and has invalidated. */
  lemma FinishedDeleteRemoved(sha: Bytes -> Digest, policy: Policy, run: seq<State>, q: nat, k: nat, j: nat)
    returns (digest: Digest)
    requires IsRun(sha, policy, run) && BegunBetween(run, q, k, j)
    requires run[k].procs[j].Delete? && run[k].procs[j].dpc.Finished?
    ensures Named(During(run, q, k), run[k].procs[j].repo, run[k].procs[j].reference, digest)
    ensures Stayed(During(run, q, k), run[k].world.floor, (run[k].procs[j].repo, digest))
  {
    var p := run[k].procs[j];
    DoneBetween(sha, policy, run, q, k, j);
    digest :| Named(During(run, q, k), p.repo, p.reference, digest)
      && Stayed(During(run, q, k), run[k].world.floor, (p.repo, digest));
  }

  /** A delete calls a tag unknown only when it was missing at some moment since the delete began. */
  lemma UnknownTagWasMissing(sha: Bytes -> Digest, policy: Policy, run: seq<State>, q: nat, k: nat, j: nat)
    requires IsRun(sha, policy, run) && BegunBetween(run, q, k, j)
    requires run[k].procs[j].Delete? && run[k].procs[j].dpc.Unknown?
    ensures var p := run[k].procs[j];
            !IsDigest(p.reference) && Was(During(run, q, k), (p.repo, p.reference), None)
  {
    DoneBetween(sha, policy, run, q, k, j);
  }

  // ---- reads after writes ----

  /** The number of the write a finished read reports. */
  function Reported(pc: ReaderPc): nat
    requires pc.Served? || pc.NoManifest?
  {
    if pc.Served? then pc.entry.version else pc.version
  }

  lemma ReadFloor(sha: Bytes -> Digest, policy: Policy, run: seq<State>, q: nat, k: nat, i: nat)
    requires IsRun(sha, policy, run) && BegunBetween(run, q, k, i)
    requires var p := run[k].procs[i]; p.Reader? && (p.rpc.Served? || p.rpc.NoManifest?)
    ensures var p := run[k].procs[i];
            && Floor(run[q].world.floor, (p.repo, p.rpc.digest)) <= Reported(p.rpc)
            && (p.rpc.Served? ==> Recorded(sha, run[k].world, (p.repo, p.rpc.digest), p.rpc.entry))
  {
    var p := run[k].procs[i];
    DoneBetween(sha, policy, run, q, k, i);
    assert Floor(run[q].world.floor, (p.repo, p.rpc.digest)) <= Floor(p.floor, (p.repo, p.rpc.digest));
  }

  /** A read that begins after a push of the same digest finished reports that push or a later write. */
  lemma ReadSeesFinishedPush(sha: Bytes -> Digest, policy: Policy, run: seq<State>, q: nat, k: nat, j: nat, i: nat)
    requires IsRun(sha, policy, run) && BegunBetween(run, q, k, i)
    requires j < |run[q].procs| && run[q].procs[j].Push? && run[q].procs[j].wpc.Finished?
    requires var p := run[k].procs[i];
             && p.Reader? && (p.rpc.Served? || p.rpc.NoManifest?) && p.repo == run[q].procs[j].repo
             && p.rpc.digest == sha(run[q].procs[j].manifest.content)
    ensures var p := run[k].procs[i];
            StoredBy(During(run, 0, q), (p.repo, p.rpc.digest), run[q].procs[j].manifest, Reported(p.rpc))
  {
    var writer := run[q].procs[j];
    var n := (writer.repo, sha(writer.manifest.content));
    FinishedPushStored(sha, policy, run, 0, q, j);
    var v: nat :| v <= Floor(run[q].world.floor, n)
      && WasStored(During(run, 0, q), n, Versioned(writer.manifest, v));
    ReadFloor(sha, policy, run, q, k, i);
  }

  lemma {:induction false} WritesGrow(sha: Bytes -> Digest, policy: Policy, run: seq<State>, q: nat, k: nat, n: Name)
    requires IsRun(sha, policy, run) && q <= k < |run|
    ensures Writes(run[q].world, n) <= Writes(run[k].world, n)
    decreases k
  {
    if q < k {
      WritesGrow(sha, policy, run, q, k - 1, n);
      RunReachable(sha, policy, run, k - 1);
      assert Enters(sha, policy, run, k);
      var a :| Takes(sha, policy, run[k - 1], a, run[k]);
      FollowsGrows(sha, policy, run[k - 1], a, run[k]);
    }
  }

  /** What was removed stays in the history as a removal. */
  lemma RemovalRecorded(sha: Bytes -> Digest, policy: Policy, run: seq<State>, q: nat, k: nat, n: Name, v: nat)
    requires IsRun(sha, policy, run) && q <= k < |run| && WasRemoved(During(run, 0, q), n, v)
    ensures var ws := Writes(run[k].world, n); v <= |ws| && (v > 0 ==> ws[v - 1] == None)
  {
    var w :| w in During(run, 0, q) && n !in w.rows && |Writes(w, n)| == v;
    var j :| 0 <= j <= q && run[j].world == w;
    RunReachable(sha, policy, run, j);
    WritesGrow(sha, policy, run, j, k, n);
  }

  /** A read that begins after a delete finished serves what the delete removed only if it was stored again. */
  lemma ReadSeesFinishedDelete(sha: Bytes -> Digest, policy: Policy, run: seq<State>, q: nat, k: nat, j: nat, i: nat)
    returns (digest: Digest)
    requires IsRun(sha, policy, run) && BegunBetween(run, q, k, i)
    requires j < |run[q].procs| && run[q].procs[j].Delete? && run[q].procs[j].dpc.Finished?
    requires run[k].procs[i].Reader? && run[k].procs[i].repo == run[q].procs[j].repo
    ensures Named(During(run, 0, q), run[q].procs[j].repo, run[q].procs[j].reference, digest)
    ensures var p := run[k].procs[i];
            p.rpc.Served? && p.rpc.digest == digest ==>
              RemovedBefore(During(run, 0, q), (p.repo, digest), p.rpc.entry.version)
  {
    digest := FinishedDeleteRemoved(sha, policy, run, 0, q, j);
    if run[k].procs[i].rpc.Served? && run[k].procs[i].rpc.digest == digest {
      RemovedThenServed(sha, policy, run, q, k, i);
    }
  }

  lemma RemovedThenServed(sha: Bytes -> Digest, policy: Policy, run: seq<State>, q: nat, k: nat, i: nat)
    requires IsRun(sha, policy, run) && BegunBetween(run, q, k, i)
    requires run[k].procs[i].Reader? && run[k].procs[i].rpc.Served?
    requires var p := run[k].procs[i]; Stayed(During(run, 0, q), run[q].world.floor, (p.repo, p.rpc.digest))
    ensures var p := run[k].procs[i];
            RemovedBefore(During(run, 0, q), (p.repo, p.rpc.digest), p.rpc.entry.version)
  {
    var p := run[k].procs[i];
    var n := (p.repo, p.rpc.digest);
    var v: nat :| v <= Floor(run[q].world.floor, n) && WasRemoved(During(run, 0, q), n, v);
    ReadFloor(sha, policy, run, q, k, i);
    RemovalRecorded(sha, policy, run, q, k, n, v);
    assert v < p.rpc.entry.version;
  }

  // ---- who changes a tag row ----

  /** `p` sets the row of its own tag to the digest of its content. */
  predicate Sets(sha: Bytes -> Digest, p: Proc, n: Name, row: Option<Digest>) {
    p.Push? && (p.repo, p.reference) == n && !IsDigest(p.reference) && row == Some(sha(p.manifest.content))
  }

  /** `p` removes the manifest the row names. */
  predicate Clears(p: Proc, n: Name, row: Option<Digest>) {
    p.Delete? && p.dpc.Resolved? && p.repo == n.0 && row == Some(p.dpc.digest)
  }

  lemma StepSetsOrClears(sha: Bytes -> Digest, w: World, p: Proc, n: Name)
    requires p.Push? ==> (p.wpc.Stored? ==> p.wpc.digest == sha(p.manifest.content))
    ensures var row, row' := TagRow(w, n), TagRow(Step(sha, w, p).0, n);
            row' != row ==> Sets(sha, p, n, row') || (Clears(p, n, row) && row' == None)
  {
  }

  /** In every run a tag row changes only by a push of that tag, to its digest, or by a delete of what it names. */
  lemma TagRowsChangeExactly(sha: Bytes -> Digest, policy: Policy, run: seq<State>, k: nat, n: Name)
    requires IsRun(sha, policy, run) && k + 1 < |run|
    ensures var row, row' := TagRow(run[k].world, n), TagRow(run[k + 1].world, n);
            row' != row ==> exists i | 0 <= i < |run[k].procs| ::
              Sets(sha, run[k].procs[i], n, row') || (Clears(run[k].procs[i], n, row) && row' == None)
  {
    assert Enters(sha, policy, run, k + 1);
    var a :| Takes(sha, policy, run[k], a, run[k + 1]);
    if a.Advance? {
      DoneBetween(sha, policy, run, 0, k, a.i);
      StepSetsOrClears(sha, run[k].world, run[k].procs[a.i], n);
    }
  }

  // ---- every request ends ----

  predicate AtEnd(p: Proc) {
    match p
    case Reader(_, _, _, pc) => pc.Served? || pc.NoManifest? || pc.NoTag?
    case Push(_, _, _, _, pc) => pc.Over()
    case Delete(_, _, pc) => pc.Over()
  }

  function ReaderLeft(pc: ReaderPc): nat {
    match pc
    case Starting => 7
    case Resolving(_) => 6
    case ReadingTag(_) => 5
    case FillingTag(_, _) => 4
    case LookingUp(_, _) => 3
    case ReadingRow(_, _) => 2
    case FillingRow(_, _, _) => 1
    case _ => 0
  }

  function WriterLeft(pc: WriterPc): nat {
    match pc
    case Ready => 5
    case Resolved(_) => 4
    case Stored(_, _) => 3
    case Tagged(_, _) => 2
    case TagCached(_, _) => 1
    case Invalidated(_) => 1
    case _ => 0
  }

  function StepsLeft(p: Proc): nat {
    match p
    case Reader(_, _, _, pc) => ReaderLeft(pc)
    case Push(_, _, _, _, pc) => WriterLeft(pc)
    case Delete(_, _, pc) => WriterLeft(pc)
  }

  lemma StepLowers(sha: Bytes -> Digest, w: World, p: Proc)
    requires (p.Push? ==> !p.wpc.Resolved?) && (p.Delete? ==> !p.dpc.Tagged? && !p.dpc.TagCached?)
    ensures StepsLeft(p) <= 7 && if AtEnd(p) then StepsLeft(p) == 0 else StepsLeft(Step(sha, w, p).1) < StepsLeft(p)
  {
  }

  /** Nothing waits: every step of a request brings it closer to its end, at most seven away. */
  lemma StepAdvances(sha: Bytes -> Digest, policy: Policy, run: seq<State>, k: nat, i: nat)
    requires IsRun(sha, policy, run) && k < |run| && i < |run[k].procs|
    ensures var p := run[k].procs[i];
            StepsLeft(p) <= 7 && (AtEnd(p) || StepsLeft(Step(sha, run[k].world, p).1) < StepsLeft(p))
  {
    DoneBetween(sha, policy, run, 0, k, i);
    StepLowers(sha, run[k].world, run[k].procs[i]);
  }
}
