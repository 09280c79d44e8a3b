/**
 * Concurrent blob copies of one import, sharing per-digest locks and a download semaphore, while
 * other requests record and delete blobs.
 */
module ImportTasks {
  import opened Common

  /**
   * `copy_blob_once` between two of its steps. The lock is held from `Rechecking` to
   * `Unlocking`, the permit from `Downloading` to `Leaving`.
   */
  datatype Pc =
    | Checking
    | Waiting
    | Rechecking
    | Acquiring
    | Downloading
    | Leaving(ok: bool)
    | Unlocking(result: Outcome)
    | Returned(result: Outcome)

  datatype Outcome = Copied | AlreadyThere | Failed

  datatype Task = Task(digest: Digest, pc: Pc)
  {
    predicate HoldsLock() {
      pc.Rechecking? || pc.Acquiring? || pc.Downloading? || pc.Leaving? || pc.Unlocking?
    }

    predicate HoldsPermit() {
      pc.Downloading? || pc.Leaving?
    }

    /** Between the second look and the record. */
    predicate Fetching() {
      pc.Acquiring? || pc.Downloading?
    }

    /** The download is complete and recorded. */
    predicate Succeeded() {
      pc == Leaving(true) || ((pc.Unlocking? || pc.Returned?) && pc.result == Copied)
    }
  }

  /** `recorded` are the organisation's blobs, `holders` which copy holds each taken lock. */
  datatype State = State(recorded: set<Digest>, holders: map<Digest, int>, permits: nat, tasks: seq<Task>)

  datatype Move = Proceed | Break

  /** Whether task `i` can run; only a taken lock or an exhausted semaphore makes it wait. */
  predicate Ready(s: State, i: nat)
    requires i < |s.tasks|
  {
    var t := s.tasks[i];
    match t.pc
    case Waiting => t.digest !in s.holders
    case Acquiring => s.permits > 0
    case Returned(_) => false
    case _ => true
  }

  /** `Break`: the database lookup or the download fails. */
  predicate Can(s: State, i: nat, m: Move)
    requires i < |s.tasks|
  {
    Ready(s, i) && (m == Break ==> s.tasks[i].pc.Checking? || s.tasks[i].pc.Rechecking? || s.tasks[i].pc.Downloading?)
  }

  function NextPc(s: State, t: Task, m: Move): Pc {
    match t.pc
    case Checking =>
      if m == Break then Returned(Failed) else if t.digest in s.recorded then Returned(AlreadyThere) else Waiting
    case Waiting => Rechecking
    case Rechecking =>
      if m == Break then Unlocking(Failed) else if t.digest in s.recorded then Unlocking(AlreadyThere) else Acquiring
    case Acquiring => Downloading
    case Downloading => Leaving(m == Proceed)
    case Leaving(ok) => Unlocking(if ok then Copied else Failed)
    case Unlocking(result) => Returned(result)
    case Returned(_) => t.pc
  }

  function Step(s: State, i: nat, m: Move): State
    requires i < |s.tasks| && Can(s, i, m)
  {
    var t := s.tasks[i];
    var tasks := s.tasks[i := Task(t.digest, NextPc(s, t, m))];
    match t.pc
    case Waiting => State(s.recorded, s.holders[t.digest := i], s.permits, tasks)
    case Acquiring => State(s.recorded, s.holders, s.permits - 1, tasks)
    case Downloading => State(if m == Proceed then s.recorded + {t.digest} else s.recorded, s.holders, s.permits, tasks)
    case Leaving(_) => State(s.recorded, s.holders, s.permits + 1, tasks)
    case Unlocking(_) => State(s.recorded, s.holders - {t.digest}, s.permits, tasks)
    case _ => State(s.recorded, s.holders, s.permits, tasks)
  }

  /** Whether other requests record blobs while the import runs, and whether they delete any. */
  datatype Others = Others(records: bool, deletes: bool)

  datatype Action = Start(d: Digest) | Advance(i: nat, m: Move) | Record(d: Digest) | Delete(d: Digest)

  ghost predicate Takes(o: Others, s: State, a: Action, s': State) {
    match a
    case Start(d) => s' == s.(tasks := s.tasks + [Task(d, Checking)])
    case Advance(i, m) => i < |s.tasks| && Can(s, i, m) && s' == Step(s, i, m)
    case Record(d) => o.records && s' == s.(recorded := s.recorded + {d})
    case Delete(d) => o.deletes && s' == s.(recorded := s.recorded - {d})
  }

  ghost predicate Reachable(o: Others, initial: set<Digest>, concurrency: nat, s: State, steps: nat)
    decreases steps
  {
    if steps == 0 then s == State(initial, map[], concurrency, [])
    else exists s0, a :: Reachable(o, initial, concurrency, s0, steps - 1) && Takes(o, s0, a, s)
  }

  // ---- invariant ----

  function Count(tasks: seq<Task>, p: Task -> bool): nat {
    if tasks == [] then 0
    else Count(tasks[..|tasks| - 1], p) + if p(tasks[|tasks| - 1]) then 1 else 0
  }

  /** A lock is held by exactly the copy its entry names. */
  ghost predicate LocksOk(s: State) {
    && (forall i | 0 <= i < |s.tasks| && s.tasks[i].HoldsLock() ::
          s.tasks[i].digest in s.holders && s.holders[s.tasks[i].digest] == i)
    && (forall d <- s.holders :: 0 <= s.holders[d] < |s.tasks| && s.tasks[s.holders[d]].digest == d
          && s.tasks[s.holders[d]].HoldsLock())
  }

  /** Past the second look, a digest is still missing. */
  ghost predicate MissingOk(s: State) {
    forall i | 0 <= i < |s.tasks| && s.tasks[i].Fetching() :: s.tasks[i].digest !in s.recorded
  }

  /** What was downloaded is there and is new. */
  ghost predicate NewOk(initial: set<Digest>, s: State) {
    && initial <= s.recorded
    && (forall i | 0 <= i < |s.tasks| && s.tasks[i].Succeeded() :: s.tasks[i].digest in s.recorded - initial)
    && (forall i | 0 <= i < |s.tasks| && Reports(s.tasks[i]) :: s.tasks[i].digest in s.recorded)
    && (forall i | 0 <= i < |s.tasks| && s.tasks[i].Fetching() :: s.tasks[i].digest !in initial)
  }

  /** And nobody downloads it again. */
  ghost predicate OnceOk(s: State) {
    && (forall i, j | 0 <= i < |s.tasks| && 0 <= j < |s.tasks| && s.tasks[i].Succeeded() && s.tasks[j].Fetching() ::
          s.tasks[i].digest != s.tasks[j].digest)
    && OnceEach(s)
  }

  ghost predicate Inv(o: Others, initial: set<Digest>, concurrency: nat, s: State) {
    && LocksOk(s)
    && PermitsOk(concurrency, s)
    && (!o.records ==> MissingOk(s))
    && (!o.deletes ==> NewOk(initial, s) && OnceOk(s))
    && (!o.records && !o.deletes ==> NewCounted(initial, s))
  }

  ghost predicate PermitsOk(concurrency: nat, s: State) {
    Count(s.tasks, (t: Task) => t.HoldsPermit()) + s.permits == concurrency
  }

  lemma {:induction false} CountUpdate(tasks: seq<Task>, i: nat, t: Task, p: Task -> bool)
    requires i < |tasks|
    ensures Count(tasks[i := t], p) + (if p(tasks[i]) then 1 else 0) == Count(tasks, p) + (if p(t) then 1 else 0)
    decreases |tasks|
  {
    var front := tasks[..|tasks| - 1];
    if i < |tasks| - 1 {
      assert tasks[i := t][..|tasks| - 1] == front[i := t];
      CountUpdate(front, i, t, p);
    } else {
      assert tasks[i := t][..|tasks| - 1] == front;
    }
  }

  lemma CountSnoc(tasks: seq<Task>, t: Task, p: Task -> bool)
    ensures Count(tasks + [t], p) == Count(tasks, p) + if p(t) then 1 else 0
  {
    assert (tasks + [t])[..|tasks|] == tasks;
  }

  lemma {:induction false} CountWitness(tasks: seq<Task>, p: Task -> bool) returns (i: nat)
    requires Count(tasks, p) > 0
    ensures i < |tasks| && p(tasks[i])
    decreases |tasks|
  {
    if p(tasks[|tasks| - 1]) {
      i := |tasks| - 1;
    } else {
      i := CountWitness(tasks[..|tasks| - 1], p);
    }
  }

  lemma StepLocks(s: State, i: nat, m: Move)
    requires i < |s.tasks| && Can(s, i, m) && LocksOk(s)
    ensures LocksOk(Step(s, i, m))
  {
    StepHolders(s, i, m);
    StepHeld(s, i, m);
  }

  /** Every lock-holding task is still the one its entry names. */
  lemma StepHolders(s: State, i: nat, m: Move)
    requires i < |s.tasks| && Can(s, i, m) && LocksOk(s)
    ensures var s' := Step(s, i, m);
            forall j | 0 <= j < |s'.tasks| && s'.tasks[j].HoldsLock() ::
              s'.tasks[j].digest in s'.holders && s'.holders[s'.tasks[j].digest] == j
  {
  }

  /** Every entry still names a task that holds it. */
  lemma StepHeld(s: State, i: nat, m: Move)
    requires i < |s.tasks| && Can(s, i, m) && LocksOk(s)
    ensures var s' := Step(s, i, m);
            forall d <- s'.holders :: 0 <= s'.holders[d] < |s'.tasks| && s'.tasks[s'.holders[d]].digest == d
              && s'.tasks[s'.holders[d]].HoldsLock()
  {
  }

  lemma StepMissing(s: State, i: nat, m: Move)
    requires i < |s.tasks| && Can(s, i, m) && LocksOk(s) && MissingOk(s)
    ensures MissingOk(Step(s, i, m))
  {
  }

  lemma StepNew(initial: set<Digest>, s: State, i: nat, m: Move)
    requires i < |s.tasks| && Can(s, i, m) && NewOk(initial, s)
    ensures NewOk(initial, Step(s, i, m))
  {
  }

  lemma StepOnce(initial: set<Digest>, s: State, i: nat, m: Move)
    requires i < |s.tasks| && Can(s, i, m) && LocksOk(s) && NewOk(initial, s) && OnceOk(s)
    ensures OnceOk(Step(s, i, m))
  {
  }

  lemma StepPermits(concurrency: nat, s: State, i: nat, m: Move)
    requires i < |s.tasks| && Can(s, i, m) && PermitsOk(concurrency, s)
    ensures PermitsOk(concurrency, Step(s, i, m))
  {
    CountUpdate(s.tasks, i, Task(s.tasks[i].digest, NextPc(s, s.tasks[i], m)), (t: Task) => t.HoldsPermit());
  }

  lemma StepSuccesses(initial: set<Digest>, s: State, i: nat, m: Move)
    requires i < |s.tasks| && Can(s, i, m) && MissingOk(s) && NewOk(initial, s) && NewCounted(initial, s)
    ensures NewCounted(initial, Step(s, i, m))
  {
    CountUpdate(s.tasks, i, Task(s.tasks[i].digest, NextPc(s, s.tasks[i], m)), (t: Task) => t.Succeeded());
    if s.tasks[i].pc.Downloading? && m == Proceed {
      assert s.recorded + {s.tasks[i].digest} - initial == (s.recorded - initial) + {s.tasks[i].digest};
    }
  }

  lemma StartLocks(s: State, d: Digest)
    requires LocksOk(s)
    ensures LocksOk(s.(tasks := s.tasks + [Task(d, Checking)]))
  {
  }

  lemma StartRecords(initial: set<Digest>, s: State, d: Digest)
    ensures MissingOk(s) ==> MissingOk(s.(tasks := s.tasks + [Task(d, Checking)]))
    ensures NewOk(initial, s) ==> NewOk(initial, s.(tasks := s.tasks + [Task(d, Checking)]))
    ensures OnceOk(s) ==> OnceOk(s.(tasks := s.tasks + [Task(d, Checking)]))
  {
  }

  lemma StartKeeps(o: Others, initial: set<Digest>, concurrency: nat, s: State, d: Digest)
    requires Inv(o, initial, concurrency, s)
    ensures Inv(o, initial, concurrency, s.(tasks := s.tasks + [Task(d, Checking)]))
  {
    StartLocks(s, d);
    StartRecords(initial, s, d);
    CountSnoc(s.tasks, Task(d, Checking), (t: Task) => t.HoldsPermit());
    CountSnoc(s.tasks, Task(d, Checking), (t: Task) => t.Succeeded());
  }

  lemma AdvanceKeeps(o: Others, initial: set<Digest>, concurrency: nat, s: State, i: nat, m: Move)
    requires i < |s.tasks| && Can(s, i, m) && Inv(o, initial, concurrency, s)
    ensures Inv(o, initial, concurrency, Step(s, i, m))
  {
    StepLocks(s, i, m);
    StepPermits(concurrency, s, i, m);
    if !o.records {
      StepMissing(s, i, m);
    }
    if !o.deletes {
      StepNew(initial, s, i, m);
      StepOnce(initial, s, i, m);
    }
    if !o.records && !o.deletes {
      StepSuccesses(initial, s, i, m);
    }
  }

  lemma OthersKeep(o: Others, initial: set<Digest>, concurrency: nat, s: State, recorded: set<Digest>)
    requires Inv(o, initial, concurrency, s)
    requires (o.records || recorded <= s.recorded) && (o.deletes || s.recorded <= recorded)
    ensures Inv(o, initial, concurrency, s.(recorded := recorded))
  {
    assert !o.records && !o.deletes ==> recorded == s.recorded;
  }

  lemma TakesKeeps(o: Others, initial: set<Digest>, concurrency: nat, s: State, a: Action, s': State)
    requires Inv(o, initial, concurrency, s) && Takes(o, s, a, s')
    ensures Inv(o, initial, concurrency, s')
  {
    match a
    case Start(d) => StartKeeps(o, initial, concurrency, s, d);
    case Advance(i, m) => AdvanceKeeps(o, initial, concurrency, s, i, m);
    case Record(d) => OthersKeep(o, initial, concurrency, s, s.recorded + {d});
    case Delete(d) => OthersKeep(o, initial, concurrency, s, s.recorded - {d});
  }

  lemma {:induction false} InvAlways(o: Others, initial: set<Digest>, concurrency: nat, s: State, steps: nat)
    requires Reachable(o, initial, concurrency, s, steps)
    ensures Inv(o, initial, concurrency, s)
    decreases steps
  {
    if steps == 0 {
      assert s.recorded - initial == {};
    } else {
      var s0, a :| Reachable(o, initial, concurrency, s0, steps - 1) && Takes(o, s0, a, s);
      InvAlways(o, initial, concurrency, s0, steps - 1);
      TakesKeeps(o, initial, concurrency, s0, a, s);
    }
  }

  // ---- what a run keeps ----

  lemma {:induction false} CountImplied(tasks: seq<Task>, p: Task -> bool, q: Task -> bool)
    requires forall t <- tasks :: p(t) ==> q(t)
    ensures Count(tasks, p) <= Count(tasks, q)
    decreases |tasks|
  {
    if tasks != [] {
      CountImplied(tasks[..|tasks| - 1], p, q);
    }
  }

  /** No digest is downloaded while it is already there. */
  ghost predicate OnlyMissing(s: State) {
    forall i | 0 <= i < |s.tasks| && s.tasks[i].pc.Downloading? :: s.tasks[i].digest !in s.recorded
  }

  /** No digest is downloaded successfully twice. */
  ghost predicate OnceEach(s: State) {
    forall i, j | 0 <= i < j < |s.tasks| && s.tasks[i].Succeeded() && s.tasks[j].Succeeded() ::
      s.tasks[i].digest != s.tasks[j].digest
  }

  /** As many tasks succeeded as digests are new. */
  ghost predicate NewCounted(initial: set<Digest>, s: State) {
    Count(s.tasks, (t: Task) => t.Succeeded()) == |s.recorded - initial|
  }

  lemma {:induction false} DistinctCount(tasks: seq<Task>, digests: set<Digest>)
    requires forall i | 0 <= i < |tasks| && tasks[i].Succeeded() :: tasks[i].digest in digests
    requires forall i, j | 0 <= i < j < |tasks| && tasks[i].Succeeded() && tasks[j].Succeeded() ::
               tasks[i].digest != tasks[j].digest
    ensures Count(tasks, (t: Task) => t.Succeeded()) <= |digests|
    decreases |tasks|
  {
    if tasks != [] {
      var last := tasks[|tasks| - 1];
      if last.Succeeded() {
        DistinctCount(tasks[..|tasks| - 1], digests - {last.digest});
      } else {
        DistinctCount(tasks[..|tasks| - 1], digests);
      }
    }
  }

  /**
   * Whatever other requests do, and for any number of tasks and any failures, no digest is
   * downloaded by two tasks at once, and at most `concurrency` downloads run. While nobody
   * deletes, what a task reports as copied or already there is recorded, and the tasks that
   * succeed brought different digests, all of them new.
   */
  lemma DownloadsAreShared(o: Others, initial: set<Digest>, concurrency: nat, s: State, steps: nat)
    requires Reachable(o, initial, concurrency, s, steps)
    ensures forall i, j | 0 <= i < j < |s.tasks| && s.tasks[i].pc.Downloading? && s.tasks[j].pc.Downloading? ::
              s.tasks[i].digest != s.tasks[j].digest
    ensures Count(s.tasks, (t: Task) => t.pc.Downloading?) <= concurrency
    ensures !o.deletes ==> forall t <- s.tasks :: Reports(t) ==> t.digest in s.recorded
    ensures !o.deletes ==> Count(s.tasks, (t: Task) => t.Succeeded()) <= |s.recorded - initial|
  {
    InvAlways(o, initial, concurrency, s, steps);
    CountImplied(s.tasks, (t: Task) => t.pc.Downloading?, (t: Task) => t.HoldsPermit());
    if !o.deletes {
      DistinctCount(s.tasks, s.recorded - initial);
    }
  }

  /**
   * Once every task has returned, the `true` results number the digests newly recorded, when no
   * other request recorded or deleted any.
   */
  lemma TrueResultsAreNewBlobs(o: Others, initial: set<Digest>, concurrency: nat, s: State, steps: nat)
    requires Reachable(o, initial, concurrency, s, steps) && forall t <- s.tasks :: t.pc.Returned?
    requires !o.records && !o.deletes
    ensures Count(s.tasks, (t: Task) => t.pc == Returned(Copied)) == |s.recorded - initial|
  {
    InvAlways(o, initial, concurrency, s, steps);
    CountImplied(s.tasks, (t: Task) => t.pc == Returned(Copied), (t: Task) => t.Succeeded());
    CountImplied(s.tasks, (t: Task) => t.Succeeded(), (t: Task) => t.pc == Returned(Copied));
  }

  // ---- what other requests undo ----

  lemma Go(o: Others, initial: set<Digest>, concurrency: nat, s: State, n: nat, a: Action, s': State)
    returns (n': nat)
    requires Reachable(o, initial, concurrency, s, n) && Takes(o, s, a, s')
    ensures Reachable(o, initial, concurrency, s', n')
  {
    n' := n + 1;
  }

  /** The newest task runs its next step. */
  lemma Run(o: Others, initial: set<Digest>, concurrency: nat, s: State, n: nat, front: seq<Task>, t: Task)
    returns (s': State, n': nat)
    requires Reachable(o, initial, concurrency, s, n) && s.tasks == front + [t] && Ready(s, |front|)
    ensures Reachable(o, initial, concurrency, s', n')
    ensures s' == Step(s, |front|, Proceed).(tasks := front + [Task(t.digest, NextPc(s, t, Proceed))])
  {
    s' := Step(s, |front|, Proceed);
    n' := Go(o, initial, concurrency, s, n, Advance(|front|, Proceed), s');
    assert s'.tasks == front + [Task(t.digest, NextPc(s, t, Proceed))];
  }

  /** A new task that is downloading a missing digest nobody else holds. */
  lemma StartDownload(o: Others, initial: set<Digest>, concurrency: nat, s: State, n: nat, d: Digest)
    returns (s': State, n': nat)
    requires Reachable(o, initial, concurrency, s, n) && d !in s.recorded && d !in s.holders && s.permits >= 1
    ensures Reachable(o, initial, concurrency, s', n')
    ensures s' == State(s.recorded, s.holders[d := |s.tasks|], s.permits - 1, s.tasks + [Task(d, Downloading)])
  {
    s' := s.(tasks := s.tasks + [Task(d, Checking)]);
    n' := Go(o, initial, concurrency, s, n, Start(d), s');
    s', n' := Run(o, initial, concurrency, s', n', s.tasks, Task(d, Checking));
    s', n' := Run(o, initial, concurrency, s', n', s.tasks, Task(d, Waiting));
    s', n' := Run(o, initial, concurrency, s', n', s.tasks, Task(d, Rechecking));
    s', n' := Run(o, initial, concurrency, s', n', s.tasks, Task(d, Acquiring));
  }

  /** A new task that copies a missing digest and returns. */
  lemma CopyOne(o: Others, initial: set<Digest>, concurrency: nat, s: State, n: nat, d: Digest)
    returns (s': State, n': nat)
    requires Reachable(o, initial, concurrency, s, n) && d !in s.recorded && d !in s.holders && s.permits >= 1
    ensures Reachable(o, initial, concurrency, s', n')
    ensures s' == State(s.recorded + {d}, s.holders, s.permits, s.tasks + [Task(d, Returned(Copied))])
  {
    s', n' := StartDownload(o, initial, concurrency, s, n, d);
    s', n' := Run(o, initial, concurrency, s', n', s.tasks, Task(d, Downloading));
    s', n' := Run(o, initial, concurrency, s', n', s.tasks, Task(d, Leaving(true)));
    s', n' := Run(o, initial, concurrency, s', n', s.tasks, Task(d, Unlocking(Copied)));
    assert s'.holders == s.holders;
  }

  /** Another request records a digest while a task downloads it. */
  lemma RecordedWhileDownloading(o: Others, initial: set<Digest>, concurrency: nat, d: Digest)
    returns (s: State, n: nat)
    requires o.records && concurrency >= 1 && d !in initial
    ensures Reachable(o, initial, concurrency, s, n) && !OnlyMissing(s)
  {
    var s0 := State(initial, map[], concurrency, []);
    assert Reachable(o, initial, concurrency, s0, 0);
    var s1, n1 := StartDownload(o, initial, concurrency, s0, 0, d);
    s := s1.(recorded := s1.recorded + {d});
    n := Go(o, initial, concurrency, s1, n1, Record(d), s);
    assert s.tasks[0].pc.Downloading? && s.tasks[0].digest in s.recorded;
  }

  /** A blob deleted during the import is downloaded, and counted, a second time. */
  lemma DeletedThenCopiedAgain(o: Others, initial: set<Digest>, concurrency: nat, d: Digest) returns (s: State, n: nat)
    requires o.deletes && concurrency >= 1 && d !in initial
    ensures Reachable(o, initial, concurrency, s, n) && !OnceEach(s) && !NewCounted(initial, s)
    ensures forall t <- s.tasks :: t.pc == Returned(Copied)
  {
    var s0 := State(initial, map[], concurrency, []);
    assert Reachable(o, initial, concurrency, s0, 0);
    var s1, n1 := CopyOne(o, initial, concurrency, s0, 0, d);
    var s2 := s1.(recorded := s1.recorded - {d});
    var n2 := Go(o, initial, concurrency, s1, n1, Delete(d), s2);
    s, n := CopyOne(o, initial, concurrency, s2, n2, d);
    assert s.tasks[0].Succeeded() && s.tasks[1].Succeeded() && s.tasks[0].digest == s.tasks[1].digest;
    CountSnoc([], s.tasks[0], (t: Task) => t.Succeeded());
    CountSnoc([s.tasks[0]], s.tasks[1], (t: Task) => t.Succeeded());
    assert s.tasks == [] + [s.tasks[0]] + [s.tasks[1]] && s.recorded - initial == {d};
  }

  lemma RecordedByOthers(o: Others, initial: set<Digest>, concurrency: nat, d: Digest) returns (s: State, n: nat)
    requires o.records && d !in initial
    ensures Reachable(o, initial, concurrency, s, n) && s.tasks == [] && !NewCounted(initial, s)
  {
    var s0 := State(initial, map[], concurrency, []);
    assert Reachable(o, initial, concurrency, s0, 0);
    s := s0.(recorded := initial + {d});
    n := Go(o, initial, concurrency, s0, 0, Record(d), s);
    assert s.recorded - initial == {d};
  }

  /**
   * Which guarantees survive other requests: only missing digests are downloaded if and only if
   * nobody else records, each digest is downloaded once if and only if nobody deletes, and the
   * successes number the new digests if and only if nobody does either.
   */
  lemma SharingExactly(o: Others, initial: set<Digest>, concurrency: nat, d: Digest)
    requires concurrency >= 1 && d !in initial
    ensures (forall s, n: nat :: Reachable(o, initial, concurrency, s, n) ==> OnlyMissing(s)) <==> !o.records
    ensures (forall s, n: nat :: Reachable(o, initial, concurrency, s, n) ==> OnceEach(s)) <==> !o.deletes
    ensures (forall s, n: nat :: Reachable(o, initial, concurrency, s, n) ==> NewCounted(initial, s)) <==>
            !o.records && !o.deletes
  {
    forall s, n: nat | Reachable(o, initial, concurrency, s, n)
      ensures !o.records ==> OnlyMissing(s)
      ensures !o.deletes ==> OnceEach(s)
      ensures !o.records && !o.deletes ==> NewCounted(initial, s)
    {
      InvAlways(o, initial, concurrency, s, n);
    }
    if o.records {
      var s, n := RecordedWhileDownloading(o, initial, concurrency, d);
      assert Reachable(o, initial, concurrency, s, n) && !OnlyMissing(s);
      var s', n' := RecordedByOthers(o, initial, concurrency, d);
      assert Reachable(o, initial, concurrency, s', n') && !NewCounted(initial, s');
    }
    if o.deletes {
      var s, n := DeletedThenCopiedAgain(o, initial, concurrency, d);
      assert Reachable(o, initial, concurrency, s, n) && !OnceEach(s) && !NewCounted(initial, s);
    }
  }

  // ---- what a result means ----

  /** A run, with the action that led from each moment to the next. */
  ghost predicate IsRun(o: Others, initial: set<Digest>, concurrency: nat, run: seq<State>, acts: seq<Action>) {
    && |run| == |acts| + 1 && run[0] == State(initial, map[], concurrency, [])
    && forall k: nat | 0 < k < |run| :: Enters(o, run, acts, k)
  }

  ghost predicate Enters(o: Others, run: seq<State>, acts: seq<Action>, k: nat)
    requires 0 < k < |run| == |acts| + 1
  {
    Takes(o, run[k - 1], acts[k - 1], run[k])
  }

  /** The digest was recorded at some moment from `q` to `k`. */
  predicate WasThere(run: seq<State>, q: nat, k: nat, d: Digest)
    requires k < |run|
  {
    exists j | q <= j <= k :: d in run[j].recorded
  }

  /** Task `i` met a failed look-up or download before moment `k`. */
  predicate Broke(acts: seq<Action>, k: nat, i: nat)
    requires k <= |acts|
  {
    exists j | 0 <= j < k :: acts[j] == Advance(i, Break)
  }

  /** The task reports, or is about to report, that its blob is there. */
  predicate Reports(t: Task) {
    match t.pc
    case Leaving(ok) => ok
    case Unlocking(result) => result != Failed
    case Returned(result) => result != Failed
    case _ => false
  }

  predicate Fails(t: Task) {
    match t.pc
    case Leaving(ok) => !ok
    case Unlocking(result) => result == Failed
    case Returned(result) => result == Failed
    case _ => false
  }

  /** Of a task that began after moment `q`. */
  ghost predicate ResultOk(run: seq<State>, acts: seq<Action>, q: nat, k: nat, i: nat)
    requires k < |run| == |acts| + 1 && i < |run[k].tasks|
  {
    var t := run[k].tasks[i];
    && (Reports(t) ==> WasThere(run, q, k, t.digest))
    && (Fails(t) <==> Broke(acts, k, i))
  }

  lemma ResultStep(o: Others, run: seq<State>, acts: seq<Action>, q: nat, k: nat, i: nat)
    requires |run| == |acts| + 1 && q <= k < |run| - 1 && Enters(o, run, acts, k + 1)
    requires i < |run[k].tasks| && ResultOk(run, acts, q, k, i)
    ensures i < |run[k + 1].tasks| && ResultOk(run, acts, q, k + 1, i)
  {
    var s, s', a := run[k], run[k + 1], acts[k];
    assert Broke(acts, k + 1, i) <==> Broke(acts, k, i) || a == Advance(i, Break);
    assert WasThere(run, q, k, s.tasks[i].digest) ==> WasThere(run, q, k + 1, s.tasks[i].digest);
    assert s.tasks[i].digest in s.recorded || s.tasks[i].digest in s'.recorded ==>
        WasThere(run, q, k + 1, s.tasks[i].digest);
  }

  lemma {:induction false} BegunUnbroken(o: Others, initial: set<Digest>, concurrency: nat, run: seq<State>,
      acts: seq<Action>, k: nat, i: nat)
    requires IsRun(o, initial, concurrency, run, acts) && k < |run| && i >= |run[k].tasks|
    ensures !Broke(acts, k, i)
    decreases k
  {
    if k > 0 {
      assert Enters(o, run, acts, k);
      BegunUnbroken(o, initial, concurrency, run, acts, k - 1, i);
    }
  }

  /**
   * Whatever other requests record and delete, a task reports a blob as copied or already there
   * only if it was recorded at some moment since the task began, and it fails if and only if a
   * look-up or its download failed.
   */
  lemma {:induction false} ResultsMean(o: Others, initial: set<Digest>, concurrency: nat, run: seq<State>,
      acts: seq<Action>, q: nat, k: nat, i: nat)
    requires IsRun(o, initial, concurrency, run, acts) && q <= k < |run| && |run[q].tasks| <= i < |run[k].tasks|
    ensures ResultOk(run, acts, q, k, i)
    decreases k
  {
    if q < k {
      assert Enters(o, run, acts, k);
      if i < |run[k - 1].tasks| {
        ResultsMean(o, initial, concurrency, run, acts, q, k - 1, i);
        ResultStep(o, run, acts, q, k - 1, i);
      } else {
        BegunUnbroken(o, initial, concurrency, run, acts, k - 1, i);
        assert acts[k - 1].Start?;
      }
    }
  }

  // ---- every run ends ----

  /** With at least one permit, some task can always run until every task has returned. */
  lemma NeverStuck(o: Others, initial: set<Digest>, concurrency: nat, s: State, steps: nat, i: nat) returns (j: nat)
    requires Reachable(o, initial, concurrency, s, steps) && concurrency >= 1
    requires i < |s.tasks| && !s.tasks[i].pc.Returned?
    ensures j < |s.tasks| && Ready(s, j)
  {
    InvAlways(o, initial, concurrency, s, steps);
    j := i;
    if s.tasks[j].pc.Waiting? && !Ready(s, j) {
      j := s.holders[s.tasks[j].digest];
    }
    if !Ready(s, j) {
      j := CountWitness(s.tasks, (t: Task) => t.HoldsPermit());
    }
  }

  function StepsLeft(pc: Pc): nat {
    match pc
    case Checking => 7
    case Waiting => 6
    case Rechecking => 5
    case Acquiring => 4
    case Downloading => 3
    case Leaving(_) => 2
    case Unlocking(_) => 1
    case Returned(_) => 0
  }

  function Rank(tasks: seq<Task>): nat {
    if tasks == [] then 0 else Rank(tasks[..|tasks| - 1]) + StepsLeft(tasks[|tasks| - 1].pc)
  }

  lemma {:induction false} RankUpdate(tasks: seq<Task>, i: nat, t: Task)
    requires i < |tasks|
    ensures Rank(tasks[i := t]) + StepsLeft(tasks[i].pc) == Rank(tasks) + StepsLeft(t.pc)
    decreases |tasks|
  {
    var front := tasks[..|tasks| - 1];
    if i < |tasks| - 1 {
      assert tasks[i := t][..|tasks| - 1] == front[i := t];
      RankUpdate(front, i, t);
    } else {
      assert tasks[i := t][..|tasks| - 1] == front;
    }
  }

  /** Every step brings the import closer to its end, so a run over fixed tasks is finite. */
  lemma EveryStepAdvances(s: State, i: nat, m: Move)
    requires i < |s.tasks| && Can(s, i, m)
    ensures Rank(Step(s, i, m).tasks) < Rank(s.tasks)
  {
    RankUpdate(s.tasks, i, Task(s.tasks[i].digest, NextPc(s, s.tasks[i], m)));
  }
}
