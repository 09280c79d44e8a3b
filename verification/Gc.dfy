/** Garbage collection and blob deletes interleaved, step by step, with uploads and pushes. */
module Gc {
  import opened Common
  import opened Content

  /** A blob row dropped by a sweep, with the age it had and the sweep's cutoff. */
  datatype Removal = Removal(blob: BlobId, createdAt: int, cutoff: int)

  /**
   * `rows` gives each recorded blob its creation time, `objects` the stored objects, `manifests`
   * the blobs each stored manifest references, `removed` what sweeps have removed so far.
   */
  datatype World = World(
    rows: map<BlobId, int>,
    objects: set<BlobId>,
    manifests: map<ManifestKey, set<BlobId>>,
    clock: int,
    removed: set<Removal>)
  {
    /** The blobs some stored manifest references. */
    function Linked(): set<BlobId> {
      set k <- manifests, b <- manifests[k] :: b
    }
  }

  /**
   * A request between two of its steps. `left` are the references a push has yet to look up;
   * `deleting` is the blob whose object a remover has dealt with and whose row is next, `gone`
   * those whose row it has removed.
   */
  datatype Proc =
    | Upload(blob: BlobId, placed: bool)
    | Push(key: ManifestKey, refs: set<BlobId>, left: set<BlobId>)
    | Remover(sweep: bool, cutoff: int, todo: set<BlobId>, deleting: Option<BlobId>, gone: set<BlobId>)
    | Done
  {
    /** What a remover may still remove. */
    function Pending(): set<BlobId>
      requires Remover?
    {
      match deleting case Some(b) => todo + {b} case None => todo
    }
  }

  datatype State = State(world: World, procs: seq<Proc>)

  /**
   * Which requests may be in flight together with a sweep or a blob delete, and whether a
   * remover may fail or stop after it has dealt with an object and before its row is gone.
   */
  datatype Policy = Policy(uploads: bool, pushes: bool, removers: bool, faults: bool)

  predicate Compatible(policy: Policy, p: Proc, q: Proc) {
    match (p, q)
    case (Remover(_, _, _, _, _), Upload(_, _)) => policy.uploads
    case (Remover(_, _, _, _, _), Push(_, _, _)) => policy.pushes
    case (Remover(_, _, _, _, _), Remover(_, _, _, _, _)) => policy.removers
    case _ => true
  }

  // ---- steps ----

  datatype Move =
    | Place
    | Record
    | LookUp(b: BlobId)
    | Store
    | DropObject(b: BlobId)
    | ObjectFails(b: BlobId)
    | DropRow(b: BlobId)
    | RowFails
    | Quit

  predicate Can(w: World, p: Proc, m: Move) {
    match m
    case Place => p.Upload? && !p.placed
    case Record => p.Upload? && p.placed
    case LookUp(b) => p.Push? && b in p.left && b in w.rows
    case Store => p.Push? && p.left == {}
    case DropObject(b) => p.Remover? && b in p.todo && p.deleting.None?
    case ObjectFails(b) => p.Remover? && b in p.todo && p.deleting.None?
    case DropRow(b) => p.Remover? && p.deleting == Some(b)
    case RowFails => p.Remover? && p.deleting.Some?
    case Quit => p.Remover? ==> p.deleting.None?
  }

  /** A sweep skips a blob whose object it cannot delete; a blob delete drops the row all the same. */
  function Step(w: World, p: Proc, m: Move): (World, Proc)
    requires Can(w, p, m)
  {
    match m
    case Place => (w.(objects := w.objects + {p.blob}), Upload(p.blob, true))
    case Record => (w.(rows := if p.blob in w.rows then w.rows else w.rows[p.blob := w.clock]), Done)
    case LookUp(b) => (w, Push(p.key, p.refs, p.left - {b}))
    case Store => (w.(manifests := w.manifests[p.key := p.refs]), Done)
    case DropObject(b) =>
      (w.(objects := w.objects - {b}), Remover(p.sweep, p.cutoff, p.todo - {b}, Some(b), p.gone))
    case ObjectFails(b) =>
      (w, Remover(p.sweep, p.cutoff, p.todo - {b}, if p.sweep then None else Some(b), p.gone))
    case DropRow(b) =>
      (w.(rows := w.rows - {b},
          removed := if p.sweep && b in w.rows then w.removed + {Removal(b, w.rows[b], p.cutoff)} else w.removed),
       Remover(p.sweep, p.cutoff, p.todo, None, p.gone + {b}))
    case RowFails => (w, Done)
    case Quit => (w, Done)
  }

  /** What each request sees first. `grace` is the configured window before the clock. */
  predicate Begins(grace: int, w: World, p: Proc) {
    match p
    case Upload(_, placed) => !placed
    case Push(key, refs, left) => left == refs && forall b <- refs :: b.org == key.repo.org
    case Remover(sweep, cutoff, todo, deleting, gone) =>
      && deleting.None? && gone == {}
      && if sweep
         then cutoff == w.clock - grace && todo == set b | b in w.rows && w.rows[b] < cutoff && b !in w.Linked()
         else |todo| == 1 && todo !! w.Linked()
    case Done => false
  }

  ghost predicate Admitted(policy: Policy, procs: seq<Proc>, p: Proc) {
    forall i | 0 <= i < |procs| :: Compatible(policy, procs[i], p) && Compatible(policy, p, procs[i])
  }

  /** `Delete`: one manifest went, or all those of a repository. */
  datatype Action =
    | Start(p: Proc)
    | Advance(i: nat, m: Move)
    | Delete(ks: set<ManifestKey>)
    | Tick(to: int)

  ghost predicate Takes(policy: Policy, grace: int, s: State, a: Action, s': State) {
    match a
    case Start(p) => Begins(grace, s.world, p) && Admitted(policy, s.procs, p) && s' == s.(procs := s.procs + [p])
    case Advance(i, m) =>
      && i < |s.procs| && Can(s.world, s.procs[i], m) && (m.RowFails? ==> policy.faults)
      && s' == State(Step(s.world, s.procs[i], m).0, s.procs[i := Step(s.world, s.procs[i], m).1])
    case Delete(ks) => s' == s.(world := s.world.(manifests := s.world.manifests - ks))
    case Tick(to) => to >= s.world.clock && s' == s.(world := s.world.(clock := to))
  }

  ghost predicate Next(policy: Policy, grace: int, s: State, s': State) {
    exists a :: Takes(policy, grace, s, a, s')
  }

  ghost predicate Reachable(policy: Policy, grace: int, s: State, steps: nat)
    decreases steps
  {
    if steps == 0 then s == State(World(map[], {}, map[], 0, {}), [])
    else exists s0 :: Reachable(policy, grace, s0, steps - 1) && Next(policy, grace, s0, s)
  }

  ghost predicate Exclusive(policy: Policy, procs: seq<Proc>) {
    forall i, j | 0 <= i < |procs| && 0 <= j < |procs| && i != j :: Compatible(policy, procs[i], procs[j])
  }

  lemma StepExclusive(policy: Policy, w: World, procs: seq<Proc>, i: nat, m: Move)
    requires Exclusive(policy, procs) && i < |procs| && Can(w, procs[i], m)
    ensures Exclusive(policy, procs[i := Step(w, procs[i], m).1])
  {
  }

  lemma StartExclusive(policy: Policy, procs: seq<Proc>, p: Proc)
    requires Exclusive(policy, procs) && Admitted(policy, procs, p)
    ensures Exclusive(policy, procs + [p])
  {
  }

  // ---- a sweep never removes a blob recorded at or after its cutoff ----

  /** What a sweep still has to remove is older than its cutoff, unless someone else removed it already. */
  ghost predicate Aged(policy: Policy, w: World, p: Proc) {
    p.Remover? && p.sweep ==>
      && (p.deleting.Some? ==> p.deleting.value !in p.todo)
      && forall b <- p.Pending() :: if b in w.rows then w.rows[b] < p.cutoff else policy.removers
  }

  ghost predicate RemovedAged(w: World) {
    forall r <- w.removed :: r.createdAt < r.cutoff
  }

  ghost predicate AgeInv(policy: Policy, s: State) {
    && RemovedAged(s.world)
    && Exclusive(policy, s.procs)
    && forall i | 0 <= i < |s.procs| :: Aged(policy, s.world, s.procs[i])
  }

  /** Another request's step leaves a compatible sweep's list below its cutoff. */
  lemma AgedStays(policy: Policy, w: World, p: Proc, m: Move, q: Proc)
    requires !(policy.removers && policy.uploads)
    requires Can(w, p, m) && Aged(policy, w, q) && Compatible(policy, q, p)
    ensures Aged(policy, Step(w, p, m).0, q)
  {
  }

  lemma AgedStep(policy: Policy, w: World, p: Proc, m: Move)
    requires Can(w, p, m) && Aged(policy, w, p) && RemovedAged(w)
    ensures RemovedAged(Step(w, p, m).0) && Aged(policy, Step(w, p, m).0, Step(w, p, m).1)
  {
  }

  lemma TakesAged(policy: Policy, grace: int, s: State, a: Action, s': State)
    requires !(policy.removers && policy.uploads)
    requires AgeInv(policy, s) && Takes(policy, grace, s, a, s')
    ensures AgeInv(policy, s')
  {
    match a
    case Advance(i, m) =>
      var p := s.procs[i];
      StepExclusive(policy, s.world, s.procs, i, m);
      AgedStep(policy, s.world, p, m);
      forall j | 0 <= j < |s.procs| && j != i ensures Aged(policy, s'.world, s.procs[j]) {
        AgedStays(policy, s.world, p, m, s.procs[j]);
      }
    case Start(p) => StartExclusive(policy, s.procs, p);
    case _ =>
  }

  lemma {:induction false} AgeAlways(policy: Policy, grace: int, s: State, steps: nat)
    requires !(policy.removers && policy.uploads) && Reachable(policy, grace, s, steps)
    ensures AgeInv(policy, s)
    decreases steps
  {
    if steps > 0 {
      var s0 :| Reachable(policy, grace, s0, steps - 1) && Next(policy, grace, s0, s);
      var a :| Takes(policy, grace, s0, a, s);
      AgeAlways(policy, grace, s0, steps - 1);
      TakesAged(policy, grace, s0, a, s);
    }
  }

  // ---- the store stays closed ----

  predicate Deleting(procs: seq<Proc>, b: BlobId) {
    exists i | 0 <= i < |procs| :: procs[i].Remover? && procs[i].deleting == Some(b)
  }

  /** Referenced blobs have rows, and rows have objects except where a remover is between the two. */
  ghost predicate Closed(s: State) {
    && s.world.Linked() <= s.world.rows.Keys
    && forall b <- s.world.rows :: b in s.world.objects || Deleting(s.procs, b)
  }

  ghost predicate Sound(w: World, p: Proc) {
    match p
    case Upload(b, placed) => placed ==> b in w.objects
    case Push(key, refs, left) => refs - left <= w.rows.Keys
    case Remover(_, _, _, _, _) => p.Pending() !! w.Linked()
    case Done => true
  }

  ghost predicate ClosedInv(policy: Policy, s: State) {
    && Closed(s)
    && Exclusive(policy, s.procs)
    && forall i | 0 <= i < |s.procs| :: Sound(s.world, s.procs[i])
  }

  lemma StoreLinks(w: World, k: ManifestKey, refs: set<BlobId>)
    ensures refs <= w.(manifests := w.manifests[k := refs]).Linked() <= w.Linked() + refs
  {
    assert w.manifests[k := refs][k] == refs;
  }

  lemma SoundStays(policy: Policy, w: World, p: Proc, m: Move, q: Proc)
    requires !policy.uploads && !policy.pushes
    requires Can(w, p, m) && Sound(w, q) && Compatible(policy, q, p) && Compatible(policy, p, q)
    ensures Sound(Step(w, p, m).0, q)
  {
  }

  lemma SoundStep(w: World, p: Proc, m: Move)
    requires Can(w, p, m) && Sound(w, p) && w.Linked() <= w.rows.Keys
    ensures Sound(Step(w, p, m).0, Step(w, p, m).1) && Step(w, p, m).0.Linked() <= Step(w, p, m).0.rows.Keys
  {
    if p.Push? && m == Store {
      StoreLinks(w, p.key, p.refs);
    }
  }

  lemma DeletingStays(procs: seq<Proc>, i: nat, p: Proc, b: BlobId)
    requires i < |procs| && Deleting(procs, b)
    requires procs[i].Remover? && procs[i].deleting == Some(b) ==> p.Remover? && p.deleting == Some(b)
    ensures Deleting(procs[i := p], b)
  {
    var j :| 0 <= j < |procs| && procs[j].Remover? && procs[j].deleting == Some(b);
    assert procs[i := p][j] == if j == i then p else procs[j];
  }

  /** A row without its object is between the two deletions of some remover, after the step as before. */
  lemma StepCovered(s: State, i: nat, m: Move, b: BlobId)
    requires !m.RowFails?
    requires i < |s.procs| && Can(s.world, s.procs[i], m) && Closed(s) && Sound(s.world, s.procs[i])
    requires b in Step(s.world, s.procs[i], m).0.rows
    ensures var (w', p') := Step(s.world, s.procs[i], m);
            b in w'.objects || Deleting(s.procs[i := p'], b)
  {
    var (w', p') := Step(s.world, s.procs[i], m);
    if m == DropObject(b) {
      assert s.procs[i := p'][i] == p';
    } else if b !in s.world.objects && b in s.world.rows {
      DeletingStays(s.procs, i, p', b);
    }
  }

  lemma AdvanceClosed(policy: Policy, s: State, i: nat, m: Move)
    requires !policy.uploads && !policy.pushes && !m.RowFails?
    requires ClosedInv(policy, s) && i < |s.procs| && Can(s.world, s.procs[i], m)
    ensures var (w', p') := Step(s.world, s.procs[i], m); ClosedInv(policy, State(w', s.procs[i := p']))
  {
    var (w', p') := Step(s.world, s.procs[i], m);
    StepExclusive(policy, s.world, s.procs, i, m);
    SoundStep(s.world, s.procs[i], m);
    forall j | 0 <= j < |s.procs| && j != i ensures Sound(w', s.procs[j]) {
      SoundStays(policy, s.world, s.procs[i], m, s.procs[j]);
    }
    forall b <- w'.rows ensures b in w'.objects || Deleting(s.procs[i := p'], b) {
      StepCovered(s, i, m, b);
    }
  }

  lemma StartClosed(policy: Policy, grace: int, s: State, p: Proc)
    requires ClosedInv(policy, s) && Begins(grace, s.world, p) && Admitted(policy, s.procs, p)
    ensures ClosedInv(policy, s.(procs := s.procs + [p]))
  {
    StartExclusive(policy, s.procs, p);
    forall b <- s.world.rows ensures b in s.world.objects || Deleting(s.procs + [p], b) {
      if b !in s.world.objects {
        var i :| 0 <= i < |s.procs| && s.procs[i].Remover? && s.procs[i].deleting == Some(b);
        assert (s.procs + [p])[i] == s.procs[i];
      }
    }
  }

  lemma {:induction false} ClosedAlways(policy: Policy, grace: int, s: State, steps: nat)
    requires !policy.uploads && !policy.pushes && !policy.faults && Reachable(policy, grace, s, steps)
    ensures ClosedInv(policy, s)
    decreases steps
  {
    if steps > 0 {
      var s0 :| Reachable(policy, grace, s0, steps - 1) && Next(policy, grace, s0, s);
      var a :| Takes(policy, grace, s0, a, s);
      ClosedAlways(policy, grace, s0, steps - 1);
      match a
      case Start(p) => StartClosed(policy, grace, s0, p);
      case Advance(i, m) => AdvanceClosed(policy, s0, i, m);
      case _ =>
    }
  }

  // ---- the schedules that break each property ----

  lemma Go(policy: Policy, grace: int, s: State, n: nat, a: Action, s': State) returns (n': nat)
    requires Reachable(policy, grace, s, n) && Takes(policy, grace, s, a, s')
    ensures Reachable(policy, grace, s', n')
  {
    n' := n + 1;
    assert Next(policy, grace, s, s');
  }

  lemma Begin(policy: Policy, grace: int, s: State, n: nat, p: Proc) returns (s': State, n': nat)
    requires Reachable(policy, grace, s, n) && Begins(grace, s.world, p) && Admitted(policy, s.procs, p)
    ensures Reachable(policy, grace, s', n') && s' == State(s.world, s.procs + [p])
  {
    s' := State(s.world, s.procs + [p]);
    n' := Go(policy, grace, s, n, Start(p), s');
  }

  lemma Run(policy: Policy, grace: int, s: State, n: nat, i: nat, m: Move) returns (s': State, n': nat)
    requires Reachable(policy, grace, s, n) && i < |s.procs|
    requires Can(s.world, s.procs[i], m) && (m.RowFails? ==> policy.faults)
    ensures Reachable(policy, grace, s', n')
    ensures s' == State(Step(s.world, s.procs[i], m).0, s.procs[i := Step(s.world, s.procs[i], m).1])
  {
    s' := State(Step(s.world, s.procs[i], m).0, s.procs[i := Step(s.world, s.procs[i], m).1]);
    n' := Go(policy, grace, s, n, Advance(i, m), s');
  }

  lemma Wait(policy: Policy, grace: int, s: State, n: nat, to: int) returns (s': State, n': nat)
    requires Reachable(policy, grace, s, n) && to >= s.world.clock
    ensures Reachable(policy, grace, s', n') && s' == State(s.world.(clock := to), s.procs)
  {
    s' := State(s.world.(clock := to), s.procs);
    n' := Go(policy, grace, s, n, Tick(to), s');
  }

  /** One unreferenced blob, recorded at time 0 and older than any sweep's cutoff from now on. */
  function OldBlob(b: BlobId, now: int): World {
    World(map[b := 0], {b}, map[], now, {})
  }

  lemma OneOldBlob(policy: Policy, grace: int, b: BlobId) returns (now: int, s: State, n: nat)
    ensures Reachable(policy, grace, s, n) && s == State(OldBlob(b, now), [Done]) && now - grace > 0
  {
    s, n := State(World(map[], {}, map[], 0, {}), []), 0;
    assert Reachable(policy, grace, s, n);
    s, n := Begin(policy, grace, s, n, Upload(b, false));
    s, n := Run(policy, grace, s, n, 0, Place);
    s, n := Run(policy, grace, s, n, 0, Record);
    now := if grace < 0 then 0 else grace + 1;
    s, n := Wait(policy, grace, s, n, now);
    assert s.procs == [Done];
    assert s.world == OldBlob(b, now);
  }

  /** A remover, the `i`-th request, removes the only blob on its list. */
  lemma RunRemover(policy: Policy, grace: int, s: State, n: nat, i: nat, b: BlobId) returns (s': State, n': nat)
    requires Reachable(policy, grace, s, n) && i < |s.procs| && b in s.world.rows
    requires s.procs[i].Remover? && s.procs[i].todo == {b} && s.procs[i].deleting.None?
    ensures Reachable(policy, grace, s', n') && s'.procs == s.procs[i := Done]
    ensures s'.world.rows == s.world.rows - {b} && s'.world.objects == s.world.objects - {b}
    ensures s'.world.manifests == s.world.manifests && s'.world.clock == s.world.clock
    ensures s.procs[i].sweep ==> Removal(b, s.world.rows[b], s.procs[i].cutoff) in s'.world.removed
  {
    s', n' := Run(policy, grace, s, n, i, DropObject(b));
    s', n' := Run(policy, grace, s', n', i, DropRow(b));
    s', n' := Run(policy, grace, s', n', i, Quit);
  }

  /** A sweep deletes an object, and the deletion of its row fails. */
  lemma FaultLosesObject(policy: Policy, grace: int, b: BlobId) returns (s: State, n: nat)
    requires policy.faults
    ensures Reachable(policy, grace, s, n) && !Closed(s)
  {
    var now;
    now, s, n := OneOldBlob(policy, grace, b);
    s, n := Begin(policy, grace, s, n, Remover(true, now - grace, {b}, None, {}));
    s, n := Run(policy, grace, s, n, 1, DropObject(b));
    s, n := Run(policy, grace, s, n, 1, RowFails);
    assert s.procs == [Done, Done];
    assert b in s.world.rows && b !in s.world.objects;
  }

  /** A push looks a blob up, a sweep that listed it removes it, and the push stores its manifest. */
  lemma PushRace(policy: Policy, grace: int, b: BlobId) returns (s: State, n: nat)
    requires policy.pushes
    ensures Reachable(policy, grace, s, n) && !Closed(s)
  {
    var now;
    now, s, n := OneOldBlob(policy, grace, b);
    s, n := Begin(policy, grace, s, n, Remover(true, now - grace, {b}, None, {}));
    var k := ManifestKey(Repo(b.org, ""), "");
    s, n := Begin(policy, grace, s, n, Push(k, {b}, {b}));
    s, n := Run(policy, grace, s, n, 2, LookUp(b));
    s, n := RunRemover(policy, grace, s, n, 1, b);
    assert s.procs[2] == Push(k, {b}, {b} - {b});
    s, n := Run(policy, grace, s, n, 2, Store);
    assert s.world.manifests[k] == {b} && b in s.world.Linked() && b !in s.world.rows;
  }

  /** An upload of the same content places its object before the sweep and records it after. */
  lemma UploadRace(policy: Policy, grace: int, b: BlobId) returns (s: State, n: nat)
    requires policy.uploads
    ensures Reachable(policy, grace, s, n) && !Closed(s)
  {
    var now;
    now, s, n := OneOldBlob(policy, grace, b);
    s, n := Begin(policy, grace, s, n, Upload(b, false));
    s, n := Run(policy, grace, s, n, 1, Place);
    assert s.world.rows == map[b := 0];
    s, n := Begin(policy, grace, s, n, Remover(true, now - grace, {b}, None, {}));
    s, n := RunRemover(policy, grace, s, n, 2, b);
    s, n := Run(policy, grace, s, n, 1, Record);
    assert s.procs == [Done, Done, Done];
    assert b in s.world.rows && b !in s.world.objects;
  }

  /** A sweep has listed a blob that a blob delete has since removed. */
  lemma ListedThenDeleted(policy: Policy, grace: int, b: BlobId) returns (now: int, s: State, n: nat)
    requires policy.removers
    ensures Reachable(policy, grace, s, n) && b !in s.world.rows && s.world.clock == now
    ensures s.procs == [Done, Remover(true, now - grace, {b}, None, {}), Done]
  {
    now, s, n := OneOldBlob(policy, grace, b);
    s, n := Begin(policy, grace, s, n, Remover(true, now - grace, {b}, None, {}));
    s, n := Begin(policy, grace, s, n, Remover(false, 0, {b}, None, {}));
    s, n := RunRemover(policy, grace, s, n, 2, b);
  }

  /** A whole upload at time `at`, overlapping whatever else is in flight. */
  lemma UploadAt(policy: Policy, grace: int, s: State, n: nat, b: BlobId, at: int) returns (s': State, n': nat)
    requires policy.uploads && Reachable(policy, grace, s, n) && b !in s.world.rows && s.world.clock <= at
    ensures Reachable(policy, grace, s', n') && s'.procs == s.procs + [Done]
    ensures s'.world.rows == s.world.rows[b := at]
  {
    s', n' := Begin(policy, grace, s, n, Upload(b, false));
    s', n' := Run(policy, grace, s', n', |s.procs|, Place);
    s', n' := Wait(policy, grace, s', n', at);
    s', n' := Run(policy, grace, s', n', |s.procs|, Record);
  }

  /** A blob delete and a fresh upload slip in between a sweep's listing and its deletion. */
  lemma AgeRace(policy: Policy, grace: int, b: BlobId) returns (s: State, n: nat)
    requires policy.removers && policy.uploads
    ensures Reachable(policy, grace, s, n) && !RemovedAged(s.world)
  {
    var now;
    now, s, n := ListedThenDeleted(policy, grace, b);
    var at := if grace < 0 then now - grace else now;
    s, n := UploadAt(policy, grace, s, n, b, at);
    s, n := RunRemover(policy, grace, s, n, 1, b);
    assert Removal(b, at, now - grace) in s.world.removed;
  }

  // ---- what removers have done ----

  /**
   * A blob delete loses its blob neither to a failed object deletion nor otherwise, and what it
   * removed had its row removed; where uploads keep away, a sweep removes only rows whose object
   * it has deleted.
   */
  ghost predicate RemoverOk(policy: Policy, w: World, p: Proc) {
    p.Remover? ==>
      && p.Pending() !! p.gone && (p.deleting.Some? ==> p.deleting.value !in p.todo)
      && (!p.sweep ==> |p.Pending() + p.gone| == 1)
      && (p.sweep && !policy.uploads && p.deleting.Some? ==> p.deleting.value !in w.objects)
      && (!policy.uploads ==> p.gone !! w.rows.Keys)
  }

  lemma RemoverDeals(policy: Policy, w: World, p: Proc, m: Move)
    requires Can(w, p, m) && RemoverOk(policy, w, p) && (m.DropObject? || m.ObjectFails?)
    ensures RemoverOk(policy, Step(w, p, m).0, Step(w, p, m).1)
  {
    var p' := Step(w, p, m).1;
    assert !p.sweep || m.DropObject? ==> p'.Pending() == p.Pending();
  }

  lemma RemoverStep(policy: Policy, w: World, p: Proc, m: Move)
    requires Can(w, p, m) && RemoverOk(policy, w, p)
    ensures RemoverOk(policy, Step(w, p, m).0, Step(w, p, m).1)
  {
    match m
    case DropObject(_) => RemoverDeals(policy, w, p, m);
    case ObjectFails(_) => RemoverDeals(policy, w, p, m);
    case DropRow(_) => assert Step(w, p, m).1.Pending() + Step(w, p, m).1.gone == p.Pending() + p.gone;
    case _ =>
  }

  lemma RemoverStays(policy: Policy, w: World, p: Proc, m: Move, q: Proc)
    requires Can(w, p, m) && RemoverOk(policy, w, q) && Compatible(policy, q, p)
    ensures RemoverOk(policy, Step(w, p, m).0, q)
  {
  }

  lemma {:induction false} RemoversAlways(policy: Policy, grace: int, s: State, steps: nat)
    requires Reachable(policy, grace, s, steps)
    ensures Exclusive(policy, s.procs)
    ensures forall i | 0 <= i < |s.procs| :: RemoverOk(policy, s.world, s.procs[i])
    decreases steps
  {
    if steps > 0 {
      var s0 :| Reachable(policy, grace, s0, steps - 1) && Next(policy, grace, s0, s);
      var a :| Takes(policy, grace, s0, a, s);
      RemoversAlways(policy, grace, s0, steps - 1);
      match a
      case Advance(i, m) =>
        StepExclusive(policy, s0.world, s0.procs, i, m);
        RemoverStep(policy, s0.world, s0.procs[i], m);
        forall j | 0 <= j < |s.procs| && j != i ensures RemoverOk(policy, s.world, s.procs[j]) {
          RemoverStays(policy, s0.world, s0.procs[i], m, s0.procs[j]);
        }
      case Start(p) => StartExclusive(policy, s0.procs, p);
      case _ =>
    }
  }

  /** A step changes only the row and the object of the blob it is about, and only the manifest it stores. */
  lemma StepTouchesOwn(w: World, p: Proc, m: Move)
    requires Can(w, p, m)
    ensures var w' := Step(w, p, m).0;
            && w'.clock == w.clock && w.removed <= w'.removed
            && (forall b <- w.rows.Keys + w'.rows.Keys ::
                  || (b in w.rows && b in w'.rows && w'.rows[b] == w.rows[b])
                  || (m == DropRow(b) && b !in w'.rows)
                  || (m.Record? && b == p.blob && b !in w.rows && w'.rows[b] == w.clock))
            && (forall b :: b in w'.objects <==>
                  if m.Place? && b == p.blob then true else if m == DropObject(b) then false else b in w.objects)
            && w'.manifests == if m.Store? then w.manifests[p.key := p.refs] else w.manifests
  {
  }

  function StepsLeft(p: Proc): nat {
    match p
    case Upload(_, placed) => if placed then 1 else 2
    case Push(_, _, left) => |left| + 1
    case Remover(_, _, todo, deleting, _) => 2 * |todo| + (if deleting.Some? then 1 else 0) + 1
    case Done => 0
  }

  /** Every step of a request brings it closer to its end. */
  lemma StepAdvances(w: World, p: Proc, m: Move)
    requires Can(w, p, m) && !p.Done?
    ensures StepsLeft(Step(w, p, m).1) < StepsLeft(p)
  {
  }

  // ---- main results ----

  /**
   * Sweeps remove only blobs recorded before their cutoff, in every schedule of uploads, pushes
   * and deletes, exactly when no other remover and upload may both overlap a sweep.
   */
  lemma SweepsSpareYoungBlobsExactly(policy: Policy, grace: int)
    ensures (forall s, n :: Reachable(policy, grace, s, n) ==> RemovedAged(s.world)) <==>
            !(policy.removers && policy.uploads)
  {
    if policy.removers && policy.uploads {
      var s, n := AgeRace(policy, grace, BlobId("", ""));
      assert Reachable(policy, grace, s, n) && !RemovedAged(s.world);
    } else {
      forall s, n | Reachable(policy, grace, s, n) ensures RemovedAged(s.world) {
        AgeAlways(policy, grace, s, n);
      }
    }
  }

  /**
   * The store stays closed in every schedule exactly when removers overlap neither uploads nor
   * pushes, and never fail between an object and its row.
   */
  lemma SchedulesKeepClosedExactly(policy: Policy, grace: int)
    ensures (forall s, n :: Reachable(policy, grace, s, n) ==> Closed(s)) <==>
            !policy.uploads && !policy.pushes && !policy.faults
  {
    if policy.pushes {
      var s, n := PushRace(policy, grace, BlobId("", ""));
      assert Reachable(policy, grace, s, n) && !Closed(s);
    } else if policy.uploads {
      var s, n := UploadRace(policy, grace, BlobId("", ""));
      assert Reachable(policy, grace, s, n) && !Closed(s);
    } else if policy.faults {
      var s, n := FaultLosesObject(policy, grace, BlobId("", ""));
      assert Reachable(policy, grace, s, n) && !Closed(s);
    } else {
      forall s, n | Reachable(policy, grace, s, n) ensures Closed(s) {
        ClosedAlways(policy, grace, s, n);
      }
    }
  }
}
