/** Recording and flushing interleaved entry by entry: nothing is lost and nothing counted twice. */
module UsageProtocol {
  import opened Common
  import opened Sums
  import opened Usage

  datatype Table = Repos | Users

  datatype Event = Event(day: string, org: string, repo: string, user: Option<string>, kind: string, bytes: int)

  /** Events in the order they were recorded. */
  datatype History = Nothing | Then(before: History, event: Event)
  {
    predicate Holds(e: Event) {
      Then? && (event == e || before.Holds(e))
    }
  }

  /** One counter map per table. */
  datatype Ledger = Ledger(repos: Counters, users: Counters)
  {
    function Of(t: Table): Counters {
      match t case Repos => repos case Users => users
    }

    function With(t: Table, m: Counters): Ledger {
      match t case Repos => this.(repos := m) case Users => this.(users := m)
    }
  }

  /** `events` are the events that requests to record were made for. */
  datatype World = World(mem: Ledger, rollup: Ledger, events: History)

  datatype Proc =
    | Recorder(event: Event, bumped: bool)
    | Flusher(rows: Ledger, failed: bool)
    | Done

  datatype State = State(world: World, procs: seq<Proc>)

  function KeyOf(e: Event, t: Table): Option<Key> {
    match t
    case Repos => Some(Key(e.day, e.org, e.repo, e.kind))
    case Users => (match e.user case Some(u) => Some(Key(e.day, e.org, u, e.kind)) case None => None)
  }

  /** What one event alone counts for a key. */
  function Weight(e: Event, t: Table, k: Key): Counter {
    if KeyOf(e, t) == Some(k) then Counter(1, e.bytes) else ZERO
  }

  /** The bytes of a counter, or its count: every statement below holds of both. */
  function Part(c: Counter, bytes: bool): int {
    if bytes then c.bytes else c.count
  }

  /** The reference count: how many of the events fall under a key, or how many bytes. */
  function Recorded(events: History, t: Table, k: Key, bytes: bool): int {
    match events
    case Nothing => 0
    case Then(before, e) => Recorded(before, t, k, bytes) + Part(Weight(e, t, k), bytes)
  }

  // ---- steps ----

  datatype Move = BumpRepo | BumpUser | Take(t: Table, k: Key) | Commit | Fail | PutBack(t: Table, k: Key) | Quit

  predicate Can(w: World, p: Proc, m: Move) {
    match m
    case BumpRepo => p.Recorder? && !p.bumped
    case BumpUser => p.Recorder? && p.bumped && p.event.user.Some?
    case Take(t, k) => p.Flusher? && !p.failed && k in w.mem.Of(t)
    case Commit => p.Flusher? && !p.failed
    case Fail => p.Flusher? && !p.failed
    case PutBack(t, k) => p.Flusher? && p.failed && k in p.rows.Of(t)
    case Quit => p.Flusher? && p.rows == Ledger(map[], map[])
  }

  function Merge(a: Counters, b: Counters): Counters {
    map k | k in a.Keys + b.Keys :: Plus(At(a, k), At(b, k))
  }

  /** Committing a drained batch row by row comes to the same. */
  lemma CommitIsFlushBatch(base: Counters, drained: Counters, rows: seq<Row>, k: Key)
    requires Lists(rows, drained)
    ensures At(AddRows(base, rows), k) == At(Merge(base, drained), k)
  {
    ListedAt(rows, drained, base, k);
  }

  /** Moves the entry of one key from one map into another. */
  function Move1(from: Ledger, to: Ledger, t: Table, k: Key): (Ledger, Ledger) {
    (from.With(t, from.Of(t) - {k}), to.With(t, Add(to.Of(t), k, At(from.Of(t), k))))
  }

  function Step(w: World, p: Proc, m: Move): (World, Proc)
    requires Can(w, p, m)
  {
    match m
    case BumpRepo =>
      var k := KeyOf(p.event, Repos).value;
      (w.(mem := w.mem.With(Repos, Add(w.mem.repos, k, Counter(1, p.event.bytes)))),
       if p.event.user.Some? then Recorder(p.event, true) else Done)
    case BumpUser =>
      var k := KeyOf(p.event, Users).value;
      (w.(mem := w.mem.With(Users, Add(w.mem.users, k, Counter(1, p.event.bytes)))), Done)
    case Take(t, k) =>
      var (mem, rows) := Move1(w.mem, p.rows, t, k);
      (w.(mem := mem), Flusher(rows, false))
    case Commit =>
      (w.(rollup := Ledger(Merge(w.rollup.repos, p.rows.repos), Merge(w.rollup.users, p.rows.users))), Done)
    case Fail => (w, Flusher(p.rows, true))
    case PutBack(t, k) =>
      var (rows, mem) := Move1(p.rows, w.mem, t, k);
      (w.(mem := mem), Flusher(rows, true))
    case Quit => (w, Done)
  }

  datatype Action = Start(p: Proc) | Advance(i: nat, m: Move)

  predicate Begins(p: Proc) {
    match p
    case Recorder(_, bumped) => !bumped
    case Flusher(rows, failed) => rows == Ledger(map[], map[]) && !failed
    case Done => false
  }

  ghost predicate Takes(s: State, a: Action, s': State) {
    match a
    case Start(p) =>
      && Begins(p)
      && s' == State(s.world.(events := if p.Recorder? then Then(s.world.events, p.event) else s.world.events),
                     s.procs + [p])
    case Advance(i, m) =>
      && i < |s.procs| && Can(s.world, s.procs[i], m)
      && s' == State(Step(s.world, s.procs[i], m).0, s.procs[i := Step(s.world, s.procs[i], m).1])
  }

  ghost predicate Reachable(s: State, steps: nat)
    decreases steps
  {
    if steps == 0 then s == State(World(Ledger(map[], map[]), Ledger(map[], map[]), Nothing), [])
    else exists s0, a :: Reachable(s0, steps - 1) && Takes(s0, a, s)
  }

  // ---- conservation ----

  /** What a request holds between two of its steps: drained rows, or the tables' halves of an event not bumped yet. */
  function Carried(p: Proc, t: Table, k: Key): Counter {
    match p
    case Recorder(e, bumped) => if bumped && t == Repos then ZERO else Weight(e, t, k)
    case Flusher(rows, _) => At(rows.Of(t), k)
    case Done => ZERO
  }

  function InFlight(procs: seq<Proc>, t: Table, k: Key, bytes: bool): int
    decreases |procs|
  {
    if procs == [] then 0
    else InFlight(procs[..|procs| - 1], t, k, bytes) + Part(Carried(procs[|procs| - 1], t, k), bytes)
  }

  function Held(s: State, t: Table, k: Key, bytes: bool): int {
    Part(At(s.world.mem.Of(t), k), bytes) + InFlight(s.procs, t, k, bytes) + Part(At(s.world.rollup.Of(t), k), bytes)
  }

  lemma {:induction false} InFlightUpdate(procs: seq<Proc>, i: nat, p: Proc, t: Table, k: Key, bytes: bool)
    requires i < |procs|
    ensures InFlight(procs[i := p], t, k, bytes) + Part(Carried(procs[i], t, k), bytes)
         == InFlight(procs, t, k, bytes) + Part(Carried(p, t, k), bytes)
    decreases |procs|
  {
    var front, last := procs[..|procs| - 1], procs[|procs| - 1];
    if i < |procs| - 1 {
      assert procs[i := p][..|procs| - 1] == front[i := p];
      InFlightUpdate(front, i, p, t, k, bytes);
    } else {
      assert procs[i := p][..|procs| - 1] == front;
    }
  }

  lemma Move1Conserves(from: Ledger, to: Ledger, t: Table, k: Key, t': Table, k': Key, bytes: bool)
    ensures var (from', to') := Move1(from, to, t, k);
            Part(At(from'.Of(t'), k'), bytes) + Part(At(to'.Of(t'), k'), bytes) ==
            Part(At(from.Of(t'), k'), bytes) + Part(At(to.Of(t'), k'), bytes)
  {
  }

  /** What memory, the rollup and one request together hold for a key. */
  function Local(w: World, p: Proc, t: Table, k: Key, bytes: bool): int {
    Part(At(w.mem.Of(t), k), bytes) + Part(Carried(p, t, k), bytes) + Part(At(w.rollup.Of(t), k), bytes)
  }

  /** A step only moves counts between memory, the request and the rollups. */
  ghost predicate Conserves(w: World, p: Proc, m: Move, t: Table, k: Key, bytes: bool)
    requires Can(w, p, m)
  {
    var (w', p') := Step(w, p, m);
    Local(w', p', t, k, bytes) == Local(w, p, t, k, bytes) && w'.events == w.events
  }

  lemma BumpAt(m: Counters, e: Event, t: Table, k: Key, bytes: bool)
    requires KeyOf(e, t).Some?
    ensures Part(At(Add(m, KeyOf(e, t).value, Counter(1, e.bytes)), k), bytes)
         == Part(At(m, k), bytes) + Part(Weight(e, t, k), bytes)
  {
  }

  lemma BumpRepoConserves(w: World, p: Proc, t: Table, k: Key, bytes: bool)
    requires Can(w, p, BumpRepo)
    ensures Conserves(w, p, BumpRepo, t, k, bytes)
  {
    BumpAt(w.mem.repos, p.event, Repos, k, bytes);
    var (w', p') := Step(w, p, BumpRepo);
    assert w'.rollup == w.rollup && w'.events == w.events;
    assert t == Users ==> Carried(p', t, k) == Weight(p.event, Users, k) && w'.mem.users == w.mem.users;
    assert t == Repos ==> Carried(p', t, k) == ZERO;
  }

  lemma BumpUserConserves(w: World, p: Proc, t: Table, k: Key, bytes: bool)
    requires Can(w, p, BumpUser)
    ensures Conserves(w, p, BumpUser, t, k, bytes)
  {
    BumpAt(w.mem.users, p.event, Users, k, bytes);
    var (w', p') := Step(w, p, BumpUser);
    assert w'.rollup == w.rollup && w'.events == w.events && w'.mem.repos == w.mem.repos && p' == Done;
  }

  lemma StepConserves(w: World, p: Proc, m: Move, t: Table, k: Key, bytes: bool)
    requires Can(w, p, m)
    ensures Conserves(w, p, m, t, k, bytes)
  {
    match m
    case BumpRepo => BumpRepoConserves(w, p, t, k, bytes);
    case BumpUser => BumpUserConserves(w, p, t, k, bytes);
    case Take(t', k') => Move1Conserves(w.mem, p.rows, t', k', t, k, bytes);
    case PutBack(t', k') => Move1Conserves(p.rows, w.mem, t', k', t, k, bytes);
    case _ =>
  }

  lemma InFlightSnoc(procs: seq<Proc>, p: Proc, t: Table, k: Key, bytes: bool)
    requires Begins(p)
    ensures InFlight(procs + [p], t, k, bytes)
         == InFlight(procs, t, k, bytes) + if p.Recorder? then Part(Weight(p.event, t, k), bytes) else 0
  {
    assert (procs + [p])[..|procs|] == procs;
  }

  lemma TakesConserves(s: State, a: Action, s': State, t: Table, k: Key, bytes: bool)
    requires Takes(s, a, s')
    ensures Held(s', t, k, bytes) - Recorded(s'.world.events, t, k, bytes)
         == Held(s, t, k, bytes) - Recorded(s.world.events, t, k, bytes)
  {
    match a
    case Start(p) => InFlightSnoc(s.procs, p, t, k, bytes);
    case Advance(i, m) =>
      StepConserves(s.world, s.procs[i], m, t, k, bytes);
      InFlightUpdate(s.procs, i, Step(s.world, s.procs[i], m).1, t, k, bytes);
  }

  /**
   * In every interleaving of recordings with any number of flushes that succeed or fail, for
   * every key: memory plus what requests in flight hold plus rollup is what was to be recorded, in count and bytes.
   */
  lemma {:induction false} NothingLostOrDoubled(s: State, steps: nat, t: Table, k: Key, bytes: bool)
    requires Reachable(s, steps)
    ensures Held(s, t, k, bytes) == Recorded(s.world.events, t, k, bytes)
    decreases steps
  {
    if steps > 0 {
      var s0, a :| Reachable(s0, steps - 1) && Takes(s0, a, s);
      NothingLostOrDoubled(s0, steps - 1, t, k, bytes);
      TakesConserves(s0, a, s, t, k, bytes);
    }
  }

  // ---- repository totals against user totals ----

  /** One cell of the dashboard: an organisation's events of one kind on one day. */
  datatype Group = Group(day: string, org: string, kind: string)

  predicate Counts(e: Event, t: Table, g: Group) {
    Group(e.day, e.org, e.kind) == g && KeyOf(e, t).Some?
  }

  function GroupKeys(m: Counters, g: Group): set<Key> {
    set k | k in m && Group(k.day, k.org, k.kind) == g
  }

  /** What one table should show for a group: the events of the group it counts. */
  function GroupTotal(events: History, t: Table, g: Group, bytes: bool): int {
    match events
    case Nothing => 0
    case Then(before, e) =>
      GroupTotal(before, t, g, bytes) + if Counts(e, t, g) then Part(Counter(1, e.bytes), bytes) else 0
  }

  /** The events of the group that carry no user. */
  function Anonymous(events: History, g: Group, bytes: bool): int {
    match events
    case Nothing => 0
    case Then(before, e) =>
      Anonymous(before, g, bytes)
      + if Counts(e, Repos, g) && e.user.None? then Part(Counter(1, e.bytes), bytes) else 0
  }

  lemma {:induction false} TotalsDiffer(events: History, g: Group, bytes: bool)
    ensures GroupTotal(events, Repos, g, bytes) == GroupTotal(events, Users, g, bytes) + Anonymous(events, g, bytes)
  {
    if events.Then? {
      TotalsDiffer(events.before, g, bytes);
    }
  }

  /** `keys` are keys of one group, and hold the key of every event the table counts for it. */
  ghost predicate Covers(keys: set<Key>, events: History, t: Table, g: Group) {
    && (forall k <- keys :: Group(k.day, k.org, k.kind) == g)
    && (forall e :: events.Holds(e) && Counts(e, t, g) ==> KeyOf(e, t).value in keys)
  }

  lemma SumZero(keys: set<Key>)
    ensures Sum(keys, (k: Key) => 0) == 0
  {
    SumBounded(keys, (k: Key) => 0, 0);
    SumMonotone({}, keys, (k: Key) => 0);
    TimesIsProduct(|keys|, 0);
  }

  lemma WeightSum(keys: set<Key>, e: Event, t: Table, g: Group, bytes: bool)
    requires forall k <- keys :: Group(k.day, k.org, k.kind) == g
    requires Counts(e, t, g) ==> KeyOf(e, t).value in keys
    ensures Sum(keys, (k: Key) => Part(Weight(e, t, k), bytes)) ==
            if Counts(e, t, g) then Part(Counter(1, e.bytes), bytes) else 0
  {
    var f := (k: Key) => Part(Weight(e, t, k), bytes);
    if KeyOf(e, t).Some? {
      SumSingle(keys, f, KeyOf(e, t).value);
    } else {
      SumSame(keys, f, (k: Key) => 0);
      SumZero(keys);
    }
  }

  lemma {:induction false} RecordedSum(keys: set<Key>, events: History, t: Table, g: Group, bytes: bool)
    requires Covers(keys, events, t, g)
    ensures Sum(keys, (k: Key) => Recorded(events, t, k, bytes)) == GroupTotal(events, t, g, bytes)
  {
    var h := (k: Key) => Recorded(events, t, k, bytes);
    match events
    case Nothing =>
      SumSame(keys, h, (k: Key) => 0);
      SumZero(keys);
    case Then(before, e) =>
      var f := (k: Key) => Recorded(before, t, k, bytes);
      RecordedSum(keys, before, t, g, bytes);
      assert events.Holds(e);
      WeightSum(keys, e, t, g, bytes);
      SumPlus(keys, f, (k: Key) => Part(Weight(e, t, k), bytes), h);
  }

  lemma {:induction false} RecordedNonNegative(events: History, t: Table, k: Key)
    ensures Recorded(events, t, k, false) >= 0
  {
    if events.Then? {
      RecordedNonNegative(events.before, t, k);
    }
  }

  lemma {:induction false} RecordedCounts(events: History, e: Event, t: Table)
    requires events.Holds(e) && KeyOf(e, t).Some?
    ensures Recorded(events, t, KeyOf(e, t).value, false) >= 1
  {
    if events.event == e {
      RecordedNonNegative(events.before, t, KeyOf(e, t).value);
    } else {
      RecordedCounts(events.before, e, t);
    }
  }

  lemma HeldTotalIs(s: State, steps: nat, t: Table, g: Group, keys: set<Key>, bytes: bool)
    requires Reachable(s, steps) && Covers(keys, s.world.events, t, g)
    ensures HeldTotal(s, t, keys, bytes) == GroupTotal(s.world.events, t, g, bytes)
  {
    forall k <- keys ensures Held(s, t, k, bytes) == Recorded(s.world.events, t, k, bytes) {
      NothingLostOrDoubled(s, steps, t, k, bytes);
    }
    SumSame(keys, (k: Key) => Held(s, t, k, bytes), (k: Key) => Recorded(s.world.events, t, k, bytes));
    RecordedSum(keys, s.world.events, t, g, bytes);
  }

  /** What one table holds for a group: in memory, in drained batches and in the rollup. */
  ghost function HeldTotal(s: State, t: Table, keys: set<Key>, bytes: bool): int {
    Sum(keys, (k: Key) => Held(s, t, k, bytes))
  }

  /**
   * At any moment, whatever is still in memory or in a drained batch: over any keys of a group
   * that include those of its events, the repository total exceeds the user total by exactly
   * the events without a user. (What a recording in progress has yet to bump counts as held.)
   */
  lemma HeldTotalsAgree(s: State, steps: nat, g: Group, repoKeys: set<Key>, userKeys: set<Key>, bytes: bool)
    requires Reachable(s, steps)
    requires Covers(repoKeys, s.world.events, Repos, g) && Covers(userKeys, s.world.events, Users, g)
    ensures HeldTotal(s, Repos, repoKeys, bytes)
         == HeldTotal(s, Users, userKeys, bytes) + Anonymous(s.world.events, g, bytes)
  {
    HeldTotalIs(s, steps, Repos, g, repoKeys, bytes);
    HeldTotalIs(s, steps, Users, g, userKeys, bytes);
    TotalsDiffer(s.world.events, g, bytes);
  }

  /** With no recording in progress, what a table holds is memory, batches and rollup alone. */
  lemma {:induction false} QuietHoldsBatchesOnly(procs: seq<Proc>, t: Table, k: Key, bytes: bool)
    requires forall i | 0 <= i < |procs| :: !procs[i].Recorder?
    ensures InFlight(procs, t, k, bytes) == Batched(procs, t, k, bytes)
    decreases |procs|
  {
    if procs != [] {
      var front := procs[..|procs| - 1];
      assert forall i | 0 <= i < |front| :: front[i] == procs[i];
      QuietHoldsBatchesOnly(front, t, k, bytes);
    }
  }

  /** What the drained batches of all flushes in flight hold for a key. */
  function Batched(procs: seq<Proc>, t: Table, k: Key, bytes: bool): int
    decreases |procs|
  {
    if procs == [] then 0
    else
      var p := procs[|procs| - 1];
      Batched(procs[..|procs| - 1], t, k, bytes) + if p.Flusher? then Part(At(p.rows.Of(t), k), bytes) else 0
  }

  // ---- with everything flushed ----

  ghost predicate AllFlushed(s: State) {
    && s.world.mem == Ledger(map[], map[])
    && forall i | 0 <= i < |s.procs| :: s.procs[i] == Done
  }

  lemma {:induction false} NothingInFlight(procs: seq<Proc>, t: Table, k: Key, bytes: bool)
    requires forall i | 0 <= i < |procs| :: procs[i] == Done
    ensures InFlight(procs, t, k, bytes) == 0
    decreases |procs|
  {
    if procs != [] {
      assert forall i | 0 <= i < |procs| - 1 :: procs[..|procs| - 1][i] == procs[i];
      NothingInFlight(procs[..|procs| - 1], t, k, bytes);
    }
  }

  /** With everything flushed, a rollup table is exactly the count of all recorded events. */
  lemma RollupIsRecorded(s: State, steps: nat, t: Table, k: Key, bytes: bool)
    requires Reachable(s, steps) && AllFlushed(s)
    ensures Part(At(s.world.rollup.Of(t), k), bytes) == Recorded(s.world.events, t, k, bytes)
  {
    NothingLostOrDoubled(s, steps, t, k, bytes);
    NothingInFlight(s.procs, t, k, bytes);
  }

  lemma RollupCovers(s: State, steps: nat, t: Table, g: Group)
    requires Reachable(s, steps) && AllFlushed(s)
    ensures Covers(GroupKeys(s.world.rollup.Of(t), g), s.world.events, t, g)
  {
    forall e | s.world.events.Holds(e) && Counts(e, t, g)
      ensures KeyOf(e, t).value in GroupKeys(s.world.rollup.Of(t), g)
    {
      RollupIsRecorded(s, steps, t, KeyOf(e, t).value, false);
      RecordedCounts(s.world.events, e, t);
    }
  }

  /** What a dashboard query sums over one rollup table. */
  ghost function RollupTotal(m: Counters, g: Group, bytes: bool): int {
    Sum(GroupKeys(m, g), (k: Key) => Part(At(m, k), bytes))
  }

  lemma RollupIsHeld(s: State, steps: nat, t: Table, g: Group, bytes: bool)
    requires Reachable(s, steps) && AllFlushed(s)
    ensures RollupTotal(s.world.rollup.Of(t), g, bytes) == HeldTotal(s, t, GroupKeys(s.world.rollup.Of(t), g), bytes)
  {
    var m := s.world.rollup.Of(t);
    var keys := GroupKeys(m, g);
    forall k <- keys ensures Part(At(m, k), bytes) == Held(s, t, k, bytes) {
      NothingInFlight(s.procs, t, k, bytes);
    }
    SumSame(keys, (k: Key) => Part(At(m, k), bytes), (k: Key) => Held(s, t, k, bytes));
  }

  /**
   * Once everything recorded is flushed, the same holds of the rollup tables alone: their
   * totals for a group are equal when every event carries a user.
   */
  lemma RollupTotalsAgree(s: State, steps: nat, g: Group, bytes: bool)
    requires Reachable(s, steps) && AllFlushed(s)
    ensures RollupTotal(s.world.rollup.repos, g, bytes)
         == RollupTotal(s.world.rollup.users, g, bytes) + Anonymous(s.world.events, g, bytes)
  {
    RollupIsHeld(s, steps, Repos, g, bytes);
    RollupIsHeld(s, steps, Users, g, bytes);
    RollupCovers(s, steps, Repos, g);
    RollupCovers(s, steps, Users, g);
    HeldTotalsAgree(s, steps, g, GroupKeys(s.world.rollup.repos, g), GroupKeys(s.world.rollup.users, g), bytes);
  }

  // ---- flushes go through ----

  lemma Go(s: State, n: nat, i: nat, m: Move) returns (s': State, n': nat)
    requires Reachable(s, n) && i < |s.procs| && Can(s.world, s.procs[i], m)
    ensures Reachable(s', n') && n' == n + 1
    ensures s' == State(Step(s.world, s.procs[i], m).0, s.procs[i := Step(s.world, s.procs[i], m).1])
  {
    s' := State(Step(s.world, s.procs[i], m).0, s.procs[i := Step(s.world, s.procs[i], m).1]);
    n' := n + 1;
    assert Takes(s, Advance(i, m), s');
  }

  function Entries(l: Ledger): nat {
    |l.repos| + |l.users|
  }

  lemma Move1Lowers(from: Ledger, to: Ledger, t: Table, k: Key)
    requires k in from.Of(t)
    ensures Entries(Move1(from, to, t, k).0) == Entries(from) - 1
  {
    assert (from.Of(t) - {k}).Keys == from.Of(t).Keys - {k};
    assert |(from.Of(t) - {k}).Keys| == |from.Of(t) - {k}| && |from.Of(t).Keys| == |from.Of(t)|;
  }

  lemma SomeEntry(l: Ledger) returns (t: Table, k: Key)
    requires Entries(l) > 0
    ensures k in l.Of(t)
  {
    t := if |l.repos| > 0 then Repos else Users;
    assert l.Of(t) != map[];
    k :| k in l.Of(t);
  }

  /** An open flush can drain all that is in memory. */
  lemma {:induction false} DrainAll(s: State, n: nat, i: nat) returns (s': State, n': nat)
    requires Reachable(s, n) && i < |s.procs| && s.procs[i].Flusher? && !s.procs[i].failed
    ensures Reachable(s', n') && s'.world.mem == Ledger(map[], map[]) && s'.world.rollup == s.world.rollup
    ensures |s'.procs| == |s.procs| && s'.procs == s.procs[i := s'.procs[i]]
    ensures s'.procs[i].Flusher? && !s'.procs[i].failed
    decreases Entries(s.world.mem)
  {
    if Entries(s.world.mem) == 0 {
      s', n' := s, n;
    } else {
      var t, k := SomeEntry(s.world.mem);
      Move1Lowers(s.world.mem, s.procs[i].rows, t, k);
      var s1, n1 := Go(s, n, i, Take(t, k));
      s', n' := DrainAll(s1, n1, i);
    }
  }

  /** A failed flush can put back all it drained. */
  lemma {:induction false} PutAllBack(s: State, n: nat, i: nat) returns (s': State, n': nat)
    requires Reachable(s, n) && i < |s.procs| && s.procs[i].Flusher? && s.procs[i].failed
    ensures Reachable(s', n') && s'.procs == s.procs[i := Done] && s'.world.rollup == s.world.rollup
    decreases Entries(s.procs[i].rows)
  {
    if Entries(s.procs[i].rows) == 0 {
      s', n' := Go(s, n, i, Quit);
    } else {
      var t, k := SomeEntry(s.procs[i].rows);
      Move1Lowers(s.procs[i].rows, s.world.mem, t, k);
      var s1, n1 := Go(s, n, i, PutBack(t, k));
      s', n' := PutAllBack(s1, n1, i);
    }
  }

  /**
   * A flush under way can drain memory and commit, and is then over with memory empty; or it can
   * fail, put everything back and be over with the rollup as it was. What went where follows from
   * conservation.
   */
  lemma FlushGoesEitherWay(s: State, n: nat, i: nat) returns (committed: State, n1: nat, failed: State, n2: nat)
    requires Reachable(s, n) && i < |s.procs| && s.procs[i].Flusher? && !s.procs[i].failed
    ensures Reachable(committed, n1) && committed.procs == s.procs[i := Done]
    ensures committed.world.mem == Ledger(map[], map[])
    ensures Reachable(failed, n2) && failed.procs == s.procs[i := Done] && failed.world.rollup == s.world.rollup
  {
    var drained, d := DrainAll(s, n, i);
    committed, n1 := Go(drained, d, i, Commit);
    var broken, b := Go(drained, d, i, Fail);
    failed, n2 := PutAllBack(broken, b, i);
  }

  /** A recording that has begun is over after its bumps, one for each table that counts the event. */
  lemma RecordingEnds(s: State, n: nat, i: nat) returns (s': State, n': nat)
    requires Reachable(s, n) && i < |s.procs| && s.procs[i].Recorder? && !s.procs[i].bumped
    ensures Reachable(s', n') && s'.procs == s.procs[i := Done]
    ensures n' == n + if s.procs[i].event.user.Some? then 2 else 1
  {
    s', n' := Go(s, n, i, BumpRepo);
    if s.procs[i].event.user.Some? {
      s', n' := Go(s', n', i, BumpUser);
    }
  }
}
