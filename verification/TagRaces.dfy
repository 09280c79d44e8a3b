/** Four schedules that leave a stale tag behind, and the exact discipline that rules them out. */
module TagRaces {
  import opened Common
  import opened Cache
  import opened CacheCoherence
  import opened TagCoherence
  import opened CacheRuns

  lemma Go(sha: Bytes -> Digest, policy: Policy, s: State, n: nat, a: Action, s': State)
    requires Reachable(sha, policy, s, n) && Takes(sha, policy, s, a, s')
    ensures Reachable(sha, policy, s', n + 1)
  {
  }

  /** Process `i` runs its next atomic step. */
  lemma Run(sha: Bytes -> Digest, policy: Policy, s: State, n: nat, i: nat) returns (s': State, n': nat)
    requires Reachable(sha, policy, s, n) && i < |s.procs|
    ensures Reachable(sha, policy, s', n')
    ensures s' == State(Step(sha, s.world, s.procs[i]).0, s.procs[i := Step(sha, s.world, s.procs[i]).1])
  {
    s' := State(Step(sha, s.world, s.procs[i]).0, s.procs[i := Step(sha, s.world, s.procs[i]).1]);
    n' := n + 1;
    Go(sha, policy, s, n, Advance(i), s');
  }

  lemma Begin(sha: Bytes -> Digest, policy: Policy, s: State, n: nat, p: Proc)
    returns (s': State, n': nat)
    requires Reachable(sha, policy, s, n) && Admitted(policy, s, p)
    ensures Reachable(sha, policy, s', n') && s' == s.(procs := s.procs + [p])
  {
    s' := s.(procs := s.procs + [p]);
    n' := n + 1;
    Go(sha, policy, s, n, Start(p), s');
  }

  function Empty(): State {
    State(World(map[], map[], map[], map[], CacheState(true, 0, map[], map[])), [])
  }

  /** Takes a client push of a tag from its start to the point just past the tag upsert. */
  lemma RunToTagged(sha: Bytes -> Digest, policy: Policy, s: State, n: nat, i: nat) returns (s': State, n': nat, v: nat)
    requires Reachable(sha, policy, s, n) && i < |s.procs|
    requires s.procs[i].Push? && s.procs[i].wpc == Ready && !IsDigest(s.procs[i].reference)
    ensures Reachable(sha, policy, s', n')
    ensures var p := s.procs[i];
            && s'.world.cache == s.world.cache
            && s'.world.tags == s.world.tags[(p.repo, p.reference) := sha(p.manifest.content)]
            && s'.procs == s.procs[i := p.(wpc := Tagged(sha(p.manifest.content), v))]
  {
    var s1, n1 := Run(sha, policy, s, n, i);
    s', n' := Run(sha, policy, s1, n1, i);
    v := s'.procs[i].wpc.version;
  }

  /** Takes a client push from past its upsert to the end: invalidate, then cache the tag. */
  lemma RunToEnd(sha: Bytes -> Digest, policy: Policy, s: State, n: nat, i: nat) returns (s': State, n': nat)
    requires Reachable(sha, policy, s, n) && i < |s.procs| && s.world.cache.enabled
    requires s.procs[i].Push? && s.procs[i].wpc.Tagged? && !s.procs[i].imported
    ensures Reachable(sha, policy, s', n')
    ensures var p := s.procs[i];
            && s'.world.tags == s.world.tags
            && s'.world.cache.enabled
            && s'.world.cache.tags == s.world.cache.tags[Key(p.repo, p.reference) := p.wpc.digest]
            && s'.procs == s.procs[i := p.(wpc := Finished)]
  {
    var s1, n1 := Run(sha, policy, s, n, i);
    s', n' := Run(sha, policy, s1, n1, i);
  }

  predicate Stale(s: State, repo: string, tag: string) {
    && '|' !in repo && Idle(s.procs, repo)
    && s.world.cache.Tag(repo, tag).Some?
    && !Agrees(s.world, repo, tag, s.world.cache.Tag(repo, tag).value)
  }

  function TagPush(content: Bytes, imported: bool, pc: WriterPc): Proc {
    Push("r", "t", Manifest("", content), imported, pc)
  }

  lemma TwoPushesTagged(sha: Bytes -> Digest, policy: Policy, a: Bytes, b: Bytes)
    returns (s: State, n: nat, va: nat, vb: nat)
    requires policy.samePushes
    ensures Reachable(sha, policy, s, n)
    ensures s.world.cache == Empty().world.cache && s.world.tags == map[("r", "t") := sha(b)]
    ensures s.procs == [TagPush(a, false, Tagged(sha(a), va)), TagPush(b, false, Tagged(sha(b), vb))]
  {
    assert Reachable(sha, policy, Empty(), 0);
    s, n := Begin(sha, policy, Empty(), 0, TagPush(a, false, Ready));
    s, n := Begin(sha, policy, s, n, TagPush(b, false, Ready));
    s, n, va := RunToTagged(sha, policy, s, n, 0);
    s, n, vb := RunToTagged(sha, policy, s, n, 1);
  }

  /** Two overlapping pushes of one tag: the first to commit is the last to write the cache. */
  lemma OverlappingPushesLeaveStaleTag(sha: Bytes -> Digest, policy: Policy, a: Bytes, b: Bytes)
    returns (s: State, n: nat)
    requires policy.samePushes && sha(a) != sha(b)
    ensures Reachable(sha, policy, s, n) && Stale(s, "r", "t")
  {
    var va, vb;
    s, n, va, vb := TwoPushesTagged(sha, policy, a, b);
    s, n := RunToEnd(sha, policy, s, n, 1);
    s, n := RunToEnd(sha, policy, s, n, 0);
    assert s.procs == [TagPush(a, false, Finished), TagPush(b, false, Finished)];
    assert s.world.cache.tags == map[Key("r", "t") := sha(a)];
  }

  /** A reader holds tag digest `sha(a)` under the current generation; nothing is cached. */
  lemma ReaderHoldsOldTag(sha: Bytes -> Digest, policy: Policy, a: Bytes)
    returns (s: State, n: nat, floor: map<Name, nat>)
    ensures Reachable(sha, policy, s, n)
    ensures s.world.cache.enabled && s.world.cache.tags == map[] && s.world.tags == map[("r", "t") := sha(a)]
    ensures s.procs == [TagPush(a, false, Finished),
                        Reader("r", "t", floor, FillingTag(s.world.cache.generation, sha(a)))]
  {
    assert Reachable(sha, policy, Empty(), 0);
    s, n := Begin(sha, policy, Empty(), 0, TagPush(a, false, Ready));
    var va;
    s, n, va := RunToTagged(sha, policy, s, n, 0);
    s, n := RunToEnd(sha, policy, s, n, 0);
    s, n := EvictAllTags(sha, policy, s, n);
    floor := s.world.floor;
    s, n := Begin(sha, policy, s, n, Reader("r", "t", floor, Starting));
    s, n := ReadTag(sha, policy, s, n, 1);
  }

  lemma EvictAllTags(sha: Bytes -> Digest, policy: Policy, s: State, n: nat) returns (s': State, n': nat)
    requires Reachable(sha, policy, s, n)
    ensures Reachable(sha, policy, s', n')
    ensures s' == s.(world := s.world.(cache := s'.world.cache))
    ensures s'.world.cache.tags == map[] && s'.world.cache.enabled == s.world.cache.enabled
  {
    var ts := s.world.cache.tags.Keys;
    s', n' := s.(world := s.world.(cache := s.world.cache.Evict({}, ts))), n + 1;
    Go(sha, policy, s, n, EvictEntries({}, ts), s');
  }

  /** Generation snapshot, cache miss, database read. */
  lemma ReadTag(sha: Bytes -> Digest, policy: Policy, s: State, n: nat, i: nat) returns (s': State, n': nat)
    requires Reachable(sha, policy, s, n) && i < |s.procs| && s.procs[i].Reader? && s.procs[i].rpc == Starting
    requires s.world.cache.enabled && s.world.cache.tags == map[] && !IsDigest(s.procs[i].reference)
    requires (s.procs[i].repo, s.procs[i].reference) in s.world.tags
    ensures Reachable(sha, policy, s', n') && s'.world == s.world
    ensures var p := s.procs[i];
            var filling := FillingTag(s.world.cache.generation, s.world.tags[(p.repo, p.reference)]);
            s'.procs == s.procs[i := p.(rpc := filling)]
  {
    var s1, n1 := Run(sha, policy, s, n, i);
    var s2, n2 := Run(sha, policy, s1, n1, i);
    s', n' := Run(sha, policy, s2, n2, i);
  }

  /** An import caches its tag before raising the generation, so a stale fill slips in between. */
  lemma TagImportLeavesStaleTag(sha: Bytes -> Digest, policy: Policy, a: Bytes, b: Bytes)
    returns (s: State, n: nat)
    requires policy.tagImports && sha(a) != sha(b)
    ensures Reachable(sha, policy, s, n) && Stale(s, "r", "t")
  {
    var floor, vb;
    s, n, floor := ReaderHoldsOldTag(sha, policy, a);
    s, n := Begin(sha, policy, s, n, TagPush(b, true, Ready));
    s, n, vb := RunToTagged(sha, policy, s, n, 2);
    s, n := Run(sha, policy, s, n, 2);
    s, n := FillThenInvalidate(sha, policy, s, n, floor, a, b, vb);
  }

  lemma FillThenInvalidate(sha: Bytes -> Digest, policy: Policy, s: State, n: nat,
      floor: map<Name, nat>, a: Bytes, b: Bytes, v: nat) returns (s': State, n': nat)
    requires Reachable(sha, policy, s, n) && s.world.cache.enabled && sha(a) != sha(b)
    requires s.world.tags == map[("r", "t") := sha(b)] && s.world.cache.tags == map[Key("r", "t") := sha(b)]
    requires s.procs == [TagPush(a, false, Finished),
                         Reader("r", "t", floor, FillingTag(s.world.cache.generation, sha(a))),
                         TagPush(b, true, TagCached(sha(b), v))]
    ensures Reachable(sha, policy, s', n') && Stale(s', "r", "t")
  {
    var s1, n1 := Run(sha, policy, s, n, 1);
    assert s1.world.cache.tags == map[Key("r", "t") := sha(a)];
    s', n' := Run(sha, policy, s1, n1, 2);
    assert s'.procs == [s.procs[0], s1.procs[1], TagPush(b, true, Finished)];
    assert s'.world.cache.tags == s1.world.cache.tags;
  }

  lemma OnePushTagged(sha: Bytes -> Digest, policy: Policy, a: Bytes) returns (s: State, n: nat, va: nat)
    ensures Reachable(sha, policy, s, n)
    ensures s.world.cache == Empty().world.cache && s.world.tags == map[("r", "t") := sha(a)]
    ensures s.procs == [TagPush(a, false, Tagged(sha(a), va))]
  {
    assert Reachable(sha, policy, Empty(), 0);
    s, n := Begin(sha, policy, Empty(), 0, TagPush(a, false, Ready));
    s, n, va := RunToTagged(sha, policy, s, n, 0);
  }

  /** Resolves the tag, then removes the manifest it names and every tag on it. */
  lemma RunDeleteRows(sha: Bytes -> Digest, policy: Policy, s: State, n: nat, i: nat) returns (s': State, n': nat)
    requires Reachable(sha, policy, s, n) && i < |s.procs| && s.procs[i] == Delete("r", "t", Ready)
    requires ("r", "t") in s.world.tags
    ensures Reachable(sha, policy, s', n') && s'.world.cache == s.world.cache && ("r", "t") !in s'.world.tags
    ensures i < |s'.procs| && s'.procs[i].Delete? && s'.procs[i].dpc.Stored?
    ensures s'.procs[i].repo == "r" && s'.procs[i].reference == "t"
    ensures s'.procs == s.procs[i := s'.procs[i]]
  {
    var s1, n1 := Run(sha, policy, s, n, i);
    s', n' := Run(sha, policy, s1, n1, i);
  }

  /** Then invalidates the manifest and pops the cached tags of the repository. */
  lemma RunDeleteCache(sha: Bytes -> Digest, policy: Policy, s: State, n: nat, i: nat) returns (s': State, n': nat)
    requires Reachable(sha, policy, s, n) && i < |s.procs| && s.procs[i].Delete? && s.procs[i].dpc.Stored?
    ensures Reachable(sha, policy, s', n') && s'.procs == s.procs[i := s.procs[i].(dpc := Finished)]
    ensures s'.world.tags == s.world.tags && s'.world.cache.enabled == s.world.cache.enabled
  {
    var s1, n1 := Run(sha, policy, s, n, i);
    s', n' := Run(sha, policy, s1, n1, i);
  }

  /** A delete that runs between a push's tag upsert and its cache write: the cache keeps a tag that is gone. */
  lemma DeleteDuringPushLeavesStaleTag(sha: Bytes -> Digest, policy: Policy, a: Bytes) returns (s: State, n: nat)
    requires policy.pushDeletes
    ensures Reachable(sha, policy, s, n) && Stale(s, "r", "t")
  {
    var va;
    s, n, va := OnePushTagged(sha, policy, a);
    s, n := Begin(sha, policy, s, n, Delete("r", "t", Ready));
    s, n := RunDeleteRows(sha, policy, s, n, 1);
    s, n := RunDeleteCache(sha, policy, s, n, 1);
    s, n := RunToEnd(sha, policy, s, n, 0);
    assert s.procs == [TagPush(a, false, Finished), Delete("r", "t", Finished)];
    assert Key("r", "t") in s.world.cache.tags;
  }

  lemma OnePushCached(sha: Bytes -> Digest, policy: Policy, a: Bytes) returns (s: State, n: nat)
    ensures Reachable(sha, policy, s, n)
    ensures s.world.cache.enabled && s.world.cache.tags == map[Key("r", "t") := sha(a)]
    ensures s.world.tags == map[("r", "t") := sha(a)] && s.procs == [TagPush(a, false, Finished)]
  {
    var va;
    s, n, va := OnePushTagged(sha, policy, a);
    s, n := RunToEnd(sha, policy, s, n, 0);
  }

  lemma Leave(sha: Bytes -> Digest, policy: Policy, s: State, n: nat, i: nat) returns (s': State, n': nat)
    requires Reachable(sha, policy, s, n) && policy.drops && i < |s.procs| && s.procs[i].InFlight()
    ensures Reachable(sha, policy, s', n') && s' == s.(procs := s.procs[i := Ended(s.procs[i])])
  {
    s' := s.(procs := s.procs[i := Ended(s.procs[i])]);
    n' := n + 1;
    Go(sha, policy, s, n, Vanish(i), s');
  }

  /** A push that vanishes between its tag upsert and its cache write leaves the old tag cached. */
  lemma VanishedPushLeavesStaleTag(sha: Bytes -> Digest, policy: Policy, a: Bytes, b: Bytes) returns (s: State, n: nat)
    requires policy.drops && sha(a) != sha(b)
    ensures Reachable(sha, policy, s, n) && Stale(s, "r", "t")
  {
    var vb;
    s, n := OnePushCached(sha, policy, a);
    s, n := Begin(sha, policy, s, n, TagPush(b, false, Ready));
    s, n, vb := RunToTagged(sha, policy, s, n, 1);
    s, n := Leave(sha, policy, s, n, 1);
    assert s.procs == [TagPush(a, false, Finished), TagPush(b, false, Aborted)];
  }

  /** A tag is cached with the digest of one push while a second push has moved its row. */
  lemma PushBetweenRowAndCache(sha: Bytes -> Digest, policy: Policy, a: Bytes, b: Bytes) returns (s: State, n: nat)
    ensures Reachable(sha, policy, s, n)
    ensures s.world.cache.enabled && s.world.cache.tags == map[Key("r", "t") := sha(a)]
    ensures s.world.tags == map[("r", "t") := sha(b)] && |s.procs| == 2
    ensures forall i | 0 <= i < 2 :: !s.procs[i].Reader?
  {
    var vb;
    s, n := OnePushCached(sha, policy, a);
    s, n := Begin(sha, policy, s, n, TagPush(b, false, Ready));
    s, n, vb := RunToTagged(sha, policy, s, n, 1);
  }

  /**
   * In every policy a read that begins while a push is between its row and its cache write can
   * resolve the tag to what its row was before, and has not been since the read began.
   */
  lemma ReadDuringPushSeesOldTag(sha: Bytes -> Digest, policy: Policy, a: Bytes, b: Bytes)
    returns (run: seq<State>, q: nat)
    requires sha(a) != sha(b)
    ensures IsRun(sha, policy, run) && BegunBetween(run, q, |run| - 1, 2)
    ensures var p := run[|run| - 1].procs[2];
            && p.Reader? && p.repo == "r" && p.reference == "t" && Carries(p.rpc)
            && !Was(During(run, q, |run| - 1), ("r", "t"), Some(p.rpc.digest))
  {
    var s, n := PushBetweenRowAndCache(sha, policy, a, b);
    q := n;
    run := RunTo(sha, policy, s, n);
    var p, gen := Reader("r", "t", s.world.floor, Starting), s.world.cache.generation;
    var began := s.(procs := s.procs + [p]);
    var resolving := s.(procs := s.procs + [p.(rpc := Resolving(gen))]);
    var resolved := s.(procs := s.procs + [p.(rpc := LookingUp(gen, sha(a)))]);
    var run1 := OneMore(sha, policy, run, Start(p), began);
    var run2 := OneMore(sha, policy, run1, Advance(2), resolving);
    var run3 := OneMore(sha, policy, run2, Advance(2), resolved);
    assert run3[n] == s && run3[n + 1] == began && run3[n + 2] == resolving && run3[n + 3] == resolved;
    assert forall j | n <= j <= n + 3 :: run3[j].world == s.world;
    run := run3;
  }

  lemma StaleIsIncoherent(s: State, repo: string, tag: string)
    requires Stale(s, repo, tag)
    ensures !TagsCoherent(s)
  {
    IdleOwesNothing(s.procs, repo, tag);
    assert Key(repo, tag) in s.world.cache.tags;
  }

  ghost predicate Possible(sha: Bytes -> Digest, policy: Policy, s: State) {
    exists n :: Reachable(sha, policy, s, n)
  }

  lemma SomeStaleTag(sha: Bytes -> Digest, policy: Policy, a: Bytes, b: Bytes) returns (s: State, n: nat)
    requires sha(a) != sha(b) && !Disciplined(policy)
    ensures Reachable(sha, policy, s, n) && Stale(s, "r", "t")
  {
    if policy.tagImports {
      s, n := TagImportLeavesStaleTag(sha, policy, a, b);
    } else if policy.samePushes {
      s, n := OverlappingPushesLeaveStaleTag(sha, policy, a, b);
    } else if policy.pushDeletes {
      s, n := DeleteDuringPushLeavesStaleTag(sha, policy, a);
    } else {
      s, n := VanishedPushLeavesStaleTag(sha, policy, a, b);
    }
  }

  /**
   * The tag cache is coherent in every reachable state if and only if no two pushes of one tag
   * and no tag push and delete of one repository overlap, no import moves a tag, and no writer
   * vanishes half way. Pushes of different tags, pushes by digest, deletes among themselves and
   * all readers may overlap freely. (The hash must tell some bytes apart.)
   */
  lemma TagCoherenceExactly(sha: Bytes -> Digest, policy: Policy, a: Bytes, b: Bytes)
    requires sha(a) != sha(b)
    ensures (forall s | Possible(sha, policy, s) :: TagsCoherent(s)) <==> Disciplined(policy)
  {
    if Disciplined(policy) {
      forall s | Possible(sha, policy, s) ensures TagsCoherent(s) {
        var n :| Reachable(sha, policy, s, n);
        TagInvAlways(sha, policy, s, n);
      }
    } else {
      var s, n := SomeStaleTag(sha, policy, a, b);
      StaleIsIncoherent(s, "r", "t");
      assert Possible(sha, policy, s);
    }
  }
}
