/** The in-memory manifest cache: two bounded LRU maps and an invalidation generation. */
module Cache {
  import opened Common

  /** `<repo_id>|<value>`. Repository ids are UUIDs and hold no `|`. */
  function Key(repo: string, value: string): string {
    repo + "|" + value
  }

  /** Splitting at the first `|` undoes `Key`, so composite keys never collide. */
  lemma KeyInjective(r1: string, v1: string, r2: string, v2: string)
    requires '|' !in r1 && '|' !in r2
    ensures Key(r1, v1) == Key(r2, v2) <==> r1 == r2 && v1 == v2
  {
    assert |r1| < |r2| ==> Key(r2, v2)[|r1|] == r2[|r1|];
    assert |r2| < |r1| ==> Key(r1, v1)[|r2|] == r1[|r2|];
    if Key(r1, v1) == Key(r2, v2) {
      assert Key(r1, v1)[|r1|] == '|' && Key(r2, v2)[|r2|] == '|';
      assert r1 == Key(r1, v1)[..|r1|] == r2;
      assert v1 == Key(r1, v1)[|r1| + 1..] == v2;
    }
  }

  /** The per-repository prefix selects that repository's keys and no others. */
  lemma PrefixExact(repo: string, value: string, other: string)
    requires '|' !in repo && '|' !in other
    ensures other + "|" <= Key(repo, value) <==> repo == other
  {
    if other + "|" <= Key(repo, value) {
      var rest := Key(repo, value)[|other| + 1..];
      assert Key(other, rest) == other + "|" + rest == Key(repo, value);
      KeyInjective(repo, value, other, rest);
    }
  }

  lemma KeysInjective()
    ensures forall r1, v1, r2, v2 {:trigger Key(r1, v1), Key(r2, v2)} ::
              '|' !in r1 && '|' !in r2 && Key(r1, v1) == Key(r2, v2) ==> r1 == r2 && v1 == v2
  {
    forall r1, v1, r2, v2 | '|' !in r1 && '|' !in r2 && Key(r1, v1) == Key(r2, v2)
      ensures r1 == r2 && v1 == v2
    {
      KeyInjective(r1, v1, r2, v2);
    }
  }

  /** The cache as a value; every operation is one atomic step under the mutex. */
  datatype CacheState<M> = CacheState(
    enabled: bool,
    generation: nat,
    manifests: map<string, M>,
    tags: map<string, string>)
  {
    function Generation(): nat {
      if enabled then generation else 0
    }

    function Manifest(repo: string, digest: string): Option<M> {
      if enabled && Key(repo, digest) in manifests then Some(manifests[Key(repo, digest)]) else None
    }

    function Tag(repo: string, tag: string): Option<string> {
      if enabled && Key(repo, tag) in tags then Some(tags[Key(repo, tag)]) else None
    }

    function PutManifestIfCurrent(repo: string, digest: string, m: M, gen: nat): CacheState<M> {
      if enabled && generation == gen then this.(manifests := manifests[Key(repo, digest) := m]) else this
    }

    function InvalidateManifest(repo: string, digest: string): CacheState<M> {
      if enabled then this.(generation := generation + 1, manifests := manifests - {Key(repo, digest)}) else this
    }

    function PutTag(repo: string, tag: string, digest: string): CacheState<M> {
      if enabled then this.(tags := tags[Key(repo, tag) := digest]) else this
    }

    function PutTagIfCurrent(repo: string, tag: string, digest: string, gen: nat): CacheState<M> {
      if generation == gen then PutTag(repo, tag, digest) else this
    }

    function InvalidateRepoTags(repo: string): CacheState<M> {
      if enabled
      then this.(generation := generation + 1,
                 tags := map k | k in tags && !(repo + "|" <= k) :: tags[k])
      else this
    }

    /** LRU eviction: any entries may vanish at any time. */
    function Evict(ms: set<string>, ts: set<string>): CacheState<M> {
      this.(manifests := manifests - ms, tags := tags - ts)
    }
  }

  /** A bounded map. Recency is not modelled: when full, some entry gives way to a new key. */
  class LruCache<V> {
    const capacity: nat
    var entries: map<string, V>

    ghost predicate Valid()
      reads this
    {
      0 < capacity && |entries| <= capacity
    }

    constructor (capacity: nat)
      requires 0 < capacity
      ensures Valid() && entries == map[] && this.capacity == capacity
    {
      this.capacity := capacity;
      entries := map[];
    }

    method Put(k: string, v: V) returns (ghost evicted: set<string>)
      requires Valid()
      modifies this
      ensures Valid()
      ensures k !in evicted && |evicted| <= 1
      ensures evicted != {} ==> k !in old(entries) && |old(entries)| == capacity
      ensures entries == (old(entries) - evicted)[k := v]
    {
      evicted := {};
      if k in entries {
        assert entries.Keys == entries[k := v].Keys;
        entries := entries[k := v];
        assert old(entries) - {} == old(entries);
      } else {
        if |entries| == capacity {
          var victim :| victim in entries;
          evicted := {victim};
          assert (entries - {victim}).Keys == entries.Keys - {victim};
          entries := entries - {victim};
        } else {
          assert old(entries) - {} == old(entries);
        }
        assert entries[k := v].Keys == entries.Keys + {k};
        entries := entries[k := v];
      }
    }

    method Pop(k: string)
      requires Valid()
      modifies this
      ensures Valid() && entries == old(entries) - {k}
    {
      assert (entries - {k}).Keys == entries.Keys - {k};
      entries := entries - {k};
    }

    method PopAll(stale: set<string>)
      requires Valid()
      modifies this
      ensures Valid() && entries == old(entries) - stale
    {
      var todo := stale;
      while todo != {}
        invariant Valid()
        invariant forall k :: k in entries <==> k in old(entries) && (k in stale ==> k in todo)
        invariant forall k :: k in entries ==> entries[k] == old(entries)[k]
        decreases todo
      {
        var k :| k in todo;
        Pop(k);
        todo := todo - {k};
      }
    }
  }

  /** The shared cache. Its methods refine the value-level operations of `CacheState`. */
  class ManifestCache<M> {
    const enabled: bool
    var generation: nat
    const manifests: LruCache<M>
    const tags: LruCache<string>

    ghost predicate Valid()
      reads this, manifests, tags
    {
      manifests.Valid() && tags.Valid() && (manifests as object) != tags
    }

    ghost function State(): CacheState<M>
      reads this, manifests, tags
    {
      CacheState(enabled, generation, manifests.entries, tags.entries)
    }

    constructor (enabled: bool, manifestCapacity: nat, tagCapacity: nat)
      ensures Valid() && fresh(manifests) && fresh(tags)
      ensures State() == CacheState(enabled, 0, map[], map[])
    {
      this.enabled := enabled;
      generation := 0;
      manifests := new LruCache(if manifestCapacity == 0 then 1 else manifestCapacity);
      tags := new LruCache(if tagCapacity == 0 then 1 else tagCapacity);
    }

    method Generation() returns (gen: nat)
      ensures gen == State().Generation()
    {
      gen := if enabled then generation else 0;
    }

    method GetManifest(repo: string, digest: string) returns (m: Option<M>)
      ensures m == State().Manifest(repo, digest)
    {
      if !enabled || Key(repo, digest) !in manifests.entries {
        return None;
      }
      m := Some(manifests.entries[Key(repo, digest)]);
    }

    method GetTag(repo: string, tag: string) returns (digest: Option<string>)
      ensures digest == State().Tag(repo, tag)
    {
      if !enabled || Key(repo, tag) !in tags.entries {
        return None;
      }
      digest := Some(tags.entries[Key(repo, tag)]);
    }

    method PutManifestIfCurrent(repo: string, digest: string, m: M, gen: nat) returns (ghost evicted: set<string>)
      requires Valid()
      modifies this, manifests
      ensures Valid()
      ensures State() == old(State()).Evict(evicted, {}).PutManifestIfCurrent(repo, digest, m, gen)
      ensures Key(repo, digest) !in evicted && |evicted| <= 1
      ensures evicted != {} ==> enabled && generation == gen
    {
      evicted := {};
      if enabled && generation == gen {
        evicted := manifests.Put(Key(repo, digest), m);
      } else {
        assert manifests.entries - {} == manifests.entries;
      }
      assert tags.entries - {} == tags.entries;
    }

    method InvalidateManifest(repo: string, digest: string)
      requires Valid()
      modifies this, manifests
      ensures Valid() && State() == old(State()).InvalidateManifest(repo, digest)
    {
      if !enabled {
        return;
      }
      generation := generation + 1;
      manifests.Pop(Key(repo, digest));
    }

    method PutTag(repo: string, tag: string, digest: string) returns (ghost evicted: set<string>)
      requires Valid()
      modifies this, tags
      ensures Valid()
      ensures State() == old(State()).Evict({}, evicted).PutTag(repo, tag, digest)
      ensures Key(repo, tag) !in evicted && |evicted| <= 1
      ensures evicted != {} ==> enabled
    {
      evicted := {};
      if enabled {
        evicted := tags.Put(Key(repo, tag), digest);
      } else {
        assert tags.entries - {} == tags.entries;
      }
      assert manifests.entries - {} == manifests.entries;
    }

    method PutTagIfCurrent(repo: string, tag: string, digest: string, gen: nat) returns (ghost evicted: set<string>)
      requires Valid()
      modifies this, tags
      ensures Valid()
      ensures State() == old(State()).Evict({}, evicted).PutTagIfCurrent(repo, tag, digest, gen)
      ensures Key(repo, tag) !in evicted && |evicted| <= 1
      ensures evicted != {} ==> enabled && generation == gen
    {
      evicted := {};
      if enabled && generation == gen {
        evicted := tags.Put(Key(repo, tag), digest);
      } else {
        assert tags.entries - {} == tags.entries;
      }
      assert manifests.entries - {} == manifests.entries;
    }

    /** Collects the keys carrying the repository's prefix, then pops them. */
    method InvalidateRepoTags(repo: string)
      requires Valid()
      modifies this, tags
      ensures Valid() && State() == old(State()).InvalidateRepoTags(repo)
    {
      if !enabled {
        return;
      }
      var prefix := repo + "|";
      generation := generation + 1;
      var stale := set k | k in tags.entries && prefix <= k;
      tags.PopAll(stale);
      assert tags.entries == map k | k in old(tags.entries) && !(prefix <= k) :: old(tags.entries)[k];
    }
  }
}
