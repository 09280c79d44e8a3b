/** The registry of active upload sessions: admission slots and the idle reaper. */
module UploadSlots {

  datatype UploadId = UploadId(uuid: string)

  const MAX_ACTIVE_SESSIONS: nat := 5000

  /**
   * What the registry looks at in a session; `locked` while a request is at work on it, and
   * `holders` counts the requests that got hold of it and have not let go.
   */
  datatype Entry = Entry(lastActivity: int, locked: bool, finalizing: bool, holders: nat)

  /** Idle for `ttl`, with no request at work and no finish begun. */
  predicate IsExpired(e: Entry, now: int, ttl: int) {
    now - e.lastActivity >= ttl && !e.locked && !e.finalizing
  }

  function Expired(sessions: map<UploadId, Entry>, registered: set<UploadId>, now: int, ttl: int): set<UploadId> {
    set id | id in registered && id in sessions && IsExpired(sessions[id], now, ttl)
  }

  /** A registered session stays for as long as it was used within `ttl`, is at work, or is being finished. */
  lemma StaysWhileInUse(sessions: map<UploadId, Entry>, registered: set<UploadId>, now: int, ttl: int, id: UploadId)
    requires id in registered && id in sessions
    ensures id !in Expired(sessions, registered, now, ttl) <==>
            sessions[id].lastActivity + ttl > now || sessions[id].locked || sessions[id].finalizing
  {
  }

  /** Those no request holds. */
  function Unheld(sessions: map<UploadId, Entry>, ids: set<UploadId>): set<UploadId> {
    set id | id in ids && id in sessions && sessions[id].holders == 0
  }

  datatype Started = Mounted | Accepted | TooMany | Failed

  /**
   * `sessions` are the sessions in memory, each with a slot: those `registered`, and those
   * taken out that some request still holds.
   */
  class UploadRegistry {
    const capacity: nat
    var sessions: map<UploadId, Entry>
    var registered: set<UploadId>
    var free: nat

    ghost predicate Valid()
      reads this
    {
      && free + |sessions| == capacity
      && registered <= sessions.Keys
      && forall id <- sessions.Keys - registered :: sessions[id].holders > 0
    }

    constructor ()
      ensures Valid() && capacity == MAX_ACTIVE_SESSIONS && sessions == map[]
    {
      capacity := MAX_ACTIVE_SESSIONS;
      sessions, registered, free := map[], {}, MAX_ACTIVE_SESSIONS;
    }

    /** `get`: a request gets hold of a session that is still registered. */
    method Get(id: UploadId) returns (found: bool)
      requires Valid()
      modifies this`sessions
      ensures Valid() && found == (id in registered)
      ensures sessions == if found
                          then old(sessions)[id := old(sessions)[id].(holders := old(sessions)[id].holders + 1)]
                          else old(sessions)
    {
      found := id in registered;
      if found {
        KeysSame(sessions, id, sessions[id].(holders := sessions[id].holders + 1));
        sessions := sessions[id := sessions[id].(holders := sessions[id].holders + 1)];
      }
    }

    /** A request lets go; the last one to let go of a session taken out frees its slot. */
    method Release(id: UploadId)
      requires Valid() && id in sessions && sessions[id].holders > 0
      modifies this`sessions, this`free
      ensures Valid()
      ensures sessions == if id !in registered && old(sessions)[id].holders == 1
                          then old(sessions) - {id}
                          else old(sessions)[id := old(sessions)[id].(holders := old(sessions)[id].holders - 1)]
    {
      if id !in registered && sessions[id].holders == 1 {
        KeysLess(sessions, {id});
        sessions, free := sessions - {id}, free + 1;
      } else {
        KeysSame(sessions, id, sessions[id].(holders := sessions[id].holders - 1));
        sessions := sessions[id := sessions[id].(holders := sessions[id].holders - 1)];
      }
    }

    /** A finished, cancelled or expired session leaves; its slot is free again unless it is still held. */
    method Remove(id: UploadId)
      requires Valid()
      modifies this
      ensures Valid() && registered == old(registered) - {id}
      ensures sessions == old(sessions) - Unheld(old(sessions), old(registered) * {id})
    {
      var gone := Unheld(sessions, registered * {id});
      KeysLess(sessions, gone);
      registered := registered - {id};
      if id in gone {
        assert gone == {id};
        sessions, free := sessions - {id}, free + 1;
      } else {
        assert gone == {};
        assert sessions - gone == sessions;
      }
    }

    /** Takes out exactly the sessions that are idle, unlocked and not finalizing. */
    method TakeExpired(now: int, ttl: int) returns (expired: set<UploadId>)
      requires Valid()
      modifies this
      ensures Valid() && expired == Expired(old(sessions), old(registered), now, ttl)
      ensures registered == old(registered) - expired
      ensures sessions == old(sessions) - Unheld(old(sessions), expired)
    {
      expired := {};
      var todo := registered;
      assert sessions - Unheld(sessions, {}) == sessions && registered - {} == registered;
      while todo != {}
        invariant Valid() && todo <= old(registered) && registered == old(registered) - expired
        invariant expired == Expired(old(sessions), old(registered) - todo, now, ttl)
        invariant sessions == old(sessions) - Unheld(old(sessions), expired)
        decreases todo
      {
        var id :| id in todo;
        ExpiredMore(old(sessions), old(registered) - todo, id, now, ttl);
        assert old(registered) - (todo - {id}) == (old(registered) - todo) + {id};
        todo := todo - {id};
        if IsExpired(sessions[id], now, ttl) {
          OneMoreOut(old(sessions), expired, registered, id);
          Remove(id);
          expired := expired + {id};
        }
      }
    }

    /**
     * `start`: a mount hit needs no slot; otherwise a slot is claimed before anything is
     * allocated, reclaiming idle sessions when none is free. It is refused only when no slot is
     * free and every session the reaper may take is still held by some request.
     */
    method Start(id: UploadId, mountHit: bool, now: int, ttl: int) returns (r: Started)
      requires Valid() && id !in sessions
      modifies this
      ensures Valid()
      ensures r.Mounted? <==> mountHit
      ensures var expired := Expired(old(sessions), old(registered), now, ttl);
              r.TooMany? <==> !mountHit && old(free) == 0 && forall e <- expired :: old(sessions)[e].holders > 0
      ensures var out := if mountHit || old(free) > 0 then {} else Expired(old(sessions), old(registered), now, ttl);
              var kept := old(sessions) - Unheld(old(sessions), out);
              && registered == (if r.Accepted? then old(registered) - out + {id} else old(registered) - out)
              && sessions == if r.Accepted? then kept[id := Entry(now, false, false, 0)] else kept
    {
      assert sessions - Unheld(sessions, {}) == sessions && registered - {} == registered;
      if mountHit {
        return Mounted;
      }
      if free == 0 {
        ghost var before := sessions;
        var expired := TakeExpired(now, ttl);
        KeysLess(before, Unheld(before, expired));
        if free == 0 {
          return TooMany;
        }
      }
      var created := *;
      if !created {
        return Failed;
      }
      Claim(id, now);
      r := Accepted;
    }

    /** A new session takes a free slot. */
    method Claim(id: UploadId, now: int)
      requires Valid() && id !in sessions && free > 0
      modifies this
      ensures Valid() && registered == old(registered) + {id}
      ensures sessions == old(sessions)[id := Entry(now, false, false, 0)]
    {
      KeysMore(sessions, id, Entry(now, false, false, 0));
      free := free - 1;
      registered, sessions := registered + {id}, sessions[id := Entry(now, false, false, 0)];
    }
  }

  lemma KeysSame(sessions: map<UploadId, Entry>, id: UploadId, e: Entry)
    requires id in sessions
    ensures sessions[id := e].Keys == sessions.Keys && |sessions[id := e]| == |sessions|
  {
    assert |sessions[id := e].Keys| == |sessions[id := e]|;
  }

  lemma KeysMore(sessions: map<UploadId, Entry>, id: UploadId, e: Entry)
    requires id !in sessions
    ensures sessions[id := e].Keys == sessions.Keys + {id} && |sessions[id := e]| == |sessions| + 1
  {
    assert |sessions[id := e].Keys| == |sessions[id := e]|;
  }

  lemma KeysLess(sessions: map<UploadId, Entry>, gone: set<UploadId>)
    requires gone <= sessions.Keys
    ensures (sessions - gone).Keys == sessions.Keys - gone && |sessions - gone| == |sessions| - |gone|
  {
    assert |(sessions - gone).Keys| == |sessions - gone|;
  }

  lemma ExpiredMore(sessions: map<UploadId, Entry>, seen: set<UploadId>, id: UploadId, now: int, ttl: int)
    requires id in sessions && id !in seen
    ensures var expired := Expired(sessions, seen, now, ttl);
            && Expired(sessions, seen + {id}, now, ttl)
               == (if IsExpired(sessions[id], now, ttl) then expired + {id} else expired)
            && id !in expired
  {
  }

  lemma OneMoreOut(all: map<UploadId, Entry>, out: set<UploadId>, registered: set<UploadId>, id: UploadId)
    requires id in all && id in registered && id !in out
    ensures var now := all - Unheld(all, out);
            all - Unheld(all, out + {id}) == now - Unheld(now, registered * {id})
  {
  }
}
