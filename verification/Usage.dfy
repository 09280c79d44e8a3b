/** Usage counters: bumped in memory, drained into rows, added to the daily rollups or put back. */
module Usage {
  import opened Common

  datatype Key = Key(day: string, org: string, name: string, kind: string)

  datatype Counter = Counter(count: int, bytes: int)

  const ZERO := Counter(0, 0)

  function Plus(a: Counter, b: Counter): Counter {
    Counter(a.count + b.count, a.bytes + b.bytes)
  }

  type Counters = map<Key, Counter>

  /** A missing entry counts as zero. */
  function At(m: Counters, k: Key): Counter {
    if k in m then m[k] else ZERO
  }

  /** The entry-or-insert both `bump` and `requeue` use, and the additive upsert of a rollup row. */
  function Add(m: Counters, k: Key, c: Counter): Counters {
    m[k := Plus(At(m, k), c)]
  }

  datatype Row = Row(key: Key, counter: Counter)

  function AddRows(m: Counters, rows: seq<Row>): Counters
    decreases |rows|
  {
    if rows == [] then m
    else Add(AddRows(m, rows[..|rows| - 1]), rows[|rows| - 1].key, rows[|rows| - 1].counter)
  }

  /** What a batch holds for one key. */
  function RowsAt(rows: seq<Row>, k: Key): Counter
    decreases |rows|
  {
    if rows == [] then ZERO
    else
      var last := rows[|rows| - 1];
      Plus(RowsAt(rows[..|rows| - 1], k), if last.key == k then last.counter else ZERO)
  }

  lemma AddAt(m: Counters, r: Row, k: Key)
    ensures At(Add(m, r.key, r.counter), k) == Plus(At(m, k), if r.key == k then r.counter else ZERO)
  {
  }

  lemma {:induction false} AddRowsAt(m: Counters, rows: seq<Row>, k: Key)
    ensures At(AddRows(m, rows), k) == Plus(At(m, k), RowsAt(rows, k))
    decreases |rows|
  {
    if rows != [] {
      var front, last := rows[..|rows| - 1], rows[|rows| - 1];
      AddRowsAt(m, front, k);
      AddAt(AddRows(m, front), last, k);
    }
  }

  lemma AddRowsSnoc(m: Counters, rows: seq<Row>, r: Row)
    ensures AddRows(m, rows + [r]) == Add(AddRows(m, rows), r.key, r.counter)
  {
    assert (rows + [r])[..|rows|] == rows;
  }

  /** `rows` is `m` listed entry by entry: added to nothing it is `m` again. */
  ghost predicate Lists(rows: seq<Row>, m: Counters) {
    AddRows(map[], rows) == m
  }

  lemma ListedAt(rows: seq<Row>, m: Counters, base: Counters, k: Key)
    requires Lists(rows, m)
    ensures At(AddRows(base, rows), k) == Plus(At(base, k), At(m, k))
  {
    AddRowsAt(base, rows, k);
    AddRowsAt(map[], rows, k);
  }

  /** The rollup tables. `FlushBatch` is one transaction: a failure anywhere leaves both unchanged. */
  class Rollups {
    var repo: Counters
    var user: Counters
    ghost var faults: nat

    constructor ()
      ensures repo == map[] && user == map[] && faults == 0
    {
      repo, user, faults := map[], map[], 0;
    }

    method FlushBatch(repoRows: seq<Row>, userRows: seq<Row>) returns (ok: bool)
      modifies this
      ensures repo == if ok then AddRows(old(repo), repoRows) else old(repo)
      ensures user == if ok then AddRows(old(user), userRows) else old(user)
      ensures ok <==> faults == old(faults)
      ensures repoRows == userRows == [] ==> ok
    {
      if |repoRows| == 0 && |userRows| == 0 {
        return true;
      }
      var r, repo' := Upserted(repo, repoRows);
      if r < |repoRows| {
        return false;
      }
      var u, user' := Upserted(user, userRows);
      if u < |userRows| {
        return false;
      }
      assert repoRows[..r] == repoRows && userRows[..u] == userRows;
      ok := *;
      if ok {
        repo, user := repo', user';
      } else {
        faults := faults + 1;
      }
    }

    /** The uncommitted image of one table after its upserts, of which all or only the first `done` worked. */
    method Upserted(table: Counters, rows: seq<Row>) returns (done: nat, table': Counters)
      modifies this`faults
      ensures done <= |rows| && table' == AddRows(table, rows[..done])
      ensures faults == old(faults) + if done < |rows| then 1 else 0
    {
      table' := table;
      for i := 0 to |rows|
        invariant table' == AddRows(table, rows[..i]) && faults == old(faults)
      {
        var ok := *;
        if !ok {
          faults := faults + 1;
          return i, table';
        }
        AddRowsSnoc(table, rows[..i], rows[i]);
        assert rows[..i + 1] == rows[..i] + [rows[i]];
        table' := Add(table', rows[i].key, rows[i].counter);
      }
      done := |rows|;
    }
  }

  class UsageCollector {
    const enabled: bool
    var repo: Counters
    var user: Counters

    constructor (enabled: bool)
      ensures this.enabled == enabled && repo == map[] && user == map[]
    {
      this.enabled := enabled;
      repo, user := map[], map[];
    }

    /** One event: its repository's counter and, when a user is known, that user's. */
    method Record(day: string, org: string, name: string, userId: Option<string>, kind: string, bytes: int)
      modifies this
      ensures repo == if enabled then Add(old(repo), Key(day, org, name, kind), Counter(1, bytes)) else old(repo)
      ensures user == if enabled && userId.Some?
                      then Add(old(user), Key(day, org, userId.value, kind), Counter(1, bytes))
                      else old(user)
    {
      if !enabled {
        return;
      }
      repo := Bump(repo, Key(day, org, name, kind), bytes);
      if userId.Some? {
        user := Bump(user, Key(day, org, userId.value, kind), bytes);
      }
    }

    static method Bump(m: Counters, k: Key, bytes: int) returns (m': Counters)
      ensures m' == Add(m, k, Counter(1, bytes))
    {
      if k in m {
        m' := m[k := Counter(m[k].count + 1, m[k].bytes + bytes)];
      } else {
        m' := m[k := Counter(1, bytes)];
      }
    }

    /** Removes every entry and returns it as a row. */
    static method Drain(m: Counters) returns (m': Counters, rows: seq<Row>)
      ensures m' == map[] && Lists(rows, m)
      ensures |rows| == |m| && forall r <- rows :: r.key in m && r.counter == m[r.key]
    {
      m', rows := m, [];
      while m' != map[]
        invariant m'.Keys <= m.Keys && forall k <- m' :: m'[k] == m[k]
        invariant AddRows(map[], rows) == m - m'.Keys
        invariant |rows| + |m'| == |m|
        invariant forall r <- rows :: r.key in m && r.counter == m[r.key]
        decreases |m'|
      {
        var k :| k in m';
        ghost var left := m';
        AddRowsSnoc(map[], rows, Row(k, m'[k]));
        rows := rows + [Row(k, m'[k])];
        m' := m' - {k};
        assert left == m'[k := left[k]];
        assert m - m'.Keys == (m - left.Keys)[k := m[k]];
      }
    }

    /** Merges drained rows back. */
    static method Requeue(m: Counters, rows: seq<Row>) returns (m': Counters)
      ensures m' == AddRows(m, rows)
    {
      m' := m;
      for i := 0 to |rows|
        invariant m' == AddRows(m, rows[..i])
      {
        var r := rows[i];
        AddRowsSnoc(m, rows[..i], r);
        assert rows[..i + 1] == rows[..i] + [r];
        if r.key in m' {
          m' := m'[r.key := Counter(m'[r.key].count + r.counter.count, m'[r.key].bytes + r.counter.bytes)];
        } else {
          m' := m'[r.key := r.counter];
        }
      }
      assert rows[..|rows|] == rows;
    }

    /** With nothing else running: everything moves to the rollups, or nothing changes anywhere. */
    method Flush(db: Rollups) returns (ok: bool)
      modifies this, db
      ensures !ok ==> repo == old(repo) && user == old(user) && db.repo == old(db.repo) && db.user == old(db.user)
      ensures ok <==> db.faults == old(db.faults)
      ensures ok ==> repo == map[] && user == map[]
      ensures ok ==> forall k :: At(db.repo, k) == Plus(old(At(db.repo, k)), old(At(repo, k)))
      ensures ok ==> forall k :: At(db.user, k) == Plus(old(At(db.user, k)), old(At(user, k)))
    {
      var repoRows, userRows;
      repo, repoRows := Drain(repo);
      user, userRows := Drain(user);
      ok := db.FlushBatch(repoRows, userRows);
      if ok {
        forall k ensures At(db.repo, k) == Plus(old(At(db.repo, k)), old(At(repo, k)))
                      && At(db.user, k) == Plus(old(At(db.user, k)), old(At(user, k))) {
          ListedAt(repoRows, old(repo), old(db.repo), k);
          ListedAt(userRows, old(user), old(db.user), k);
        }
      } else {
        repo := Requeue(repo, repoRows);
        user := Requeue(user, userRows);
      }
    }
  }
}
