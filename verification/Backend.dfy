/** The SQLite mirror: a table keyed by key, with an expiry column. */
module Backend {
  import opened Values
  import opened Expiry
  import opened Engine

  class SQLiteBackend {
    var table: Table

    constructor ()
      ensures table == map[]
    {
      table := map[];
    }

    /** `SELECT ... FROM nimbuskv_kv`: every row once, in whatever order. */
    method SelectRows() returns (rows: seq<(Key, Row)>)
      ensures Lists(rows, table)
    {
      rows := [];
      var left := table.Keys;
      while left != {}
        invariant left <= table.Keys
        invariant forall i, j :: 0 <= i < j < |rows| ==> rows[i].0 != rows[j].0
        invariant forall i :: 0 <= i < |rows| ==> rows[i].0 in table && rows[i].0 !in left && table[rows[i].0] == rows[i].1
        invariant forall k :: k in table && k !in left ==> exists i :: 0 <= i < |rows| && rows[i].0 == k
        decreases left
      {
        var key :| key in left;
        ghost var before := rows;
        rows := rows + [(key, table[key])];
        left := left - {key};
        assert rows[|before|].0 == key;
        assert forall i :: 0 <= i < |before| ==> rows[i] == before[i];
      }
    }

    /** The rows still live, in the order selected; the dead ones are deleted. */
    method LoadAll(now: Time) returns (out: seq<(Key, Row)>)
      modifies this
      ensures table == Purged(old(table), now)
      ensures Lists(out, Purged(old(table), now))
    {
      var rows := SelectRows();
      out := [];
      var expired: set<Key> := {};
      for i := 0 to |rows|
        invariant out == LiveOf(rows[..i], now)
        invariant expired == DeadKeys(rows[..i], now)
      {
        assert rows[..i + 1][..i] == rows[..i];
        if rows[i].1.expireAt.Some? && rows[i].1.expireAt.value <= now {
          expired := expired + {rows[i].0};
        } else {
          out := out + [rows[i]];
        }
      }
      assert rows[..|rows|] == rows;
      LoadIsPurge(rows, table, now);
      table := table - expired;
    }

    method PersistSet(key: Key, value: Value, expireAt: Option<Time>)
      modifies this
      ensures table == old(table)[key := Row(value, expireAt)]
    {
      table := table[key := Row(value, expireAt)];
    }

    method PersistDelete(key: Key)
      modifies this
      ensures table == old(table) - {key}
    {
      table := table - {key};
    }
  }

  function LiveOf(rows: seq<(Key, Row)>, now: Time): seq<(Key, Row)> {
    if rows == [] then []
    else
      var n := |rows| - 1;
      LiveOf(rows[..n], now) + if IsLive(rows[n].1, now) then [rows[n]] else []
  }

  function DeadKeys(rows: seq<(Key, Row)>, now: Time): set<Key> {
    if rows == [] then {}
    else
      var n := |rows| - 1;
      DeadKeys(rows[..n], now) + if IsLive(rows[n].1, now) then {} else {rows[n].0}
  }

  lemma {:induction false} LiveMembers(rows: seq<(Key, Row)>, now: Time, x: (Key, Row))
    ensures x in LiveOf(rows, now) <==> x in rows && IsLive(x.1, now)
    ensures x.0 in DeadKeys(rows, now) <==> exists i :: 0 <= i < |rows| && rows[i].0 == x.0 && !IsLive(rows[i].1, now)
  {
    if rows != [] {
      var n := |rows| - 1;
      LiveMembers(rows[..n], now, x);
      assert forall y :: y in rows <==> y in rows[..n] || y == rows[n];
    }
  }

  lemma {:induction false} LiveKeysDiffer(rows: seq<(Key, Row)>, now: Time)
    requires forall i, j :: 0 <= i < j < |rows| ==> rows[i].0 != rows[j].0
    ensures var live := LiveOf(rows, now); forall i, j :: 0 <= i < j < |live| ==> live[i].0 != live[j].0
  {
    if rows != [] {
      var n := |rows| - 1;
      var front := LiveOf(rows[..n], now);
      LiveKeysDiffer(rows[..n], now);
      forall i | 0 <= i < |front| ensures front[i].0 != rows[n].0 {
        LiveMembers(rows[..n], now, front[i]);
      }
    }
  }

  /** Splitting the rows on `expire_at <= now` returns the live table and deletes the rest. */
  lemma LoadIsPurge(rows: seq<(Key, Row)>, table: Table, now: Time)
    requires Lists(rows, table)
    ensures table - DeadKeys(rows, now) == Purged(table, now)
    ensures Lists(LiveOf(rows, now), Purged(table, now))
  {
    var live := LiveOf(rows, now);
    LiveKeysDiffer(rows, now);
    forall k ensures k in table - DeadKeys(rows, now) <==> k in Purged(table, now) {
      if k in table { LiveMembers(rows, now, (k, table[k])); }
    }
    forall i | 0 <= i < |live| ensures live[i].0 in Purged(table, now) && Purged(table, now)[live[i].0] == live[i].1 {
      LiveMembers(rows, now, live[i]);
    }
    forall k | k in Purged(table, now) ensures exists i :: 0 <= i < |live| && live[i].0 == k {
      LiveMembers(rows, now, (k, table[k]));
      var i :| 0 <= i < |rows| && rows[i].0 == k;
      assert rows[i] == (k, table[k]);
      assert (k, table[k]) in live;
    }
  }
}
