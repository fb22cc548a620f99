/** Keys, values and the immutable maps the store is built from. */
module Values {

  type Key = string

  /** A Python object: `None`, or any other object (numbers stand for all of them). */
  datatype Value = Null | Obj(n: int)

  datatype Option<+T> = None | Some(value: T)

  /** What one immutable map object holds. */
  type Contents = map<Key, Value>

  function Lookup(m: Contents, k: Key): Option<Value> {
    if k in m then Some(m[k]) else None
  }

  /** `m.get(k, default)`. */
  function GetOr(m: Contents, k: Key, default: Value): Value {
    if k in m then m[k] else default
  }

  /** `store.get(k)`: a missing key reads as `None`. */
  function Get(m: Contents, k: Key): Value {
    GetOr(m, k, Null)
  }

  /** A Python dict: pairs in insertion order, no key twice. */
  predicate DistinctKeys(d: seq<(Key, Value)>) {
    forall i, j :: 0 <= i < j < |d| ==> d[i].0 != d[j].0
  }

  type Dict = d: seq<(Key, Value)> | DistinctKeys(d)

  function AsMap(d: seq<(Key, Value)>): Contents {
    if d == [] then map[] else map[d[0].0 := d[0].1] + AsMap(d[1..])
  }

  /** The loop inside `mset`'s transaction: one `m.set` per pair. */
  function SetAll(m: Contents, d: seq<(Key, Value)>): Contents
    decreases |d|
  {
    if d == [] then m else SetAll(m[d[0].0 := d[0].1], d[1..])
  }

  /** The transaction of `mset` is one override of the whole map. */
  lemma {:induction false} SetAllIsOverride(m: Contents, d: seq<(Key, Value)>)
    ensures SetAll(m, d) == m + AsMap(d)
    decreases |d|
  {
    if d != [] {
      SetAllIsOverride(m[d[0].0 := d[0].1], d[1..]);
    }
  }

  lemma {:induction false} AsMapKeys(d: seq<(Key, Value)>, k: Key)
    ensures k in AsMap(d) <==> exists i :: 0 <= i < |d| && d[i].0 == k
  {
    if d != [] {
      AsMapKeys(d[1..], k);
      if j :| 0 <= j < |d[1..]| && d[1..][j].0 == k {
        assert d[j + 1].0 == k;
      }
      if i :| 0 <= i < |d| && d[i].0 == k && i != 0 {
        assert d[1..][i - 1].0 == k;
      }
    }
  }

  /** In a dict every pair is what the map holds at its key. */
  lemma {:induction false} AsMapAt(d: Dict, i: nat)
    requires i < |d|
    ensures d[i].0 in AsMap(d) && AsMap(d)[d[i].0] == d[i].1
  {
    AsMapKeys(d[1..], d[0].0);
    if i > 0 {
      assert d[1..][i - 1] == d[i];
      AsMapAt(d[1..], i - 1);
    }
  }

  /** A transaction's loop, cut after its last pair. */
  lemma {:induction false} SetAllSnoc(m: Contents, d: seq<(Key, Value)>, k: Key, v: Value)
    ensures SetAll(m, d + [(k, v)]) == SetAll(m, d)[k := v]
    decreases |d|
  {
    if d == [] {
      assert d + [(k, v)] == [(k, v)];
      assert SetAll(m[k := v], []) == m[k := v];
    } else {
      assert (d + [(k, v)])[1..] == d[1..] + [(k, v)];
      SetAllSnoc(m[d[0].0 := d[0].1], d[1..], k, v);
    }
  }
}
