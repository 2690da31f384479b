/** A Room table as an immutable value: a map from primary key to row. The
    operations here are the ones every DAO shares: insert-or-replace, delete,
    `MAX(column)`, `COUNT(*)`, `SUM(column)`, `WHERE column = :key` and
    `SELECT *` listings. */
module Tables {
  import opened Wrappers
  import opened Sorting

  /** Every row is stored under its own primary key: the table never holds two
      rows with one key. */
  ghost predicate KeyedBy<K, V>(t: map<K, V>, key: V -> K) {
    forall k :: k in t ==> key(t[k]) == k
  }

  /** Row `i` is the last one in `rows` with its key. */
  ghost predicate LastWithKey<K, V>(rows: seq<V>, key: V -> K, i: int)
    requires 0 <= i < |rows|
  {
    forall j :: i < j < |rows| ==> key(rows[j]) != key(rows[i])
  }

  function KeySet<K, V>(rows: seq<V>, key: V -> K): set<K> {
    set i | 0 <= i < |rows| :: key(rows[i])
  }

  /** Rearranging rows does not change the set of their keys. */
  lemma KeySetOfPermutation<K, V>(a: seq<V>, b: seq<V>, key: V -> K)
    requires multiset(a) == multiset(b)
    ensures KeySet(a, key) == KeySet(b, key)
  {
    forall k | k in KeySet(a, key) ensures k in KeySet(b, key) {
      var i :| 0 <= i < |a| && key(a[i]) == k;
      assert a[i] in multiset(b);
      var j :| 0 <= j < |b| && b[j] == a[i];
    }
    forall k | k in KeySet(b, key) ensures k in KeySet(a, key) {
      var i :| 0 <= i < |b| && key(b[i]) == k;
      assert b[i] in multiset(a);
      var j :| 0 <= j < |a| && a[j] == b[i];
    }
  }

  /** `@Insert(onConflict = REPLACE)` of one row. */
  function Upsert<K, V>(t: map<K, V>, row: V, key: V -> K): (r: map<K, V>)
    ensures KeyedBy(t, key) ==> KeyedBy(r, key)
    ensures key(row) in r && r[key(row)] == row
    ensures r.Keys == t.Keys + {key(row)}
    ensures forall k :: k in t && k != key(row) ==> r[k] == t[k]
  {
    t[key(row) := row]
  }

  /** `@Insert(onConflict = REPLACE)` of a list: rows are written in order, so a
      later row replaces an earlier one with the same key. */
  function UpsertAll<K, V>(t: map<K, V>, rows: seq<V>, key: V -> K): (r: map<K, V>)
    ensures KeyedBy(t, key) ==> KeyedBy(r, key)
    ensures r.Keys == t.Keys + KeySet(rows, key)
    ensures forall k :: k in t && k !in KeySet(rows, key) ==> r[k] == t[k]
    ensures forall i :: 0 <= i < |rows| && LastWithKey(rows, key, i) ==> r[key(rows[i])] == rows[i]
    decreases |rows|
  {
    if |rows| == 0 then t
    else
      var rest := UpsertAll(Upsert(t, rows[0], key), rows[1..], key);
      assert KeySet(rows, key) == {key(rows[0])} + KeySet(rows[1..], key) by {
        forall k | k in KeySet(rows, key) ensures k in {key(rows[0])} + KeySet(rows[1..], key) {
          var i :| 0 <= i < |rows| && key(rows[i]) == k;
          if i > 0 { assert rows[1..][i - 1] == rows[i]; }
        }
        forall k | k in KeySet(rows[1..], key) ensures k in KeySet(rows, key) {
          var i :| 0 <= i < |rows[1..]| && key(rows[1..][i]) == k;
          assert rows[i + 1] == rows[1..][i];
        }
      }
      assert forall i :: 1 <= i < |rows| && LastWithKey(rows, key, i) ==> LastWithKey(rows[1..], key, i - 1);
      assert LastWithKey(rows, key, 0) ==> key(rows[0]) !in KeySet(rows[1..], key);
      rest
  }

  /** The position of the last row with key `k`. */
  lemma LastIndex<K, V>(rows: seq<V>, key: V -> K, k: K) returns (i: int)
    requires k in KeySet(rows, key)
    ensures 0 <= i < |rows| && key(rows[i]) == k && LastWithKey(rows, key, i)
  {
    var w :| 0 <= w < |rows| && key(rows[w]) == k;
    i := |rows| - 1;
    while key(rows[i]) != k
      invariant w <= i < |rows|
      invariant forall m :: i < m < |rows| ==> key(rows[m]) != k
      decreases i
    {
      i := i - 1;
    }
  }

  /** After a batch upsert every touched key holds one of the batch's rows and
      every other key its old row. */
  lemma UpsertAllRowsFrom<K, V>(t: map<K, V>, rows: seq<V>, key: V -> K)
    ensures var r := UpsertAll(t, rows, key);
      forall k :: k in r ==> if k in KeySet(rows, key) then r[k] in rows else r[k] == t[k]
  {
    var r := UpsertAll(t, rows, key);
    forall k | k in r && k in KeySet(rows, key) ensures r[k] in rows {
      var i := LastIndex(rows, key, k);
    }
  }

  /** A batch whose keys are all absent from the table adds its rows and
      leaves every stored row as it was. */
  lemma UpsertAllNewKeys<K, V>(t: map<K, V>, rows: seq<V>, key: V -> K)
    requires forall v :: v in rows ==> key(v) !in t
    ensures var r := UpsertAll(t, rows, key);
      && (forall k :: k in t ==> k in r && r[k] == t[k])
      && (forall k :: k in r && k !in t ==> r[k] in rows)
      && (forall v :: v in rows ==> key(v) in r)
  {
    UpsertAllRowsFrom(t, rows, key);
    forall v | v in rows ensures key(v) in KeySet(rows, key) {
      var i :| 0 <= i < |rows| && rows[i] == v;
    }
  }

  /** Writing the same rows twice leaves the table as writing them once. */
  lemma UpsertAllIdempotent<K, V>(t: map<K, V>, rows: seq<V>, key: V -> K)
    ensures UpsertAll(UpsertAll(t, rows, key), rows, key) == UpsertAll(t, rows, key)
  {
    var once := UpsertAll(t, rows, key);
    var twice := UpsertAll(once, rows, key);
    forall k | k in once ensures twice[k] == once[k] {
      if k in KeySet(rows, key) {
        var i := LastIndex(rows, key, k);
      }
    }
  }

  /** `map[k]`: the stored value, or null. */
  function Lookup<K, V>(t: map<K, V>, k: K): (r: Option<V>)
    ensures r.Some? <==> k in t
    ensures r.Some? ==> r.value == t[k]
  {
    if k in t then Some(t[k]) else None
  }

  /** `DELETE FROM table WHERE key = :k`. */
  function Remove<K, V>(t: map<K, V>, k: K): (r: map<K, V>)
    ensures k !in r
    ensures r.Keys == t.Keys - {k}
    ensures forall k' :: k' in r ==> r[k'] == t[k']
  {
    t - {k}
  }

  lemma IntSetWitness(s: set<int>)
    requires s != {}
    ensures exists x :: x in s
  {
    if forall x :: x !in s {
      assert false;
    }
  }

  lemma MapWitness<K, V>(t: map<K, V>)
    requires t != map[]
    ensures exists k :: k in t
  {
    if forall k :: k !in t {
      assert false;
    }
  }

  ghost predicate IsMax(s: set<int>, m: int) {
    m in s && forall x :: x in s ==> x <= m
  }

  lemma {:induction false} SetMaxExists(s: set<int>)
    requires s != {}
    ensures exists m :: IsMax(s, m)
    decreases |s|
  {
    IntSetWitness(s);
    var y :| y in s;
    if s == {y} {
      assert IsMax(s, y);
    } else {
      var rest := s - {y};
      SetMaxExists(rest);
      var m :| IsMax(rest, m);
      var top := if y <= m then m else y;
      forall x | x in s ensures x <= top {
        if x != y { assert x in rest; }
      }
      assert IsMax(s, top);
    }
  }

  /** A stored value is stored under some key. */
  lemma KeyOf<K, V>(t: map<K, V>, v: V) returns (k: K)
    requires v in t.Values
    ensures k in t && t[k] == v
  {
    k :| k in t && t[k] == v;
  }

  /** The largest element of a non-empty finite set. */
  function SetMax(s: set<int>): (m: int)
    requires s != {}
    ensures m in s
    ensures forall x :: x in s ==> x <= m
  {
    SetMaxExists(s);
    var m :| m in s && forall x :: x in s ==> x <= m;
    m
  }

  function Column<K, V>(t: map<K, V>, f: V -> int): set<int> {
    set k | k in t :: f(t[k])
  }

  lemma ColumnNonEmpty<K, V>(t: map<K, V>, f: V -> int)
    requires t != map[]
    ensures Column(t, f) != {}
  {
    MapWitness(t);
    var k :| k in t;
    assert f(t[k]) in Column(t, f);
  }

  /** `SELECT MAX(column) FROM table`: null exactly when the table is empty. */
  function MaxOf<K, V>(t: map<K, V>, f: V -> int): (r: Option<int>)
    ensures r.None? <==> t == map[]
    ensures r.Some? ==> exists k :: k in t && f(t[k]) == r.value
    ensures r.Some? ==> forall k :: k in t ==> f(t[k]) <= r.value
  {
    if t == map[] then None
    else
      ColumnNonEmpty(t, f);
      var m := SetMax(Column(t, f));
      assert forall k' :: k' in t ==> f(t[k']) in Column(t, f);
      Some(m)
  }

  /** `SELECT MAX(column) ... ?: 0L`: the watermark a delta import starts from. */
  function Watermark<K, V>(t: map<K, V>, f: V -> int): (w: int)
    ensures forall k :: k in t ==> f(t[k]) <= w
    ensures t == map[] ==> w == 0
    ensures t != map[] ==> exists k :: k in t && f(t[k]) == w
  {
    MaxOf(t, f).GetOr(0)
  }

  /** `SUM(column)` over a group. */
  ghost function SumOf<K, V>(t: map<K, V>, f: V -> int): int
    decreases |t|
  {
    if t == map[] then 0
    else
      MapWitness(t);
      var k :| k in t;
      assert |t - {k}| < |t| by { assert (t - {k}).Keys < t.Keys; }
      f(t[k]) + SumOf(t - {k}, f)
  }

  /** The sum does not depend on the order rows are visited. */
  lemma {:induction false} SumOfRemove<K, V>(t: map<K, V>, f: V -> int, k: K)
    requires k in t
    ensures SumOf(t, f) == f(t[k]) + SumOf(t - {k}, f)
    decreases |t|
  {
    var c :| c in t && SumOf(t, f) == f(t[c]) + SumOf(t - {c}, f);
    if c != k {
      var u := t - {c};
      assert |u| < |t| by { assert u.Keys < t.Keys; }
      SumOfRemove(u, f, k);
      var w := t - {k};
      assert |w| < |t| by { assert w.Keys < t.Keys; }
      SumOfRemove(w, f, c);
      assert u - {k} == w - {c};
    }
  }

  /** The rows whose `group` column equals `g` (`WHERE column = :g`). */
  function GroupOf<K, V>(t: map<K, V>, group: V -> string, g: string): (r: map<K, V>)
    ensures r.Keys <= t.Keys
    ensures forall k :: k in t ==> (k in r <==> group(t[k]) == g)
    ensures forall k :: k in r ==> r[k] == t[k]
  {
    map k | k in t && group(t[k]) == g :: t[k]
  }

  /** The distinct values of the `group` column (`GROUP BY column`). */
  function GroupKeys<K, V>(t: map<K, V>, group: V -> string): (r: set<string>)
    ensures forall g :: g in r <==> GroupOf(t, group, g) != map[]
  {
    var r := set k | k in t :: group(t[k]);
    assert forall g :: g in r ==> exists k :: k in t && group(t[k]) == g;
    assert forall g :: GroupOf(t, group, g) != map[] ==> g in r by {
      forall g | GroupOf(t, group, g) != map[] ensures g in r {
        MapWitness(GroupOf(t, group, g));
        var k :| k in GroupOf(t, group, g);
      }
    }
    r
  }

  /** Some listing of a finite set, each element once. */
  ghost function Enumerate<K>(s: set<K>): (r: seq<K>)
    ensures |r| == |s|
    ensures forall x :: x in r ==> x in s
    ensures forall x :: x in s ==> x in r
    ensures forall i, j :: 0 <= i < j < |r| ==> r[i] != r[j]
    decreases |s|
  {
    if s == {} then []
    else
      var x :| x in s;
      var rest := Enumerate(s - {x});
      assert forall i :: 0 <= i < |rest| ==> rest[i] != x;
      [x] + rest
  }

  /** `SELECT * FROM table` before any ORDER BY: each stored row exactly once. */
  ghost function Rows<K, V>(t: map<K, V>): (r: seq<V>)
    ensures |r| == |t|
    ensures forall v :: v in r ==> v in t.Values
    ensures forall v :: v in t.Values ==> v in r
  {
    var ks := Enumerate(t.Keys);
    var r := seq(|ks|, i requires 0 <= i < |ks| => t[ks[i]]);
    assert forall v :: v in t.Values ==> v in r by {
      forall v | v in t.Values ensures v in r {
        var k :| k in t && t[k] == v;
        var i :| 0 <= i < |ks| && ks[i] == k;
        assert r[i] == v;
      }
    }
    r
  }

  /** Rows of a keyed table are told apart by their keys. */
  lemma RowsDistinct<K, V>(t: map<K, V>, key: V -> K)
    requires KeyedBy(t, key)
    ensures DistinctBy(Rows(t), key)
  {
    var ks := Enumerate(t.Keys);
    var r := Rows(t);
    forall i, j | 0 <= i < j < |r| ensures key(r[i]) != key(r[j]) {
      // Rows(t) lists t[ks[i]] at position i.
      assert r == seq(|ks|, i requires 0 <= i < |ks| => t[ks[i]]);
    }
  }

  /** A key whose row holds the maximum (handed out as a value, which spares the
      callers a quantifier over boxed keys). */
  lemma MaxWitness<K, V>(t: map<K, V>, f: V -> int) returns (k: K)
    requires t != map[]
    ensures k in t && f(t[k]) == MaxOf(t, f).value
  {
    k :| k in t && f(t[k]) == MaxOf(t, f).value;
  }

  /** `SELECT * FROM table ORDER BY …`: each stored row once, sorted by `le`. */
  ghost function SortedRows<K, V(!new)>(t: map<K, V>, le: (V, V) -> bool): (r: seq<V>)
    requires TotalPreorder(le)
    ensures |r| == |t|
    ensures forall v :: v in r ==> v in t.Values
    ensures forall v :: v in t.Values ==> v in r
    ensures SortedBy(r, le)
  {
    SortSameElements(Rows(t), le);
    SortSorted(Rows(t), le);
    Sort(Rows(t), le)
  }

  /** Ordering the rows of a keyed table keeps them told apart by their keys. */
  lemma SortedRowsDistinct<K, V(!new)>(t: map<K, V>, le: (V, V) -> bool, key: V -> K)
    requires TotalPreorder(le)
    requires KeyedBy(t, key)
    ensures DistinctBy(SortedRows(t, le), key)
  {
    RowsDistinct(t, key);
    SortDistinct(Rows(t), le, key);
  }
}
