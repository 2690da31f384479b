/** The watermark-bounded delta import the call-log and SMS observers run after
    a change notification: read `MAX(date)` (0 for an empty table), take the
    provider rows strictly newer than it, and upsert them only when there are
    any. Generic over the row type so both observers share one proof. */
module DeltaSync {
  import opened Seqs
  import opened Sorting
  import opened Tables

  /** The candidate rows strictly newer than `since`. */
  function Newer<V>(candidates: seq<V>, date: V -> int, since: int): (r: seq<V>)
    ensures forall v :: v in r ==> v in candidates && date(v) > since
    ensures forall v :: v in candidates && date(v) > since ==> v in r
  {
    Filter(candidates, After(date, since))
  }

  /** One delta import: the new table, and whether rows were written (the
      observer's completion callback runs exactly then). */
  function Import<K, V>(t: map<K, V>, candidates: seq<V>, key: V -> K, date: V -> int): (r: (map<K, V>, bool))
    ensures r.1 <==> exists i :: 0 <= i < |candidates| && date(candidates[i]) > Watermark(t, date)
    ensures !r.1 ==> r.0 == t
    ensures KeyedBy(t, key) ==> KeyedBy(r.0, key)
    ensures forall i :: 0 <= i < |candidates| && date(candidates[i]) > Watermark(t, date) ==>
              key(candidates[i]) in r.0
    ensures forall k :: k in t && k !in KeySet(candidates, key) ==> k in r.0 && r.0[k] == t[k]
    ensures forall k :: k in r.0 ==> k in t || k in KeySet(candidates, key)
  {
    var batch := Newer(candidates, date, Watermark(t, date));
    assert forall i :: 0 <= i < |candidates| && date(candidates[i]) > Watermark(t, date) ==>
      candidates[i] in batch;
    assert KeySet(batch, key) <= KeySet(candidates, key) by {
      forall k | k in KeySet(batch, key) ensures k in KeySet(candidates, key) {
        var i :| 0 <= i < |batch| && key(batch[i]) == k;
        assert batch[i] in batch;
        var j :| 0 <= j < |candidates| && candidates[j] == batch[i];
      }
    }
    if |batch| == 0 then (t, false)
    else
      assert batch[0] in batch;
      (UpsertAll(t, batch, key), true)
  }

  /** Every row a writing import stores under a new or touched key is newer than
      the old watermark. */
  lemma WrittenRowNewer<K, V>(t: map<K, V>, candidates: seq<V>, key: V -> K, date: V -> int, k: K)
    requires Import(t, candidates, key, date).1
    requires k in KeySet(Newer(candidates, date, Watermark(t, date)), key) || (k in Import(t, candidates, key, date).0 && k !in t)
    ensures date(Import(t, candidates, key, date).0[k]) > Watermark(t, date)
  {
    var batch := Newer(candidates, date, Watermark(t, date));
    var r := Import(t, candidates, key, date).0;
    assert r == UpsertAll(t, batch, key);
    var i := LastIndex(batch, key, k);
    assert batch[i] in batch;
  }

  /** An import that writes raises the watermark strictly; one that does not
      leaves the table as it was. */
  lemma ImportRaisesWatermark<K, V>(t: map<K, V>, candidates: seq<V>, key: V -> K, date: V -> int)
    ensures var r := Import(t, candidates, key, date);
      r.1 ==> Watermark(r.0, date) > Watermark(t, date)
  {
    var r := Import(t, candidates, key, date);
    if r.1 {
      var batch := Newer(candidates, date, Watermark(t, date));
      var i :| 0 <= i < |candidates| && date(candidates[i]) > Watermark(t, date);
      assert candidates[i] in batch;
      var j :| 0 <= j < |batch| && batch[j] == candidates[i];
      var k := key(batch[j]);
      assert k in KeySet(batch, key);
      WrittenRowNewer(t, candidates, key, date, k);
    }
  }

  /** Filtering keeps keys distinct. */
  lemma {:induction false} FilterDistinct<T, K>(s: seq<T>, p: T -> bool, key: T -> K)
    requires DistinctBy(s, key)
    ensures DistinctBy(Filter(s, p), key)
    decreases |s|
  {
    if |s| > 0 {
      FilterDistinct(s[1..], p, key);
      var rest := Filter(s[1..], p);
      if p(s[0]) {
        forall k | 0 <= k < |rest| ensures key(rest[k]) != key(s[0]) {
          assert rest[k] in rest;
          var j :| 0 <= j < |s[1..]| && s[1..][j] == rest[k];
          assert s[j + 1] == rest[k];
        }
        assert Filter(s, p) == [s[0]] + rest;
      }
    }
  }

  /** With distinct provider ids, a second import of the same candidates finds
      nothing newer: it writes nothing and fires no callback. */
  lemma ImportIdempotent<K, V>(t: map<K, V>, candidates: seq<V>, key: V -> K, date: V -> int)
    requires DistinctBy(candidates, key)
    ensures var once := Import(t, candidates, key, date).0;
      Import(once, candidates, key, date) == (once, false)
  {
    var r := Import(t, candidates, key, date);
    var w0 := Watermark(t, date);
    ImportRaisesWatermark(t, candidates, key, date);
    forall i | 0 <= i < |candidates| ensures date(candidates[i]) <= Watermark(r.0, date) {
      if date(candidates[i]) > w0 {
        StoredAfterImport(t, candidates, key, date, i);
      }
    }
  }

  /** With distinct ids, every newer candidate is stored as it is. */
  lemma StoredAfterImport<K, V>(t: map<K, V>, candidates: seq<V>, key: V -> K, date: V -> int, i: int)
    requires DistinctBy(candidates, key)
    requires 0 <= i < |candidates| && date(candidates[i]) > Watermark(t, date)
    ensures var r := Import(t, candidates, key, date).0;
      key(candidates[i]) in r && r[key(candidates[i])] == candidates[i]
  {
    var batch := Newer(candidates, date, Watermark(t, date));
    FilterDistinct(candidates, After(date, Watermark(t, date)), key);
    assert candidates[i] in batch;
    var j :| 0 <= j < |batch| && batch[j] == candidates[i];
    assert LastWithKey(batch, key, j);
  }

  /** Every stored row after an import is an old row or a candidate, so a
      property all of them have survives the import. */
  lemma ImportPreserves<K, V>(t: map<K, V>, candidates: seq<V>, key: V -> K, date: V -> int, good: V -> bool)
    requires forall k :: k in t ==> good(t[k])
    requires forall i :: 0 <= i < |candidates| ==> good(candidates[i])
    ensures var r := Import(t, candidates, key, date).0;
      forall k :: k in r ==> good(r[k])
  {
    var r := Import(t, candidates, key, date);
    if r.1 {
      var batch := Newer(candidates, date, Watermark(t, date));
      assert r.0 == UpsertAll(t, batch, key);
      forall k | k in r.0 ensures good(r.0[k]) {
        if k in KeySet(batch, key) {
          var i := LastIndex(batch, key, k);
          assert batch[i] in batch;
        }
      }
    }
  }
}
