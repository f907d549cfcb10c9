/** `_data_records`, the identity-keyed store of a regional data model: a `dict` from
    record key to record, which remembers the order keys were first inserted in. The
    key of a record is given by a key function (`record_hash` in the client). */
module RecordStore {
  import opened Wrappers
  import opened Ordering
  import opened Records

  /** The records by key, and the keys in first-insertion order. */
  datatype Store = Store(records: map<string, Record>, order: seq<string>)

  /** The order lists each stored key exactly once. */
  predicate Consistent(s: Store) {
    Distinct(s.order) &&
    (forall k :: k in s.records ==> k in s.order) &&
    (forall k :: k in s.order ==> k in s.records)
  }

  /** Every record is stored under its own key. */
  predicate Keyed(s: Store, key: Record -> string) {
    forall k :: k in s.records ==> key(s.records[k]) == k
  }

  /** `list(d.values())`: the records in the order their keys were first inserted,
      the i-th record being the one under the i-th key. */
  function InOrder(s: Store, key: Record -> string): (rs: seq<Record>)
    requires Consistent(s) && Keyed(s, key)
    ensures |rs| == |s.order|
    ensures forall i :: 0 <= i < |rs| ==> key(rs[i]) == s.order[i]
    ensures forall i :: 0 <= i < |rs| ==> s.order[i] in s.records && rs[i] == s.records[s.order[i]]
  {
    seq(|s.order|, i requires 0 <= i < |s.order| && s.order[i] in s.records => s.records[s.order[i]])
  }

  /** No two listed records share a key. */
  lemma InOrderDistinctKeys(s: Store, key: Record -> string)
    requires Consistent(s) && Keyed(s, key)
    ensures var rs := InOrder(s, key);
      forall i, j :: 0 <= i < j < |rs| ==> key(rs[i]) != key(rs[j])
  {
  }

  /** `d.update({k: r})`: a new key goes last, an existing key keeps its place and
      takes the new record. */
  function Upsert(s: Store, k: string, r: Record): (t: Store)
    ensures s.order <= t.order
    ensures t.records.Keys == s.records.Keys + {k}
  {
    Store(s.records[k := r], if k in s.records then s.order else s.order + [k])
  }

  /** The store after upserting each record of `rs` under its key, in order. Nothing is
      ever deleted and nothing moves: the old order is a prefix of the new one. */
  function UpsertAll(s: Store, rs: seq<Record>, key: Record -> string): (t: Store)
    ensures s.order <= t.order
    ensures s.order != [] ==> t.order[0] == s.order[0]
    decreases |rs|
  {
    if rs == [] then s
    else UpsertAll(Upsert(s, key(rs[0]), rs[0]), rs[1..], key)
  }

  /** The keys stored after a batch are the old ones and those of the batch. */
  lemma {:induction false} UpsertAllKeys(s: Store, rs: seq<Record>, key: Record -> string)
    ensures UpsertAll(s, rs, key).records.Keys == s.records.Keys + set r | r in rs :: key(r)
    decreases |rs|
  {
    if rs != [] {
      assert (set r | r in rs :: key(r)) ==
        {key(rs[0])} + set r | r in rs[1..] :: key(r);
      UpsertAllKeys(Upsert(s, key(rs[0]), rs[0]), rs[1..], key);
    }
  }

  /** Upserting keeps the order listing each stored key exactly once. */
  lemma {:induction false} UpsertAllConsistent(s: Store, rs: seq<Record>, key: Record -> string)
    requires Consistent(s)
    ensures Consistent(UpsertAll(s, rs, key))
    decreases |rs|
  {
    if rs != [] {
      var k := key(rs[0]);
      var t := Upsert(s, k, rs[0]);
      assert Consistent(t) by {
        if k !in s.records {
          assert forall i :: 0 <= i < |s.order| ==> t.order[i] == s.order[i] != k;
        }
      }
      UpsertAllConsistent(t, rs[1..], key);
    }
  }

  /** The last record of `rs` whose key is `k`. */
  function LastWithKey(rs: seq<Record>, k: string, key: Record -> string): (r: Option<Record>)
    ensures r.Some? <==> exists i :: 0 <= i < |rs| && key(rs[i]) == k
    ensures r.Some? ==> r.value in rs && key(r.value) == k
  {
    if rs == [] then None
    else if key(rs[|rs| - 1]) == k then Some(rs[|rs| - 1])
    else
      var earlier := LastWithKey(rs[..|rs| - 1], k, key);
      assert forall i :: 0 <= i < |rs| - 1 ==> rs[..|rs| - 1][i] == rs[i];
      earlier
  }

  lemma UpsertAllSnoc(s: Store, rs: seq<Record>, r: Record, key: Record -> string)
    ensures UpsertAll(s, rs + [r], key) == Upsert(UpsertAll(s, rs, key), key(r), r)
    decreases |rs|
  {
    if rs == [] {
      assert [r][1..] == [];
    } else {
      assert (rs + [r])[1..] == rs[1..] + [r];
      UpsertAllSnoc(Upsert(s, key(rs[0]), rs[0]), rs[1..], r, key);
    }
  }

  /** Upserting records `k` on is upserting record `k`, then those after it. */
  lemma UpsertAllStep(s: Store, rs: seq<Record>, k: nat, key: Record -> string)
    requires k < |rs|
    ensures UpsertAll(s, rs[k..], key) == UpsertAll(Upsert(s, key(rs[k]), rs[k]), rs[k + 1..], key)
  {
    assert rs[k..][1..] == rs[k + 1..];
  }

  /** Upserting two batches one after the other is upserting them together. */
  lemma {:induction false} UpsertAllAppend(s: Store, a: seq<Record>, b: seq<Record>, key: Record -> string)
    ensures UpsertAll(UpsertAll(s, a, key), b, key) == UpsertAll(s, a + b, key)
    decreases |a|
  {
    if a == [] {
      assert a + b == b;
    } else {
      assert (a + b)[0] == a[0];
      assert (a + b)[1..] == a[1..] + b;
      UpsertAllAppend(Upsert(s, key(a[0]), a[0]), a[1..], b, key);
    }
  }

  /** Last write wins: after the batch a key holds the last record of the batch with
      that key, or what it held before if the batch has none. */
  lemma {:induction false} UpsertAllLookup(s: Store, rs: seq<Record>, k: string, key: Record -> string)
    ensures var t := UpsertAll(s, rs, key);
      k in t.records <==> k in s.records || LastWithKey(rs, k, key).Some?
    ensures var t := UpsertAll(s, rs, key);
      k in t.records ==>
        t.records[k] == if LastWithKey(rs, k, key).Some? then LastWithKey(rs, k, key).value
                        else s.records[k]
    decreases |rs|
  {
    if rs != [] {
      var init := rs[..|rs| - 1];
      var last := rs[|rs| - 1];
      assert rs == init + [last];
      UpsertAllSnoc(s, init, last, key);
      UpsertAllLookup(s, init, k, key);
    }
  }

  /** Records stay under their own keys. */
  lemma {:induction false} UpsertAllKeyed(s: Store, rs: seq<Record>, key: Record -> string)
    requires Keyed(s, key)
    ensures Keyed(UpsertAll(s, rs, key), key)
  {
    var t := UpsertAll(s, rs, key);
    forall k | k in t.records ensures key(t.records[k]) == k {
      UpsertAllLookup(s, rs, k, key);
    }
  }

  lemma {:induction false} DistinctCardinality<T>(s: seq<T>)
    requires Distinct(s)
    ensures |set x | x in s| == |s|
  {
    if s != [] {
      assert Distinct(s[1..]) by {
        forall i, j | 0 <= i < j < |s| - 1 ensures s[1..][i] != s[1..][j] {
          assert s[1..][i] == s[i + 1] && s[1..][j] == s[j + 1];
        }
      }
      DistinctCardinality(s[1..]);
      assert s[0] !in s[1..] by {
        forall i | 0 <= i < |s| - 1 ensures s[1..][i] != s[0] {
          assert s[1..][i] == s[i + 1];
        }
      }
      assert (set x | x in s) == {s[0]} + set x | x in s[1..];
    }
  }

  /** `len(_data_records)` is the number of distinct keys: one per listed key. */
  lemma CountIsDistinctKeys(s: Store)
    requires Consistent(s)
    ensures |s.records| == |s.order|
  {
    DistinctCardinality(s.order);
    assert s.records.Keys == set x | x in s.order;
  }

  /** Storing the same batch a second time changes nothing. */
  lemma UpsertAllIdempotent(s: Store, rs: seq<Record>, key: Record -> string)
    ensures UpsertAll(UpsertAll(s, rs, key), rs, key) == UpsertAll(s, rs, key)
  {
    var t := UpsertAll(s, rs, key);
    var u := UpsertAll(t, rs, key);
    UpsertAllKeys(s, rs, key);
    UpsertAllKeys(t, rs, key);
    forall k | k in u.records ensures k in t.records && u.records[k] == t.records[k] {
      UpsertAllLookup(t, rs, k, key);
      UpsertAllLookup(s, rs, k, key);
    }
    assert u.records == t.records;
    UpsertAllNoNewKeys(t, rs, key);
  }

  /** A batch whose keys are all stored already leaves the order alone. */
  lemma {:induction false} UpsertAllNoNewKeys(s: Store, rs: seq<Record>, key: Record -> string)
    requires forall r :: r in rs ==> key(r) in s.records
    ensures UpsertAll(s, rs, key).order == s.order
    decreases |rs|
  {
    if rs != [] {
      UpsertAllNoNewKeys(Upsert(s, key(rs[0]), rs[0]), rs[1..], key);
    }
  }
}
