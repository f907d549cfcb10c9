/** `flatten_dict`: a nested dict becomes a single-level dict whose keys are the
    dot-joined paths to the values that are not dicts themselves. */
module Flatten {
  import opened Wrappers
  import opened Values
  import opened Text

  /** The key written for `key` one level below `prefix`: dot-joined, except that an
      empty prefix contributes nothing (the source tests the prefix for truthiness). */
  function ChildKey(prefix: string, key: string): string {
    if prefix != "" then prefix + "." + key else key
  }

  /** The key written for a leaf reached from `prefix` along `path`. */
  function PathKey(prefix: string, path: seq<string>): string
    decreases |path|
  {
    if path == [] then prefix else PathKey(ChildKey(prefix, path[0]), path[1..])
  }

  /** The (key, value) writes that flattening the entries of `d` from index `i` on
      performs under `prefix`, in the order they happen: a dict value is descended
      into, any other value (lists included) is written as it is. */
  function Leaves(d: Value, i: nat, prefix: string): (r: Entries)
    requires d.Dict? && i <= |d.entries|
    ensures forall j :: 0 <= j < |r| ==> !r[j].1.Dict?
    decreases d, |d.entries| - i
  {
    if i == |d.entries| then []
    else
      var (key, value) := d.entries[i];
      var newKey := ChildKey(prefix, key);
      (if value.Dict? then Leaves(value, 0, newKey) else [(newKey, value)]) + Leaves(d, i + 1, prefix)
  }

  /** The paths, one per leaf of `Leaves(d, i, _)` and in the same order, from `d` to
      that leaf. */
  function Paths(d: Value, i: nat): (r: seq<seq<string>>)
    requires d.Dict? && i <= |d.entries|
    decreases d, |d.entries| - i
  {
    if i == |d.entries| then []
    else
      var (key, value) := d.entries[i];
      (if value.Dict? then Prepend(key, Paths(value, 0)) else [[key]]) + Paths(d, i + 1)
  }

  function Prepend(key: string, ps: seq<seq<string>>): (r: seq<seq<string>>)
    ensures |r| == |ps|
    ensures forall j :: 0 <= j < |ps| ==> r[j] == [key] + ps[j]
  {
    seq(|ps|, j requires 0 <= j < |ps| => [key] + ps[j])
  }

  /** The value found by following `path` through nested dicts. */
  function Reach(v: Value, path: seq<string>): Option<Value>
    decreases |path|
  {
    if path == [] then Some(v)
    else if !v.Dict? then None
    else match Get(v.entries, path[0])
      case None => None
      case Some(child) => Reach(child, path[1..])
  }

  /** Every dict in `v`, at any depth, has distinct keys, as Python dicts do. */
  predicate WellFormed(v: Value)
    decreases v
  {
    v.Dict? ==>
      DistinctKeys(v.entries) &&
      forall j :: 0 <= j < |v.entries| ==> WellFormed(v.entries[j].1)
  }

  lemma {:induction false} GetAt(d: Entries, j: nat)
    requires DistinctKeys(d) && j < |d|
    ensures Get(d, d[j].0) == Some(d[j].1)
  {
    if j > 0 {
      assert d[0].0 != d[j].0;
      assert d[1..][j - 1] == d[j];
      GetAt(d[1..], j - 1);
    }
  }

  /** `leaves[j]` is written under the key of `paths[j]`, and following `paths[j]`
      from `d` reaches exactly the value written. */
  ghost predicate Follows(leaves: Entries, paths: seq<seq<string>>, d: Value, prefix: string) {
    |leaves| == |paths| &&
    forall j :: 0 <= j < |paths| ==>
      leaves[j].0 == PathKey(prefix, paths[j]) && Reach(d, paths[j]) == Some(leaves[j].1)
  }

  lemma FollowsConcat(l1: Entries, p1: seq<seq<string>>, l2: Entries, p2: seq<seq<string>>, d: Value, prefix: string)
    requires Follows(l1, p1, d, prefix) && Follows(l2, p2, d, prefix)
    ensures Follows(l1 + l2, p1 + p2, d, prefix)
  {
    forall j | 0 <= j < |p1 + p2|
      ensures (l1 + l2)[j].0 == PathKey(prefix, (p1 + p2)[j])
      ensures Reach(d, (p1 + p2)[j]) == Some((l1 + l2)[j].1)
    {
      if j >= |p1| {
        assert (l1 + l2)[j] == l2[j - |p1|] && (p1 + p2)[j] == p2[j - |p1|];
      }
    }
  }

  lemma FollowsChild(leaves: Entries, paths: seq<seq<string>>, d: Value, key: string, prefix: string)
    requires d.Dict? && Get(d.entries, key).Some?
    requires Follows(leaves, paths, Get(d.entries, key).value, ChildKey(prefix, key))
    ensures Follows(leaves, Prepend(key, paths), d, prefix)
  {
    forall j | 0 <= j < |paths|
      ensures leaves[j].0 == PathKey(prefix, Prepend(key, paths)[j])
      ensures Reach(d, Prepend(key, paths)[j]) == Some(leaves[j].1)
    {
      var p := Prepend(key, paths)[j];
      assert p[0] == key && p[1..] == paths[j];
    }
  }

  /** Each written key is the key of a path that leads, through dicts, to exactly the
      value written under it. */
  lemma {:induction false} LeavesFollowPaths(d: Value, i: nat, prefix: string)
    requires d.Dict? && i <= |d.entries| && WellFormed(d)
    ensures Follows(Leaves(d, i, prefix), Paths(d, i), d, prefix)
    decreases d, |d.entries| - i
  {
    if i < |d.entries| {
      var key, value := d.entries[i].0, d.entries[i].1;
      var newKey := ChildKey(prefix, key);
      GetAt(d.entries, i);
      LeavesFollowPaths(d, i + 1, prefix);
      LeavesStep(d, i, prefix);
      if value.Dict? {
        LeavesFollowPaths(value, 0, newKey);
        FollowsChild(Leaves(value, 0, newKey), Paths(value, 0), d, key, prefix);
        FollowsConcat(Leaves(value, 0, newKey), Prepend(key, Paths(value, 0)),
                      Leaves(d, i + 1, prefix), Paths(d, i + 1), d, prefix);
      } else {
        assert Reach(d, [key]) == Reach(value, []);
        assert PathKey(prefix, [key]) == PathKey(newKey, []);
        FollowsConcat([(newKey, value)], [[key]], Leaves(d, i + 1, prefix), Paths(d, i + 1), d, prefix);
      }
    }
  }

  /** `Get` finds the first entry under the key. */
  lemma {:induction false} GetIndex(d: Entries, k: string)
    requires Get(d, k).Some?
    ensures exists j :: 0 <= j < |d| && d[j].0 == k && d[j].1 == Get(d, k).value
  {
    if d[0].0 != k {
      GetIndex(d[1..], k);
      var j :| 0 <= j < |d[1..]| && d[1..][j].0 == k && d[1..][j].1 == Get(d[1..], k).value;
      assert d[j + 1] == d[1..][j];
    }
  }

  /** The paths of entry `j` are among the paths from every index up to `j`. */
  lemma {:induction false} EntryPathsIn(d: Value, i: nat, j: nat, p: seq<string>)
    requires d.Dict? && i <= j < |d.entries|
    requires if d.entries[j].1.Dict? then p in Prepend(d.entries[j].0, Paths(d.entries[j].1, 0))
             else p == [d.entries[j].0]
    ensures p in Paths(d, i)
    decreases j - i
  {
    if i < j {
      EntryPathsIn(d, i + 1, j, p);
    }
  }

  /** Every path through nested dicts to a value that is not a dict is one of the
      paths of `d`: no leaf is skipped. */
  lemma {:induction false} ReachedPathIsListed(d: Value, path: seq<string>, v: Value)
    requires d.Dict? && Reach(d, path) == Some(v) && !v.Dict?
    ensures path in Paths(d, 0)
    decreases d
  {
    var key := path[0];
    var child := Get(d.entries, key).value;
    GetIndex(d.entries, key);
    var j :| 0 <= j < |d.entries| && d.entries[j].0 == key && d.entries[j].1 == child;
    if child.Dict? {
      assert d.entries[j] in d.entries;
      ReachedPathIsListed(child, path[1..], v);
      var ps := Paths(child, 0);
      var m :| 0 <= m < |ps| && ps[m] == path[1..];
      assert Prepend(key, ps)[m] == [key] + path[1..] == path;
    } else {
      assert path == [key];
    }
    EntryPathsIn(d, 0, j, path);
  }

  /** Every value reached through nested dicts that is not a dict itself is written,
      under the key of its path: with `LeavesFollowPaths`, the writes are exactly the
      leaves of `d`. */
  lemma ReachedLeafIsWritten(d: Value, path: seq<string>, v: Value, prefix: string)
    requires d.Dict? && WellFormed(d) && Reach(d, path) == Some(v) && !v.Dict?
    ensures (PathKey(prefix, path), v) in Leaves(d, 0, prefix)
  {
    ReachedPathIsListed(d, path, v);
    LeavesFollowPaths(d, 0, prefix);
    var ps := Paths(d, 0);
    var m :| 0 <= m < |ps| && ps[m] == path;
    assert Leaves(d, 0, prefix)[m] == (PathKey(prefix, path), v);
  }

  /** With a non-empty prefix the written key is the plain dot-join of the prefix and
      the path. */
  lemma {:induction false} PathKeyIsDotJoin(prefix: string, path: seq<string>)
    requires prefix != ""
    ensures PathKey(prefix, path) == Join(".", [prefix] + path)
    decreases |path|
  {
    if path != [] {
      var next := prefix + "." + path[0];
      PathKeyIsDotJoin(next, path[1..]);
      if |path| == 1 {
        assert [prefix] + path == [prefix, path[0]];
        assert Join(".", [prefix, path[0]]) == prefix + "." + Join(".", [path[0]]);
      } else {
        assert ([next] + path[1..])[1..] == path[1..];
        assert ([prefix] + path)[1..] == path;
        assert path[1..] == [path[1]] + path[2..];
        assert Join(".", path) == path[0] + "." + Join(".", path[1..]);
      }
    }
  }

  /** With no prefix, a path whose first key is not empty gives its dot-join. */
  lemma TopLevelPathKeyIsDotJoin(path: seq<string>)
    requires path != [] && path[0] != ""
    ensures PathKey("", path) == Join(".", path)
  {
    PathKeyIsDotJoin(path[0], path[1..]);
    assert [path[0]] + path[1..] == path;
  }

  lemma {:induction false} PutAllAppend(d: Entries, a: Entries, b: Entries)
    ensures PutAll(PutAll(d, a), b) == PutAll(d, a + b)
    decreases |a|
  {
    if a == [] {
      assert a + b == b;
    } else {
      assert (a + b)[0] == a[0];
      assert (a + b)[1..] == a[1..] + b;
      PutAllAppend(Put(d, a[0].0, a[0].1), a[1..], b);
    }
  }

  /** The writes `flatten_dict` makes for entry `i` of `d` alone. */
  function EntryLeaves(d: Value, i: nat, prefix: string): Entries
    requires d.Dict? && i < |d.entries|
  {
    var (key, value) := d.entries[i];
    if value.Dict? then Leaves(value, 0, ChildKey(prefix, key))
    else [(ChildKey(prefix, key), value)]
  }

  /** Unfolds `Leaves` at entry `i`. */
  lemma LeavesStep(d: Value, i: nat, prefix: string)
    requires d.Dict? && i < |d.entries|
    ensures Leaves(d, i, prefix) == EntryLeaves(d, i, prefix) + Leaves(d, i + 1, prefix)
  {
  }

  /** One step of the loop of `flatten_dict` on a nested dict: writing its leaves
      under the extended prefix, then the entries after it, writes entries `i` on. */
  lemma DictStep(d: Value, i: nat, prefix: string, before: Entries, after: Entries)
    requires d.Dict? && i < |d.entries| && d.entries[i].1.Dict?
    requires after == PutAll(before, Leaves(d.entries[i].1, 0, ChildKey(prefix, d.entries[i].0)))
    ensures PutAll(after, Leaves(d, i + 1, prefix)) == PutAll(before, Leaves(d, i, prefix))
  {
    LeavesStep(d, i, prefix);
    PutAllAppend(before, EntryLeaves(d, i, prefix), Leaves(d, i + 1, prefix));
  }

  /** One step of the loop of `flatten_dict` on any other value: writing it under the
      extended key, then the entries after it, writes entries `i` on. */
  lemma LeafStep(d: Value, i: nat, prefix: string, before: Entries)
    requires d.Dict? && i < |d.entries| && !d.entries[i].1.Dict?
    ensures PutAll(Put(before, ChildKey(prefix, d.entries[i].0), d.entries[i].1), Leaves(d, i + 1, prefix))
         == PutAll(before, Leaves(d, i, prefix))
  {
    var kv := (ChildKey(prefix, d.entries[i].0), d.entries[i].1);
    LeavesStep(d, i, prefix);
    assert EntryLeaves(d, i, prefix) == [kv];
    PutAllAppend(before, [kv], Leaves(d, i + 1, prefix));
    assert [kv][1..] == [];
  }

  /** `flatten_dict(d, acc, prefix)`: writes every leaf of `d` into `acc`, descending
      into nested dicts with the extended prefix. */
  method FlattenDict(d: Value, acc: Entries, prefix: string) returns (out: Entries)
    requires d.Dict?
    ensures out == PutAll(acc, Leaves(d, 0, prefix))
    decreases d, 1
  {
    ghost var target := PutAll(acc, Leaves(d, 0, prefix));
    out := acc;
    var i := 0;
    while i < |d.entries|
      invariant 0 <= i <= |d.entries|
      invariant PutAll(out, Leaves(d, i, prefix)) == target
    {
      out := FlattenEntry(d, i, out, prefix);
      i := i + 1;
    }
  }

  /** One turn of the loop of `flatten_dict`: entry `i` of `d` is descended into when
      it is a dict, and written under its extended key otherwise. */
  method FlattenEntry(d: Value, i: nat, acc: Entries, prefix: string) returns (out: Entries)
    requires d.Dict? && i < |d.entries|
    ensures PutAll(out, Leaves(d, i + 1, prefix)) == PutAll(acc, Leaves(d, i, prefix))
    decreases d, 0
  {
    var (key, value) := d.entries[i];
    var newKey := ChildKey(prefix, key);
    if value.Dict? {
      assert d.entries[i] in d.entries;
      out := FlattenDict(value, acc, newKey);
      DictStep(d, i, prefix, acc, out);
    } else {
      LeafStep(d, i, prefix, acc);
      out := Put(acc, newKey, value);
    }
  }

  /** `flatten_dict(v, {})`. */
  function Flattened(v: Value): Entries
    requires v.Dict?
  {
    PutAll([], Leaves(v, 0, ""))
  }

  /** A flattened dict has one entry per distinct leaf key; a key written twice keeps
      the value of its last leaf, and nothing else is in it. */
  lemma FlattenedLookup(v: Value, k: string)
    requires v.Dict?
    ensures DistinctKeys(Flattened(v))
    ensures Get(Flattened(v), k) == LastFor(Leaves(v, 0, ""), k)
  {
    PutAllDistinct([], Leaves(v, 0, ""));
    GetPutAll([], Leaves(v, 0, ""), k);
  }

  /** A nested dict with nothing in it contributes no key. */
  lemma EmptyDictContributesNothing(d: Value, i: nat, prefix: string)
    requires d.Dict? && i < |d.entries| && d.entries[i].1 == Dict([])
    ensures Leaves(d, i, prefix) == Leaves(d, i + 1, prefix)
  {
  }

  /** `flatten_dict({"a": {"b": 1, "c": {"d": 2}}}, {})` is `{"a.b": 1, "a.c.d": 2}`. */
  lemma FlattenExample()
    ensures Flattened(Dict([("a", Dict([("b", Int(1)), ("c", Dict([("d", Int(2))]))]))]))
         == [("a.b", Int(1)), ("a.c.d", Int(2))]
  {
    var cd := Dict([("d", Int(2))]);
    var a := Dict([("b", Int(1)), ("c", cd)]);
    var top := Dict([("a", a)]);
    assert ChildKey("", "a") == "a";
    assert ChildKey("a", "b") == "a.b";
    assert ChildKey("a", "c") == "a.c";
    assert ChildKey("a.c", "d") == "a.c.d";
    assert Leaves(cd, 1, "a.c") == [];
    assert Leaves(cd, 0, "a.c") == [("a.c.d", Int(2))];
    assert Leaves(a, 1, "a") == [("a.c.d", Int(2))];
    assert Leaves(a, 0, "a") == [("a.b", Int(1)), ("a.c.d", Int(2))];
    var leaves := [("a.b", Int(1)), ("a.c.d", Int(2))];
    assert Leaves(top, 0, "") == leaves;
    assert Put([], "a.b", Int(1)) == [("a.b", Int(1))];
    assert Put([("a.b", Int(1))], "a.c.d", Int(2)) == leaves;
    assert PutAll([], leaves) == PutAll([("a.b", Int(1))], leaves[1..]);
  }

  /** An empty key at the top level adds no dot: `{"": {"b": 1}}` flattens to
      `{"b": 1}`, the same as `{"b": 1}` itself. */
  lemma EmptyTopLevelKeyAddsNoDot()
    ensures Flattened(Dict([("", Dict([("b", Int(1))]))])) == Flattened(Dict([("b", Int(1))]))
    ensures Flattened(Dict([("b", Int(1))])) == [("b", Int(1))]
  {
    assert Leaves(Dict([("b", Int(1))]), 0, "") == [("b", Int(1))];
    assert Leaves(Dict([("", Dict([("b", Int(1))]))]), 0, "") == [("b", Int(1))];
  }
}
