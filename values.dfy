/** The Python values the client handles: JSON-shaped data, the `dict`s built from it
    (an association list, so that the insertion order Python keeps is kept here) and
    pydantic model instances, together with Python truthiness and `model_dump`. */
module Values {
  import opened Wrappers

  /** A Python value. `Dict` is a plain `dict`; `Obj` is a pydantic model instance,
      whose fields are listed in declaration order. */
  datatype Value =
    | Null
    | Bool(b: bool)
    | Int(i: int)
    | Str(s: string)
    | List(items: seq<Value>)
    | Dict(entries: seq<(string, Value)>)
    | Obj(fields: seq<(string, Value)>)

  type Entries = seq<(string, Value)>

  /** `bool(v)`: `None`, `False`, `0`, `""` and empty containers are falsy; a
      pydantic model instance is always truthy. */
  predicate Truthy(v: Value) {
    match v
    case Null => false
    case Bool(b) => b
    case Int(i) => i != 0
    case Str(s) => s != []
    case List(xs) => xs != []
    case Dict(es) => es != []
    case Obj(_) => true
  }

  function KeySet(d: Entries): set<string> {
    set i | 0 <= i < |d| :: d[i].0
  }

  lemma KeySetCons(x: (string, Value), d: Entries)
    ensures KeySet([x] + d) == {x.0} + KeySet(d)
  {
    var xd := [x] + d;
    forall y | y in KeySet(xd) ensures y in {x.0} + KeySet(d) {
      var i :| 0 <= i < |xd| && xd[i].0 == y;
      if i > 0 { assert d[i - 1] == xd[i]; }
    }
    forall y | y in {x.0} + KeySet(d) ensures y in KeySet(xd) {
      if y == x.0 {
        assert xd[0].0 == y;
      } else {
        var i :| 0 <= i < |d| && d[i].0 == y;
        assert xd[i + 1] == d[i];
      }
    }
  }

  predicate DistinctKeys(d: Entries) {
    forall i, j :: 0 <= i < j < |d| ==> d[i].0 != d[j].0
  }

  /** `d.get(k)`. */
  function Get(d: Entries, k: string): (r: Option<Value>)
    ensures r.Some? <==> k in KeySet(d)
  {
    if d == [] then None
    else if d[0].0 == k then Some(d[0].1)
    else
      assert KeySet(d) == {d[0].0} + KeySet(d[1..]);
      Get(d[1..], k)
  }

  /** `d[k] = v`: an existing key keeps its position, a new key goes last. */
  function Put(d: Entries, k: string, v: Value): (r: Entries)
    ensures KeySet(r) == KeySet(d) + {k}
    ensures |r| == if k in KeySet(d) then |d| else |d| + 1
    ensures d <= r || |r| == |d|
  {
    if d == [] then
      KeySetCons((k, v), []);
      [(k, v)]
    else
      assert d == [d[0]] + d[1..];
      KeySetCons(d[0], d[1..]);
      if d[0].0 == k then
        KeySetCons((k, v), d[1..]);
        [(k, v)] + d[1..]
      else
        var rest := Put(d[1..], k, v);
        KeySetCons(d[0], rest);
        [d[0]] + rest
  }

  /** `d.update(kvs)` for the pairs of `kvs` in order. */
  function PutAll(d: Entries, kvs: Entries): (r: Entries)
    ensures KeySet(r) == KeySet(d) + KeySet(kvs)
    decreases |kvs|
  {
    if kvs == [] then d
    else
      assert KeySet(kvs) == {kvs[0].0} + KeySet(kvs[1..]);
      PutAll(Put(d, kvs[0].0, kvs[0].1), kvs[1..])
  }

  /** The value the last pair for `k` in `kvs` carries. */
  function LastFor(kvs: Entries, k: string): (r: Option<Value>)
    ensures r.Some? <==> k in KeySet(kvs)
    decreases |kvs|
  {
    if kvs == [] then None
    else
      assert KeySet(kvs) == {kvs[0].0} + KeySet(kvs[1..]);
      var later := LastFor(kvs[1..], k);
      if later.Some? then later
      else if kvs[0].0 == k then Some(kvs[0].1)
      else None
  }

  /** Reading a key right after writing it gives what was written; other keys keep
      their values. */
  lemma {:induction false} GetPut(d: Entries, k: string, v: Value, k': string)
    ensures Get(Put(d, k, v), k') == if k' == k then Some(v) else Get(d, k')
  {
    if d != [] && d[0].0 != k {
      GetPut(d[1..], k, v, k');
    }
  }

  /** After `d.update(kvs)` a key holds the last value `kvs` gives it, or its old
      value if `kvs` does not mention it. */
  lemma {:induction false} GetPutAll(d: Entries, kvs: Entries, k: string)
    ensures Get(PutAll(d, kvs), k) == if k in KeySet(kvs) then LastFor(kvs, k) else Get(d, k)
    decreases |kvs|
  {
    if kvs != [] {
      assert KeySet(kvs) == {kvs[0].0} + KeySet(kvs[1..]);
      GetPutAll(Put(d, kvs[0].0, kvs[0].1), kvs[1..], k);
      GetPut(d, kvs[0].0, kvs[0].1, k);
    }
  }

  /** Without duplicate keys the last pair for a key is the only one. */
  lemma {:induction false} LastForDistinct(kvs: Entries, k: string)
    requires DistinctKeys(kvs)
    ensures LastFor(kvs, k) == Get(kvs, k)
    decreases |kvs|
  {
    if kvs != [] {
      assert DistinctKeys(kvs[1..]) by {
        forall i, j | 0 <= i < j < |kvs| - 1 ensures kvs[1..][i].0 != kvs[1..][j].0 {
          assert kvs[1..][i] == kvs[i + 1] && kvs[1..][j] == kvs[j + 1];
        }
      }
      LastForDistinct(kvs[1..], k);
      if kvs[0].0 == k {
        assert k !in KeySet(kvs[1..]) by {
          forall i | 0 <= i < |kvs| - 1 ensures kvs[1..][i].0 != k {
            assert kvs[1..][i] == kvs[i + 1];
          }
        }
      }
    }
  }

  /** Writing never creates a second entry for a key. */
  lemma {:induction false} PutDistinct(d: Entries, k: string, v: Value)
    requires DistinctKeys(d)
    ensures DistinctKeys(Put(d, k, v))
  {
    if d != [] && d[0].0 != k {
      assert KeySet(d) == {d[0].0} + KeySet(d[1..]);
      PutDistinct(d[1..], k, v);
      var rest := Put(d[1..], k, v);
      forall i | 0 <= i < |d[1..]| ensures d[1..][i].0 != d[0].0 {
        assert d[1..][i] == d[i + 1];
      }
      assert d[0].0 !in KeySet(d[1..]);
      forall i, j | 0 <= i < j < |[d[0]] + rest| ensures ([d[0]] + rest)[i].0 != ([d[0]] + rest)[j].0 {
        if i == 0 {
          assert rest[j - 1].0 in KeySet(rest);
        }
      }
    } else if d != [] {
      forall i, j | 0 <= i < j < |d| ensures Put(d, k, v)[i].0 != Put(d, k, v)[j].0 {
        assert Put(d, k, v)[j].0 == d[j].0;
      }
    }
  }

  lemma {:induction false} PutAllDistinct(d: Entries, kvs: Entries)
    requires DistinctKeys(d)
    ensures DistinctKeys(PutAll(d, kvs))
    decreases |kvs|
  {
    if kvs != [] {
      PutDistinct(d, kvs[0].0, kvs[0].1);
      PutAllDistinct(Put(d, kvs[0].0, kvs[0].1), kvs[1..]);
    }
  }

  /** `model_dump()`: model instances become plain dicts, all the way down. */
  function Dump(v: Value): (r: Value)
    ensures v.Obj? || v.Dict? <==> r.Dict?
    ensures v.List? <==> r.List?
    ensures !(v.Obj? || v.Dict? || v.List?) ==> r == v
    decreases v
  {
    match v
    case Obj(fs) => Dict(seq(|fs|, i requires 0 <= i < |fs| => (fs[i].0, Dump(fs[i].1))))
    case Dict(es) => Dict(seq(|es|, i requires 0 <= i < |es| => (es[i].0, Dump(es[i].1))))
    case List(xs) => List(seq(|xs|, i requires 0 <= i < |xs| => Dump(xs[i])))
    case _ => v
  }

  /** A dumped value holds no model instance any more. */
  predicate Plain(v: Value)
    decreases v
  {
    match v
    case Obj(_) => false
    case Dict(es) => forall i :: 0 <= i < |es| ==> Plain(es[i].1)
    case List(xs) => forall i :: 0 <= i < |xs| ==> Plain(xs[i])
    case _ => true
  }

  lemma {:induction false} DumpPlain(v: Value)
    ensures Plain(Dump(v))
    decreases v
  {
    match v
    case Obj(fs) =>
      forall i | 0 <= i < |fs| ensures Plain(Dump(v).entries[i].1) { DumpPlain(fs[i].1); }
    case Dict(es) =>
      forall i | 0 <= i < |es| ensures Plain(Dump(v).entries[i].1) { DumpPlain(es[i].1); }
    case List(xs) =>
      forall i | 0 <= i < |xs| ensures Plain(Dump(v).items[i]) { DumpPlain(xs[i]); }
    case _ =>
  }
}
