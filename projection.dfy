/** The rows `to_polars` and `full_model_to_polars` build from the stored records: the
    record's own fields, plus columns picked out of its model by dotted attribute paths
    (`to_polars`), or plus its whole model flattened (`full_model_to_polars`). */
module Projection {
  import opened Wrappers
  import opened Values
  import opened Text
  import opened Flatten
  import opened Records

  /** The fields of `RegionalDataRecord` other than `model`, in declaration order. */
  const RECORD_FIELDS: seq<string> := [
    "name", "region_type", "un_region_code", "iso_cc_2", "local_region_code",
    "local_region_code_type", "parent_region_code", "parent_region_code_type",
    "parent_region_type", "region_level", "source_name", "period", "period_type",
    "data_model_name"
  ]

  /** A `str | None` field as `model_dump` gives it. */
  function OptStr(x: Option<string>): Value {
    if x.Some? then Str(x.value) else Null
  }

  /** `record.model_dump(exclude={"model"})`; `to_polars` builds the same dict with
      `model_dump()` and `pop("model")`, as `model` is the last field. */
  function BaseRow(r: Record): (row: Entries)
    ensures |row| == |RECORD_FIELDS|
    ensures forall i :: 0 <= i < |row| ==> row[i].0 == RECORD_FIELDS[i]
  {
    [("name", OptStr(r.name)), ("region_type", OptStr(r.regionType)),
     ("un_region_code", OptStr(r.unRegionCode)), ("iso_cc_2", OptStr(r.isoCc2)),
     ("local_region_code", OptStr(r.localRegionCode)),
     ("local_region_code_type", OptStr(r.localRegionCodeType)),
     ("parent_region_code", OptStr(r.parentRegionCode)),
     ("parent_region_code_type", OptStr(r.parentRegionCodeType)),
     ("parent_region_type", OptStr(r.parentRegionType)),
     ("region_level", Int(r.regionLevel)), ("source_name", OptStr(r.sourceName)),
     ("period", OptStr(r.period)), ("period_type", OptStr(r.periodType)),
     ("data_model_name", OptStr(r.dataModelName))]
  }

  /** A record's row has one column per record field, the model excluded. */
  lemma BaseRowColumns(r: Record)
    ensures DistinctKeys(BaseRow(r))
    ensures KeySet(BaseRow(r)) == set f | f in RECORD_FIELDS
    ensures "model" !in KeySet(BaseRow(r))
  {
    var row := BaseRow(r);
    assert forall i :: 0 <= i < |RECORD_FIELDS| ==> RECORD_FIELDS[i] == row[i].0;
  }

  /** Why a convertor could not be applied. */
  datatype ProjectionError =
    | MissingAttribute(attr: string) // the model has no field named by the first step
    | NotADict(attr: string)         // a `__flatten` attribute that is not a dict or model

  const FLATTEN_MARK := "__flatten"

  /** `getattr(value, attr, None)`: a model instance's field, `None` otherwise. */
  function Attr(v: Value, attr: string): Value {
    if v.Obj? && Get(v.fields, attr).Some? then Get(v.fields, attr).value else Null
  }

  /** `for attr in attrs: value = getattr(value, attr, None)`. */
  function Walk(v: Value, attrs: seq<string>): Value
    decreases |attrs|
  {
    if attrs == [] then v else Walk(Attr(v, attrs[0]), attrs[1..])
  }

  /** Once the walk leaves the model instances it only finds `None`. */
  lemma {:induction false} WalkPastModel(v: Value, attrs: seq<string>)
    requires !v.Obj? && attrs != []
    ensures Walk(v, attrs) == Null
    decreases |attrs|
  {
    if |attrs| > 1 {
      WalkPastModel(Null, attrs[1..]);
    }
  }

  /** Following a path in two parts is following the first part, then the second. */
  lemma {:induction false} WalkAppend(v: Value, a: seq<string>, b: seq<string>)
    ensures Walk(v, a + b) == Walk(Walk(v, a), b)
    decreases |a|
  {
    if a == [] {
      assert a + b == b;
    } else {
      assert (a + b)[1..] == a[1..] + b;
      WalkAppend(Attr(v, a[0]), a[1..], b);
    }
  }

  /** `getattr(model, attrs[0])` (raising when the model has no such field) and then the
      walk along the rest of the path. */
  function Resolve(model: Entries, attrs: seq<string>): (r: Result<Value, ProjectionError>)
    requires attrs != []
    ensures r.Failure? <==> attrs[0] !in KeySet(model)
    ensures r.Failure? ==> r.error == MissingAttribute(attrs[0])
  {
    match Get(model, attrs[0])
    case None => Failure(MissingAttribute(attrs[0]))
    case Some(v) => Success(Walk(v, attrs[1..]))
  }

  /** What a `__flatten` attribute contributes: `model_dump()` of a model instance, the
      value itself otherwise. */
  function FlattenSource(v: Value): (data: Value)
    ensures v.Obj? || v.Dict? <==> data.Dict?
  {
    if v.Obj? then Dump(v) else v
  }

  /** The attribute path of a convertor, the `__flatten` marker removed. */
  function PathOf(attr: string): (attrs: seq<string>)
    ensures attrs != []
  {
    Split(Replace(attr, FLATTEN_MARK, ""), '.')
  }

  /** One `new_col: model_attr` pair of `to_polars` applied to a row: a falsy value adds
      nothing; a `__flatten` value adds its flattened keys; any other value goes under
      `new_col`. */
  function Convert(row: Entries, model: Entries, col: string, attr: string)
    : (r: Result<Entries, ProjectionError>)
    ensures r.Success? ==> KeySet(row) <= KeySet(r.value)
    ensures r.Failure? <==>
      Resolve(model, PathOf(attr)).Failure? ||
      (Contains(attr, FLATTEN_MARK) && Truthy(Resolve(model, PathOf(attr)).value) &&
       !FlattenSource(Resolve(model, PathOf(attr)).value).Dict?)
  {
    match Resolve(model, PathOf(attr))
    case Failure(e) => Failure(e)
    case Success(v) =>
      if !Truthy(v) then Success(row)
      else if Contains(attr, FLATTEN_MARK) then
        var data := FlattenSource(v);
        if data.Dict? then Success(PutAll(row, Flattened(data))) else Failure(NotADict(attr))
      else Success(Put(row, col, v))
  }

  /** An attribute without the marker is split as written. */
  lemma PlainPath(attr: string)
    requires !Contains(attr, FLATTEN_MARK)
    ensures PathOf(attr) == Split(attr, '.')
  {
    ReplaceAbsent(attr, FLATTEN_MARK, "");
  }

  /** A falsy value (`None`, `0`, `""`, an empty container, a missing nested field) is
      skipped: the row is left as it is. */
  lemma ConvertSkipsFalsy(row: Entries, model: Entries, col: string, attr: string)
    requires Resolve(model, PathOf(attr)).Success?
    requires !Truthy(Resolve(model, PathOf(attr)).value)
    ensures Convert(row, model, col, attr) == Success(row)
  {
  }

  /** Without the marker the value is put under the new column, and every other column
      keeps its value. */
  lemma ConvertPlacesValue(row: Entries, model: Entries, col: string, attr: string, k: string)
    requires !Contains(attr, FLATTEN_MARK)
    requires Resolve(model, PathOf(attr)).Success?
    requires Truthy(Resolve(model, PathOf(attr)).value)
    ensures Convert(row, model, col, attr).Success?
    ensures Get(Convert(row, model, col, attr).value, k) ==
      if k == col then Some(Resolve(model, PathOf(attr)).value) else Get(row, k)
  {
    GetPut(row, col, Resolve(model, PathOf(attr)).value, k);
  }

  /** With the marker the column name plays no part: the flattened keys go into the row
      as they are, without the column name as a prefix, and override the columns of
      the same name. */
  lemma ConvertFlattenIgnoresColumn(row: Entries, model: Entries, col: string, col': string,
                                    attr: string, k: string)
    requires Contains(attr, FLATTEN_MARK)
    ensures Convert(row, model, col, attr) == Convert(row, model, col', attr)
    ensures var r := Convert(row, model, col, attr);
      r.Success? && Truthy(Resolve(model, PathOf(attr)).value) ==>
        var data := FlattenSource(Resolve(model, PathOf(attr)).value);
        Get(r.value, k) ==
          if k in KeySet(Leaves(data, 0, "")) then LastFor(Leaves(data, 0, ""), k)
          else Get(row, k)
  {
    var r := Convert(row, model, col, attr);
    if r.Success? && Truthy(Resolve(model, PathOf(attr)).value) {
      var data := FlattenSource(Resolve(model, PathOf(attr)).value);
      assert r.value == PutAll(row, Flattened(data));
      MergeFlattened(row, data, k);
    }
  }

  /** `row.update(flatten_dict(data, {}))`: the row gains the leaf keys of `data`, each
      with the value of its last leaf, and keeps its other columns. */
  lemma MergeFlattened(row: Entries, data: Value, k: string)
    requires data.Dict?
    ensures var leaves := Leaves(data, 0, "");
      KeySet(PutAll(row, Flattened(data))) == KeySet(row) + KeySet(leaves) &&
      Get(PutAll(row, Flattened(data)), k) ==
        if k in KeySet(leaves) then LastFor(leaves, k) else Get(row, k)
  {
    assert KeySet([]) == {};
    GetPutAll(row, Flattened(data), k);
    FlattenedLookup(data, k);
    LastForDistinct(Flattened(data), k);
  }

  /** The convertors applied one after the other, in order; the first that fails stops
      the row. */
  function ApplyAll(row: Entries, model: Entries, convs: seq<(string, string)>)
    : (r: Result<Entries, ProjectionError>)
    ensures r.Success? ==> KeySet(row) <= KeySet(r.value)
    ensures convs == [] ==> r == Success(row)
    decreases |convs|
  {
    if convs == [] then Success(row)
    else
      match Convert(row, model, convs[0].0, convs[0].1)
      case Failure(e) => Failure(e)
      case Success(next) => ApplyAll(next, model, convs[1..])
  }

  /** The row `to_polars` builds for one record. */
  function Row(r: Record, convs: seq<(string, string)>): Result<Entries, ProjectionError> {
    ApplyAll(BaseRow(r), r.model, convs)
  }

  /** Convertors only add columns: a row always keeps every record field. */
  lemma RowKeepsRecordFields(r: Record, convs: seq<(string, string)>)
    requires Row(r, convs).Success?
    ensures forall f :: f in RECORD_FIELDS ==> f in KeySet(Row(r, convs).value)
  {
    BaseRowColumns(r);
  }

  /** Applying convertors in two batches is applying them all. */
  lemma {:induction false} ApplyAllAppend(row: Entries, model: Entries, a: seq<(string, string)>,
                                          b: seq<(string, string)>)
    ensures ApplyAll(row, model, a + b) ==
      match ApplyAll(row, model, a)
      case Failure(e) => Failure(e)
      case Success(mid) => ApplyAll(mid, model, b)
    decreases |a|
  {
    if a == [] {
      assert a + b == b;
    } else {
      assert (a + b)[0] == a[0];
      assert (a + b)[1..] == a[1..] + b;
      match Convert(row, model, a[0].0, a[0].1)
      case Failure(e) =>
      case Success(next) => ApplyAllAppend(next, model, a[1..], b);
    }
  }

  /** The rows of `to_polars`, record by record: all of them, or the error of the first
      record whose row fails. */
  function Rows(records: seq<Record>, convs: seq<(string, string)>)
    : (r: Result<seq<Entries>, ProjectionError>)
    ensures r.Success? ==> |r.value| == |records| && forall i :: 0 <= i < |records| ==>
      Row(records[i], convs).Success? && r.value[i] == Row(records[i], convs).value
    ensures r.Failure? ==>
      exists i :: 0 <= i < |records| && Row(records[i], convs) == Failure(r.error) &&
                  (forall j :: 0 <= j < i ==> Row(records[j], convs).Success?)
  {
    if records == [] then Success([])
    else
      match Row(records[0], convs)
      case Failure(e) => Failure(e)
      case Success(row) =>
        match Rows(records[1..], convs)
        case Failure(e) => Failure(e)
        case Success(rest) => Success([row] + rest)
  }

  /** The row `full_model_to_polars` builds for one record. */
  function FullRow(r: Record): Entries {
    PutAll(BaseRow(r), Flattened(Dump(Obj(r.model))))
  }

  /** The rows of `full_model_to_polars`, record by record. */
  function FullRows(records: seq<Record>): (rows: seq<Entries>)
    ensures |rows| == |records|
  {
    seq(|records|, i requires 0 <= i < |records| => FullRow(records[i]))
  }

  lemma FullRowsSnoc(records: seq<Record>, r: Record)
    ensures FullRows(records + [r]) == FullRows(records) + [FullRow(r)]
  {
    assert forall i :: 0 <= i < |records| ==> (records + [r])[i] == records[i];
  }

  /** A full row holds every record field and every flattened model key; where a model
      key coincides with a record field, the model's value wins. */
  lemma FullRowLookup(r: Record, k: string)
    ensures var leaves := Leaves(Dump(Obj(r.model)), 0, "");
      KeySet(FullRow(r)) == KeySet(BaseRow(r)) + KeySet(leaves) &&
      Get(FullRow(r), k) ==
        if k in KeySet(leaves) then LastFor(leaves, k) else Get(BaseRow(r), k)
  {
    MergeFlattened(BaseRow(r), Dump(Obj(r.model)), k);
  }

  /** Rows of two runs of records: the second run only counts when the first went
      through. */
  lemma {:induction false} RowsAppend(a: seq<Record>, b: seq<Record>, convs: seq<(string, string)>)
    ensures Rows(a + b, convs) ==
      match Rows(a, convs)
      case Failure(e) => Failure(e)
      case Success(x) =>
        match Rows(b, convs)
        case Failure(e) => Failure(e)
        case Success(y) => Success(x + y)
    decreases |a|
  {
    if a == [] {
      assert a + b == b;
      if Rows(b, convs).Success? {
        assert [] + Rows(b, convs).value == Rows(b, convs).value;
      }
    } else {
      assert (a + b)[0] == a[0];
      assert (a + b)[1..] == a[1..] + b;
      RowsAppend(a[1..], b, convs);
      if Row(a[0], convs).Success? && Rows(a[1..], convs).Success? && Rows(b, convs).Success? {
        var x := Row(a[0], convs).value;
        assert [x] + (Rows(a[1..], convs).value + Rows(b, convs).value)
            == ([x] + Rows(a[1..], convs).value) + Rows(b, convs).value;
      }
    }
  }

  /** One more record whose row goes through adds its row. */
  lemma RowsExtend(rs: seq<Record>, i: nat, convs: seq<(string, string)>)
    requires i < |rs| && Rows(rs[..i], convs).Success? && Row(rs[i], convs).Success?
    ensures Rows(rs[..i + 1], convs) == Success(Rows(rs[..i], convs).value + [Row(rs[i], convs).value])
  {
    RowsAppend(rs[..i], [rs[i]], convs);
    assert rs[..i + 1] == rs[..i] + [rs[i]];
    assert [rs[i]][1..] == [];
    assert [Row(rs[i], convs).value] + [] == [Row(rs[i], convs).value];
  }

  /** The first record whose row fails decides the error. */
  lemma RowsStopAt(rs: seq<Record>, i: nat, convs: seq<(string, string)>)
    requires i < |rs| && Rows(rs[..i], convs).Success? && Row(rs[i], convs).Failure?
    ensures Rows(rs, convs) == Failure(Row(rs[i], convs).error)
  {
    RowsAppend(rs[..i], rs[i..], convs);
    assert rs[..i] + rs[i..] == rs;
    assert rs[i..][0] == rs[i];
  }

  /** The body of the convertor loop of `to_polars` for one `new_col: model_attr`
      pair: resolves the attribute path step by step and adds the value to the row. */
  method ConvertOne(row: Entries, model: Entries, col: string, attr: string)
    returns (r: Result<Entries, ProjectionError>)
    ensures r == Convert(row, model, col, attr)
  {
    var flatten := Contains(attr, FLATTEN_MARK);
    var attrs := PathOf(attr);
    var first := Get(model, attrs[0]);
    if first.None? {
      return Failure(MissingAttribute(attrs[0]));
    }
    var value := first.value;
    var i := 1;
    while i < |attrs|
      invariant 1 <= i <= |attrs|
      invariant Walk(value, attrs[i..]) == Walk(first.value, attrs[1..])
    {
      assert attrs[i..][1..] == attrs[i + 1..];
      value := Attr(value, attrs[i]);
      i := i + 1;
    }
    assert attrs[i..] == [];
    if !Truthy(value) {
      return Success(row);
    }
    if flatten {
      var data := FlattenSource(value);
      if !data.Dict? {
        return Failure(NotADict(attr));
      }
      var flat := FlattenDict(data, [], "");
      return Success(PutAll(row, flat));
    }
    return Success(Put(row, col, value));
  }

  /** The row `to_polars` builds for one record: its fields, then each convertor in
      turn. */
  method ConvertRecord(record: Record, convs: seq<(string, string)>)
    returns (row: Result<Entries, ProjectionError>)
    ensures row == Row(record, convs)
  {
    ghost var target := Row(record, convs);
    var current := BaseRow(record);
    var j := 0;
    while j < |convs|
      invariant 0 <= j <= |convs|
      invariant ApplyAll(current, record.model, convs[j..]) == target
    {
      assert convs[j..][1..] == convs[j + 1..];
      var step := ConvertOne(current, record.model, convs[j].0, convs[j].1);
      if step.Failure? {
        return Failure(step.error);
      }
      current := step.value;
      j := j + 1;
    }
    return Success(current);
  }

  /** The row `full_model_to_polars` builds for one record: its fields, updated with
      `flatten_dict(record.model.model_dump(), {})`. */
  method FullRowOf(record: Record) returns (row: Entries)
    ensures row == FullRow(record)
  {
    var flat := FlattenDict(Dump(Obj(record.model)), [], "");
    row := PutAll(BaseRow(record), flat);
  }
}
