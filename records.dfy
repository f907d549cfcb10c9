/** `RegionalDataRecord`, its identity key (`record_hash`) and the resolution of a
    raw data object to a typed model (`_record_items`). */
module Records {
  import opened Wrappers
  import opened Values
  import opened Text
  import opened Ordering

  /** The fields that identify a record, as the source lists them. */
  const UNIQUE_FIELDS: seq<string> := [
    "region_type", "un_region_code", "iso_cc_2", "local_region_code",
    "local_region_code_type", "region_level", "period", "period_type", "source_name"
  ]

  /** A data object of one region in a regional-data response: its `data_type` tag,
      source metadata and the payload under `"data"` (an empty payload when absent). */
  datatype DataObject = DataObject(
    dataType: Option<string>,
    sourceName: Option<string>,
    period: Option<string>,
    periodType: Option<string>,
    data: Entries)

  /** One element of `data_by_region`: the region's metadata (absent fields read as
      `None`, an absent `region_level` as 0) and its data objects. */
  datatype RegionData = RegionData(
    regionName: Option<string>,
    regionType: Option<string>,
    unRegionCode: Option<string>,
    isoCc2: Option<string>,
    localRegionCode: Option<string>,
    localRegionCodeType: Option<string>,
    parentRegionCode: Option<string>,
    parentRegionCodeType: Option<string>,
    parentRegionType: Option<string>,
    regionLevel: int,
    dataObjects: seq<DataObject>)

  /** `RegionalDataRecord`; `model` holds the fields of the typed model instance. */
  datatype Record = Record(
    name: Option<string>,
    regionType: Option<string>,
    unRegionCode: Option<string>,
    isoCc2: Option<string>,
    localRegionCode: Option<string>,
    localRegionCodeType: Option<string>,
    parentRegionCode: Option<string>,
    parentRegionCodeType: Option<string>,
    parentRegionType: Option<string>,
    regionLevel: int,
    sourceName: Option<string>,
    period: Option<string>,
    periodType: Option<string>,
    dataModelName: Option<string>,
    model: Entries)

  /** `str(x)` for an optional string: `None` is rendered as `"None"`. */
  function Show(x: Option<string>): string {
    match x
    case None => "None"
    case Some(s) => s
  }

  /** `str(getattr(record, field))` for an identifying field. */
  function FieldText(r: Record, field: string): string
    requires field in UNIQUE_FIELDS
  {
    if field == "region_type" then Show(r.regionType)
    else if field == "un_region_code" then Show(r.unRegionCode)
    else if field == "iso_cc_2" then Show(r.isoCc2)
    else if field == "local_region_code" then Show(r.localRegionCode)
    else if field == "local_region_code_type" then Show(r.localRegionCodeType)
    else if field == "region_level" then IntToString(r.regionLevel)
    else if field == "period" then Show(r.period)
    else if field == "period_type" then Show(r.periodType)
    else Show(r.sourceName)
  }

  const SORTED_UNIQUE_FIELDS: seq<string> := [
    "iso_cc_2", "local_region_code", "local_region_code_type", "period",
    "period_type", "region_level", "region_type", "source_name", "un_region_code"
  ]

  lemma FieldNamesInOrderLow()
    ensures StrLe("iso_cc_2", "local_region_code")
    ensures StrLe("local_region_code", "local_region_code_type")
    ensures StrLe("local_region_code_type", "period")
    ensures StrLe("period", "period_type")
  {
    StrLeAt("iso_cc_2", "local_region_code", 0);
    StrLeOfPrefix("local_region_code", "local_region_code_type");
    StrLeAt("local_region_code_type", "period", 0);
    StrLeOfPrefix("period", "period_type");
  }

  lemma FieldNamesInOrderHigh()
    ensures StrLe("period_type", "region_level")
    ensures StrLe("region_level", "region_type")
    ensures StrLe("region_type", "source_name")
    ensures StrLe("source_name", "un_region_code")
  {
    StrLeAt("period_type", "region_level", 0);
    StrLeAt("region_level", "region_type", 7);
    StrLeAt("region_type", "source_name", 0);
    StrLeAt("source_name", "un_region_code", 0);
  }

  lemma SortedNine(a0: string, a1: string, a2: string, a3: string, a4: string,
                    a5: string, a6: string, a7: string, a8: string)
    requires StrLe(a0, a1) && StrLe(a1, a2) && StrLe(a2, a3) && StrLe(a3, a4)
    requires StrLe(a4, a5) && StrLe(a5, a6) && StrLe(a6, a7) && StrLe(a7, a8)
    ensures Sorted([a0, a1, a2, a3, a4, a5, a6, a7, a8], StrLe)
  {
    StrLeIsTotalOrder();
    SortedFromNeighbours([a0, a1, a2, a3, a4, a5, a6, a7, a8], StrLe);
  }

  lemma SortedFieldsInOrder()
    ensures Sorted(SORTED_UNIQUE_FIELDS, StrLe)
  {
    FieldNamesInOrderLow();
    FieldNamesInOrderHigh();
    SortedNine("iso_cc_2", "local_region_code", "local_region_code_type", "period",
      "period_type", "region_level", "region_type", "source_name", "un_region_code");
  }

  lemma UniqueFieldsDistinct()
    ensures Distinct(UNIQUE_FIELDS)
  {
  }

  lemma SortedFieldsDistinct()
    ensures Distinct(SORTED_UNIQUE_FIELDS)
  {
  }

  lemma SortedFieldsSameFields()
    ensures multiset(UNIQUE_FIELDS) == multiset(SORTED_UNIQUE_FIELDS)
  {
    UniqueFieldsDistinct();
    SortedFieldsDistinct();
    assert forall f :: f in UNIQUE_FIELDS <==> f in SORTED_UNIQUE_FIELDS;
    SameElementsSameMultiset(UNIQUE_FIELDS, SORTED_UNIQUE_FIELDS);
  }

  /** `sorted(UNIQUE_FIELDS)` is `SORTED_UNIQUE_FIELDS`. */
  lemma SortedUniqueFields()
    ensures Sort(UNIQUE_FIELDS, StrLe) == SORTED_UNIQUE_FIELDS
  {
    StrLeIsTotalOrder();
    SortedFieldsInOrder();
    SortedFieldsSameFields();
    SortIs(UNIQUE_FIELDS, SORTED_UNIQUE_FIELDS, StrLe);
  }

  /** The rendered identifying fields, in sorted field-name order. */
  function FieldTexts(r: Record): seq<string> {
    var fields := SORTED_UNIQUE_FIELDS;
    seq(|fields|, i requires 0 <= i < |fields| => FieldText(r, fields[i]))
  }

  /** The string `record_hash` hashes: the identifying fields in sorted order (which
      `SortedUniqueFields` shows `SORTED_UNIQUE_FIELDS` to be), each rendered with
      `str()`, joined with `"."`. */
  function IdentityText(r: Record): string {
    Join(".", FieldTexts(r))
  }

  /** `record_hash()`: `str(hash(...))` of the identity text, for the process's string
      hash `hash`. */
  function RecordHash(r: Record, hash: string -> int): string {
    IntToString(hash(IdentityText(r)))
  }

  lemma FieldTextsLow(r: Record)
    ensures FieldTexts(r)[..5] == [Show(r.isoCc2), Show(r.localRegionCode),
      Show(r.localRegionCodeType), Show(r.period), Show(r.periodType)]
  {
    var t := FieldTexts(r);
    assert t[0] == Show(r.isoCc2) && t[1] == Show(r.localRegionCode);
    assert t[2] == Show(r.localRegionCodeType) && t[3] == Show(r.period);
    assert t[4] == Show(r.periodType);
  }

  lemma FieldTextsHigh(r: Record)
    ensures FieldTexts(r)[5..] == [IntToString(r.regionLevel), Show(r.regionType),
      Show(r.sourceName), Show(r.unRegionCode)]
  {
    var t := FieldTexts(r);
    assert t[5] == IntToString(r.regionLevel) && t[6] == Show(r.regionType);
    assert t[7] == Show(r.sourceName) && t[8] == Show(r.unRegionCode);
  }

  /** The identity text, written out: the nine identifying fields in sorted field-name
      order, joined with `"."`. */
  lemma IdentityTextInSortedOrder(r: Record)
    ensures IdentityText(r) == Join(".", [
      Show(r.isoCc2), Show(r.localRegionCode), Show(r.localRegionCodeType),
      Show(r.period), Show(r.periodType), IntToString(r.regionLevel),
      Show(r.regionType), Show(r.sourceName), Show(r.unRegionCode)])
  {
    var t := FieldTexts(r);
    FieldTextsLow(r);
    FieldTextsHigh(r);
    var low := [Show(r.isoCc2), Show(r.localRegionCode), Show(r.localRegionCodeType),
      Show(r.period), Show(r.periodType)];
    var high := [IntToString(r.regionLevel), Show(r.regionType), Show(r.sourceName),
      Show(r.unRegionCode)];
    assert t == t[..5] + t[5..] == low + high;
    assert low + high == [
      Show(r.isoCc2), Show(r.localRegionCode), Show(r.localRegionCodeType),
      Show(r.period), Show(r.periodType), IntToString(r.regionLevel),
      Show(r.regionType), Show(r.sourceName), Show(r.unRegionCode)];
  }

  /** The key ignores everything but the nine identifying fields: records that agree
      on them share a key, whatever their name, parent fields, model name and model. */
  lemma SameIdentitySameKey(r1: Record, r2: Record, hash: string -> int)
    requires r1.regionType == r2.regionType && r1.unRegionCode == r2.unRegionCode
    requires r1.isoCc2 == r2.isoCc2 && r1.localRegionCode == r2.localRegionCode
    requires r1.localRegionCodeType == r2.localRegionCodeType
    requires r1.regionLevel == r2.regionLevel && r1.period == r2.period
    requires r1.periodType == r2.periodType && r1.sourceName == r2.sourceName
    ensures RecordHash(r1, hash) == RecordHash(r2, hash)
  {
    assert FieldTexts(r1) == FieldTexts(r2);
  }

  /** In any of the eight optional identifying fields, a missing value and the string
      `"None"` render alike, so they give one key. */
  lemma NoneRendersAsNoneString(r: Record, hash: string -> int)
    ensures RecordHash(r.(regionType := None), hash) == RecordHash(r.(regionType := Some("None")), hash)
    ensures RecordHash(r.(unRegionCode := None), hash) == RecordHash(r.(unRegionCode := Some("None")), hash)
    ensures RecordHash(r.(isoCc2 := None), hash) == RecordHash(r.(isoCc2 := Some("None")), hash)
    ensures RecordHash(r.(localRegionCode := None), hash) ==
            RecordHash(r.(localRegionCode := Some("None")), hash)
    ensures RecordHash(r.(localRegionCodeType := None), hash) ==
            RecordHash(r.(localRegionCodeType := Some("None")), hash)
    ensures RecordHash(r.(period := None), hash) == RecordHash(r.(period := Some("None")), hash)
    ensures RecordHash(r.(periodType := None), hash) == RecordHash(r.(periodType := Some("None")), hash)
    ensures RecordHash(r.(sourceName := None), hash) == RecordHash(r.(sourceName := Some("None")), hash)
  {
    assert FieldTexts(r.(regionType := None)) == FieldTexts(r.(regionType := Some("None")));
    assert FieldTexts(r.(unRegionCode := None)) == FieldTexts(r.(unRegionCode := Some("None")));
    assert FieldTexts(r.(isoCc2 := None)) == FieldTexts(r.(isoCc2 := Some("None")));
    assert FieldTexts(r.(localRegionCode := None)) == FieldTexts(r.(localRegionCode := Some("None")));
    assert FieldTexts(r.(localRegionCodeType := None)) ==
           FieldTexts(r.(localRegionCodeType := Some("None")));
    assert FieldTexts(r.(period := None)) == FieldTexts(r.(period := Some("None")));
    assert FieldTexts(r.(periodType := None)) == FieldTexts(r.(periodType := Some("None")));
    assert FieldTexts(r.(sourceName := None)) == FieldTexts(r.(sourceName := Some("None")));
  }

  /** Joining cannot tell where one part ends and the next begins. */
  lemma JoinMovesSeparator(sep: string, a: string, b: string, c: string, d: string, rest: seq<string>)
    requires a + sep + b == c + sep + d
    ensures Join(sep, [a, b] + rest) == Join(sep, [c, d] + rest)
  {
    assert ([a, b] + rest)[1..] == [b] + rest;
    assert ([c, d] + rest)[1..] == [d] + rest;
    if rest != [] {
      var j := Join(sep, rest);
      assert ([b] + rest)[1..] == rest;
      assert ([d] + rest)[1..] == rest;
      calc {
        Join(sep, [a, b] + rest);
        a + sep + (b + sep + j);
        (a + sep + b) + sep + j;
        (c + sep + d) + sep + j;
        c + sep + (d + sep + j);
        Join(sep, [c, d] + rest);
      }
    }
  }

  /** A `"."` inside a field value is not escaped: moving it from `iso_cc_2` to the
      next field in sorted order, `local_region_code`, keeps the key. */
  lemma DotInFieldShiftsAcrossFields(r: Record, hash: string -> int)
    ensures RecordHash(r.(isoCc2 := Some("a.b"), localRegionCode := Some("c")), hash)
         == RecordHash(r.(isoCc2 := Some("a"), localRegionCode := Some("b.c")), hash)
  {
    var r1 := r.(isoCc2 := Some("a.b"), localRegionCode := Some("c"));
    var r2 := r.(isoCc2 := Some("a"), localRegionCode := Some("b.c"));
    IdentityTextInSortedOrder(r1);
    IdentityTextInSortedOrder(r2);
    var rest := [Show(r.localRegionCodeType), Show(r.period), Show(r.periodType),
      IntToString(r.regionLevel), Show(r.regionType), Show(r.sourceName), Show(r.unRegionCode)];
    assert "a.b" + "." + "c" == "a" + "." + "b.c";
    JoinMovesSeparator(".", "a.b", "c", "a", "b.c", rest);
  }

  /** Why a data object could not be turned into a record. */
  datatype ModelError =
    | MissingDataType          // `data_type` absent, `None` or empty: `ValueError`
    | UnknownModel(tag: string) // no model under the upper-cased tag: `AttributeError`
    | InvalidPayload(tag: string) // the model rejected the payload: a validation error

  /** The typed models, by upper-cased tag: each builds a model instance (its fields)
      from a payload, or rejects the payload. */
  type Registry = map<string, Entries -> Option<Entries>>

  /** The keyword arguments `_record_items` contributes to a record. */
  datatype Items = Items(
    sourceName: Option<string>,
    period: Option<string>,
    periodType: Option<string>,
    dataModelName: Option<string>,
    model: Entries)

  /** `_record_items(data)`: resolves the model named by the data object's `data_type`
      tag and builds it from the payload. */
  function RecordItems(obj: DataObject, registry: Registry): (r: Result<Items, ModelError>)
    ensures obj.dataType.None? || obj.dataType == Some("") ==> r == Failure(MissingDataType)
    ensures r.Success? <==>
      obj.dataType.Some? && obj.dataType.value != "" &&
      Upper(obj.dataType.value) in registry && registry[Upper(obj.dataType.value)](obj.data).Some?
    ensures obj.dataType.Some? && obj.dataType.value != "" && Upper(obj.dataType.value) !in registry
      ==> r == Failure(UnknownModel(obj.dataType.value))
    ensures obj.dataType.Some? && obj.dataType.value != "" && Upper(obj.dataType.value) in registry
      && registry[Upper(obj.dataType.value)](obj.data).None?
      ==> r == Failure(InvalidPayload(obj.dataType.value))
    ensures r.Success? ==>
      r.value.dataModelName == obj.dataType &&
      r.value.model == registry[Upper(obj.dataType.value)](obj.data).value &&
      r.value.sourceName == obj.sourceName && r.value.period == obj.period &&
      r.value.periodType == obj.periodType
  {
    match obj.dataType
    case None => Failure(MissingDataType)
    case Some(tag) =>
      if tag == "" then Failure(MissingDataType)
      else if Upper(tag) !in registry then Failure(UnknownModel(tag))
      else
        match registry[Upper(tag)](obj.data)
        case None => Failure(InvalidPayload(tag))
        case Some(model) =>
          Success(Items(obj.sourceName, obj.period, obj.periodType, obj.dataType, model))
  }

  /** The tag is looked up case-insensitively (on ASCII letters), while the record keeps
      the tag as the response spelled it. */
  lemma TagCaseIgnoredForLookup(obj: DataObject, tag: string, registry: Registry)
    requires obj.dataType.Some? && tag != "" && Upper(tag) == Upper(obj.dataType.value)
    ensures var other := RecordItems(obj.(dataType := Some(tag)), registry);
      RecordItems(obj, registry).Success? <==> other.Success?
    ensures var other := RecordItems(obj.(dataType := Some(tag)), registry);
      other.Success? ==>
        other.value == RecordItems(obj, registry).value.(dataModelName := Some(tag))
  {
    assert |obj.dataType.value| == |tag|;
  }

  /** `RegionalDataRecord(**base_items, **record_items)`. */
  function MakeRecord(region: RegionData, items: Items): Record {
    Record(
      region.regionName, region.regionType, region.unRegionCode, region.isoCc2,
      region.localRegionCode, region.localRegionCodeType, region.parentRegionCode,
      region.parentRegionCodeType, region.parentRegionType, region.regionLevel,
      items.sourceName, items.period, items.periodType, items.dataModelName, items.model)
  }

  /** The records of one region, built from its data objects in order before any of
      them is stored: all of them, or the error of the first data object that fails. */
  function RegionRecords(region: RegionData, objs: seq<DataObject>, registry: Registry)
    : Result<seq<Record>, ModelError>
  {
    if objs == [] then Success([])
    else
      match RecordItems(objs[0], registry)
      case Failure(e) => Failure(e)
      case Success(items) =>
        match RegionRecords(region, objs[1..], registry)
        case Failure(e) =>
          Failure(e)
        case Success(rest) => Success([MakeRecord(region, items)] + rest)
  }

  /** A region yields one record per data object, in order, each carrying the region's
      fields and the object's items; or, when some data object fails, the error of the
      first that does. */
  lemma {:induction false} RegionRecordsAllOrFirstFailure(region: RegionData, objs: seq<DataObject>, registry: Registry)
    ensures var r := RegionRecords(region, objs, registry);
      r.Success? ==> |r.value| == |objs| && forall i :: 0 <= i < |objs| ==>
        RecordItems(objs[i], registry).Success? &&
        r.value[i] == MakeRecord(region, RecordItems(objs[i], registry).value)
    ensures var r := RegionRecords(region, objs, registry);
      r.Failure? ==>
        exists i :: 0 <= i < |objs| && RecordItems(objs[i], registry) == Failure(r.error) &&
                    (forall j :: 0 <= j < i ==> RecordItems(objs[j], registry).Success?)
  {
    if objs != [] {
      RegionRecordsAllOrFirstFailure(region, objs[1..], registry);
      var r := RegionRecords(region, objs, registry);
      var first := RecordItems(objs[0], registry);
      if first.Success? {
        var rest := RegionRecords(region, objs[1..], registry);
        if rest.Failure? {
          var i :| 0 <= i < |objs[1..]| && RecordItems(objs[1..][i], registry) == Failure(rest.error) &&
                    (forall j :: 0 <= j < i ==> RecordItems(objs[1..][j], registry).Success?);
          assert RecordItems(objs[i + 1], registry) == Failure(r.error);
          forall j | 0 <= j < i + 1 ensures RecordItems(objs[j], registry).Success? {
            if j > 0 { assert objs[j] == objs[1..][j - 1]; }
          }
        } else {
          forall i | 0 <= i < |objs|
            ensures RecordItems(objs[i], registry).Success? &&
                    r.value[i] == MakeRecord(region, RecordItems(objs[i], registry).value)
          {
            if i > 0 { assert objs[i] == objs[1..][i - 1]; }
          }
        }
      } else {
        assert RecordItems(objs[0], registry) == Failure(r.error);
      }
    }
  }

  /** The records the region loop of `set_items` stores, in order, and the error that
      stops it: each region's records follow the previous region's, and the first
      region with a failing data object contributes none of its records and ends the
      batch. */
  function Batch(regions: seq<RegionData>, registry: Registry): (b: (seq<Record>, Option<ModelError>))
  {
    if regions == [] then ([], None)
    else
      match RegionRecords(regions[0], regions[0].dataObjects, registry)
      case Failure(e) => ([], Some(e))
      case Success(rs) =>
        var rest := Batch(regions[1..], registry);
        (rs + rest.0, rest.1)
  }

  /** A batch goes through exactly when every region's records can be built. */
  lemma {:induction false} BatchSucceeds(regions: seq<RegionData>, registry: Registry)
    ensures Batch(regions, registry).1.None? <==> forall i :: 0 <= i < |regions| ==>
      RegionRecords(regions[i], regions[i].dataObjects, registry).Success?
  {
    if regions != [] {
      BatchSucceeds(regions[1..], registry);
      assert forall i :: 1 <= i < |regions| ==> regions[i] == regions[1..][i - 1];
    }
  }

  /** Splitting the regions splits the batch: the second part only counts when the
      first part went through. */
  lemma {:induction false} BatchAppend(a: seq<RegionData>, b: seq<RegionData>, registry: Registry)
    ensures Batch(a + b, registry) ==
      if Batch(a, registry).1.Some? then Batch(a, registry)
      else (Batch(a, registry).0 + Batch(b, registry).0, Batch(b, registry).1)
  {
    if a == [] {
      assert a + b == b;
      assert [] + Batch(b, registry).0 == Batch(b, registry).0;
    } else {
      assert (a + b)[0] == a[0];
      assert (a + b)[1..] == a[1..] + b;
      BatchAppend(a[1..], b, registry);
      match RegionRecords(a[0], a[0].dataObjects, registry)
      case Failure(e) =>
      case Success(rs) =>
        assert rs + (Batch(a[1..], registry).0 + Batch(b, registry).0)
            == (rs + Batch(a[1..], registry).0) + Batch(b, registry).0;
    }
  }

  /** The region loop of `set_items` at region `i`, the earlier regions having gone
      through: a failing region ends the batch with nothing of its own; otherwise its
      records follow those of the earlier regions. */
  lemma BatchStep(data: seq<RegionData>, i: nat, registry: Registry)
    requires i < |data| && Batch(data[..i], registry).1.None?
    ensures var rr := RegionRecords(data[i], data[i].dataObjects, registry);
      rr.Failure? ==> Batch(data, registry) == (Batch(data[..i], registry).0, Some(rr.error))
    ensures var rr := RegionRecords(data[i], data[i].dataObjects, registry);
      rr.Success? ==> Batch(data[..i + 1], registry) == (Batch(data[..i], registry).0 + rr.value, None)
  {
    var rr := RegionRecords(data[i], data[i].dataObjects, registry);
    if rr.Failure? {
      BatchAppend(data[..i], data[i..], registry);
      assert data[..i] + data[i..] == data;
      assert data[i..][0] == data[i];
      assert Batch(data[..i], registry).0 + [] == Batch(data[..i], registry).0;
    } else {
      BatchAppend(data[..i], [data[i]], registry);
      assert data[..i + 1] == data[..i] + [data[i]];
      assert [data[i]][1..] == [];
      assert rr.value + [] == rr.value;
    }
  }

  /** Every record built for a region names its model: the tag it was resolved from. */
  lemma RegionRecordsNamed(region: RegionData, registry: Registry)
    requires RegionRecords(region, region.dataObjects, registry).Success?
    ensures var rs := RegionRecords(region, region.dataObjects, registry).value;
      forall i :: 0 <= i < |rs| ==> rs[i].dataModelName.Some? && rs[i].dataModelName.value != ""
  {
    var rs := RegionRecords(region, region.dataObjects, registry).value;
    RegionRecordsAllOrFirstFailure(region, region.dataObjects, registry);
    forall i | 0 <= i < |rs| ensures rs[i].dataModelName.Some? && rs[i].dataModelName.value != "" {
      assert RecordItems(region.dataObjects[i], registry).Success?;
    }
  }

  /** Every record of a batch names its model. */
  lemma {:induction false} BatchRecordsNamed(regions: seq<RegionData>, registry: Registry)
    ensures forall r :: r in Batch(regions, registry).0 ==>
      r.dataModelName.Some? && r.dataModelName.value != ""
  {
    if regions != [] {
      BatchRecordsNamed(regions[1..], registry);
      if RegionRecords(regions[0], regions[0].dataObjects, registry).Success? {
        RegionRecordsNamed(regions[0], registry);
      }
    }
  }
}
