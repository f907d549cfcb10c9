/** `TheDataGardenRegionalDataModel`: a data model of one region that fetches regional
    data per set of request parameters (once per set), follows the response's page
    cursors, turns every data object into a `RegionalDataRecord` kept under its
    identity key, and projects the stored records to rows. */
module RegionalData {
  import opened Wrappers
  import opened Values
  import opened Ordering
  import opened Text
  import opened Paging
  import opened Flatten
  import opened Records
  import opened RecordStore
  import opened Projection

  /** A regional-data response: its `data_by_region` list and its `pagination` block
      (`None` when the block is absent or `null`), or the empty body `{}`, the one
      response dict that is falsy. */
  datatype Response =
    | Response(dataByRegion: seq<RegionData>, pagination: Option<Entries>)
    | EmptyBody

  /** The regions a response contributes; `{}` contributes none. */
  function DataOf(resp: Response): seq<RegionData> {
    if resp.EmptyBody? then [] else resp.dataByRegion
  }

  /** `resp.get("pagination")`; `{}` has no block. */
  function PaginationOf(resp: Response): Option<Entries> {
    if resp.EmptyBody? then None else resp.pagination
  }

  /** `_response_has_next_page`: a non-empty pagination block with a non-null
      `next_page`. */
  predicate HasNextPage(pagination: Option<Entries>) {
    pagination.Some? && pagination.value != [] &&
    Get(pagination.value, "next_page").Some? && Get(pagination.value, "next_page").value != Null
  }

  /** `_next_page_pagination`: the cursor payload `{"page": next_page}` for the next
      request, when the block names a truthy `next_page`. */
  function NextPagePagination(pagination: Option<Entries>): (r: Option<Entries>)
    ensures r.Some? <==>
      HasNextPage(pagination) && Truthy(Get(pagination.value, "next_page").value)
    ensures r.Some? ==> r.value == [("page", Get(pagination.value, "next_page").value)]
  {
    if pagination.None? || pagination.value == [] then None
    else
      match Get(pagination.value, "next_page")
      case None => None
      case Some(next) => if Truthy(next) then Some([("page", next)]) else None
  }

  /** Whether the walk asks for a further page after `resp`. */
  predicate Continues(resp: Response) {
    NextPagePagination(PaginationOf(resp)).Some?
  }

  /** The response `regional_paginated_data_from_api` returns: the first response with
      the regions of every further page appended (`{}` as it came, since it names no
      next page); `None` when the first request is not answered. The pagination block
      is that of the last page collected, removed when that page named a next page. */
  function Merged(pages: seq<Option<Response>>): (r: Option<Response>)
    ensures r.None? <==> pages == [] || pages[0].None?
    ensures r.Some? ==> (r.value.EmptyBody? <==> pages[0] == Some(EmptyBody))
  {
    var run := Run(pages, Continues);
    if run == [] then None
    else if run[0].EmptyBody? then Some(EmptyBody)
    else
      var last := run[|run| - 1];
      Some(Response(Gather(run, DataOf),
        if HasNextPage(PaginationOf(last)) then None else PaginationOf(last)))
  }

  /** Answered pages that each name a truthy next page, the last excepted, are all
      collected, their regions one page after the other. */
  lemma MergedCollectsAll(pages: seq<Option<Response>>)
    requires pages != []
    requires forall j :: 0 <= j < |pages| ==> pages[j].Some?
    requires forall j :: 0 <= j < |pages| - 1 ==> Continues(pages[j].value)
    requires !Continues(pages[|pages| - 1].value)
    ensures Merged(pages).Some?
    ensures DataOf(Merged(pages).value) ==
      Gather(seq(|pages|, j requires 0 <= j < |pages| && pages[j].Some? => pages[j].value), DataOf)
  {
    RunCollectsAll(pages, Continues);
    var run := Run(pages, Continues);
    assert run == seq(|pages|, j requires 0 <= j < |pages| && pages[j].Some? => pages[j].value);
  }

  /** A `next_page` that is present but falsy (`0`, `""`, `false`) ends the walk after
      the first page, and the block is still removed. */
  lemma FalsyCursorEndsWalk(first: Response, rest: seq<Option<Response>>)
    requires HasNextPage(PaginationOf(first))
    requires !Truthy(Get(PaginationOf(first).value, "next_page").value)
    ensures Merged([Some(first)] + rest) == Some(Response(DataOf(first), None))
  {
    var pages := [Some(first)] + rest;
    assert pages[0] == Some(first);
    assert Run(pages, Continues) == [first];
    assert [first][1..] == [];
    assert Gather([first], DataOf) == DataOf(first) + [] == DataOf(first);
  }

  /** The cursor payloads a walk over `run` sends: one after each page that names a
      truthy next page. */
  function CursorsSent(run: seq<Response>): seq<Entries> {
    if run == [] then []
    else
      (if Continues(run[0]) then [NextPagePagination(PaginationOf(run[0])).value] else []) +
      CursorsSent(run[1..])
  }

  lemma {:induction false} CursorsSentSnoc(run: seq<Response>, p: Response)
    ensures CursorsSent(run + [p]) ==
      CursorsSent(run) + (if Continues(p) then [NextPagePagination(PaginationOf(p)).value] else [])
  {
    if run == [] {
      assert [p][1..] == [];
    } else {
      assert (run + [p])[0] == run[0];
      assert (run + [p])[1..] == run[1..] + [p];
      CursorsSentSnoc(run[1..], p);
    }
  }

  /** The cursors sent up to page `j` of a walk. */
  lemma CursorsSentPrefix(run: seq<Response>, j: nat)
    requires 1 <= j <= |run|
    ensures CursorsSent(run[..j]) == CursorsSent(run[..j - 1]) +
      (if Continues(run[j - 1]) then [NextPagePagination(PaginationOf(run[j - 1])).value] else [])
    ensures j == |run| ==> CursorsSent(run[..j]) == CursorsSent(run)
  {
    CursorsSentSnoc(run[..j - 1], run[j - 1]);
    assert run[..j - 1] + [run[j - 1]] == run[..j];
    assert j == |run| ==> run[..j] == run;
  }

  /** Along a walk every page but the last names a next page, so one request follows
      each page but the last, and one more when the last names a next page too; the
      k-th further request carries the cursor of page k. */
  lemma {:induction false} CursorsSentAlongWalk(run: seq<Response>)
    requires run != []
    requires forall j :: 0 <= j < |run| - 1 ==> Continues(run[j])
    ensures |CursorsSent(run)| == |run| - 1 + (if Continues(run[|run| - 1]) then 1 else 0)
    ensures forall k :: 0 <= k < |CursorsSent(run)| ==>
      k < |run| && Some(CursorsSent(run)[k]) == NextPagePagination(PaginationOf(run[k]))
  {
    if |run| > 1 {
      CursorsSentAlongWalk(run[1..]);
      var rest := CursorsSent(run[1..]);
      assert CursorsSent(run) == [NextPagePagination(PaginationOf(run[0])).value] + rest;
      forall k | 1 <= k < |CursorsSent(run)|
        ensures Some(CursorsSent(run)[k]) == NextPagePagination(PaginationOf(run[k]))
      {
        assert CursorsSent(run)[k] == rest[k - 1];
        assert run[1..][k - 1] == run[k];
      }
    } else {
      assert run[1..] == [];
    }
  }

  /** One `key:value` item of the request text. */
  function KwargText(kv: (string, string)): string {
    kv.0 + ":" + kv.1
  }

  /** The text `request_hash` hashes: the keyword arguments sorted and joined. */
  function RequestText(kwargs: seq<(string, string)>): string {
    var sorted := Sort(kwargs, PairLe);
    Join(",", seq(|sorted|, i requires 0 <= i < |sorted| => KwargText(sorted[i])))
  }

  /** `request_hash(**kwargs)`: `str(hash(...))` of the request text. */
  function RequestHash(kwargs: seq<(string, string)>, hash: string -> int): string {
    IntToString(hash(RequestText(kwargs)))
  }

  /** The order the keyword arguments are given in does not matter. */
  lemma RequestHashIgnoresOrder(a: seq<(string, string)>, b: seq<(string, string)>,
                                hash: string -> int)
    requires multiset(a) == multiset(b)
    ensures RequestHash(a, hash) == RequestHash(b, hash)
  {
    PairLeIsTotalOrder();
    SortPermutationInvariant(a, b, PairLe);
  }

  /** Items are joined without escaping: one argument whose value holds `,` and `:`
      gives the same text, hence the same hash, as two arguments. */
  lemma RequestTextCollides()
    ensures RequestText([("a", "1,b:2")]) == RequestText([("a", "1"), ("b", "2")])
  {
    assert Sort([("a", "1,b:2")], PairLe) == [("a", "1,b:2")];
    assert StrLe("a", "b") by { StrLeAt("a", "b", 0); }
    assert Sort([("a", "1"), ("b", "2")], PairLe) == [("a", "1"), ("b", "2")];
    assert Join(",", ["a:1", "b:2"]) == "a:1" + "," + Join(",", ["b:2"]);
  }

  /** The caller's keyword arguments include `pagination`. */
  predicate PassesPagination(kwargs: seq<(string, string)>) {
    exists i :: 0 <= i < |kwargs| && kwargs[i].0 == "pagination"
  }

  /** The next-page request repeats the caller's keyword arguments beside its own
      `pagination=` argument, so it raises `TypeError` when they already hold one. That
      happens exactly when the first response is answered and names a next page. */
  predicate PaginationClash(kwargs: seq<(string, string)>, pages: seq<Option<Response>>) {
    PassesPagination(kwargs) && pages != [] && pages[0].Some? && Continues(pages[0].value)
  }

  /** `regional_paginated_data_from_api(**kwargs)`: fetches the first page, then follows
      the cursors. The j-th request is answered by `pages[j]`. Also returns the cursor
      payloads sent, one per further request, and whether the first further request
      raised because `kwargs` already held `pagination`. */
  method RegionalPaginatedData(kwargs: seq<(string, string)>, pages: seq<Option<Response>>)
    returns (resp: Option<Response>, cursors: seq<Entries>, clash: bool)
    ensures clash <==> PaginationClash(kwargs, pages)
    ensures clash ==> cursors == []
    ensures !clash ==> resp == Merged(pages)
    ensures !clash ==> cursors == CursorsSent(Run(pages, Continues))
  {
    cursors := [];
    clash := false;
    if |pages| == 0 || pages[0].None? {
      return None, [], false;
    }
    ghost var run := Run(pages, Continues);
    var first := pages[0].value;
    if PassesPagination(kwargs) && NextPagePagination(PaginationOf(first)).Some? {
      // the first pass of the loop sends the next-page request, which raises
      return None, [], true;
    }
    var data := DataOf(first);
    var pagination := PaginationOf(first);
    var j := 1;
    ghost var popped := false;
    assert run[..0] == [];
    assert run[..1] == [first];
    assert [first][1..] == [];
    while HasNextPage(pagination)
      invariant 1 <= j <= |run|
      invariant data == Gather(run[..j], DataOf)
      invariant !popped ==> pagination == PaginationOf(run[j - 1])
      invariant popped ==> pagination.None? && j == |run| && HasNextPage(PaginationOf(run[j - 1]))
      invariant !popped ==> cursors == CursorsSent(run[..j - 1])
      invariant popped ==> cursors == CursorsSent(run)
      decreases |pages| - j + (if pagination.Some? then 1 else 0)
    {
      var next := NextPagePagination(pagination);
      RunStep(pages, Continues, j);
      CursorsSentPrefix(run, j);
      pagination := None;
      popped := true;
      if next.Some? {
        cursors := cursors + [next.value];
        var answer := if j < |pages| then pages[j] else None;
        if answer.Some? {
          GatherPrefix(run, j, DataOf);
          data := data + DataOf(answer.value);
          pagination := PaginationOf(answer.value);
          j := j + 1;
          popped := false;
        }
      }
    }
    assert run[..j] == run;
    CursorsSentPrefix(run, j);
    resp := if first.EmptyBody? then Some(EmptyBody) else Some(Response(data, pagination));
  }

  /** Why a call stored nothing, or stopped storing. */
  datatype CallError =
    | NoResponse          // the first request was not answered
    | PaginationKeyword   // `pagination` passed twice to the next-page request
    | Model(ModelError)   // a data object could not be turned into a record

  /** Every stored record names its model. */
  ghost predicate AllNamed(s: Store) {
    forall k :: k in s.records ==>
      s.records[k].dataModelName.Some? && s.records[k].dataModelName.value != ""
  }

  /** What the store of a regional data model keeps: one listed key per record, each
      record under its own key and naming its model. */
  ghost predicate GoodStore(s: Store, key: Record -> string) {
    Consistent(s) && Keyed(s, key) && AllNamed(s)
  }

  /** Putting a named record under its own key keeps a good store. */
  lemma UpsertKeepsStore(s: Store, r: Record, key: Record -> string)
    requires GoodStore(s, key)
    requires r.dataModelName.Some? && r.dataModelName.value != ""
    ensures GoodStore(Upsert(s, key(r), r), key)
  {
  }

  /** The update loop of `set_items` before record `k`: the store is good, and the
      records from `k` on lead to `target`. */
  ghost predicate StoringFrom(s: Store, rs: seq<Record>, k: nat, key: Record -> string, target: Store) {
    k <= |rs| && GoodStore(s, key) && UpsertAll(s, rs[k..], key) == target
  }

  /** One pass of the update loop of `set_items`: putting record `k` under its key keeps
      a good store, and the records after it still lead to the same final store. */
  lemma StoreStep(s: Store, rs: seq<Record>, k: nat, key: Record -> string, target: Store)
    requires k < |rs| && StoringFrom(s, rs, k, key, target)
    requires rs[k].dataModelName.Some? && rs[k].dataModelName.value != ""
    ensures StoringFrom(Upsert(s, key(rs[k]), rs[k]), rs, k + 1, key, target)
  {
    UpsertAllStep(s, rs, k, key);
    UpsertKeepsStore(s, rs[k], key);
  }

  /** When every record is stored, the store is the target. */
  lemma StoringDone(s: Store, rs: seq<Record>, key: Record -> string, target: Store)
    requires StoringFrom(s, rs, |rs|, key, target)
    ensures GoodStore(s, key) && s == target
  {
    assert rs[|rs|..] == [];
  }

  class RegionalDataModel {
    /** Python's `hash` on strings, fixed for the life of the process. */
    const hash: string -> int
    /** `record_hash`, the key records are stored under. */
    const key: Record -> string
    /** The typed models `DatagardenModels` offers. */
    const registry: Registry
    var modelName: string
    var requestHashes: seq<string>
    var records: map<string, Record>
    var order: seq<string>

    /** `_data_records` as a store: records by key, keys in insertion order. */
    function Contents(): Store
      reads this
    {
      Store(records, order)
    }

    /** Every record sits under its own key, names its model, and no request hash is
        remembered twice. */
    ghost predicate Valid()
      reads this
    {
      GoodStore(Contents(), key) && Distinct(requestHashes)
    }

    constructor (hash: string -> int, registry: Registry, modelName: string)
      ensures Valid()
      ensures this.hash == hash && this.registry == registry && this.modelName == modelName
      ensures forall r :: key(r) == RecordHash(r, hash)
      ensures requestHashes == [] && records == map[] && order == []
    {
      this.hash := hash;
      key := r => RecordHash(r, hash);
      this.registry := registry;
      this.modelName := modelName;
      requestHashes := [];
      records := map[];
      order := [];
    }

    /** `__len__`: the number of stored records, one per distinct identity key. */
    function Len(): (n: nat)
      reads this
      requires Valid()
      ensures n == |order|
    {
      CountIsDistinctKeys(Contents());
      |records|
    }

    /** `data_records`: the stored records in insertion order. */
    function DataRecords(): (rs: seq<Record>)
      reads this
      requires Valid()
      ensures |rs| == Len()
      ensures forall i :: 0 <= i < |rs| ==> key(rs[i]) == order[i] && rs[i] == records[order[i]]
    {
      InOrder(Contents(), key)
    }

    /** No two records listed share a key. */
    lemma DataRecordsDistinctKeys()
      requires Valid()
      ensures forall i, j :: 0 <= i < j < |DataRecords()| ==>
        key(DataRecords()[i]) != key(DataRecords()[j])
    {
      InOrderDistinctKeys(Contents(), key);
    }

    /** `_data_records.update({data_record.record_hash(): data_record})`: the record is
        put under its key, a new key going last. */
    method StoreRecord(r: Record)
      modifies this
      ensures Contents() == Upsert(old(Contents()), key(r), r)
      ensures modelName == old(modelName) && requestHashes == old(requestHashes)
    {
      var t := Upsert(Contents(), key(r), r);
      records, order := t.records, t.order;
    }

    /** The update loop of `set_items` for one region's records: each record is put
        under its key, a new key going last. */
    method StoreRecords(rs: seq<Record>)
      requires Valid()
      requires forall i :: 0 <= i < |rs| ==> rs[i].dataModelName.Some? && rs[i].dataModelName.value != ""
      modifies this
      ensures Valid()
      ensures Contents() == UpsertAll(old(Contents()), rs, key)
      ensures modelName == old(modelName) && requestHashes == old(requestHashes)
    {
      ghost var target := UpsertAll(Contents(), rs, key);
      var k := 0;
      while k < |rs|
        invariant StoringFrom(Store(records, order), rs, k, key, target)
        invariant modelName == old(modelName) && requestHashes == old(requestHashes)
      {
        StoreStep(Store(records, order), rs, k, key, target);
        StoreRecord(rs[k]);
        k := k + 1;
      }
      StoringDone(Store(records, order), rs, key, target);
    }

    /** `set_items`: stores the records of every region in order, each region's records
        built before any is stored; a failing data object stops the loop with the
        records of the earlier regions stored. When it goes through, the model name
        becomes that of the first record stored. */
    method SetItems(data: seq<RegionData>) returns (err: Option<ModelError>)
      requires Valid()
      modifies this
      ensures Valid()
      ensures Contents() == UpsertAll(old(Contents()), Batch(data, registry).0, key)
      ensures err == Batch(data, registry).1
      ensures err.None? && order != [] ==> modelName == records[order[0]].dataModelName.value
      ensures err.Some? || order == [] ==> modelName == old(modelName)
      ensures requestHashes == old(requestHashes)
    {
      ghost var start := Contents();
      var i := 0;
      while i < |data|
        invariant 0 <= i <= |data|
        invariant Valid()
        invariant Batch(data[..i], registry).1.None?
        invariant Contents() == UpsertAll(start, Batch(data[..i], registry).0, key)
        invariant modelName == old(modelName) && requestHashes == old(requestHashes)
      {
        var built := RegionRecords(data[i], data[i].dataObjects, registry);
        BatchStep(data, i, registry);
        if built.Failure? {
          return Some(built.error);
        }
        RegionRecordsNamed(data[i], registry);
        ghost var before := Batch(data[..i], registry).0;
        StoreRecords(built.value);
        UpsertAllAppend(start, before, built.value, key);
        i := i + 1;
      }
      assert data[..i] == data;
      if order != [] {
        modelName := records[order[0]].dataModelName.value;
      }
      return None;
    }

    /** `__call__(**kwargs)`: a parameter set already fetched is skipped without a
        request. Otherwise the data is fetched; an empty body `{}` stores nothing, any
        other response is stored, and the parameter set is remembered when that went
        through. A fetch that raises (no first response, a clashing `pagination`
        argument, a data object that cannot be built) leaves it unremembered. */
    method Call(kwargs: seq<(string, string)>, pages: seq<Option<Response>>)
      returns (fetched: bool, err: Option<CallError>)
      requires Valid()
      modifies this
      ensures Valid()
      ensures fetched <==> RequestHash(kwargs, hash) !in old(requestHashes)
      ensures !fetched ==> err.None?
      ensures fetched && PaginationClash(kwargs, pages) ==> err == Some(PaginationKeyword)
      ensures fetched && !PaginationClash(kwargs, pages) && Merged(pages).None? ==>
        err == Some(NoResponse)
      ensures fetched && !PaginationClash(kwargs, pages) && Merged(pages) == Some(EmptyBody) ==>
        err.None? && requestHashes == old(requestHashes) + [RequestHash(kwargs, hash)]
      ensures !fetched || PaginationClash(kwargs, pages) || Merged(pages).None? ==>
        requestHashes == old(requestHashes)
      ensures !fetched || PaginationClash(kwargs, pages) || Merged(pages).None? ||
              Merged(pages) == Some(EmptyBody) ==>
        records == old(records) && order == old(order) && modelName == old(modelName)
      ensures fetched && !PaginationClash(kwargs, pages) && Merged(pages).Some? &&
              Merged(pages).value.Response? ==>
        var b := Batch(Merged(pages).value.dataByRegion, registry);
        Contents() == UpsertAll(old(Contents()), b.0, key) &&
        err == (if b.1.Some? then Some(Model(b.1.value)) else None) &&
        requestHashes ==
          (if b.1.None? then old(requestHashes) + [RequestHash(kwargs, hash)] else old(requestHashes)) &&
        (b.1.None? && order != [] ==> modelName == records[order[0]].dataModelName.value) &&
        (b.1.Some? || order == [] ==> modelName == old(modelName))
    {
      var h := RequestHash(kwargs, hash);
      if h in requestHashes {
        return false, None;
      }
      var resp, cursors, clash := RegionalPaginatedData(kwargs, pages);
      if clash {
        return true, Some(PaginationKeyword);
      }
      if resp.None? {
        return true, Some(NoResponse);
      }
      if resp.value.Response? {
        var e := SetItems(resp.value.dataByRegion);
        if e.Some? {
          return true, Some(Model(e.value));
        }
      }
      requestHashes := requestHashes + [h];
      return true, None;
    }

    /** `to_polars(model_convertors)`: one row per stored record, in insertion order;
        the first convertor that fails stops the conversion. */
    method ToPolars(convs: seq<(string, string)>)
      returns (rows: Result<seq<Entries>, ProjectionError>)
      requires Valid()
      ensures rows == Rows(DataRecords(), convs)
    {
      ghost var all := DataRecords();
      var out: seq<Entries> := [];
      var i := 0;
      assert all[..0] == [];
      while i < |order|
        invariant 0 <= i <= |order|
        invariant Rows(all[..i], convs) == Success(out)
      {
        var row := ConvertRecord(records[order[i]], convs);
        if row.Failure? {
          RowsStopAt(all, i, convs);
          return Failure(row.error);
        }
        RowsExtend(all, i, convs);
        out := out + [row.value];
        i := i + 1;
      }
      assert all[..i] == all;
      return Success(out);
    }

    /** `full_model_to_polars`: one row per stored record, in insertion order: the
        record's fields with its whole model flattened over them. */
    method FullModelToPolars() returns (rows: seq<Entries>)
      requires Valid()
      ensures rows == FullRows(DataRecords())
    {
      ghost var all := DataRecords();
      rows := [];
      var i := 0;
      while i < |order|
        invariant 0 <= i <= |order|
        invariant rows == FullRows(all[..i])
      {
        var row := FullRowOf(records[order[i]]);
        FullRowsSnoc(all[..i], all[i]);
        assert all[..i + 1] == all[..i] + [all[i]];
        rows := rows + [row];
        i := i + 1;
      }
      assert all[..i] == all;
    }
  }
}
