/** The request side of the API client: URL building, the GET/POST dispatch, the
    record stream over a paginated list endpoint, and the table of dynamic endpoints
    (one per continent and per country) that is filled on first use. */
module ApiBase {
  import opened Wrappers
  import opened Values
  import opened Text
  import opened Paging
  import opened Authentication

  datatype ApiError =
    | InvalidMethod(name: string)   // `retrieve_from_api` with neither GET nor POST
    | NoExtension                   // `_create_url_extension([])` fails on `[-1]`
    | MalformedRecord(record: Value) // a listed region without a string `name`

  /** `_generate_url`: the base URL followed by the extension, with a slash appended
      unless the two already end in one. An empty result fails on `url[-1]`. */
  function GenerateUrl(baseUrl: string, ext: string): (url: string)
    requires baseUrl + ext != []
    ensures baseUrl + ext <= url && |url| <= |baseUrl + ext| + 1
    ensures EndsWith(url, '/')
    ensures EndsWith(baseUrl + ext, '/') ==> url == baseUrl + ext
  {
    var u := baseUrl + ext;
    if u[|u| - 1] != '/' then u + "/" else u
  }

  /** A generated URL generates itself again. */
  lemma GenerateUrlIdempotent(baseUrl: string, ext: string)
    requires baseUrl + ext != []
    ensures GenerateUrl(GenerateUrl(baseUrl, ext), "") == GenerateUrl(baseUrl, ext)
  {
    assert GenerateUrl(baseUrl, ext) + "" == GenerateUrl(baseUrl, ext);
  }

  datatype HttpMethod = HttpGet | HttpPost

  /** A request as `retrieve_from_api` sends it: GET carries query parameters, POST a
      JSON payload. Headers are not part of this model. */
  datatype HttpRequest = HttpRequest(verb: HttpMethod, url: string,
                                     params: Option<Entries>, payload: Option<Entries>)

  /** `retrieve_from_api(url_extension, method, payload, params)`: the request it sends
      for the HTTP method `verb`, or `ValueError` for one other than GET and POST. */
  function RetrieveFromApi(baseUrl: string, ext: string, verb: string,
                           payload: Option<Entries>, params: Option<Entries>)
    : (r: Result<HttpRequest, ApiError>)
    requires baseUrl + ext != []
    ensures r.Success? <==> verb == "GET" || verb == "POST"
    ensures r.Failure? ==> r.error == InvalidMethod(verb)
    ensures r.Success? ==> r.value.url == GenerateUrl(baseUrl, ext)
    ensures r.Success? ==> (r.value.verb == HttpGet <==> verb == "GET")
    ensures verb == "GET" ==> r.value.params == params && r.value.payload.None?
    ensures verb == "POST" ==> r.value.payload == payload && r.value.params.None?
  {
    var url := GenerateUrl(baseUrl, ext);
    if verb == "GET" then Success(HttpRequest(HttpGet, url, params, None))
    else if verb == "POST" then Success(HttpRequest(HttpPost, url, None, payload))
    else Failure(InvalidMethod(verb))
  }

  /** The character `_create_url_extension` writes for `c`: lower-cased, a space
      becoming a dash. */
  function UrlChar(c: char): char {
    if c == ' ' then '-' else LowerChar(c)
  }

  /** `_create_url_extension(parts)`: the parts joined by slashes, lower-cased, spaces
      turned into dashes, and a slash appended unless the last part is exactly `"/"`;
      the test looks at the last part, not at the joined text. */
  function CreateUrlExtension(parts: seq<string>): (r: Result<string, ApiError>)
    ensures r.Failure? <==> parts == []
    ensures r.Failure? ==> r.error == NoExtension
    ensures r.Success? ==> var j := Join("/", parts);
      |r.value| == |j| + (if parts[|parts| - 1] == "/" then 0 else 1) &&
      (forall i :: 0 <= i < |j| ==> r.value[i] == UrlChar(j[i])) &&
      (parts[|parts| - 1] != "/" ==> r.value[|j|] == '/')
  {
    if parts == [] then Failure(NoExtension)
    else
      var url := ReplaceChar(Lower(Join("/", parts)), ' ', '-');
      if parts[|parts| - 1] == "/" then Success(url) else Success(url + "/")
  }

  /** Whatever the parts, a created extension ends in a slash. */
  lemma CreateUrlExtensionEndsWithSlash(parts: seq<string>)
    requires parts != []
    ensures EndsWith(CreateUrlExtension(parts).value, '/')
  {
    var j := Join("/", parts);
    if parts[|parts| - 1] == "/" {
      JoinEndsWithLast("/", parts);
      assert j[|j| - 1] == '/';
    }
  }

  /** A single part that ends in a slash still gets one appended: `["a/"]` becomes
      `"a//"`. */
  lemma CreateUrlExtensionDoublesSlash()
    ensures CreateUrlExtension(["a/"]) == Success("a//")
  {
    var r := CreateUrlExtension(["a/"]).value;
    assert Join("/", ["a/"]) == "a/";
    assert |r| == 3;
    assert r[0] == UrlChar('a') == 'a';
    assert r[1] == UrlChar('/') == '/';
    assert r[2] == '/';
    assert r == "a//";
  }

  /** A response of a paginated list endpoint: its `results` and its `next` cursor
      (`None` when the body has no `next`). */
  datatype Page = Page(results: seq<Value>, next: Value)

  /** `_get_next_page` fetches again only when `next` is truthy. */
  predicate HasNext(p: Page) {
    Truthy(p.next)
  }

  function Results(p: Page): seq<Value> {
    p.results
  }

  /** The records a paginated listing yields: the results of each page of the walk,
      page after page. */
  function ListedRecords(pages: seq<Option<Page>>): seq<Value> {
    Gather(Run(pages, HasNext), Results)
  }

  /** `_records_from_paginated_api_response(response)`: yields the results of the
      response, then follows `next` while it is truthy and the fetch is answered. The
      first response is `pages[0]`. */
  method RecordsFromPaginatedApiResponse(pages: seq<Option<Page>>) returns (records: seq<Value>)
    ensures records == ListedRecords(pages)
  {
    ghost var run := Run(pages, HasNext);
    var response: Option<Page> := if |pages| > 0 then pages[0] else None;
    var j := 0;
    records := [];
    while response.Some?
      invariant response.Some? ==> j < |run| && response.value == run[j]
      invariant response.Some? ==> records == Gather(run[..j], Results)
      invariant response.None? ==> records == Gather(run, Results)
      decreases |pages| - j + (if response.Some? then 1 else 0)
    {
      var page := response.value;
      var before := records;
      for k := 0 to |page.results|
        invariant records == before + page.results[..k]
      {
        records := records + [page.results[k]];
      }
      assert page.results[..|page.results|] == page.results;
      GatherPrefix(run, j, Results);
      RunStep(pages, HasNext, j + 1);
      if !HasNext(page) {
        assert run[..j + 1] == run;
        response := None;
      } else {
        j := j + 1;
        response := if j < |pages| then pages[j] else None;
        if response.None? {
          assert run[..j] == run;
        }
      }
    }
  }

  /** The method name an endpoint is registered under: the region's name lower-cased,
      spaces becoming underscores. */
  function EndpointName(name: string): (r: string)
    ensures |r| == |name|
    ensures forall i :: 0 <= i < |r| ==> r[i] != ' ' && !('A' <= r[i] <= 'Z')
    ensures forall i :: 0 <= i < |r| ==> name[i] == ' ' || LowerChar(name[i]) == r[i]
    ensures forall i :: 0 <= i < |r| ==> r[i] == (if name[i] == ' ' then '_' else LowerChar(name[i]))
  {
    ReplaceChar(Lower(name), ' ', '_')
  }

  /** Normalising a normalised name changes nothing, so names already in the table
      are found under themselves. */
  lemma EndpointNameIdempotent(name: string)
    ensures EndpointName(EndpointName(name)) == EndpointName(name)
  {
  }

  datatype Category = Continents | Countries

  /** What an endpoint is: for a continent a `Continent` object over its URL extension,
      for a country the URL extension itself. */
  function EndpointValue(category: Category, ext: string): Value {
    match category
    case Continents => Obj([("url", Str(ext))])
    case Countries => Str(ext)
  }

  /** `record["name"]` when the listed region is a dict with a string `name`. */
  function RecordName(record: Value): Option<string> {
    if record.Dict? && Get(record.entries, "name").Some? && Get(record.entries, "name").value.Str? then
      Some(Get(record.entries, "name").value.s)
    else None
  }

  /** The endpoint registered for one listed region: under its normalised name, the
      endpoint over the URL extension made of `prefix` and the name; or the error when
      the record has no string `name`. */
  function EndpointFor(record: Value, category: Category, prefix: string): (r: Result<(string, Value), ApiError>)
    ensures r.Success? <==> RecordName(record).Some?
    ensures r.Failure? ==> r.error == MalformedRecord(record)
  {
    match RecordName(record)
    case None => Failure(MalformedRecord(record))
    case Some(name) =>
      Success((EndpointName(name), EndpointValue(category, CreateUrlExtension([prefix + name]).value)))
  }

  /** The endpoint table of a category after registering `records` in order, each under
      its name (a later region of the same name replacing an earlier one), and the
      error of the first malformed record, which ends the registration. */
  function Register(eps: Entries, records: seq<Value>, category: Category, prefix: string)
    : (Entries, Option<ApiError>)
    decreases |records|
  {
    if records == [] then (eps, None)
    else
      match EndpointFor(records[0], category, prefix)
      case Failure(e) => (eps, Some(e))
      case Success(kv) => Register(Put(eps, kv.0, kv.1), records[1..], category, prefix)
  }

  /** When registration goes through, every listed region is named and has an
      endpoint under its normalised name. */
  lemma {:induction false} RegisterCoversRecords(eps: Entries, records: seq<Value>, category: Category, prefix: string)
    requires Register(eps, records, category, prefix).1.None?
    ensures forall i :: 0 <= i < |records| ==> RecordName(records[i]).Some?
    ensures forall i :: 0 <= i < |records| ==>
      EndpointName(RecordName(records[i]).value) in KeySet(Register(eps, records, category, prefix).0)
    decreases |records|
  {
    if records != [] {
      var kv := EndpointFor(records[0], category, prefix).value;
      var next := Put(eps, kv.0, kv.1);
      RegisterCoversRecords(next, records[1..], category, prefix);
      RegisterKeepsKeys(next, records[1..], category, prefix);
      forall i | 0 <= i < |records|
        ensures RecordName(records[i]).Some?
        ensures EndpointName(RecordName(records[i]).value) in KeySet(Register(eps, records, category, prefix).0)
      {
        if i > 0 { assert records[i] == records[1..][i - 1]; }
      }
    }
  }

  /** Registration never drops an endpoint. */
  lemma {:induction false} RegisterKeepsKeys(eps: Entries, records: seq<Value>, category: Category, prefix: string)
    ensures KeySet(eps) <= KeySet(Register(eps, records, category, prefix).0)
    decreases |records|
  {
    if records != [] && EndpointFor(records[0], category, prefix).Success? {
      var kv := EndpointFor(records[0], category, prefix).value;
      RegisterKeepsKeys(Put(eps, kv.0, kv.1), records[1..], category, prefix);
    }
  }

  /** Every name in the table was there before or is the normalised name of a listed
      region. */
  lemma {:induction false} RegisterAddsOnlyNames(eps: Entries, records: seq<Value>, category: Category, prefix: string)
    ensures forall k :: k in KeySet(Register(eps, records, category, prefix).0) ==>
      k in KeySet(eps) ||
      exists i :: 0 <= i < |records| && RecordName(records[i]).Some? && EndpointName(RecordName(records[i]).value) == k
    decreases |records|
  {
    if records != [] && EndpointFor(records[0], category, prefix).Success? {
      var kv := EndpointFor(records[0], category, prefix).value;
      var next := Put(eps, kv.0, kv.1);
      RegisterAddsOnlyNames(next, records[1..], category, prefix);
      forall k | k in KeySet(Register(eps, records, category, prefix).0)
        ensures k in KeySet(eps) ||
          exists i :: 0 <= i < |records| && RecordName(records[i]).Some? && EndpointName(RecordName(records[i]).value) == k
      {
        if k !in KeySet(next) {
          var i :| 0 <= i < |records[1..]| && RecordName(records[1..][i]).Some? &&
                   EndpointName(RecordName(records[1..][i]).value) == k;
          assert records[i + 1] == records[1..][i];
        } else if k !in KeySet(eps) {
          assert EndpointName(RecordName(records[0]).value) == k;
        }
      }
    }
  }

  /** Registering the records from `i` on is registering record `i`, then the rest. */
  lemma RegisterStep(eps: Entries, records: seq<Value>, i: nat, category: Category, prefix: string)
    requires i < |records|
    ensures var e := EndpointFor(records[i], category, prefix);
      Register(eps, records[i..], category, prefix) ==
        if e.Failure? then (eps, Some(e.error))
        else Register(Put(eps, e.value.0, e.value.1), records[i + 1..], category, prefix)
  {
    assert records[i..][0] == records[i];
    assert records[i..][1..] == records[i + 1..];
  }

  /** `DYNAMIC_ENDPOINTS`: the endpoints by category. It belongs to the API class, not
      to an instance, so every client object shares one table. */
  class EndpointTable {
    var byCategory: map<Category, Entries>

    /** `DYNAMIC_ENDPOINTS[category]`, empty for a category never filled. */
    function Endpoints(category: Category): Entries
      reads this
    {
      if category in byCategory then byCategory[category] else []
    }

    constructor ()
      ensures byCategory == map[]
    {
      byCategory := map[];
    }
  }

  /** A client object: its base URL and the shared endpoint table. */
  class DataGardenApi {
    const baseUrl: string
    const table: EndpointTable

    /** `BaseDataGardenAPI(environment)`: the base URL is the environment's normalised
        service URL, so it always ends in a slash. */
    constructor (env: Environment, table: EndpointTable)
      requires env.configuredUrl != []
      ensures baseUrl == TheDatagardenUrl(env.configuredUrl)
      ensures EndsWith(baseUrl, '/') && env.configuredUrl <= baseUrl
      ensures this.table == table
    {
      baseUrl := TheDatagardenUrl(env.configuredUrl);
      this.table := table;
    }

    /** `continents()` and `country()`: when the category's endpoints are still empty,
        the listing at `listExtension` is fetched with a GET and every listed region is
        registered under its normalised name, its URL extension being `prefix` and its
        name; otherwise nothing is fetched and the table is returned as it is. A
        malformed record ends the registration with the earlier regions registered. */
    method Populate(category: Category, listExtension: string, prefix: string,
                    pages: seq<Option<Page>>)
      returns (request: Option<HttpRequest>, endpoints: Entries, err: Option<ApiError>)
      requires baseUrl + listExtension != []
      modifies table
      ensures request.Some? <==> old(table.Endpoints(category)) == []
      ensures request.None? ==>
        table.byCategory == old(table.byCategory) && err.None? && endpoints == table.Endpoints(category)
      ensures request.Some? ==>
        request.value == HttpRequest(HttpGet, GenerateUrl(baseUrl, listExtension), None, None) &&
        (table.Endpoints(category), err) == Register([], ListedRecords(pages), category, prefix)
      ensures forall c :: c != category ==> table.Endpoints(c) == old(table.Endpoints(c))
      ensures err.None? ==> category in table.byCategory && endpoints == table.Endpoints(category)
    {
      if table.Endpoints(category) != [] {
        return None, table.Endpoints(category), None;
      }
      var sent := RetrieveFromApi(baseUrl, listExtension, "GET", None, None);
      request := Some(sent.value);
      var records := RecordsFromPaginatedApiResponse(pages);
      ghost var target := Register([], records, category, prefix);
      var i := 0;
      while i < |records|
        invariant 0 <= i <= |records|
        invariant Register(table.Endpoints(category), records[i..], category, prefix) == target
        invariant forall c :: c != category ==> table.Endpoints(c) == old(table.Endpoints(c))
      {
        RegisterStep(table.Endpoints(category), records, i, category, prefix);
        var e := EndpointFor(records[i], category, prefix);
        if e.Failure? {
          return request, table.Endpoints(category), Some(e.error);
        }
        table.byCategory := table.byCategory[category := Put(table.Endpoints(category), e.value.0, e.value.1)];
        i := i + 1;
      }
      table.byCategory := table.byCategory[category := table.Endpoints(category)];
      return request, table.Endpoints(category), None;
    }
  }
}
