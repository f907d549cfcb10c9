# The DataGarden client core, in Dafny

This project models the core of the DataGarden Python client (`the_datagarden`).
It covers three parts:

- **Regional data.** `TheDataGardenRegionalDataModel` fetches regional data pages for
  one region, following pagination cursors. It turns each data object into a
  `RegionalDataRecord`, and stores the records in a dict keyed by an identity hash
  (`record_hash`), where the last write wins and insertion order is kept. It
  remembers which request parameter sets it has already fetched. It projects the
  stored records into table rows (`to_polars` with convertors, and
  `full_model_to_polars` with `flatten_dict`).
- **The API base class.** URL building (`_generate_url`, `_create_url_extension`),
  the GET/POST dispatch of `retrieve_from_api`, and the walk over a paginated list
  endpoint. It also covers the memoised registration of continent and country
  endpoints in the class-wide `DYNAMIC_ENDPOINTS` table.
- **The environment protocol.** The normalised service URL (`the_datagarden_url`)
  and how credentials are requested with it.

The modules are:

| module | what it models |
|---|---|
| `Wrappers` | `Option` and `Result` |
| `Values` | Python values as JSON-like data, dicts as insertion-ordered association lists, truthiness, `model_dump` |
| `Text` | `str.join`, `str.split`, `str.replace`, `lower`/`upper` on ASCII, `str(int)` |
| `Ordering` | Python's string order and `sorted` |
| `Records` | `RegionalDataRecord`, `record_hash`, `_record_items`, building records from a response |
| `RecordStore` | `_data_records`, the identity-keyed store |
| `Flatten` | `flatten_dict` |
| `Projection` | the rows of `to_polars` and `full_model_to_polars` |
| `Paging` | the cursor-following walk shared by both pagination loops |
| `RegionalData` | `TheDataGardenRegionalDataModel`, as a class over the store |
| `ApiBase` | `BaseDataGardenAPI` and the endpoint registration of `TheDataGardenAPI` |
| `Authentication` | `DatagardenEnvironment` |

### Inputs the model takes as parameters

- **Python's string `hash`** is a parameter `hash: string -> int`. It is fixed for
  the life of a model object, as it is for a process.
- **The typed model classes** of `DatagardenModels` are a registry. It maps an
  upper-cased tag to a builder that accepts or rejects a payload.
- **The HTTP responses** are a sequence of optional pages. Entry `j` is the answer
  the service would give to the `j`-th request of a walk, or `None` when there is
  no answer.
- **Credentials providers** are functions of the URL, the e-mail and the password.

### Where the model departs from the written code

- **A first page that is not answered.** When the first request gets no answer,
  `regional_data_from_api` returns `None`
  (`src/the_datagarden/models/__init__.py:128`). The loop condition of
  `regional_paginated_data_from_api` then calls `_response_has_next_page(None)`, which
  raises (lines 110 and 94), so `__call__` never records the request hash. The model
  returns the error `NoResponse` instead of raising, and it also leaves the request
  hash unrecorded. The other exceptions of `__call__` are modelled the same way, as
  errors returned with the request hash unrecorded: a `pagination` keyword argument
  that clashes with the next-page request (line 113, `PaginationKeyword`), and a data
  object that cannot be built (`Model`).

### Behaviour the model follows on purpose

- **The model name after `set_items`.** This is taken from the first entry of the
  insertion-ordered dict, as the code does (`list(...items())[0]`, lines 152-157), not
  from the last record stored.
- **An empty first response `{}`.** This is falsy, so `__call__` skips `set_items` but
  still records the request hash (lines 84-86). The model has a response value of its
  own for it (`EmptyBody`). A later page answered with `{}` is skipped like a missing
  answer (line 114).

## Model

| member | source | states |
|---|---|---|
| Records.SortedUniqueFields | src/the_datagarden/models/__init__.py:8-18 | `sorted(UNIQUE_FIELDS)` is the nine identifying field names in the order `iso_cc_2, local_region_code, local_region_code_type, period, period_type, region_level, region_type, source_name, un_region_code` |
| Records.IdentityTextInSortedOrder | src/the_datagarden/models/__init__.py:38-40 | the hashed text is the nine identifying fields, rendered with `str()`, in sorted field-name order, joined by `"."` |
| Records.SameIdentitySameKey | src/the_datagarden/models/__init__.py:38-40 | two records that agree on the nine identifying fields get the same key, whatever their name, parent fields and model |
| Records.NoneRendersAsNoneString | src/the_datagarden/models/__init__.py:39 | in each of the eight optional identifying fields, a missing value and the string `"None"` give the same key |
| Records.RecordHash | src/the_datagarden/models/__init__.py:38-40 | `str(hash(...))` of the identity text; its partners `IdentityTextInSortedOrder`, `SameIdentitySameKey`, `NoneRendersAsNoneString` and `DotInFieldShiftsAcrossFields` state what the key depends on |
| Records.DotInFieldShiftsAcrossFields | src/the_datagarden/models/__init__.py:39 | a `"."` inside a field is not escaped: moving it from `iso_cc_2` into `local_region_code` keeps the key, so distinct records collide |
| Records.RecordItems | src/the_datagarden/models/__init__.py:159-173 | fails with a missing tag when `data_type` is absent or empty, with an unknown model when the upper-cased tag is not registered, and with an invalid payload when the model rejects the payload; succeeds exactly when the upper-cased tag names a model that accepts the payload; on success carries the source, period, period type, the tag as model name, and the built model |
| Records.TagCaseIgnoredForLookup | src/the_datagarden/models/__init__.py:164 | tags that upper-case alike resolve alike; the record keeps the tag as spelled |
| Records.RegionRecords | src/the_datagarden/models/__init__.py:144-148 | the list comprehension of one region; its partner `RegionRecordsAllOrFirstFailure` states the result |
| Records.Batch | src/the_datagarden/models/__init__.py:131-150 | the records of the region loop and its first error; its partners `BatchSucceeds`, `BatchAppend`, `BatchStep` and `BatchRecordsNamed` state the result |
| Records.RegionRecordsAllOrFirstFailure | src/the_datagarden/models/__init__.py:132-148 | a region yields one record per data object, in order, carrying the region's base fields (absent ones `None`, an absent level 0) and the object's items; otherwise the error is that of the first object that fails |
| Records.BatchSucceeds | src/the_datagarden/models/__init__.py:131-150 | the region loop goes through exactly when every region's records can be built |
| Records.BatchAppend | src/the_datagarden/models/__init__.py:131-150 | splitting the regions splits the batch; the second part counts only when the first went through |
| Records.BatchStep | src/the_datagarden/models/__init__.py:131-150 | the loop at region `i`: either this region's records are appended, or its error ends the batch |
| Records.BatchRecordsNamed | src/the_datagarden/models/__init__.py:146-148 | every record built names its model with a non-empty tag |
| RecordStore.InOrder | src/the_datagarden/models/__init__.py:249-251 | `list(d.values())`: one record per listed key, in insertion order, each stored under its own key |
| RecordStore.Upsert | src/the_datagarden/models/__init__.py:150 | `dict.update` with one pair keeps the existing order as a prefix and adds exactly the new key |
| RecordStore.UpsertAllKeys | src/the_datagarden/models/__init__.py:149-150 | the keys after a batch are the old keys plus the keys of the batch |
| RecordStore.UpsertAllConsistent | src/the_datagarden/models/__init__.py:149-150 | the insertion order keeps listing each stored key exactly once |
| RecordStore.UpsertAllLookup | src/the_datagarden/models/__init__.py:149-150 | last write wins: a key holds the last record of the batch with that key, and keeps its old record when the batch has none |
| RecordStore.UpsertAllKeyed | src/the_datagarden/models/__init__.py:149-150 | every record stays under its own key |
| RecordStore.UpsertAllAppend | src/the_datagarden/models/__init__.py:149-150 | storing two batches in turn is storing their concatenation |
| RecordStore.UpsertAllIdempotent | src/the_datagarden/models/__init__.py:149-150 | storing the same batch twice changes nothing the second time |
| RecordStore.UpsertAllNoNewKeys | src/the_datagarden/models/__init__.py:149-150 | a batch whose keys are already stored leaves the insertion order alone |
| RecordStore.CountIsDistinctKeys | src/the_datagarden/models/__init__.py:245-247 | the number of stored records equals the number of listed keys |
| Flatten.PathKeyIsDotJoin | src/the_datagarden/models/__init__.py:206-208 | a leaf's key below a non-empty prefix is the dot-join (`str.join`) of the prefix and its path |
| Flatten.TopLevelPathKeyIsDotJoin | src/the_datagarden/models/__init__.py:206 | at the top level, a path whose first key is not empty gives the dot-join of the path |
| Flatten.Leaves | src/the_datagarden/models/__init__.py:205-210 | the writes of the loop, in depth-first order, none of them a dict; its partners `LeavesFollowPaths` and `ReachedLeafIsWritten` tie the writes to the paths that reach them, in both directions |
| Flatten.Flattened | src/the_datagarden/models/__init__.py:204-212 | `flatten_dict(d, {})`; its partner `FlattenedLookup` states its keys and values |
| Flatten.LeavesFollowPaths | src/the_datagarden/models/__init__.py:204-212 | every written key belongs to a path that leads through nested dicts to exactly the value written |
| Flatten.ReachedPathIsListed | src/the_datagarden/models/__init__.py:204-212 | every path through nested dicts to a value that is not a dict is one of the paths the loop visits: no leaf is skipped |
| Flatten.ReachedLeafIsWritten | src/the_datagarden/models/__init__.py:204-212 | every such value is written, under the key of its path; with `LeavesFollowPaths`, the writes are exactly the leaves |
| Flatten.FlattenDict | src/the_datagarden/models/__init__.py:204-212 | the accumulator, updated in place, ends up as the old accumulator with every leaf of the dict written in depth-first order |
| Flatten.FlattenedLookup | src/the_datagarden/models/__init__.py:204-212 | a flattened dict has distinct keys; a key written twice holds its last leaf, and nothing else is present |
| Flatten.EmptyDictContributesNothing | src/the_datagarden/models/__init__.py:207-208 | a nested empty dict adds no key |
| Flatten.FlattenExample | src/the_datagarden/models/__init__.py:204-212 | `{"a": {"b": 1, "c": {"d": 2}}}` flattens to `{"a.b": 1, "a.c.d": 2}` |
| Flatten.EmptyTopLevelKeyAddsNoDot | src/the_datagarden/models/__init__.py:206 | an empty top-level key adds no dot: `{"": {"b": 1}}` flattens like `{"b": 1}` |
| Projection.BaseRow | src/the_datagarden/models/__init__.py:183-184 | one entry per record field, in declaration order |
| Projection.BaseRowColumns | src/the_datagarden/models/__init__.py:183-184 | a record's row has exactly the record fields as distinct columns, without `model` |
| Projection.WalkPastModel | src/the_datagarden/models/__init__.py:192-193 | once the attribute walk leaves the model instances it finds only `None` |
| Projection.Resolve | src/the_datagarden/models/__init__.py:191-193 | the walk fails exactly when the first attribute is not a field of the model |
| Projection.PlainPath | src/the_datagarden/models/__init__.py:188-190 | without `__flatten`, an attribute is split on dots as written |
| Projection.Convert | src/the_datagarden/models/__init__.py:186-200 | a convertor only adds columns; it fails when the first attribute is missing, or when a `__flatten` value is truthy but neither a dict nor a model instance (`.items()` raises), and in no other case |
| Projection.ConvertSkipsFalsy | src/the_datagarden/models/__init__.py:194-195 | a falsy value leaves the row as it was |
| Projection.ConvertPlacesValue | src/the_datagarden/models/__init__.py:199-200 | without the marker, the value goes under the new column and every other column is kept |
| Projection.ConvertFlattenIgnoresColumn | src/the_datagarden/models/__init__.py:196-198 | with the marker, the column name plays no part and the flattened keys are merged in |
| Projection.MergeFlattened | src/the_datagarden/models/__init__.py:198 | after the merge, a key holds its last flattened leaf, or its old value when no leaf has that key |
| Projection.ApplyAll | src/the_datagarden/models/__init__.py:186-200 | convertors applied in order only add columns; none leave the row unchanged |
| Projection.Row | src/the_datagarden/models/__init__.py:182-200 | the base row with each convertor applied in order; its partners `RowKeepsRecordFields`, `ConvertRecord` and `Rows` state the result |
| Projection.RowKeepsRecordFields | src/the_datagarden/models/__init__.py:183-200 | a converted row keeps every record field |
| Projection.ApplyAllAppend | src/the_datagarden/models/__init__.py:186-200 | applying convertors in two batches is applying them all |
| Projection.Rows | src/the_datagarden/models/__init__.py:181-201 | one row per record, in order, or the error of the first record whose row fails |
| Projection.RowsAppend | src/the_datagarden/models/__init__.py:181-201 | rows of two runs of records are the rows of each run, the second counting only when the first went through |
| Projection.FullRow | src/the_datagarden/models/__init__.py:221-225 | the base row updated with the flattened model; its partner `FullRowLookup` states its keys and values |
| Projection.FullRowLookup | src/the_datagarden/models/__init__.py:219-226 | a full row holds every record field and every flattened model key; a model key equal to a field name overrides it |
| Projection.FullRows | src/the_datagarden/models/__init__.py:218-227 | one full row per record |
| Projection.ConvertOne | src/the_datagarden/models/__init__.py:187-200 | the loop body for one convertor computes `Convert` |
| Projection.ConvertRecord | src/the_datagarden/models/__init__.py:181-201 | the convertor loop for one record computes `Row` |
| Projection.FullRowOf | src/the_datagarden/models/__init__.py:219-226 | the full row of one record, built with `flatten_dict` |
| Paging.Run | src/the_datagarden/models/__init__.py:108-118 | the pages a walk collects are answered pages taken in order; each but the last asks for more; the walk stops only at a page that asks for none or at a missing answer |
| Paging.RunCollectsAll | src/the_datagarden/api/base/__init__.py:96-100 | when every page is answered and each but the last names a next page, every page is collected |
| Paging.GatherLength | src/the_datagarden/api/base/__init__.py:97-99 | gathering drops and adds no item: its length is the sum of the page sizes |
| Paging.GatherSnoc | src/the_datagarden/api/base/__init__.py:97-99 | gathering one more page appends its items |
| RegionalData.HasNextPage | src/the_datagarden/models/__init__.py:93-97 | a non-empty pagination block whose `next_page` is present and not `None`; `NextPagePagination`'s contract ties the cursor to it |
| RegionalData.NextPagePagination | src/the_datagarden/models/__init__.py:99-106 | a cursor payload `{"page": next_page}` exists exactly when the pagination block is present and non-empty and its `next_page` is truthy |
| RegionalData.Merged | src/the_datagarden/models/__init__.py:108-118 | there is no response exactly when the first page is not answered; the response is the falsy `{}` exactly when the first page was `{}` |
| RegionalData.MergedCollectsAll | src/the_datagarden/models/__init__.py:108-118 | with every page answered and continuing but the last, the merged `data_by_region` is all pages' regions in order |
| RegionalData.FalsyCursorEndsWalk | src/the_datagarden/models/__init__.py:100-106 | a present but falsy `next_page` ends the walk after popping the pagination block |
| RegionalData.CursorsSentAlongWalk | src/the_datagarden/models/__init__.py:110-116 | along a walk, one cursor is sent after each page but the last, plus one after the last if it still names a next page; each is that page's `{"page": next_page}` |
| RegionalData.RegionalPaginatedData | src/the_datagarden/models/__init__.py:108-118 | raises exactly when the keyword arguments hold `pagination` and the first page names a next page; otherwise the loop returns the merged response and sends exactly the walk's cursors |
| RegionalData.RequestText | src/the_datagarden/models/__init__.py:89-90 | the sorted keyword arguments as `key:value` items joined by `,`; its partners `RequestHashIgnoresOrder` and `RequestTextCollides` state what the text depends on |
| RegionalData.RequestHash | src/the_datagarden/models/__init__.py:88-91 | `str(hash(...))` of the request text; its partner `RequestHashIgnoresOrder` states that argument order does not matter |
| RegionalData.RequestHashIgnoresOrder | src/the_datagarden/models/__init__.py:88-91 | the order of the keyword arguments does not change the request hash |
| RegionalData.RequestTextCollides | src/the_datagarden/models/__init__.py:90 | items are joined without escaping, so one argument can hash like two |
| RegionalData.UpsertKeepsStore | src/the_datagarden/models/__init__.py:150 | storing a named record under its own key keeps the store consistent, keyed and named |
| RegionalData.RegionalDataModel.constructor | src/the_datagarden/models/__init__.py:67-72 | a new model has no records and no request hashes, and keys records by `record_hash` |
| RegionalData.RegionalDataModel.Len | src/the_datagarden/models/__init__.py:245-247 | the count is the number of stored keys |
| RegionalData.RegionalDataModel.DataRecords | src/the_datagarden/models/__init__.py:249-251 | the stored records in insertion order, each under its own key |
| RegionalData.RegionalDataModel.DataRecordsDistinctKeys | src/the_datagarden/models/__init__.py:249-251 | no two listed records share a key |
| RegionalData.RegionalDataModel.StoreRecord | src/the_datagarden/models/__init__.py:150 | the store becomes `Upsert` of the old one under the record's key; the model name and request hashes are unchanged |
| RegionalData.RegionalDataModel.StoreRecords | src/the_datagarden/models/__init__.py:149-150 | the update loop leaves the store as `UpsertAll` of the old store and keeps the invariant |
| RegionalData.RegionalDataModel.SetItems | src/the_datagarden/models/__init__.py:130-157 | stores the batch's records (those before the first failing region), returns its error, and on success takes the model name from the first stored record |
| RegionalData.RegionalDataModel.Call | src/the_datagarden/models/__init__.py:80-86 | fetches exactly when the request hash is new, and a known hash changes nothing; an empty first response `{}` stores nothing and remembers the hash; any other response is stored, and the hash is remembered when all of it went through; a clashing `pagination` argument, a missing first response or a failing data object stores nothing further and leaves the hash unremembered |
| RegionalData.RegionalDataModel.ToPolars | src/the_datagarden/models/__init__.py:175-202 | the rows are `Rows` of the stored records in insertion order |
| RegionalData.RegionalDataModel.FullModelToPolars | src/the_datagarden/models/__init__.py:214-227 | the rows are `FullRows` of the stored records in insertion order |
| ApiBase.GenerateUrl | src/the_datagarden/api/base/__init__.py:54-58 | the URL starts with base plus extension, ends in `/`, and is unchanged when it already did |
| ApiBase.GenerateUrlIdempotent | src/the_datagarden/api/base/__init__.py:54-58 | a generated URL generates itself again |
| ApiBase.RetrieveFromApi | src/the_datagarden/api/base/__init__.py:60-75 | succeeds exactly for `GET` and `POST`, otherwise fails with an invalid method; the URL is the generated one; GET sends the params, POST sends the payload |
| ApiBase.CreateUrlExtension | src/the_datagarden/api/base/__init__.py:102-106 | fails exactly on no parts; otherwise the parts joined by `/`, lower-cased, spaces made `-`, with a `/` appended unless the last part is `"/"` |
| ApiBase.CreateUrlExtensionEndsWithSlash | src/the_datagarden/api/base/__init__.py:102-106 | a created extension always ends in `/` |
| ApiBase.CreateUrlExtensionDoublesSlash | src/the_datagarden/api/base/__init__.py:104 | the test at line 104 compares the whole last part with `"/"`, so `["a/"]` becomes `a//` |
| ApiBase.ListedRecords | src/the_datagarden/api/base/__init__.py:96-100 | the results of each page of the walk, in order; its partners `RecordsFromPaginatedApiResponse`, `GatherLength` and `RunCollectsAll` state the result |
| ApiBase.RecordsFromPaginatedApiResponse | src/the_datagarden/api/base/__init__.py:77-100 | yields the results of each page of the walk, in order, following `next` while it is truthy |
| ApiBase.EndpointName | src/the_datagarden/api/base/__init__.py:135 | same length, no spaces and no upper-case letters, each character `_` where the name has a space and the lower-cased original elsewhere |
| ApiBase.EndpointNameIdempotent | src/the_datagarden/api/base/__init__.py:135 | normalising a normalised name changes nothing |
| ApiBase.EndpointFor | src/the_datagarden/api/base/__init__.py:134-143 | a listed region gives an endpoint exactly when it has a string `name` |
| ApiBase.Register | src/the_datagarden/api/base/__init__.py:134-158 | the `update` loop over the listed regions, stopping at the first malformed one; its partners `RegisterCoversRecords`, `RegisterKeepsKeys` and `RegisterAddsOnlyNames` state the result |
| ApiBase.RegisterCoversRecords | src/the_datagarden/api/base/__init__.py:134-158 | when registration goes through, every listed region has an endpoint under its normalised name |
| ApiBase.RegisterKeepsKeys | src/the_datagarden/api/base/__init__.py:136-158 | registration never drops an endpoint |
| ApiBase.RegisterAddsOnlyNames | src/the_datagarden/api/base/__init__.py:136-158 | every name in the table was there before or is a listed region's normalised name |
| ApiBase.EndpointTable.constructor | src/the_datagarden/api/base/__init__.py:42 | the table starts empty for every category |
| ApiBase.DataGardenApi.constructor | src/the_datagarden/api/base/__init__.py:44-52 | a client's base URL is the environment's normalised service URL, which ends in `/` and starts with the configured URL; the endpoint table is the shared one |
| ApiBase.DataGardenApi.Populate | src/the_datagarden/api/base/__init__.py:131-160 | fetches exactly when the category's endpoints are empty; then GETs the list URL and registers every listed region; other categories are untouched; returns the category's endpoints |
| Authentication.TheDatagardenUrl | src/the_datagarden/abc/authentication.py:31-36 | the URL ends in `/`, starts with the configured URL, is at most one longer, and is unchanged when it already ended in `/` |
| Authentication.TheDatagardenUrlIdempotent | src/the_datagarden/abc/authentication.py:31-36 | normalising a normalised URL changes nothing |
| Authentication.TrailingSlashIrrelevant | src/the_datagarden/abc/authentication.py:34-36 | a URL with or without its trailing slash normalises alike |
| Authentication.EnvironmentCredentials | src/the_datagarden/abc/authentication.py:26-29 | the provider's answer for the normalised URL; its partners `CredentialsSeeNormalisedUrl` and `CredentialsIgnoreTrailingSlash` state what it depends on |
| Authentication.CredentialsSeeNormalisedUrl | src/the_datagarden/abc/authentication.py:26-29 | the credentials depend on the configured URL only through its normalised form |
| Authentication.CredentialsIgnoreTrailingSlash | src/the_datagarden/abc/authentication.py:26-36 | configuring the URL with or without its trailing slash gives the same credentials |

## Left out

- HTTP transport, headers and access tokens. Requests are values (`HttpRequest`), and responses are the `pages` parameter.
- `regional_data_from_api` is modelled only through the responses it returns. The payload it builds is not modelled.
- `pl.from_records`, `to_pandas` and `full_model_to_pandas` are not modelled. The model stops at the list of row dicts, because the dataframe libraries are not part of this model.
- Pydantic is not modelled. Model classes are the abstract registry, so the dead `if not model` test at line 165 has no counterpart.
- Values of Python's `hash` and their stability across processes are not modelled. `hash` is a parameter.
- The response JSON shape is taken as given:
  - a missing `data_by_region`, `data_objects_for_region` or `results` key, which raises a `KeyError` in the source, is not modelled;
  - a missing `pagination` key is read as absent, although on a later page the source indexes it (line 116) and raises `KeyError`.
- `__str__`, `__repr__`, `__iter__`, `__getattr__` and `world()` are not modelled. They are display and lookup conveniences with no state change.
- `TheDataGardenAPI.__init__` calls `continents()` and `country()` itself. The model leaves those calls to the caller of `Populate`.
- The `URLExtension` and `DynamicEndpointCategories` constants become the parameters `listExtension` and `prefix` and the `Category` type, because the settings module is not part of this model.
- A `Continent` object is represented by its URL extension. The regions module is not part of this model.
- `lower`, `upper` and `replace` act on ASCII letters only. Unicode case mapping is not modelled.
- `_records_from_paginated_api_response` is a lazy generator. The model takes all pages before registration, and a record registered before a failing record stays registered, as in the source.
- `_get_next_page` raises for a request method other than GET or POST. The model does not include this, because every request is built by `retrieve_from_api`, which only sends those two.
- The `ValueError` at `set_items` line 156 cannot be raised in the model. Its class invariant keeps every stored record named.
- `getattr` on attributes Python defines on every object (methods, dunder names) is not modelled. Attributes are the model's fields only.
- Floats are not among the modelled values. Payload values are used only for their truthiness (line 194) and are carried unchanged otherwise, and `Int(0)` plays the role a falsy `0.0` plays.
- Keyword arguments are rendered with `str()`. They are modelled as strings already rendered.
- `str(v)` for a region level is modelled as decimal text of the integer.
- Empty URLs:
  - `GenerateUrl` and `RetrieveFromApi` require a non-empty URL, and `Authentication.TheDatagardenUrl` and `ApiBase.DataGardenApi.constructor` require a non-empty configured URL;
  - the source indexes `url[-1]` there and raises `IndexError` on an empty string;
  - the `requires` clauses exclude that crash instead of modelling it.
- Not part of this model: the credentials module (`api/authentication/credentials`), the regions base classes, `abc/regions.py`, and the command-line tests.
