# CTAWrapper in Dafny

A model of `CTAWrapper`, the PHP client for the Chicago Transit Authority's
customer-alerts, bus-tracker and train-tracker APIs and the City of
Chicago's L-stops data set. The model covers the part of the class that
has invariants to prove:

- the query string it builds from a parameter array
  (`convertValuesToString`, `generateGetVariables`, with PHP's `urlencode`);
- the static `$API_URLS` / `$API_ENDPOINTS` tables and the four entry points
  (`alertApiCall`, `busApiCall`, `trainApiCall`, `trainStopsApiCall`), with
  their endpoint check, API-key check and key injection;
- the 60-second cache in the `apiCache` table (`checkCache`, `setCache`,
  `deleteCache`) and the sequencing of the two fetch paths
  (`fetchXmlApiData`, `fetchJsonApiData`).

Layout, one module per file:

| file | module | contents |
|---|---|---|
| `strings.dfy` | `Strings` | byte strings, `implode`/`explode` (`Join`/`Split`), cutting at the first separator |
| `urlencoding.dfy` | `UrlEncoding` | `urlencode` and its partner `urldecode` |
| `querystring.dfy` | `QueryString` | `convertValuesToString`, the reference query string `Query`, the loop `GenerateGetVariables`, reading a query string back |
| `registry.dfy` | `Registry` | the URL and endpoint tables, the exceptions and their messages |
| `requests.dfy` | `Requests` | the url each entry point asks for, before the cache |
| `cachetable.dfy` | `CacheTable` | the `apiCache` rows and the three SQL statements as functions of the table |
| `dispatch.dfy` | `Dispatch` | one call as a function: response, table afterwards, url fetched |
| `wrapper.dfy` | `Wrapper` | the class `CTAWrapper` with the table as a field and every method proved against `Dispatch` |

The world outside the class is passed in. The clock is read twice in a
call that misses the cache, both times in whole seconds. `now` is the
reading `checkCache` compares against one minute ago. `stamp` is the later
reading `setCache` writes into the new row once the network has answered.
The network is an oracle. `load(url)` is the JSON encoding of
the document `simplexml_load_file` reads, or `None` for `false`.
`fetch(url)` is the body `file_get_contents` reads, or `None`. Whether
`json_decode` accepts a non-empty text is the predicate `decodes`. The
empty string never decodes, so it does not depend on `decodes`. A response
`Decoded(text)` stands for `json_decode(text, true)`. The ghost field
`CTAWrapper.fetched` logs every url requested from the network, so that
the contracts can say when a call goes to the network and when it does not.

Where the code and the documented behaviour of the library differ, the
model follows the code:

- A cached row is evicted when it is *at least* 60 seconds old. The test
  is `<=` against one minute ago, not "older than 60 seconds".
- `busApiCall` and `trainApiCall` check the key *before* the endpoint. A
  keyless call with an unknown endpoint reports the missing key.
- The XML path never throws a parse failure. When the document cannot be
  loaded it stores `json_encode(false)`, which is the text `"false"`, and
  returns its `json_decode`, which is `false`.
- The JSON path stores the fetched body *before* testing whether it
  decodes. An undecodable body is cached, so a repeat call within 60
  seconds returns `json_decode` of it (null) instead of throwing.
- A failed fetch raises no network error. `file_get_contents` returns
  `false`, which is stored as the empty string. `json_decode('')` is
  null, so the call then throws the decode exception.

## Model

| member | source | states |
|---|---|---|
| `QueryString.SkippedIff` | CTAWrapper.php:256-267 | `convertValuesToString` yields the empty string exactly for null, `''`, `[]` and `['']`; a boolean always gives a non-empty `TRUE`/`FALSE` |
| `QueryString.ListValueSplits` | CTAWrapper.php:263-265 | an array value is imploded with `,` and, when no element holds a comma, explodes back to the same elements |
| `QueryString.SurvivorsMember` | CTAWrapper.php:237-240 | a parameter reaches the query string exactly when its converted value is not `''` |
| `QueryString.GenerateGetVariables` | CTAWrapper.php:232-249 | the loop with its two accumulators returns exactly the reference query string `Query(data)`: `?` then the surviving `name=value` pieces joined by `&`, in array order |
| `QueryString.QueryStep` | CTAWrapper.php:239-246 | one more parameter either leaves the query unchanged (skipped) or appends `?` (first) or `&` (later) and its encoded piece |
| `QueryString.QueryShape` | CTAWrapper.php:232-249 | the query string is empty iff nothing survives; otherwise it starts with the only `?` and holds one `&` fewer than there are survivors |
| `QueryString.ParseQueryRoundTrip` | CTAWrapper.php:232-249 | cutting the query string at `&` and each piece at its first `=` gives back the encoded pairs of the survivors, in order |
| `QueryString.QueryDecodes` | CTAWrapper.php:232-249 | a server that splits and `urldecode`s the query string sees every surviving name and converted value unchanged, in order |
| `UrlEncoding.DecodeEncode` | CTAWrapper.php:245 | `urldecode(urlencode(s)) == s` for every byte string |
| `UrlEncoding.EncodeInjective` | CTAWrapper.php:245 | different names or values never encode to the same text |
| `UrlEncoding.EncodeEmits` | CTAWrapper.php:245 | `urlencode` writes only letters, digits, `-_.`, `+` and `%` |
| `UrlEncoding.NoDelimiters` | CTAWrapper.php:245 | no encoded name or value contains `?`, `&`, `=`, `,` or `#` |
| `UrlEncoding.HexRoundTrip` | CTAWrapper.php:245 | each upper-case hex digit `urlencode` writes reads back as its value |
| `Strings.SplitJoin` | CTAWrapper.php:264 | `explode(sep, implode(sep, items)) == items` when no item holds `sep` |
| `Strings.CountJoin` | CTAWrapper.php:264 | `implode` of n separator-free items writes exactly n-1 separators |
| `Strings.JoinEmptyIff` | CTAWrapper.php:264 | `implode` gives `''` exactly for no items or one empty item |
| `Registry.AddressesFreeOfQuery` | CTAWrapper.php:17-47 | no base address and no endpoint path contains `?`, so the first `?` of a request url opens its query string |
| `Registry.MessagesDistinct` | CTAWrapper.php:133-298 | the seven exception texts (lines 135, 149, 153, 167, 171, 205 and 287) are pairwise different over the exceptions a call can raise |
| `Requests.SetParamPlacement` | CTAWrapper.php:151 | `$params['key'] = k` overwrites the entry of that name in place, or appends one when absent, and keeps names distinct |
| `Requests.KeyedRequestOutcomes` | CTAWrapper.php:147-174 | no key: the key exception whatever the endpoint; unknown endpoint: the endpoint exception; otherwise base + path + query of the parameters carrying the key |
| `Requests.ParamInjected` | CTAWrapper.php:151 | after injection the configured key is the only value under its name, and it reaches the query string iff it is not `''` |
| `Requests.OtherParamsKept` | CTAWrapper.php:151 | every other caller parameter is sent, and survives, exactly as before the injection |
| `Requests.EndpointUrlSplits` | CTAWrapper.php:137 | the url of a known endpoint cut at its first `?` gives base + path, and after it the parameters sent |
| `Requests.TrainStopsUrlSplits` | CTAWrapper.php:182-188 | the train-stops url cut at its first `?` gives the data-set address, and after it the parameters, with the token when one is configured |
| `CacheTable.DeleteSelect` | CTAWrapper.php:317-322 | `deleteCache(url)` leaves no row of `url` and every other url's rows unchanged |
| `CacheTable.InsertSelect` | CTAWrapper.php:305-311 | `setCache` adds one row with the url, the data and the current time, and changes what no other url selects |
| `CacheTable.CheckOutcomes` | CTAWrapper.php:276-298 | no row: miss; more than one: the `Double Cache Values!` exception; one row at least 60 s old: deleted, then miss; otherwise its data; other urls untouched |
| `CacheTable.SetThenCheck` | CTAWrapper.php:276-311 | data stored for a url comes back unchanged for less than 60 s; from 60 s on the lookup misses and the row is gone |
| `CacheTable.UniqueNeverDouble` | CTAWrapper.php:287-289 | with at most one row per url the double-row exception cannot happen |
| `CacheTable.MissThenInsertUnique` | CTAWrapper.php:196-225 | checking, then inserting on a miss, keeps at most one row per url |
| `CacheTable.CheckKeepsUnique` | CTAWrapper.php:276-298 | `checkCache` keeps at most one row per url |
| `CacheTable.InsertKeepsIds` | CTAWrapper.php:305-311 | a new row's id is above all ids in use, so the primary key holds |
| `CacheTable.DeleteKeepsIds` | CTAWrapper.php:317-322 | deletion keeps the primary key and adds no row |
| `Dispatch.XmlStepOutcomes` | CTAWrapper.php:215-225 | a hit answers with the stored text and no fetch; the exception changes nothing; a miss fetches the url once and leaves exactly one row, stamped after the load, holding the document's JSON or `false` |
| `Dispatch.JsonStepOutcomes` | CTAWrapper.php:196-208 | as above for the JSON path; on a miss the body is stored and the call throws iff it does not decode; a failed fetch always stores `''` and throws |
| `Dispatch.StepsKeepTable` | CTAWrapper.php:196-225 | both fetch paths keep at most one row per url and leave every other url's rows alone |
| `Dispatch.JsonRepeatWithinTtl` | CTAWrapper.php:196-208 | a repeat call for the same url less than 60 s after the row was stamped returns the stored body without fetching, even when the first call threw |
| `Dispatch.XmlRepeatWithinTtl` | CTAWrapper.php:215-225 | a repeat call less than 60 s after the row was stamped returns what the first returned, without fetching |
| `Dispatch.XmlRepeatAfterTtl` | CTAWrapper.php:276-311 | from 60 s after the stamp on, a repeat call deletes the stale row and behaves as a call on the table without it: it goes to the network again |
| `Dispatch.RejectedBeforeCache` | CTAWrapper.php:133-174 | an unknown endpoint or a missing key throws with the table untouched and nothing fetched |
| `Dispatch.KeyedCallFetches` | CTAWrapper.php:147-174 | a bus or train call with a key and a known endpoint fetches, if at all, exactly base + path + query with the key |
| `Dispatch.TrainStopsNeverRejected` | CTAWrapper.php:182-188 | without a token the url is the address plus the caller's query; the call throws only the cache or decode exception |
| `Wrapper.CTAWrapper.constructor` | CTAWrapper.php:101-124 | the three keys as configured, the table as persisted, nothing fetched |
| `Wrapper.CTAWrapper.CheckCache` | CTAWrapper.php:276-298 | result and new table are those of `checkCache`; one row per url is kept |
| `Wrapper.CTAWrapper.SetCache` | CTAWrapper.php:305-311 | the table gains the one row stamped with the clock reading at the insert |
| `Wrapper.CTAWrapper.DeleteCache` | CTAWrapper.php:317-322 | the table loses the rows of the url |
| `Wrapper.CTAWrapper.FetchXmlApiData` | CTAWrapper.php:215-225 | response, new table and fetch log follow the XML step; one row per url is kept |
| `Wrapper.CTAWrapper.FetchJsonApiData` | CTAWrapper.php:196-208 | response, new table and fetch log follow the JSON step; one row per url is kept |
| `Wrapper.CTAWrapper.AlertApiCall` | CTAWrapper.php:133-138 | endpoint check, then the XML fetch of base + path + query |
| `Wrapper.CTAWrapper.KeyedApiCall` | CTAWrapper.php:147-174 | key check, key injection, endpoint check, then the XML fetch |
| `Wrapper.CTAWrapper.BusApiCall` | CTAWrapper.php:147-156 | the keyed call for the bus API with the configured bus key |
| `Wrapper.CTAWrapper.TrainApiCall` | CTAWrapper.php:165-174 | the keyed call for the train API with the configured train key |
| `Wrapper.CTAWrapper.TrainStopsApiCall` | CTAWrapper.php:182-188 | optional `$$app_token` injection, then the JSON fetch of the address plus query |

## Left out

- The PDO/SQLite plumbing is left out: the connection, the database file
  path under `DOCUMENT_ROOT`, the error mode and `CREATE TABLE`. The table
  is a sequence of rows, and the constructor takes the rows already stored.
- SQLite's `datetime('now','localtime')` text and PHP's `strtotime` are
  modelled as whole seconds. Time zones and daylight-saving shifts are not
  modelled.
- The network and the XML and JSON libraries are parameters (`load`,
  `fetch`, `decodes`). Payloads stay opaque text, and the conversion of a
  document into arrays is not modelled.
- Parameter values cover booleans, strings, arrays of strings and null.
  Integer and float values, integer array keys and nested arrays are not
  modelled, because PHP's loose `== ''` and its string conversion of
  those depend on the PHP version.
- `Wrapper.CTAWrapper.FetchJsonApiData`: stores `[]` when
  `file_get_contents` fails, assuming PDO binds `false` as the empty
  string. PHP's warning is not modelled.
- `CacheTable.NextId`: the rowid is one more than the largest in use, and
  SQLite's fallback at the largest 64-bit rowid is not modelled.
- `$TRAIN_LINES` (lines 58-95) is a display table no operation reads.
- Concurrent writers to the shared cache file are not modelled; calls are
  sequential.
- The `example/` directory is usage code, not part of the class.
