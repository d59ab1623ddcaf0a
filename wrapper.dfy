/** The CTAWrapper class: its three configured keys, its apiCache table,
    the cache statements, the two fetch paths and the four entry points.
    The clock is read twice in a call that misses: `now` (whole seconds)
    when checkCache compares against one minute ago, and `stamp` when
    setCache writes the new row after the network answered. The network
    is the oracle `load` (simplexml_load_file followed by json_encode) or
    `fetch` (file_get_contents), and `decodes` says whether json_decode
    accepts a non-empty text. The ghost field `fetched` records every url
    requested from the network, in order. */
module Wrapper {
  import opened Strings
  import opened QueryString
  import opened Registry
  import opened Requests
  import opened CacheTable
  import opened Dispatch

  /** The urls a step requested from the network: none or one. */
  function Fetches(s: Step): seq<Bytes>
  {
    if s.fetched.Some? then [s.fetched.value] else []
  }

  class CTAWrapper {
    const trainApiKey: Option<Bytes>
    const busApiKey: Option<Bytes>
    const trainStopsApiKey: Option<Bytes>
    var apiCache: seq<Row>
    ghost var fetched: seq<Bytes>

    /** `persisted` is the apiCache table already in the database file;
        CREATE TABLE IF NOT EXISTS leaves it as it is. A key the
        configuration does not set, or sets to null, is None. */
    constructor (trainKey: Option<Bytes>, busKey: Option<Bytes>, stopsKey: Option<Bytes>, persisted: seq<Row>)
      ensures trainApiKey == trainKey && busApiKey == busKey && trainStopsApiKey == stopsKey
      ensures apiCache == persisted && fetched == []
    {
      trainApiKey := trainKey;
      busApiKey := busKey;
      trainStopsApiKey := stopsKey;
      apiCache := persisted;
      fetched := [];
    }

    /** checkCache: the stored data, a miss, or the double-row exception;
        an expired row is deleted first. */
    method CheckCache(url: Bytes, now: int) returns (r: Lookup)
      modifies this
      ensures Checked(r, apiCache) == Check(old(apiCache), url, now)
      ensures fetched == old(fetched)
      ensures UniqueUrls(old(apiCache)) ==> UniqueUrls(apiCache)
    {
      var results := Select(apiCache, url);
      if |results| == 0 {
        return Miss;
      }
      if |results| != 1 {
        return Double;
      }
      if Expired(results[0], now) {
        ghost var before := apiCache;
        DeleteCache(url);
        if UniqueUrls(before) {
          CheckKeepsUnique(before, url, now);
        }
        return Miss;
      }
      r := Hit(results[0].data);
    }

    /** setCache: one new row stamped with the current time `stamp`. */
    method SetCache(url: Bytes, data: Bytes, stamp: int)
      modifies this
      ensures apiCache == Insert(old(apiCache), url, data, stamp)
      ensures fetched == old(fetched)
    {
      apiCache := Insert(apiCache, url, data, stamp);
    }

    /** deleteCache: every row of the url goes. */
    method DeleteCache(url: Bytes)
      modifies this
      ensures apiCache == Delete(old(apiCache), url)
      ensures fetched == old(fetched)
    {
      apiCache := Delete(apiCache, url);
    }

    /** fetchXmlApiData: answer from the cache, or load the document,
        store its JSON encoding and answer with it. */
    method FetchXmlApiData(url: Bytes, now: int, stamp: int, load: Bytes -> Option<Bytes>) returns (r: Response)
      modifies this
      ensures var s := XmlStep(old(apiCache), url, now, stamp, load);
        r == s.response && apiCache == s.table && fetched == old(fetched) + Fetches(s)
      ensures UniqueUrls(old(apiCache)) ==> UniqueUrls(apiCache)
    {
      ghost var before := apiCache;
      StepsKeepTable(before, url, now, stamp, load, load, _ => true);
      var cache := CheckCache(url, now);
      match cache
      case Double =>
        r := Failed(DoubleCacheValues);
      case Hit(data) =>
        r := Decoded(data);
      case Miss =>
        var loaded := load(url);
        fetched := fetched + [url];
        var jsonResults := if loaded.Some? then loaded.value else JsonFalse;
        SetCache(url, jsonResults, stamp);
        r := Decoded(jsonResults);
    }

    /** fetchJsonApiData: answer from the cache, or fetch the body, store
        it, and only then fail when it does not decode. */
    method FetchJsonApiData(url: Bytes, now: int, stamp: int, fetch: Bytes -> Option<Bytes>, decodes: Bytes -> bool)
      returns (r: Response)
      modifies this
      ensures var s := JsonStep(old(apiCache), url, now, stamp, fetch, decodes);
        r == s.response && apiCache == s.table && fetched == old(fetched) + Fetches(s)
      ensures UniqueUrls(old(apiCache)) ==> UniqueUrls(apiCache)
    {
      ghost var before := apiCache;
      StepsKeepTable(before, url, now, stamp, fetch, fetch, decodes);
      var cache := CheckCache(url, now);
      match cache
      case Double =>
        r := Failed(DoubleCacheValues);
      case Hit(data) =>
        r := Decoded(data);
      case Miss =>
        var body := fetch(url);
        fetched := fetched + [url];
        var jsonResponse := if body.Some? then body.value else [];
        SetCache(url, jsonResponse, stamp);
        var decoded := JsonDecodes(decodes, jsonResponse);
        if decoded {
          r := Decoded(jsonResponse);
        } else {
          r := Failed(JsonDecodeFailed);
        }
    }

    method AlertApiCall(endpoint: Bytes, params: seq<Param>, now: int, stamp: int, load: Bytes -> Option<Bytes>)
      returns (r: Response)
      modifies this
      ensures var s := AlertCall(old(apiCache), endpoint, params, now, stamp, load);
        r == s.response && apiCache == s.table && fetched == old(fetched) + Fetches(s)
      ensures UniqueUrls(old(apiCache)) ==> UniqueUrls(apiCache)
    {
      if endpoint !in Endpoints(Alerts) {
        return Failed(UnknownEndpoint(Alerts));
      }
      var query := GenerateGetVariables(params);
      r := FetchXmlApiData(ApiUrl(Alerts) + Endpoints(Alerts)[endpoint] + query, now, stamp, load);
    }

    /** busApiCall and trainApiCall: the key check, the key written into
        the parameters, the endpoint check, then the XML fetch. */
    method KeyedApiCall(d: Domain, apiKey: Option<Bytes>, endpoint: Bytes, params: seq<Param>,
                        now: int, stamp: int, load: Bytes -> Option<Bytes>) returns (r: Response)
      requires d == Bus || d == Train
      modifies this
      ensures var s := KeyedCall(d, apiKey, old(apiCache), endpoint, params, now, stamp, load);
        r == s.response && apiCache == s.table && fetched == old(fetched) + Fetches(s)
      ensures UniqueUrls(old(apiCache)) ==> UniqueUrls(apiCache)
    {
      if apiKey.None? {
        return Failed(KeyRequired(d));
      }
      var sent := SetParam(params, KeyName, Text(apiKey.value));
      if endpoint !in Endpoints(d) {
        return Failed(UnknownEndpoint(d));
      }
      var query := GenerateGetVariables(sent);
      r := FetchXmlApiData(ApiUrl(d) + Endpoints(d)[endpoint] + query, now, stamp, load);
    }

    method BusApiCall(endpoint: Bytes, params: seq<Param>, now: int, stamp: int, load: Bytes -> Option<Bytes>)
      returns (r: Response)
      modifies this
      ensures var s := KeyedCall(Bus, busApiKey, old(apiCache), endpoint, params, now, stamp, load);
        r == s.response && apiCache == s.table && fetched == old(fetched) + Fetches(s)
      ensures UniqueUrls(old(apiCache)) ==> UniqueUrls(apiCache)
    {
      r := KeyedApiCall(Bus, busApiKey, endpoint, params, now, stamp, load);
    }

    method TrainApiCall(endpoint: Bytes, params: seq<Param>, now: int, stamp: int, load: Bytes -> Option<Bytes>)
      returns (r: Response)
      modifies this
      ensures var s := KeyedCall(Train, trainApiKey, old(apiCache), endpoint, params, now, stamp, load);
        r == s.response && apiCache == s.table && fetched == old(fetched) + Fetches(s)
      ensures UniqueUrls(old(apiCache)) ==> UniqueUrls(apiCache)
    {
      r := KeyedApiCall(Train, trainApiKey, endpoint, params, now, stamp, load);
    }

    /** trainStopsApiCall: the optional token, then the JSON fetch. */
    method TrainStopsApiCall(params: seq<Param>, now: int, stamp: int, fetch: Bytes -> Option<Bytes>, decodes: Bytes -> bool)
      returns (r: Response)
      modifies this
      ensures var s := TrainStopsCall(trainStopsApiKey, old(apiCache), params, now, stamp, fetch, decodes);
        r == s.response && apiCache == s.table && fetched == old(fetched) + Fetches(s)
      ensures UniqueUrls(old(apiCache)) ==> UniqueUrls(apiCache)
    {
      var sent := params;
      if trainStopsApiKey.Some? {
        sent := SetParam(params, AppTokenName, Text(trainStopsApiKey.value));
      }
      var query := GenerateGetVariables(sent);
      r := FetchJsonApiData(ApiUrl(TrainStops) + query, now, stamp, fetch, decodes);
    }
  }
}
