/** What one call does to the cache table and the network, as a function:
    fetchJsonApiData and fetchXmlApiData around the cache, and the four
    entry points around those. The network is an oracle from URL to
    response; what the XML and JSON libraries do with a payload is not
    modelled, so payloads stay opaque text. */
module Dispatch {
  import opened Strings
  import opened QueryString
  import opened Registry
  import opened Requests
  import opened CacheTable

  /** The effect of one call: what the caller gets, the table afterwards,
      and the URL fetched from the network, if any. */
  datatype Step = Step(response: Response, table: seq<Row>, fetched: Option<Bytes>)

  /** json_encode(false): what the XML path stores when the document could
      not be loaded. */
  const JsonFalse: Bytes := "false"

  /** The text the XML path stores for a load result: the JSON encoding of
      the document, or that of false. */
  function XmlText(loaded: Option<Bytes>): Bytes
  {
    if loaded.Some? then loaded.value else JsonFalse
  }

  /** The text the JSON path stores for a fetch result: the body, or the
      empty string that file_get_contents' false becomes when bound as text. */
  function JsonText(body: Option<Bytes>): Bytes
  {
    if body.Some? then body.value else []
  }

  /** Whether json_decode(text, true) is not null. `decodes` is the JSON
      library's verdict on a text; the empty string, which is what a failed
      fetch leaves, never decodes whatever that verdict. */
  predicate JsonDecodes(decodes: Bytes -> bool, text: Bytes)
  {
    text != [] && decodes(text)
  }

  /** fetchXmlApiData(url). The cache is checked against the clock reading
      `now`; a row written after the load is stamped with the later reading
      `stamp`. `load(url)` is the JSON encoding of the document
      simplexml_load_file reads from `url`, or None when it returns false. */
  function XmlStep(t: seq<Row>, url: Bytes, now: int, stamp: int, load: Bytes -> Option<Bytes>): Step
  {
    var c := Check(t, url, now);
    match c.result
    case Double => Step(Failed(DoubleCacheValues), c.table, None)
    case Hit(data) => Step(Decoded(data), c.table, None)
    case Miss =>
      var text := XmlText(load(url));
      Step(Decoded(text), Insert(c.table, url, text, stamp), Some(url))
  }

  /** fetchJsonApiData(url), with the two clock readings of XmlStep.
      `fetch(url)` is the body file_get_contents reads, or None for false. */
  function JsonStep(t: seq<Row>, url: Bytes, now: int, stamp: int,
                    fetch: Bytes -> Option<Bytes>, decodes: Bytes -> bool): Step
  {
    var c := Check(t, url, now);
    match c.result
    case Double => Step(Failed(DoubleCacheValues), c.table, None)
    case Hit(data) => Step(Decoded(data), c.table, None)
    case Miss =>
      var text := JsonText(fetch(url));
      var response := if JsonDecodes(decodes, text) then Decoded(text) else Failed(JsonDecodeFailed);
      Step(response, Insert(c.table, url, text, stamp), Some(url))
  }

  /** A call rejected before its URL is looked up. */
  function Rejected(t: seq<Row>, e: Error): Step
  {
    Step(Failed(e), t, None)
  }

  function AlertCall(t: seq<Row>, endpoint: Bytes, params: seq<Param>, now: int, stamp: int,
                     load: Bytes -> Option<Bytes>): Step
  {
    match AlertRequest(endpoint, params)
    case Failure(e) => Rejected(t, e)
    case Success(url) => XmlStep(t, url, now, stamp, load)
  }

  function KeyedCall(d: Domain, apiKey: Option<Bytes>, t: seq<Row>, endpoint: Bytes, params: seq<Param>,
                     now: int, stamp: int, load: Bytes -> Option<Bytes>): Step
    requires d == Bus || d == Train
  {
    match KeyedRequest(d, apiKey, endpoint, params)
    case Failure(e) => Rejected(t, e)
    case Success(url) => XmlStep(t, url, now, stamp, load)
  }

  function TrainStopsCall(appToken: Option<Bytes>, t: seq<Row>, params: seq<Param>, now: int, stamp: int,
                          fetch: Bytes -> Option<Bytes>, decodes: Bytes -> bool): Step
  {
    JsonStep(t, TrainStopsRequest(appToken, params), now, stamp, fetch, decodes)
  }

  /** A hit answers from the table: no fetch, no insert, the stored text.
      A miss fetches the url once and inserts exactly one row for it,
      stamped with the later clock reading, after dropping an expired one.
      The exception fetches nothing and changes nothing. */
  lemma XmlStepOutcomes(t: seq<Row>, url: Bytes, now: int, stamp: int, load: Bytes -> Option<Bytes>)
    ensures var s := XmlStep(t, url, now, stamp, load);
      && (Check(t, url, now).result.Hit? ==>
            s == Step(Decoded(Select(t, url)[0].data), t, None))
      && (Check(t, url, now).result == Double ==> s == Step(Failed(DoubleCacheValues), t, None))
      && (Check(t, url, now).result == Miss ==>
            && s.fetched == Some(url)
            && s.response == Decoded(XmlText(load(url)))
            && Select(s.table, url) == [Row(NextId(Check(t, url, now).table), url, XmlText(load(url)), stamp)])
  {
    CheckOutcomes(t, url, now);
    var c := Check(t, url, now);
    if c.result == Miss {
      InsertSelect(c.table, url, XmlText(load(url)), stamp, url);
    }
  }

  /** The JSON path stores the raw body before testing whether it decodes:
      a body that does not decode still leaves its row, and the call throws.
      A failed fetch always ends that way: the row holds the empty string
      and the call throws the decode exception. */
  lemma JsonStepOutcomes(t: seq<Row>, url: Bytes, now: int, stamp: int,
                         fetch: Bytes -> Option<Bytes>, decodes: Bytes -> bool)
    ensures var s := JsonStep(t, url, now, stamp, fetch, decodes);
      && (Check(t, url, now).result.Hit? ==>
            s == Step(Decoded(Select(t, url)[0].data), t, None))
      && (Check(t, url, now).result == Double ==> s == Step(Failed(DoubleCacheValues), t, None))
      && (Check(t, url, now).result == Miss ==>
            && s.fetched == Some(url)
            && (s.response == Failed(JsonDecodeFailed) <==> !JsonDecodes(decodes, JsonText(fetch(url))))
            && (s.response != Failed(JsonDecodeFailed) ==> s.response == Decoded(JsonText(fetch(url))))
            && Select(s.table, url) == [Row(NextId(Check(t, url, now).table), url, JsonText(fetch(url)), stamp)])
      && (Check(t, url, now).result == Miss && fetch(url).None? ==>
            && s.response == Failed(JsonDecodeFailed)
            && Select(s.table, url) == [Row(NextId(Check(t, url, now).table), url, [], stamp)])
  {
    CheckOutcomes(t, url, now);
    var c := Check(t, url, now);
    if c.result == Miss {
      InsertSelect(c.table, url, JsonText(fetch(url)), stamp, url);
    }
  }

  /** Both fetch paths keep at most one row per url and leave the rows of
      every other url as they were. */
  lemma StepsKeepTable(t: seq<Row>, url: Bytes, now: int, stamp: int,
                       load: Bytes -> Option<Bytes>, fetch: Bytes -> Option<Bytes>, decodes: Bytes -> bool)
    ensures UniqueUrls(t) ==> UniqueUrls(XmlStep(t, url, now, stamp, load).table)
    ensures UniqueUrls(t) ==> UniqueUrls(JsonStep(t, url, now, stamp, fetch, decodes).table)
    ensures forall u :: u != url ==>
      Select(XmlStep(t, url, now, stamp, load).table, u) == Select(t, u) &&
      Select(JsonStep(t, url, now, stamp, fetch, decodes).table, u) == Select(t, u)
  {
    var c := Check(t, url, now);
    CheckOutcomes(t, url, now);
    if UniqueUrls(t) {
      CheckKeepsUnique(t, url, now);
      if c.result == Miss {
        MissThenInsertUnique(t, url, XmlText(load(url)), now, stamp);
        MissThenInsertUnique(t, url, JsonText(fetch(url)), now, stamp);
      }
    }
    forall u | u != url
      ensures Select(XmlStep(t, url, now, stamp, load).table, u) == Select(t, u)
      ensures Select(JsonStep(t, url, now, stamp, fetch, decodes).table, u) == Select(t, u)
    {
      InsertSelect(c.table, url, XmlText(load(url)), stamp, u);
      InsertSelect(c.table, url, JsonText(fetch(url)), stamp, u);
    }
  }

  /** The throttling the cache exists for: a second call for the same url
      less than 60 seconds after the row was stamped is answered from the
      table without a fetch. On the JSON path this holds even when the
      first call threw because the body did not decode: the second call
      hands the caller json_decode of that body (null) instead of
      throwing. */
  lemma JsonRepeatWithinTtl(t: seq<Row>, url: Bytes, now: int, stamp: int, later: int, stamp2: int,
                            fetch: Bytes -> Option<Bytes>, decodes: Bytes -> bool,
                            fetch2: Bytes -> Option<Bytes>)
    requires UniqueUrls(t)
    requires Check(t, url, now).result == Miss
    requires later - stamp < Ttl
    ensures var first := JsonStep(t, url, now, stamp, fetch, decodes);
      JsonStep(first.table, url, later, stamp2, fetch2, decodes) ==
        Step(Decoded(JsonText(fetch(url))), first.table, None)
  {
    var c := Check(t, url, now);
    CheckOutcomes(t, url, now);
    SetThenCheck(c.table, url, JsonText(fetch(url)), stamp, later);
  }

  lemma XmlRepeatWithinTtl(t: seq<Row>, url: Bytes, now: int, stamp: int, later: int, stamp2: int,
                           load: Bytes -> Option<Bytes>, load2: Bytes -> Option<Bytes>)
    requires UniqueUrls(t)
    requires Check(t, url, now).result == Miss
    requires later - stamp < Ttl
    ensures var first := XmlStep(t, url, now, stamp, load);
      XmlStep(first.table, url, later, stamp2, load2) == Step(first.response, first.table, None)
  {
    var c := Check(t, url, now);
    CheckOutcomes(t, url, now);
    SetThenCheck(c.table, url, XmlText(load(url)), stamp, later);
  }

  /** From 60 seconds after the stamp on, the repeat goes to the network
      again, after the stale row is deleted. */
  lemma XmlRepeatAfterTtl(t: seq<Row>, url: Bytes, now: int, stamp: int, later: int, stamp2: int,
                          load: Bytes -> Option<Bytes>, load2: Bytes -> Option<Bytes>)
    requires UniqueUrls(t)
    requires Check(t, url, now).result == Miss
    requires later - stamp >= Ttl
    ensures var first := XmlStep(t, url, now, stamp, load);
      XmlStep(first.table, url, later, stamp2, load2) ==
        XmlStep(Check(t, url, now).table, url, later, stamp2, load2)
  {
    var c := Check(t, url, now);
    CheckOutcomes(t, url, now);
    SetThenCheck(c.table, url, XmlText(load(url)), stamp, later);
    CheckOutcomes(c.table, url, later);
  }

  /** The checks before any cache access: an unknown endpoint, or a bus or
      train call without a key, throws with the table untouched and
      nothing fetched. The key is checked before the endpoint. */
  lemma RejectedBeforeCache(d: Domain, apiKey: Option<Bytes>, t: seq<Row>, endpoint: Bytes,
                            params: seq<Param>, now: int, stamp: int, load: Bytes -> Option<Bytes>)
    requires d == Bus || d == Train
    ensures endpoint !in Endpoints(Alerts) ==>
      AlertCall(t, endpoint, params, now, stamp, load) == Step(Failed(UnknownEndpoint(Alerts)), t, None)
    ensures apiKey.None? ==>
      KeyedCall(d, apiKey, t, endpoint, params, now, stamp, load) == Step(Failed(KeyRequired(d)), t, None)
    ensures apiKey.Some? && endpoint !in Endpoints(d) ==>
      KeyedCall(d, apiKey, t, endpoint, params, now, stamp, load) == Step(Failed(UnknownEndpoint(d)), t, None)
  {
    KeyedRequestOutcomes(d, apiKey, endpoint, params);
  }

  /** A call that gets past its checks fetches, if at all, exactly
      base + path + query string, and the query string carries the
      configured key in place of any the caller passed. */
  lemma KeyedCallFetches(d: Domain, k: Bytes, t: seq<Row>, endpoint: Bytes,
                         params: seq<Param>, now: int, stamp: int, load: Bytes -> Option<Bytes>)
    requires d == Bus || d == Train
    requires endpoint in Endpoints(d)
    ensures var s := KeyedCall(d, Some(k), t, endpoint, params, now, stamp, load);
      var url := ApiUrl(d) + Endpoints(d)[endpoint] + Query(SetParam(params, KeyName, Text(k)));
      s == XmlStep(t, url, now, stamp, load) &&
      (s.fetched.Some? ==> s.fetched == Some(url))
  {
    var url := ApiUrl(d) + Endpoints(d)[endpoint] + Query(SetParam(params, KeyName, Text(k)));
    KeyedRequestOutcomes(d, Some(k), endpoint, params);
    XmlStepOutcomes(t, url, now, stamp, load);
  }

  /** A train-stops call never throws for a missing token; it adds the
      token parameter only when one is configured. */
  lemma TrainStopsNeverRejected(appToken: Option<Bytes>, t: seq<Row>, params: seq<Param>, now: int, stamp: int,
                                fetch: Bytes -> Option<Bytes>, decodes: Bytes -> bool)
    ensures appToken.None? ==>
      TrainStopsRequest(appToken, params) == ApiUrl(TrainStops) + Query(params)
    ensures var s := TrainStopsCall(appToken, t, params, now, stamp, fetch, decodes);
      s.response.Failed? ==> s.response.error in {DoubleCacheValues, JsonDecodeFailed}
  {
    var url := TrainStopsRequest(appToken, params);
    JsonStepOutcomes(t, url, now, stamp, fetch, decodes);
  }
}
