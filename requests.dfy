/** The URL each entry point of CTAWrapper.php asks for (alertApiCall,
    busApiCall, trainApiCall, trainStopsApiCall), before any cache access:
    the endpoint check, the API-key check and injection, and
    base + path + query string. */
module Requests {
  import opened Strings
  import opened QueryString
  import opened Registry

  const KeyName: Bytes := "key"
  const AppTokenName: Bytes := "$$app_token"

  function Names(ps: seq<Param>): (r: seq<Bytes>)
    ensures |r| == |ps|
  {
    seq(|ps|, i requires 0 <= i < |ps| => ps[i].name)
  }

  /** A PHP array never holds one key twice. */
  predicate DistinctNames(ps: seq<Param>)
  {
    forall i, j :: 0 <= i < j < |ps| ==> ps[i].name != ps[j].name
  }

  /** `$params[name] = v`: overwrites the entry in place when the name is
      present, otherwise appends it at the end. */
  function SetParam(ps: seq<Param>, name: Bytes, v: ParamValue): seq<Param>
  {
    if |ps| == 0 then [Param(name, v)]
    else if ps[0].name == name then [Param(name, v)] + ps[1..]
    else [ps[0]] + SetParam(ps[1..], name, v)
  }

  /** The assignment keeps every other entry where it was, replaces the
      entry of that name in place, or appends one when there is none. */
  lemma {:induction false} SetParamPlacement(ps: seq<Param>, name: Bytes, v: ParamValue)
    requires DistinctNames(ps)
    ensures var r := SetParam(ps, name, v);
      && DistinctNames(r)
      && (name in Names(ps) ==> |r| == |ps|)
      && (name !in Names(ps) ==> r == ps + [Param(name, v)])
      && (forall i :: 0 <= i < |ps| ==> r[i] == if ps[i].name == name then Param(name, v) else ps[i])
  {
    var r := SetParam(ps, name, v);
    if |ps| > 0 {
      var tail := ps[1..];
      assert DistinctNames(tail) by {
        forall i, j | 0 <= i < j < |tail| ensures tail[i].name != tail[j].name {
          assert tail[i] == ps[i + 1] && tail[j] == ps[j + 1];
        }
      }
      assert Names(ps) == [ps[0].name] + Names(tail);
      if ps[0].name != name {
        SetParamPlacement(tail, name, v);
        var rt := SetParam(tail, name, v);
        assert r == [ps[0]] + rt;
        forall i, j | 0 <= i < j < |r| ensures r[i].name != r[j].name {
          if i == 0 {
            if j - 1 < |tail| {
              assert r[j] == if tail[j - 1].name == name then Param(name, v) else tail[j - 1];
              assert tail[j - 1] == ps[j];
            } else {
              assert r[j] == Param(name, v);
            }
          }
        }
        if name !in Names(ps) {
          assert r == ps + [Param(name, v)];
        }
      } else {
        forall i, j | 0 <= i < j < |r| ensures r[i].name != r[j].name {
          assert r[j] == ps[j];
          if i > 0 { assert r[i] == ps[i]; }
        }
        forall i | 0 < i < |ps| ensures ps[i].name != name {
          assert ps[0].name != ps[i].name;
        }
      }
    }
  }

  /** The request URL of an endpoint of `d`, or the unknown-endpoint
      exception when the name is not in the table. */
  function EndpointUrl(d: Domain, endpoint: Bytes, params: seq<Param>): Result<Bytes>
  {
    if endpoint in Endpoints(d) then Success(ApiUrl(d) + Endpoints(d)[endpoint] + Query(params))
    else Failure(UnknownEndpoint(d))
  }

  /** alertApiCall: no key, only the endpoint check. */
  function AlertRequest(endpoint: Bytes, params: seq<Param>): Result<Bytes>
  {
    EndpointUrl(Alerts, endpoint, params)
  }

  /** busApiCall and trainApiCall: the key check comes first, then the key is
      written into the `key` parameter, then the endpoint is checked. */
  function KeyedRequest(d: Domain, apiKey: Option<Bytes>, endpoint: Bytes, params: seq<Param>): Result<Bytes>
    requires d == Bus || d == Train
  {
    if apiKey.None? then Failure(KeyRequired(d))
    else EndpointUrl(d, endpoint, SetParam(params, KeyName, Text(apiKey.value)))
  }

  /** trainStopsApiCall: the optional application token, and no endpoint. */
  function TrainStopsRequest(appToken: Option<Bytes>, params: seq<Param>): Bytes
  {
    var sent := if appToken.Some? then SetParam(params, AppTokenName, Text(appToken.value)) else params;
    ApiUrl(TrainStops) + Query(sent)
  }

  /** Without a configured key a bus or train call fails with the key
      exception whatever the endpoint; with one, an unknown endpoint fails
      with the endpoint exception and a known one yields
      base + path + query of the parameters carrying the key. */
  lemma KeyedRequestOutcomes(d: Domain, apiKey: Option<Bytes>, endpoint: Bytes, params: seq<Param>)
    requires d == Bus || d == Train
    ensures apiKey.None? ==> KeyedRequest(d, apiKey, endpoint, params) == Failure(KeyRequired(d))
    ensures apiKey.Some? && endpoint !in Endpoints(d) ==>
      KeyedRequest(d, apiKey, endpoint, params) == Failure(UnknownEndpoint(d))
    ensures apiKey.Some? && endpoint in Endpoints(d) ==>
      KeyedRequest(d, apiKey, endpoint, params) ==
        Success(ApiUrl(d) + Endpoints(d)[endpoint] + Query(SetParam(params, KeyName, Text(apiKey.value))))
  {
  }

  /** A configured key or token replaces whatever the caller passed under
      that name (`key` for bus and train, `$$app_token` for train stops):
      the only entry of that name left is the configured one, and it
      reaches the query string unless it is the empty string. */
  lemma {:induction false} ParamInjected(params: seq<Param>, name: Bytes, k: Bytes)
    requires DistinctNames(params)
    ensures var sent := SetParam(params, name, Text(k));
      && (forall p :: p in sent && p.name == name ==> p.value == Text(k))
      && (k != [] <==> Param(name, Text(k)) in Survivors(sent))
  {
    var sent := SetParam(params, name, Text(k));
    SetParamPlacement(params, name, Text(k));
    assert Param(name, Text(k)) in sent by {
      if name in Names(params) {
        var i :| 0 <= i < |params| && Names(params)[i] == name;
        assert sent[i] == Param(name, Text(k));
      }
    }
    forall p | p in sent && p.name == name ensures p.value == Text(k) {
      var i :| 0 <= i < |sent| && sent[i] == p;
      if i >= |params| {
        assert sent == params + [Param(name, Text(k))];
      }
    }
    SurvivorsMember(sent, Param(name, Text(k)));
  }

  /** Every other parameter the caller passed is sent as it was. */
  lemma OtherParamsKept(params: seq<Param>, name: Bytes, v: ParamValue, p: Param)
    requires DistinctNames(params)
    requires p in params && p.name != name
    ensures p in SetParam(params, name, v)
    ensures p in Survivors(params) <==> p in Survivors(SetParam(params, name, v))
  {
    SetParamPlacement(params, name, v);
    var i :| 0 <= i < |params| && params[i] == p;
    assert SetParam(params, name, v)[i] == p;
    SurvivorsMember(params, p);
    SurvivorsMember(SetParam(params, name, v), p);
  }

  /** A url made of a `?`-free prefix and a query string comes apart again
      at its first `?`: the head is the prefix, and the rest reads back,
      pair by pair, as the parameters sent. */
  lemma UrlSplits(prefix: Bytes, params: seq<Param>)
    requires '?' !in prefix
    ensures Survivors(params) == [] ==> SplitFirst('?', prefix + Query(params)) == (prefix, [])
    ensures Survivors(params) != [] ==>
      SplitFirst('?', prefix + Query(params)).0 == prefix &&
      DecodePairs(ParseQuery(['?'] + SplitFirst('?', prefix + Query(params)).1)) == Sent(params)
  {
    var q := Query(params);
    QueryShape(params);
    if Survivors(params) == [] {
      assert prefix + q == prefix;
      SplitFirstAbsent('?', prefix);
    } else {
      assert q == ['?'] + q[1..];
      assert prefix + q == prefix + ['?'] + q[1..];
      SplitFirstAt('?', prefix, q[1..]);
      QueryDecodes(params);
    }
  }

  /** The url of a known endpoint is base + path up to its first `?`, and
      the parameters after it. */
  lemma EndpointUrlSplits(d: Domain, endpoint: Bytes, params: seq<Param>)
    requires endpoint in Endpoints(d)
    ensures EndpointUrl(d, endpoint, params).Success?
    ensures var url := EndpointUrl(d, endpoint, params).value;
      && SplitFirst('?', url).0 == ApiUrl(d) + Endpoints(d)[endpoint]
      && (Survivors(params) != [] ==> DecodePairs(ParseQuery(['?'] + SplitFirst('?', url).1)) == Sent(params))
  {
    AddressesFreeOfQuery(d, endpoint);
    UrlSplits(ApiUrl(d) + Endpoints(d)[endpoint], params);
  }

  /** The train-stops url is the base address up to its first `?`, and the
      parameters, token included when one is configured, after it. */
  lemma TrainStopsUrlSplits(appToken: Option<Bytes>, params: seq<Param>)
    ensures var sent := if appToken.Some? then SetParam(params, AppTokenName, Text(appToken.value)) else params;
      var url := TrainStopsRequest(appToken, params);
      && SplitFirst('?', url).0 == ApiUrl(TrainStops)
      && (Survivors(sent) != [] ==> DecodePairs(ParseQuery(['?'] + SplitFirst('?', url).1)) == Sent(sent))
  {
    var sent := if appToken.Some? then SetParam(params, AppTokenName, Text(appToken.value)) else params;
    AddressesFreeOfQuery(TrainStops, []);
    UrlSplits(ApiUrl(TrainStops), sent);
  }
}
