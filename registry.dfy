/** The static tables of CTAWrapper.php ($API_URLS and $API_ENDPOINTS), the
    exceptions its calls raise, and what a call hands back. */
module Registry {
  import opened Strings

  /** The four upstream APIs. */
  datatype Domain = Alerts | Bus | Train | TrainStops

  // Literals are split so that each one is short enough for the verifier
  // to check, byte by byte, that it is a byte string.
  const Http: Bytes := "http://"
  const AlertsHost: Bytes := "www.transitchicago.com/api/1.0/"
  const BusHost: Bytes := "www.ctabustracker.com/bustime/api/v1/"
  const TrainHost: Bytes := "lapi.transitchicago.com/api/1.0/"
  const TrainStopsHost: Bytes := "data.cityofchicago.org/"
  const TrainStopsPath: Bytes := "resource/8mj8-j3c4.json"
  const AlertsUrl: Bytes := Http + AlertsHost
  const BusUrl: Bytes := Http + BusHost
  const TrainUrl: Bytes := Http + TrainHost
  const TrainStopsUrl: Bytes := Http + TrainStopsHost + TrainStopsPath

  /** $API_URLS: the base address of each API. */
  function ApiUrl(d: Domain): Bytes
  {
    match d
    case Alerts => AlertsUrl
    case Bus => BusUrl
    case Train => TrainUrl
    case TrainStops => TrainStopsUrl
  }

  /** $API_ENDPOINTS: endpoint name to path, per API. The train-stops API has
      no row in the table; its calls name no endpoint. */
  function Endpoints(d: Domain): map<Bytes, Bytes>
  {
    match d
    case Alerts => map[
      "routes" := "routes.aspx",
      "alerts" := "alerts.aspx"]
    case Bus => map[
      "time" := "gettime",
      "vehicles" := "getvehicles",
      "routes" := "getroutes",
      "routeDirections" := "getdirections",
      "stops" := "getstops",
      "patterns" := "getpatterns",
      "predictions" := "getpredictions",
      "serviceBulletins" := "getservicebulletins"]
    case Train => map[
      "arrivals" := "ttarrivals.aspx",
      "followThisTrain" := "ttfollow.aspx",
      "locations" := "ttpositions.aspx"]
    case TrainStops => map[]
  }

  /** No base address and no endpoint path holds a `?`, so in a request
      url the first `?` is the one that opens the query string. */
  lemma AddressesFreeOfQuery(d: Domain, endpoint: Bytes)
    ensures '?' !in ApiUrl(d)
    ensures endpoint in Endpoints(d) ==> '?' !in Endpoints(d)[endpoint]
  {
    BasesFreeOfQuery(d);
    match d
    case Alerts =>
    case Bus => BusPathsFreeOfQuery(endpoint);
    case Train =>
    case TrainStops =>
  }

  lemma BasesFreeOfQuery(d: Domain)
    ensures '?' !in ApiUrl(d)
  {
    HttpFreeOfQuery();
    AlertsHostFreeOfQuery();
    BusHostFreeOfQuery();
    TrainHostFreeOfQuery();
    TrainStopsFreeOfQuery();
  }

  lemma HttpFreeOfQuery() ensures '?' !in Http { }
  lemma AlertsHostFreeOfQuery() ensures '?' !in AlertsHost { }
  lemma BusHostFreeOfQuery() ensures '?' !in BusHost { }
  lemma TrainHostFreeOfQuery() ensures '?' !in TrainHost { }
  lemma TrainStopsFreeOfQuery() ensures '?' !in TrainStopsHost && '?' !in TrainStopsPath { }

  lemma BusPathsFreeOfQuery(endpoint: Bytes)
    ensures endpoint in Endpoints(Bus) ==> '?' !in Endpoints(Bus)[endpoint]
  {
  }

  /** The exceptions the core throws. */
  datatype Error =
    | UnknownEndpoint(domain: Domain)
    | KeyRequired(domain: Domain)
    | DoubleCacheValues
    | JsonDecodeFailed

  /** The message each exception carries. */
  function Message(e: Error): string
  {
    match e
    case UnknownEndpoint(Alerts) => "Unknown Alert Endpoint"
    case UnknownEndpoint(Bus) => "Unknown Bus Endpoint"
    case UnknownEndpoint(_) => "Unknown Train Endpoint"
    case KeyRequired(Bus) => "Bus API key required!"
    case KeyRequired(_) => "Train API key required!"
    case DoubleCacheValues => "Double Cache Values!"
    case JsonDecodeFailed => "Failed to json_decode() API response"
  }

  /** The exceptions the calls can actually raise: the endpoint check
      exists for the three keyed-table APIs and the key check for bus and
      train only. */
  predicate Raisable(e: Error)
  {
    match e
    case UnknownEndpoint(d) => d != TrainStops
    case KeyRequired(d) => d == Bus || d == Train
    case _ => true
  }

  /** A caller can tell every raisable exception from the others by its
      message alone. */
  lemma MessagesDistinct(e1: Error, e2: Error)
    requires Raisable(e1) && Raisable(e2) && e1 != e2
    ensures Message(e1) != Message(e2)
  {
    var m1, m2 := Message(e1), Message(e2);
    if |m1| == |m2| {
      assert m1[8] != m2[8];
    }
  }

  /** What an API call gives its caller: `Decoded(text)` stands for
      json_decode(text, true), whatever that yields (null for text that is
      not JSON); `Failed(e)` is a thrown exception. */
  datatype Response = Decoded(text: Bytes) | Failed(error: Error)

  datatype Result<T> = Success(value: T) | Failure(error: Error)
}
