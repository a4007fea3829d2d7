/**
 * `wunderground::Client` (src/wunderground/client.cpp): builds the API
 * query, path and request, fetches the forecast over a plain TCP connection
 * and hands the conditions to the callback exactly once.
 *
 * The socket is a parameter: whether `connect` succeeds, the turns of the
 * polling loop (what `connected()`, `available()` and `millis()` answered)
 * and what the first readable turn found (the `Content-Length` header, the
 * end of the headers, a JSON document ArduinoJson could parse, given by its
 * fields).  The ghost fields record the requests written and the callback
 * invocations, each with the conditions as the callback sees them.
 */
module WundergroundClient {
  import opened Arduino
  import opened Clock
  import opened Wrappers
  import opened WundergroundConditions

  const ApiHost: string := "api.wunderground.com"
  const ApiPort: nat := 443
  const HttpTimeout: nat := 5000

  /** The query of a client made for a country and a city. */
  function CityQuery(country: string, city: string): string
  {
    "/q/" + country + "/" + city
  }

  /** The query of a client made for a `latitude,longitude` pair. */
  function LocationQuery(latLon: string): string
  {
    "/q/" + latLon
  }

  /** The API path `update` requests. */
  function Path(apiKey: string, language: string, query: string): string
  {
    "/api/" + apiKey + "/conditions/forecast/lang:" + language + query + ".json"
  }

  /** What follows the path in the request: the protocol, the host header, `Connection: close` and an empty line. */
  const RequestTail: string := " HTTP/1.1\r\n" + "Host: " + ApiHost + "\r\n" + "Connection: close\r\n\r\n"

  /** The request `update` writes once connected. */
  function Request(path: string): string
  {
    "GET " + path + RequestTail
  }

  /** A city query names the country up to the next `'/'` and the city after it. */
  lemma CityQueryFields(country: string, city: string)
    requires NoChar(country, '/')
    ensures var q := CityQuery(country, city);
      && q[..3] == "/q/" && IndexOfFrom(q, "/", 3) == 3 + |country|
      && q[3..3 + |country|] == country && q[4 + |country|..] == city
  {
    var q := CityQuery(country, city);
    assert q[3 + |country|] == '/';
    assert q[3..3 + |country|] == country;
    IndexOfCharAt(q, '/', 3, 3 + |country|);
    assert q[4 + |country|..] == city;
  }

  /** A location query is the pair after `"/q/"`. */
  lemma LocationQueryFields(latLon: string)
    ensures var q := LocationQuery(latLon);
      q[..3] == "/q/" && q[3..] == latLon
  {
    var q := LocationQuery(latLon);
    assert q[3..] == latLon;
  }

  /**
   * The path starts with `/api/`, the key reaches to the next `'/'`, and
   * the path ends with the query and `.json`.
   */
  lemma PathFields(apiKey: string, language: string, query: string)
    requires NoChar(apiKey, '/')
    ensures var p := Path(apiKey, language, query);
      && p[..5] == "/api/" && IndexOfFrom(p, "/", 5) == 5 + |apiKey| && p[5..5 + |apiKey|] == apiKey
      && p[5 + |apiKey|..6 + |apiKey| + 25 + |language|] == "/conditions/forecast/lang:" + language
      && p[|p| - 5..] == ".json" && p[|p| - 5 - |query|..|p| - 5] == query
  {
    var p := Path(apiKey, language, query);
    assert p[5 + |apiKey|] == '/';
    assert p[5..5 + |apiKey|] == apiKey;
    IndexOfCharAt(p, '/', 5, 5 + |apiKey|);
    assert p[5 + |apiKey|..6 + |apiKey| + 25 + |language|] == "/conditions/forecast/lang:" + language;
    assert p[|p| - 5..] == ".json";
    assert p[|p| - 5 - |query|..|p| - 5] == query;
  }

  /** Paths of keys without `'/'` and of the same language and query length differ when the keys do. */
  lemma PathKeyInjective(key1: string, key2: string, language: string, query: string)
    requires NoChar(key1, '/') && NoChar(key2, '/')
    requires Path(key1, language, query) == Path(key2, language, query)
    ensures key1 == key2
  {
    PathFields(key1, language, query);
    PathFields(key2, language, query);
  }

  /**
   * The request line is `GET`, the path up to the next space and
   * `HTTP/1.1`; the headers are the host and `Connection: close`, and the
   * request ends with an empty line.
   */
  lemma RequestFields(path: string)
    requires NoChar(path, ' ')
    ensures var r := Request(path);
      && r[..4] == "GET " && IndexOfFrom(r, " ", 4) == 4 + |path| && r[4..4 + |path|] == path
      && r[4 + |path|..] == RequestTail && r[|r| - 4..] == "\r\n\r\n"
  {
    var r := Request(path);
    assert r[4 + |path|] == ' ';
    assert r[4..4 + |path|] == path;
    IndexOfCharAt(r, ' ', 4, 4 + |path|);
    assert r[4 + |path|..] == RequestTail;
  }

  /** One turn of the polling loop: `connected()`, `available()` and, if nothing was there, `millis()`. */
  datatype Poll = Poll(connected: bool, available: bool, now: Millis)

  /** The JSON fields `Conditions::parse` reads. */
  datatype Document = Document(observation: ObservationFields, days: seq<Forecast>)

  /** What the first readable turn found in the response. */
  datatype Reply = Reply(foundContentLength: bool, foundBody: bool, document: Option<Document>)

  /** The conditions as the callback sees them. */
  datatype Report = Report(observation: Observation, forecasts: seq<Forecast>)

  /** One invocation of the callback. */
  datatype Call = Call(success: bool, report: Report)

  /** The loop ends within these turns: one sees the connection closed, data, or the deadline passed. */
  predicate Settles(polls: seq<Poll>, start: Millis)
  {
    exists k :: 0 <= k < |polls| && (!polls[k].connected || polls[k].available || Expired(polls[k].now, start, HttpTimeout))
  }

  /** Whether the loop reaches a readable turn before the connection closes or the deadline passes. */
  function Responds(polls: seq<Poll>, start: Millis): bool
  {
    if |polls| == 0 then false
    else if !polls[0].connected then false
    else if polls[0].available then true
    else if Expired(polls[0].now, start, HttpTimeout) then false
    else Responds(polls[1..], start)
  }

  /**
   * The loop reads the response exactly when some turn has data and every
   * turn before it is connected, without data, within the deadline.
   */
  lemma {:induction false} RespondsIff(polls: seq<Poll>, start: Millis)
    ensures Responds(polls, start) <==>
      exists k :: 0 <= k < |polls| && polls[k].connected && polls[k].available && Waiting(polls, start, k)
  {
    if |polls| > 0 {
      RespondsIff(polls[1..], start);
      if Responds(polls, start) && !polls[0].available {
        var k :| 0 <= k < |polls[1..]| && polls[1..][k].connected && polls[1..][k].available && Waiting(polls[1..], start, k);
        assert polls[k + 1] == polls[1..][k];
        forall j | 0 <= j < k + 1
          ensures Idle(polls[j], start)
        {
          if j > 0 {
            assert polls[j] == polls[1..][j - 1];
          }
        }
      }
      if !Responds(polls, start) {
        forall k | 0 <= k < |polls| && polls[k].connected && polls[k].available
          ensures !Waiting(polls, start, k)
        {
          if k > 0 && Idle(polls[0], start) {
            assert polls[1..][k - 1] == polls[k];
            assert !Waiting(polls[1..], start, k - 1);
            var j :| 0 <= j < k - 1 && !Idle(polls[1..][j], start);
            assert polls[j + 1] == polls[1..][j];
          }
        }
      }
    }
  }

  /** A turn that lets the loop go on: connected, nothing to read, within the deadline. */
  predicate Idle(p: Poll, start: Millis)
  {
    p.connected && !p.available && !Expired(p.now, start, HttpTimeout)
  }

  /** Every turn before `k` lets the loop go on. */
  predicate Waiting(polls: seq<Poll>, start: Millis, k: nat)
    requires k <= |polls|
  {
    forall j :: 0 <= j < k ==> Idle(polls[j], start)
  }

  /** Whether a readable response yields conditions: both headers found and the JSON parsed. */
  predicate Usable(reply: Reply)
  {
    reply.foundContentLength && reply.foundBody && reply.document.Some?
  }

  /** The polling loop of `update`: turns until data is there, the connection has closed or the deadline passed. */
  method Await(start: Millis, polls: seq<Poll>) returns (readable: bool)
    requires Settles(polls, start)
    ensures readable == Responds(polls, start)
  {
    var k := 0;
    while polls[k].connected && !polls[k].available
      invariant 0 <= k < |polls| && Settles(polls[k..], start)
      invariant Responds(polls, start) == Responds(polls[k..], start)
      decreases |polls| - k
    {
      if Expired(polls[k].now, start, HttpTimeout) {
        return false;
      }
      ghost var j :| 0 <= j < |polls[k..]|
        && (!polls[k..][j].connected || polls[k..][j].available || Expired(polls[k..][j].now, start, HttpTimeout));
      assert j != 0;
      assert polls[k + 1..][j - 1] == polls[k..][j];
      assert polls[k..][1..] == polls[k + 1..];
      k := k + 1;
    }
    return polls[k].connected;
  }

  class Client {
    var apiKey: string
    var language: string
    var query: string
    const conditions: Conditions
    ghost var requests: seq<string>
    ghost var calls: seq<Call>

    ghost predicate Valid()
      reads this, conditions
    {
      conditions.Valid()
    }

    /** The conditions as they stand. */
    function Current(): Report
      reads this, conditions, conditions.forecasts
    {
      Report(conditions.observation, conditions.forecasts[..])
    }

    /** `Client(apiKey, language, country, city)`. */
    constructor ForCity(key: string, lang: string, country: string, city: string)
      ensures Valid() && fresh(conditions) && fresh(conditions.forecasts)
      ensures apiKey == key && language == lang && query == CityQuery(country, city)
      ensures requests == [] && calls == []
    {
      apiKey, language := key, lang;
      query := "/q/" + country + "/" + city;
      conditions := new Conditions();
      requests, calls := [], [];
    }

    /** `Client(apiKey, language, latLon)`. */
    constructor ForLocation(key: string, lang: string, latLon: string)
      ensures Valid() && fresh(conditions) && fresh(conditions.forecasts)
      ensures apiKey == key && language == lang && query == LocationQuery(latLon)
      ensures requests == [] && calls == []
    {
      apiKey, language := key, lang;
      query := "/q/" + latLon;
      conditions := new Conditions();
      requests, calls := [], [];
    }

    /**
     * `update(callback)`.  Connected, the request for the path is written
     * and the loop waits for the response; the conditions are parsed from it
     * when both headers are found and the JSON parses.  The callback is
     * called exactly once, at the end, on every path, with the conditions
     * as they then stand: new on success, the previous ones otherwise.
     */
    method Update(connectOk: bool, start: Millis, polls: seq<Poll>, reply: Reply)
      requires Valid() && Settles(polls, start)
      modifies this`requests, this`calls, conditions`observation, conditions.forecasts
      ensures Valid()
      ensures requests == old(requests) + if connectOk then [Request(Path(apiKey, language, query))] else []
      ensures |calls| == |old(calls)| + 1 && calls[..|old(calls)|] == old(calls)
      ensures calls[|old(calls)|] == Call(connectOk && Responds(polls, start) && Usable(reply), Current())
      ensures connectOk && Responds(polls, start) && Usable(reply) ==>
        && conditions.observation == Parsed(reply.document.value.observation)
        && Current().forecasts == Stored(reply.document.value.days, old(Current().forecasts))
      ensures !(connectOk && Responds(polls, start) && Usable(reply)) ==> Current() == old(Current())
    {
      var path := Path(apiKey, language, query);
      var success := false;
      if connectOk {
        var request := Request(path);
        requests := requests + [request];
        var readable := Await(start, polls);
        if readable && reply.foundContentLength && reply.foundBody && reply.document.Some? {
          conditions.Parse(reply.document.value.observation, reply.document.value.days);
          success := true;
        }
      }
      calls := calls + [Call(success, Current())];
    }
  }

  /** The observation `parseCurrentObservation` stores for these fields. */
  function Parsed(fields: ObservationFields): (o: Observation)
    ensures o.temperature == fields.temperature && o.city == fields.city && o.title == fields.title
    ensures o.icon == IconName(fields.icon, fields.iconUrl)
  {
    Observation(fields.temperature, fields.city, IconName(fields.icon, fields.iconUrl), fields.title)
  }

  /** The slots after `parseForecast`: the first days, then the earlier slots. */
  function Stored(days: seq<Forecast>, slots: seq<Forecast>): (r: seq<Forecast>)
    requires |slots| == MaxForecasts
    ensures |r| == MaxForecasts
    ensures forall k :: 0 <= k < MaxForecasts && k < |days| ==> r[k] == days[k]
    ensures forall k :: |days| <= k < MaxForecasts ==> r[k] == slots[k]
  {
    var n := if |days| < MaxForecasts then |days| else MaxForecasts;
    days[..n] + slots[n..]
  }
}
