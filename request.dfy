/**
 * Configuration (load_config) and the query parameters of the two web-service
 * calls: SendRequest (send_flex_request) and GetStatement (download_flex_statement).
 */
module FlexRequest {
  import opened Wrappers
  import opened FlexErrors
  import opened Dates

  /** The Flex Web Service protocol version the client always sends. */
  const VERSION := 3
  const BASE_URL := "https://ndcdyn.interactivebrokers.com/AccountManagement/FlexWebService"

  /** The configuration dictionary load_config returns. */
  datatype Config = Config(token: string, queryId: string, version: int, baseUrl: string)

  /** Python truthiness of an os.getenv result: None and "" are false. */
  predicate Present(v: Option<string>) {
    v.Some? && v.value != ""
  }

  /**
   * load_config, with the TOKEN and QUERY_ID environment variables as parameters.
   * It fails exactly when either is missing or empty; otherwise it carries them
   * verbatim with version 3.
   */
  function LoadConfig(token: Option<string>, queryId: Option<string>): (r: Result<Config, FlexError>)
    ensures r.Success? <==> Present(token) && Present(queryId)
    ensures r.Failure? ==> r.error == MissingConfig
    ensures r.Success? ==> r.value.token == token.value && r.value.queryId == queryId.value
    ensures r.Success? ==> r.value.version == VERSION && r.value.baseUrl == BASE_URL
  {
    if !Present(token) || !Present(queryId) then Failure(MissingConfig)
    else Success(Config(token.value, queryId.value, VERSION, BASE_URL))
  }

  /** A value in a query-parameter dictionary: a str, or the int version. */
  datatype ParamValue = Text(s: string) | Number(n: int)

  type Params = map<string, ParamValue>

  /** The three parameters every call carries: t (token), q (query), v (version). */
  function BaseParams(token: string, query: string, version: int): Params {
    map["t" := Text(token), "q" := Text(query), "v" := Number(version)]
  }

  /**
   * The SendRequest parameters: t, q and v from the configuration, plus
   * StartDate / EndDate exactly when the corresponding argument is truthy, each
   * holding the normalised date.
   */
  function SendParams(cfg: Config, start: Option<DateArg>, end: Option<DateArg>): (p: Params)
    ensures p.Keys == {"t", "q", "v"} + (if Truthy(start) then {"StartDate"} else {})
                                      + (if Truthy(end) then {"EndDate"} else {})
    ensures p["t"] == Text(cfg.token) && p["q"] == Text(cfg.queryId) && p["v"] == Number(cfg.version)
    ensures Truthy(start) ==> p["StartDate"] == Text(Normalise(start.value))
    ensures Truthy(end) ==> p["EndDate"] == Text(Normalise(end.value))
  {
    var base := BaseParams(cfg.token, cfg.queryId, cfg.version);
    assert base.Keys == {"t", "q", "v"};
    var withStart := if Truthy(start) then base["StartDate" := Text(Normalise(start.value))] else base;
    assert withStart.Keys == base.Keys + (if Truthy(start) then {"StartDate"} else {});
    assert withStart["t"] == base["t"] && withStart["q"] == base["q"] && withStart["v"] == base["v"];
    if Truthy(end) then withStart["EndDate" := Text(Normalise(end.value))] else withStart
  }

  /**
   * send_flex_request's construction of send_params: the dictionary literal,
   * then StartDate and EndDate added in place when given.
   */
  method BuildSendParams(cfg: Config, start: Option<DateArg>, end: Option<DateArg>) returns (p: Params)
    ensures p == SendParams(cfg, start, end)
  {
    p := map["t" := Text(cfg.token), "q" := Text(cfg.queryId), "v" := Number(cfg.version)];
    if Truthy(start) {
      var s := Normalise(start.value);
      p := p["StartDate" := Text(s)];
    }
    if Truthy(end) {
      var e := Normalise(end.value);
      p := p["EndDate" := Text(e)];
    }
  }

  /**
   * The GetStatement parameters: the SendRequest parameters without dates, with
   * q holding the reference code instead of the query id.
   */
  function FetchParams(cfg: Config, referenceCode: string): (p: Params)
    ensures p == SendParams(cfg, None, None)["q" := Text(referenceCode)]
    ensures p.Keys == {"t", "q", "v"} && p["q"] == Text(referenceCode)
  {
    map["t" := Text(cfg.token), "q" := Text(referenceCode), "v" := Number(cfg.version)]
  }

  /** Without dates (None or "") the request carries exactly t, q and v. */
  lemma NoDatesNoDateKeys(cfg: Config, start: Option<DateArg>, end: Option<DateArg>)
    requires !Truthy(start) && !Truthy(end)
    ensures SendParams(cfg, start, end) == BaseParams(cfg.token, cfg.queryId, cfg.version)
  {
  }

  /**
   * A string made only of dashes is truthy, so its key is sent, with the empty
   * string as its value: truthiness is tested before normalisation.
   */
  lemma DashOnlyDateSendsEmptyValue(cfg: Config, s: string, end: Option<DateArg>)
    requires s != [] && forall i :: 0 <= i < |s| ==> s[i] == '-'
    ensures "StartDate" in SendParams(cfg, Some(DateText(s)), end)
    ensures SendParams(cfg, Some(DateText(s)), end)["StartDate"] == Text("")
  {
    StripDashesCounts(s, '0');
    MultisetOfDashes(s);
  }

  lemma {:induction false} MultisetOfDashes(s: string)
    requires forall i :: 0 <= i < |s| ==> s[i] == '-'
    ensures multiset(s)['-'] == |s|
  {
    if s != [] {
      assert s == [s[0]] + s[1..];
      MultisetOfDashes(s[1..]);
    }
  }

  /** A date range given as date objects and one given as their ISO strings produce the same request. */
  lemma DateObjectsAndStringsSendSameParams(cfg: Config, from: CalendarDate, to: CalendarDate)
    ensures SendParams(cfg, Some(DateValue(from)), Some(DateValue(to)))
         == SendParams(cfg, Some(DateText(IsoFormat(from))), Some(DateText(IsoFormat(to))))
  {
    DateFormsAgree(from);
    DateFormsAgree(to);
  }
}
