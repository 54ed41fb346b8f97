/**
 * The steps of get_flex_statement: configuration, SendRequest, the pause,
 * GetStatement and saving the file. Network, XML parser and filesystem are
 * parameters (a Remote); the pause is not a parameter but a Wait effect.
 * Each call the client makes is recorded as an Effect,
 * so the contracts can say which steps ran, in which order, with what.
 */
module FlexPipeline {
  import opened Wrappers
  import opened FlexErrors
  import opened Dates
  import opened FlexRequest
  import opened FlexResponse

  newtype byte = b: int | 0 <= b < 256

  /** What an HTTP GET gives back after raise_for_status: a body, or a requests exception. */
  datatype Reply<+T> = Delivered(body: T) | TransportFailure

  /** The outside world as the client sees it. */
  datatype Remote = Remote(
    sendRequest: (string, Params) -> Reply<string>,      // requests.get(...).text, already decoded
    parseXml: string -> Option<Element>,                 // ET.fromstring; None on ParseError
    getStatement: (string, Params) -> Reply<seq<byte>>,  // requests.get(...).content
    makeDirs: string -> bool,                            // parent mkdir(parents=True, exist_ok=True)
    writeBytes: (string, seq<byte>) -> bool)             // Path.write_bytes

  /** A call the client makes to the outside world. */
  datatype Effect =
    | Send(url: string, params: Params)
    | Wait(seconds: nat)
    | Fetch(url: string, params: Params)
    | Save(path: string, content: seq<byte>)

  /** wait_for_statement_ready's default pause, in seconds. */
  const DEFAULT_WAIT: nat := 5
  const DEFAULT_OUTPUT := "data/processed/flex_statement.csv"

  function SendUrl(cfg: Config): string { cfg.baseUrl + "/SendRequest" }
  function StatementUrl(cfg: Config): string { cfg.baseUrl + "/GetStatement" }

  /** The position of each kind of effect in the protocol: send, wait, fetch, save. */
  function Stage(e: Effect): nat {
    match e
    case Send(_, _) => 0
    case Wait(_) => 1
    case Fetch(_, _) => 2
    case Save(_, _) => 3
  }

  /** A trace follows the protocol: a prefix of send, wait, fetch, save. */
  predicate InProtocolOrder(trace: seq<Effect>) {
    |trace| <= 4 && forall i :: 0 <= i < |trace| ==> Stage(trace[i]) == i
  }

  /** How many effects have happened when an error is raised: none after the failing one. */
  function StepsTaken(e: FlexError): nat {
    match e
    case MissingConfig => 0
    case SendFailed => 1
    case InvalidXml => 1
    case RequestRejected(_) => 1
    case NoReferenceCode => 1
    case DownloadFailed => 3
    case DirectoryFailed => 4
    case WriteFailed => 4
  }

  /** The output path get_flex_statement uses: the given one, else the default. */
  function OutputPath(outputPath: Option<string>): string {
    if outputPath.None? then DEFAULT_OUTPUT else outputPath.value
  }

  /**
   * What send_flex_request returns or raises: a transport failure is SendFailed;
   * otherwise the acknowledgement decides, and only an accepted one yields a
   * (non-empty) reference code.
   */
  function SendResult(cfg: Config, start: Option<DateArg>, end: Option<DateArg>, remote: Remote): (r: Result<string, FlexError>)
    ensures var reply := remote.sendRequest(SendUrl(cfg), SendParams(cfg, start, end));
            && (r == Failure(SendFailed) <==> reply.TransportFailure?)
            && (reply.Delivered? ==> r == AckResult(Decode(remote.parseXml(reply.body))))
    ensures r.Success? ==> r.value != ""
  {
    match remote.sendRequest(SendUrl(cfg), SendParams(cfg, start, end))
    case TransportFailure => Failure(SendFailed)
    case Delivered(body) => AckResult(Decode(remote.parseXml(body)))
  }

  /** send_flex_request: build the parameters, issue the request, decode the reply. */
  method SendFlexRequest(cfg: Config, start: Option<DateArg>, end: Option<DateArg>, remote: Remote)
    returns (r: Result<string, FlexError>, effect: Effect)
    ensures effect == Send(SendUrl(cfg), SendParams(cfg, start, end))
    ensures r == SendResult(cfg, start, end, remote)
  {
    var params := BuildSendParams(cfg, start, end);
    effect := Send(cfg.baseUrl + "/SendRequest", params);
    var reply := remote.sendRequest(cfg.baseUrl + "/SendRequest", params);
    if reply.TransportFailure? {
      return Failure(SendFailed), effect;
    }
    var ack := ParseFlexResponse(remote.parseXml(reply.body));
    r := AckResult(ack);
  }

  /**
   * download_flex_statement: the body of GetStatement, verbatim and whatever its
   * size (an empty body is a success), or DownloadFailed.
   */
  function DownloadResult(cfg: Config, referenceCode: string, remote: Remote): (r: Result<seq<byte>, FlexError>)
    ensures var reply := remote.getStatement(StatementUrl(cfg), FetchParams(cfg, referenceCode));
            && (r.Failure? <==> reply.TransportFailure?)
            && (r.Failure? ==> r.error == DownloadFailed)
            && (r.Success? ==> r.value == reply.body)
  {
    match remote.getStatement(StatementUrl(cfg), FetchParams(cfg, referenceCode))
    case TransportFailure => Failure(DownloadFailed)
    case Delivered(content) => Success(content)
  }

  /**
   * save_statement_to_file: create the parent directories, then write the bytes.
   * A directory failure is an OSError raised before any write is attempted.
   */
  function SaveResult(content: seq<byte>, path: string, remote: Remote): (r: Result<(), FlexError>)
    ensures r.Success? <==> remote.makeDirs(path) && remote.writeBytes(path, content)
    ensures r == Failure(DirectoryFailed) <==> !remote.makeDirs(path)
    ensures r == Failure(WriteFailed) <==> remote.makeDirs(path) && !remote.writeBytes(path, content)
  {
    if !remote.makeDirs(path) then Failure(DirectoryFailed)
    else if !remote.writeBytes(path, content) then Failure(WriteFailed)
    else Success(())
  }

  /**
   * get_flex_statement with the environment variables as parameters. The steps
   * run in protocol order and stop at the first failure; a configuration error
   * means no network call at all; the statement is fetched with the reference
   * code from the acknowledgement; the bytes saved are the bytes fetched; on
   * success the result is the output path.
   */
  method GetFlexStatement(token: Option<string>, queryId: Option<string>, remote: Remote,
                          outputPath: Option<string>, start: Option<DateArg>, end: Option<DateArg>)
    returns (r: Result<string, FlexError>, trace: seq<Effect>)
    ensures InProtocolOrder(trace)
    ensures r.Failure? ==> |trace| == StepsTaken(r.error)
    ensures r.Success? ==> |trace| == 4 && r.value == OutputPath(outputPath)
    ensures r == Failure(MissingConfig) <==> LoadConfig(token, queryId).Failure?
    ensures |trace| >= 1 ==>
      && LoadConfig(token, queryId).Success?
      && var cfg := LoadConfig(token, queryId).value;
         trace[0] == Send(SendUrl(cfg), SendParams(cfg, start, end))
    ensures |trace| == 1 ==>
      && LoadConfig(token, queryId).Success?
      && var sent := SendResult(LoadConfig(token, queryId).value, start, end, remote);
         sent.Failure? && r == Failure(sent.error)
    ensures |trace| >= 2 ==>
      && |trace| >= 3
      && LoadConfig(token, queryId).Success?
      && var cfg := LoadConfig(token, queryId).value;
         && SendResult(cfg, start, end, remote).Success?
         && trace[1] == Wait(DEFAULT_WAIT)
         && trace[2] == Fetch(StatementUrl(cfg), FetchParams(cfg, SendResult(cfg, start, end, remote).value))
    ensures |trace| == 3 ==>
      && LoadConfig(token, queryId).Success?
      && var cfg := LoadConfig(token, queryId).value;
         && SendResult(cfg, start, end, remote).Success?
         && DownloadResult(cfg, SendResult(cfg, start, end, remote).value, remote).Failure?
         && r == Failure(DownloadFailed)
    ensures |trace| == 4 ==>
      && LoadConfig(token, queryId).Success?
      && var cfg := LoadConfig(token, queryId).value;
         && SendResult(cfg, start, end, remote).Success?
         && var download := DownloadResult(cfg, SendResult(cfg, start, end, remote).value, remote);
            && download.Success?
            && trace[3] == Save(OutputPath(outputPath), download.value)
            && var saved := SaveResult(download.value, OutputPath(outputPath), remote);
               r == if saved.Success? then Success(OutputPath(outputPath)) else Failure(saved.error)
  {
    var path := if outputPath.None? then DEFAULT_OUTPUT else outputPath.value;
    var config := LoadConfig(token, queryId);
    if config.Failure? {
      return Failure(config.error), [];
    }
    var cfg := config.value;

    var sent, sendEffect := SendFlexRequest(cfg, start, end, remote);
    if sent.Failure? {
      assert sent.error.SendFailed? || sent.error.InvalidXml? || sent.error.RequestRejected? || sent.error.NoReferenceCode?;
      return Failure(sent.error), [sendEffect];
    }
    var referenceCode := sent.value;

    var waitEffect := Wait(DEFAULT_WAIT);

    var fetchEffect := Fetch(cfg.baseUrl + "/GetStatement", FetchParams(cfg, referenceCode));
    var content := DownloadResult(cfg, referenceCode, remote);
    if content.Failure? {
      return Failure(content.error), [sendEffect, waitEffect, fetchEffect];
    }

    trace := [sendEffect, waitEffect, fetchEffect, Save(path, content.value)];
    assert path == OutputPath(outputPath);
    var saved := SaveResult(content.value, path, remote);
    if saved.Failure? {
      return Failure(saved.error), trace;
    }
    r := Success(path);
  }

  // ------------------------------------------------------------ an example

  /** "col1,col2\n1,2\n" as bytes. */
  const SAMPLE_PAYLOAD: seq<byte> := [99, 111, 108, 49, 44, 99, 111, 108, 50, 10, 49, 44, 50, 10]

  /** The acknowledgement the service sends when it accepts a request with reference code ABC123. */
  const SAMPLE_ACK := "<FlexStatementResponse><Status>Success</Status><ReferenceCode>ABC123</ReferenceCode></FlexStatementResponse>"

  /** The element tree of SAMPLE_ACK. */
  const SAMPLE_ACK_TREE := Element("FlexStatementResponse", None,
                                   [Element("Status", Some("Success"), []),
                                    Element("ReferenceCode", Some("ABC123"), [])])

  /**
   * A service that accepts with reference code ABC123 and serves the sample
   * payload for it. Its parser knows just SAMPLE_ACK; any other body is a parse error.
   */
  function FakeService(): Remote {
    Remote(
      (url, p) => Delivered(SAMPLE_ACK),
      body => if body == SAMPLE_ACK then Some(SAMPLE_ACK_TREE) else None,
      (url, p) => if "q" in p && p["q"] == Text("ABC123") then Delivered(SAMPLE_PAYLOAD) else TransportFailure,
      path => true,
      (path, content) => true)
  }

  /**
   * The default call get_flex_statement() against FakeService: the request has
   * no dates, the statement is fetched with q=ABC123, and exactly the served
   * bytes are saved to the default path.
   */
  method DefaultDownload() returns (r: Result<string, FlexError>, trace: seq<Effect>)
    ensures r == Success(DEFAULT_OUTPUT)
    ensures |trace| == 4
    ensures trace[0].Send? && trace[0].params.Keys == {"t", "q", "v"}
    ensures trace[2].Fetch? && "q" in trace[2].params && trace[2].params["q"] == Text("ABC123")
    ensures trace[3] == Save(DEFAULT_OUTPUT, SAMPLE_PAYLOAD)
  {
    var remote := FakeService();
    var ack := SAMPLE_ACK_TREE;
    assert remote.parseXml(SAMPLE_ACK) == Some(ack);
    assert TextsOf(ack.children, "Status") == [Some("Success")];
    assert TextsOf(ack.children, "ReferenceCode") == [Some("ABC123")];
    assert Decode(Some(ack)) == Accepted("ABC123");
    var cfg := LoadConfig(Some("token"), Some("123456")).value;
    assert SendResult(cfg, None, None, remote) == Success("ABC123");
    assert DownloadResult(cfg, "ABC123", remote) == Success(SAMPLE_PAYLOAD);
    r, trace := GetFlexStatement(Some("token"), Some("123456"), remote, None, None, None);
  }
}
