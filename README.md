# Interactive Brokers Flex Query client — a Dafny model

The client fetches a "flex statement" from the Interactive Brokers Flex Web Service in two phases. First it calls `SendRequest` with the credential token, the query id, protocol version 3 and an optional date range. It reads the XML acknowledgement for a `Status` and a `ReferenceCode`. It pauses, then calls `GetStatement` with the reference code in the `q` parameter, and writes the returned bytes to a file.

This project models that client core (`app.py`) in Dafny and proves properties of the model:

- `dates.dfy` (module `Dates`): normalising a date argument to the compact `YYYYMMDD` form. That form is the basic format of an ISO 8601 calendar date (ISO 8601:2004, section 4.1.2.2). A date object is formatted with `strftime("%Y%m%d")`. A string has every `-` deleted and nothing else checked.
- `request.dfy` (module `FlexRequest`): `load_config`'s validation and the query-parameter dictionaries of the two calls. The in-place construction of `send_params` is a method proved equal to a specification function.
- `response.dfy` (module `FlexResponse`): `parse_flex_response`. The scan over the root's direct children is a method with a loop, proved equal to `Decode`. `Decode` is specified through the sequence of texts each tag has among those children, and the lemmas about ordering, unknown tags and repetition are stated on it.
- `pipeline.dfy` (module `FlexPipeline`): `send_flex_request`, `download_flex_statement`, `save_statement_to_file` and `get_flex_statement`. The network, the XML parser and the filesystem are parameters, bundled in a `Remote` value. The pause is not a parameter: it is recorded as a `Wait(5)` effect. The pipeline returns the trace of effects it performed, so its contract can say which steps ran, in what order and with which data.
- `wrappers.dfy`, `errors.dfy`: `Option`/`Result` and one error constructor per exception the client raises.

Three behaviours of the code that the model keeps as written:

- A missing `Status` is a rejection carrying `None`, because the code tests `status != "Success"` (app.py:92-93).
- An unparseable body raises `ValueError` carrying only the parser's message, not the body (app.py:80-81), so `InvalidXml` carries nothing.
- The success path returns the output path (app.py:184).

## Model

| member | source | states |
|---|---|---|
| FlexRequest.LoadConfig | app.py:18-31 | fails with MissingConfig exactly when the token or the query id is missing or empty; otherwise carries both verbatim, version 3 and the fixed base URL |
| FlexRequest.SendParams | app.py:42-63 | keys are exactly t, q, v, plus StartDate / EndDate exactly when that argument is truthy; t, q and v carry the token, query id and version; the date keys carry the normalised date |
| FlexRequest.BuildSendParams | app.py:42-63 | the dictionary built by the literal and the two in-place additions equals SendParams |
| FlexRequest.NoDatesNoDateKeys | app.py:42-63 | with both dates None or "" the parameters are exactly {t, q, v} |
| FlexRequest.DashOnlyDateSendsEmptyValue | app.py:49-55 | a date string of only dashes is truthy, so StartDate is still sent, with value "" |
| FlexRequest.DateObjectsAndStringsSendSameParams | app.py:48-63 | a date range given as date objects and the same range given as "YYYY-MM-DD" strings give identical request parameters |
| FlexRequest.FetchParams | app.py:109-113 | the GetStatement parameters are the date-less SendRequest parameters with q replaced by the reference code; keys exactly t, q, v |
| Dates.CompactDate | app.py:50-51 | strftime("%Y%m%d") gives eight digits, and reading them back gives the same year, month and day (the rendering is injective) |
| Dates.StripDashes | app.py:52-54 | the result of replace("-", "") contains no '-' and is no longer than the input |
| Dates.StripDashesAppend | app.py:54 | deleting dashes distributes over concatenation, so the other characters keep their order |
| Dates.StripDashesKeepsDashFree | app.py:52-55 | a string without '-' passes through unchanged, so any other shape is sent unvalidated |
| Dates.StripDashesIdempotent | app.py:54 | normalising an already normalised string changes nothing |
| Dates.StripDashesCounts | app.py:54 | every character other than '-' occurs as often in the result as in the input; the length drops by exactly the number of dashes |
| Dates.DateFormsAgree | app.py:50-54 | for every date, the date-object branch and the branch for its "YYYY-MM-DD" string give the same compact string |
| Dates.ExtendedShapeNormalises | app.py:52-54 | any DDDD-DD-DD string normalises to its eight digits in order |
| Dates.NoCalendarCheck | app.py:52-55 | any four-digit year and two-digit month and day, calendar dates or not (e.g. month 13), reach the request unchanged |
| Dates.Pad4RoundTrip | app.py:51 | the four-digit year field reads back as the year |
| FlexResponse.Decode | app.py:76-98 | None (parse error) is Malformed and nothing else is; with s the text of the last Status child and c that of the last ReferenceCode child: s not "Success" (missing included) is Rejected(s); "Success" with c missing or empty is NoRefCode; otherwise Accepted(c) with c exactly |
| FlexResponse.ParseFlexResponse | app.py:76-98 | the loop over the direct children, overwriting status and reference_code, followed by the two checks, computes Decode |
| FlexResponse.ScannedIsFinal | app.py:83-90 | the value the loop holds for a tag is the text of that tag's last occurrence (last one wins, None if absent) |
| FlexResponse.TextsOfAppend | app.py:86-90 | the occurrences of a tag in two runs of children are those of the first run followed by those of the second |
| FlexResponse.DecodeDependsOnlyOnFieldTexts | app.py:86-90 | documents with the same sequences of Status texts and of ReferenceCode texts decode alike, whatever else they contain |
| FlexResponse.SwapNeighboursKeepsAck | app.py:86-90 | swapping two neighbouring children with different tags (a Status and a ReferenceCode, say) does not change the result |
| FlexResponse.UnknownChildIgnored | app.py:86-90 | inserting a child with any other tag anywhere does not change the result |
| FlexResponse.GrandchildrenIgnored | app.py:86-90 | replacing what a child contains below itself does not change the result: only direct children are read |
| FlexResponse.LastStatusWins | app.py:86-93 | a Status appended last, with text other than "Success", makes the result Rejected with that text, whatever came before |
| FlexResponse.RootTagIgnored | app.py:79-86 | the root element's tag is never consulted |
| FlexResponse.AckResult | app.py:78-98 | only Accepted yields a code; Rejected, NoRefCode and Malformed raise three distinct errors, the rejection carrying the status |
| FlexPipeline.SendResult | app.py:65-73 | a transport failure is SendFailed and nothing else is; a delivered body is decided by its acknowledgement; a returned reference code is never empty |
| FlexPipeline.SendFlexRequest | app.py:34-73 | issues one request to base URL + /SendRequest with SendParams and returns SendResult |
| FlexPipeline.DownloadResult | app.py:107-122 | fails with DownloadFailed exactly on a transport failure; otherwise returns the body verbatim, empty or not |
| FlexPipeline.SaveResult | app.py:124-134 | succeeds exactly when the directories are made and the write succeeds; a directory failure and a write failure are distinct errors |
| FlexPipeline.GetFlexStatement | app.py:137-184 | the effects are a prefix of send, wait 5 s, fetch, save and stop at the first failure; a configuration error makes no call at all; the fetch uses the reference code obtained, with FetchParams; the bytes saved are the bytes fetched, to the given path or data/processed/flex_statement.csv; success returns that path |
| FlexPipeline.DefaultDownload | example_usage.py:11-17 | the default call against a service whose acknowledgement is Status Success with ReferenceCode ABC123 (its parser knows only that body) and that serves "col1,col2\n1,2\n" sends no dates, fetches with q=ABC123 and saves exactly those bytes to the default path |

## Left out

- HTTP itself (`requests.get`, the 2-second timeouts, redirects, `raise_for_status`): each call is an abstract function of URL and parameters that delivers a body or fails. Every `requests` exception becomes the one failure.
- How `requests` encodes the parameter dictionary into a query string: the model stops at the dictionary.
- `time.sleep`: the pause is recorded as a `Wait(5)` effect and has no other meaning.
- The XML parser (`ET.fromstring`): it is an abstract function from the body to an element tree, or None for a parse error. It receives the text that `sendRequest` returns, which stands for `response.text` already decoded.
- Environment loading (`load_dotenv`, `os.getenv`): the two variables are parameters of `LoadConfig` and `GetFlexStatement`.
- Filesystem work: `mkdir` and `write_bytes` are abstract functions that succeed or fail. `pathlib.Path` normalisation of the output path is not modelled; the path is an opaque string.
- Printing, argparse and the `__main__` exit code.
- Dates.CompactDate: `%Y` is modelled as a zero-padded four-digit year, as current CPython renders it. Older CPython builds on glibc render years below 1000 without padding; for those years the model and such builds differ.
- Date arguments that are neither a date/datetime nor a string (Python passes them through untouched): the model's `DateArg` has only the two documented kinds.
- Time-of-day of a `datetime` argument: it is ignored by `%Y%m%d` and absent from the model.
