# monitor.py, modelled in Dafny

monitor.py checks a list of web URLs with raw HTTP/1.0 requests. It parses
each URL and opens a socket, using TLS for `https`. It sends `GET <path>
HTTP/1.0` with a `Host` header and reads until the server closes. Then it
reports the status line and follows up by status class:

- a 3xx answer follows the `Location` header, once per hop, as a redirected
  fetch that prints no label;
- a 2xx answer fetches every `<img src=...>` of the body whose resolved URL
  starts with `http`, as a referenced fetch.

Everything the program prints goes to standard output.

The project models that core as pure functions with proved properties, plus
the imperative procedures of the program as methods proved equal to those
functions. The modules are:

- **PyText** (`text.dfy`): the Python string, bytes and integer built-ins
  the program relies on. These are `find`, `split(sep, 1)`, `split()`,
  `' '.join`, `strip()`, `int()`, `str()`, Latin-1 decoding and UTF-8
  encoding, each with what it guarantees.
- **UrlParser** (`url.dfy`): `parse_url`, and the URL text a parse result
  formats back to.
- **Wire** (`wire.dfy`): `send_request` and `receive_response`. They run
  over a `Socket` class whose fields are the bytes sent and the chunks not
  yet read. The other end is an abstract `Network`: a map from (endpoint,
  request bytes) to either a failure or the chunks the server sends.
- **Analyzer** (`analyzer.dfy`): `analyze_response` up to the follow-up.
  This covers the empty-response check, the header/body split, the status
  line and the dispatch on the status class.
- **Redirect** (`redirect.dfy`): the `Location` search of
  `follow_redirection`, as an exact model of the regular expression's
  leftmost, lazy match.
- **References** (`references.dfy`): the `<img>` source scanner of
  `fetch_referenced_objects`, as an exact model of the greedy pattern's
  backtracking, and the resolution of each source against the page URL.
- **Monitor** (`monitor.dfy`): `fetch_url` and the recursion it drives.
  - **Specification.** `Fetch` specifies the output: the lines one call of
    `fetch_url` prints, as a depth-first run over a one-step function
    (`StepOf`). The recursion is bounded by fuel. `Run.complete` says
    whether the run finished within that bound.
  - **Methods.** `FetchUrl`, `FetchValid`, `Download`, `AnalyzeResponse`,
    `FollowRedirection`, `FetchSource` and `FetchReferencedObjects` follow
    the program's functions statement by statement. Each is proved to
    produce exactly the run `Fetch` describes.

The redirect search follows the code as written. A `Location` header on the
last header line is not found, however many header lines come before it. The
headers end where the blank line begins, so no CRLF follows that value, and
the program prints the redirection-failure line. One might expect such a
header to be followed; the code does not follow it, and the model follows the
code (`Redirect.LocationOnLastLineMissed`).

## Model

| member | source | states |
|---|---|---|
| `PyText.FindFrom` | monitor.py:33 | the index found is the first occurrence at or after the start; None exactly when there is none |
| `PyText.Find` | monitor.py:33 | the index found is the first occurrence of the pattern; None exactly when it does not occur |
| `PyText.SplitOnce` | monitor.py:123 | the first half holds no separator; with a second half, first + separator + second is the input; without one, the first half is the whole input |
| `PyText.Words` | monitor.py:130 | every token of `split()` is non-empty and free of whitespace |
| `PyText.WordsOfJoin` | monitor.py:132 | splitting space-joined tokens gives the same tokens back |
| `PyText.WordsOfSpaced` | monitor.py:130 | tokens separated by any non-empty whitespace, with or without whitespace at either end, split back into exactly those tokens |
| `PyText.SpacedOfWords` | monitor.py:130 | every text is its `split()` tokens set in whitespace gaps, non-empty between two tokens; with `WordsOfSpaced`, the tokens are exactly the maximal whitespace-free runs of the text, in order |
| `PyText.JoinSpace` | monitor.py:132 | `' '.join`: `WordsOfJoin` splits the result back into the same tokens, and `JoinSpaceChars` shows that its only whitespace is the single separating spaces |
| `PyText.JoinSpaceChars` | monitor.py:132 | space-joined tokens hold no whitespace other than the single spaces between them |
| `PyText.Strip` | monitor.py:91 | the stripped text neither starts nor ends with whitespace |
| `PyText.StripOfPadded` | monitor.py:91 | stripping text wrapped in whitespace gives back the inner text |
| `PyText.ParseInt` | monitor.py:131 | `int()` accepts a token exactly when it is groups of digits joined by single underscores, optionally after one `+` or `-`; the value is the digits' decimal value, negated after `-` |
| `PyText.ParseIntSamples` | monitor.py:131 | leading zeros and single underscores are accepted: `0200` is 200 and `1_0` is 10 |
| `PyText.ParseIntSigned` | monitor.py:131 | a leading sign is accepted: `+5` is 5 and `-0` is 0 |
| `PyText.ParseIntMalformed` | monitor.py:131 | doubled, leading and trailing underscores are rejected: `1__0`, `_1` and `1_` |
| `PyText.ParseIntRejects` | monitor.py:131 | a token holding a character other than a digit, an underscore or a leading sign is rejected |
| `PyText.ParseIntOfIntToString` | monitor.py:134 | `int(str(n)) == n` for every integer |
| `PyText.IntToStringIsWord` | monitor.py:134 | `str(n)` is a single whitespace-free token |
| `PyText.IntToString` | monitor.py:134 | `str(n)` is never empty; `ParseIntOfIntToString` reads it back as `n` and `IntToStringIsWord` shows it is one token |
| `PyText.Latin1Decode` | monitor.py:122 | one character per byte, with the byte's value as its code |
| `PyText.Latin1RoundTrip` | monitor.py:122 | Latin-1 decoding loses nothing: encoding the text gives back the bytes |
| `PyText.Utf8OfAscii` | monitor.py:71 | on ASCII text the UTF-8 bytes are the character codes, one byte per character |
| `PyText.Utf8Append` | monitor.py:71 | UTF-8 encoding distributes over concatenation |
| `PyText.Utf8Encode` | monitor.py:71 | at least one byte per character; `Utf8OfAscii` and `Utf8Append` pin the bytes of ASCII text and the behaviour over concatenation |
| `UrlParser.SplitHostPath` | monitor.py:33-42 | the host is the text before the first `/` and the path the rest; without `/`, all host and path `/`; port by protocol |
| `UrlParser.ParseUrl` | monitor.py:9-46 | None exactly when the URL starts with neither `https://` nor `http://`; `https` has port 443, otherwise `http` has port 80; host and path cut the text after the prefix at its first `/` |
| `UrlParser.HostPathUnique` | monitor.py:33-42 | the host/path cut of a remainder is unique |
| `UrlParser.ParseOfFormat` | monitor.py:9-46 | a URL formatted from a host without `/`, a path starting with `/` and the default port parses back to the same parts |
| `UrlParser.FormatOfParse` | monitor.py:9-46 | formatting a parse result gives the URL back, or the URL with `/` appended when it had no path |
| `UrlParser.FormatOfSplit` | monitor.py:33-42 | the host/path cut loses nothing of the remainder but a missing `/` |
| `Wire.BuildRequest` | monitor.py:68-70 | the three appends build the request line, the Host line and the blank line, in that order |
| `Wire.RequestFraming` | monitor.py:68-70 | split once at the blank line, the request gives its request line and Host header and an empty body |
| `Wire.LineFeedsOfRequest` | monitor.py:68-70 | the request's only line feeds are those of its three CRLFs |
| `Wire.RequestText` | monitor.py:68-70 | the request `send_request` builds; `BuildRequest` builds it by the three appends, `RequestFraming` and `LineFeedsOfRequest` show its framing |
| `Wire.RequestBytes` | monitor.py:71 | the UTF-8 bytes of the request text; `RequestBytesOfAscii` gives them for ASCII hosts and paths |
| `Wire.RequestBytesOfAscii` | monitor.py:68-71 | for an ASCII host and path the bytes sent are the request's character codes, one byte per character |
| `Wire.Socket.SendAll` | monitor.py:71 | the data is appended to what was sent; nothing is read |
| `Wire.Socket.Recv` | monitor.py:77 | the next unread chunk, which is then consumed; the empty chunk once the peer has closed |
| `Wire.SendRequest` | monitor.py:66-71 | the socket has sent the UTF-8 bytes of the request, and nothing is read |
| `Wire.ReceiveResponse` | monitor.py:73-82 | the response is all the chunks before the first empty read, concatenated in order; nothing is sent |
| `Wire.Received` | monitor.py:75-82 | the response is a prefix of everything the server sent; `ReceivedOfNonEmpty` shows it holds every chunk before the first empty read |
| `Wire.ReceivedOfNonEmpty` | monitor.py:75-82 | non-empty chunks are all kept in order, and nothing after the first empty read is part of the response |
| `Analyzer.SplitResponse` | monitor.py:122-125 | headers hold no blank line; with a blank line, headers + blank line + body is the text; without one, all headers and an empty body |
| `Analyzer.StatusLine` | monitor.py:127 | the status line is the prefix of the headers up to their first CRLF, or all of them |
| `Analyzer.ParseStatusLine` | monitor.py:129-132 | fails exactly when there are fewer than two tokens or the second is not an integer; otherwise the code is `int` of the second token and the phrase is the remaining tokens joined by spaces |
| `Analyzer.ParseStatusLineOfFormat` | monitor.py:129-134 | `<version> <code> <phrase words>` parses back to its code and its space-joined phrase |
| `Analyzer.ParseStatusLineOfSpaced` | monitor.py:129-132 | however the status line is spaced (tabs, runs of blanks, whitespace at either end), the code is that of the second token and the phrase is the remaining tokens joined by single spaces |
| `Analyzer.ParseStatusLineOfOneWord` | monitor.py:129-137 | a single-token status line is an invalid format |
| `Analyzer.Dispatch` | monitor.py:139-145 | redirect exactly for 300..399, references exactly for 200..299, nothing otherwise; the headers or the body are passed on unchanged |
| `Analyzer.Analyze` | monitor.py:116-145 | empty exactly for no bytes; a reported answer is followed up as a redirect exactly for codes 300..399 and by fetching references exactly for 200..299 |
| `Analyzer.SplitAtFirst` | monitor.py:122-125 | text whose first blank line ends `headers` splits into those headers and the body after the blank line |
| `Analyzer.StatusLineOfFirst` | monitor.py:127 | a line without CR, followed by nothing or by CRLF and more header lines, is the status line |
| `Analyzer.AnalyzeOfResponse` | monitor.py:116-145 | bytes that decode to `<version> <code> <phrase>` and optional header lines, then the first blank line and the body, are reported with that code and space-joined phrase and dispatched on the code with exactly those headers and that body |
| `Analyzer.AnalysisLines` | monitor.py:118-137 | `analyze_response` itself prints exactly one line: the empty-response line, the invalid-format line or the status line |
| `Analyzer.StatusReport` | monitor.py:134 | the `Status:` line; `StatusReportWords` shows it reads back |
| `Analyzer.StatusReportWords` | monitor.py:134 | the printed status line splits into `Status:`, the code as `str()` writes it and the phrase's tokens, so its second token parses back to the code |
| `Redirect.GroupEndUnique` | monitor.py:88 | the lazy group `(.*?)` followed by CRLF can stop at only one place |
| `Redirect.GroupEnd` | monitor.py:88 | the group's end is a CRLF with no line feed before it; None exactly when there is no such end |
| `Redirect.SearchFrom` | monitor.py:88 | the match found is the leftmost one at or after the start; None exactly when nothing matches there |
| `Redirect.FindLocation` | monitor.py:88-91 | None exactly when nothing matches; otherwise the stripped group of the leftmost match, which neither starts nor ends with whitespace |
| `Redirect.FindLocationOfFirstMatch` | monitor.py:88-91 | the leftmost match decides the value found |
| `Redirect.NoKeyBefore` | monitor.py:88 | no match starts on a key-free first line, on its CRLF, or before the `Location: ` that follows |
| `Redirect.FoundAfterFirstLine` | monitor.py:88-91 | `Location: v` on a CRLF-ended line after a key-free first line gives the stripped `v` |
| `Redirect.LocationFound` | monitor.py:88-91 | a `Location: v` header with another line after it gives the stripped `v` |
| `Redirect.ContentLocationFound` | monitor.py:88-91 | the unanchored pattern also finds the value of a `Content-Location: v` header |
| `Redirect.LocationOnLastLineMissed` | monitor.py:88 | a `Location` header on the last header line, with no CRLF after it, is not found, however many header lines come before it |
| `References.NoImgAt` | monitor.py:100 | no match of the pattern starts at a character other than `<` |
| `References.ImgSrcsFromNoTag` | monitor.py:100 | text without `<` yields no sources |
| `References.ImgSrcs` | monitor.py:100 | every captured source is non-empty and holds no quote, whitespace or `>` |
| `References.SrcAtQuoted` | monitor.py:100 | `src="v"` captures `v` and the match ends after the closing quote |
| `References.ImgAtTag` | monitor.py:100 | the tag `<img src="v">` matches with group `v`, ending after the tag, for every value in which no `src=` occurs in any case |
| `References.ImgSrcsOfTag` | monitor.py:100 | a body whose only tag is `<img src="v">` yields exactly `[v]`, for every value in which no `src=` occurs in any case |
| `References.InnerSrcWins` | monitor.py:100 | the greedy run before `src` makes the last `src=` before the `>` win: `<img src="a?src=b">` yields `b` |
| `References.ResolveRootRelative` | monitor.py:110-111 | a root-relative source resolves to a URL that parses to the page's host, protocol and port, with the source as path |
| `References.ResolveProtocolRelative` | monitor.py:108-109 | `//rest` resolves to the page's protocol and `://rest`, and parses as `rest` does after that prefix |
| `References.ResolveRelativeSkipped` | monitor.py:106-113 | a source starting with neither `/` nor `http` is left as it is and not fetched |
| `References.ReferencedUrls` | monitor.py:105-113 | at most one URL per source, each starting with `http` |
| `References.ReferencedUrlsAppend` | monitor.py:105-113 | the selection works source by source: it distributes over concatenation |
| `References.ReferencedUrlsOne` | monitor.py:106-113 | one source contributes its resolution when that starts with `http`, and nothing otherwise |
| `References.Resolve` | monitor.py:106-112 | the absolute URL of a source; `ResolveRootRelative`, `ResolveProtocolRelative` and `ResolveRelativeSkipped` state what each case gives |
| `Monitor.Label` | monitor.py:157-160 | a redirected fetch prints no label, every other fetch a single label line |
| `Monitor.Attempt` | monitor.py:151-172 | the outcome of one fetch; `FetchInvalid`, `FetchNetworkError` and `Download` state when it is invalid, a network error or an answer |
| `Monitor.StepOf` | monitor.py:151-172 | what one fetch prints itself and the fetches it starts; `StepShape` and `StepRoles` state its shape per outcome and role |
| `Monitor.FollowUp` | monitor.py:139-145 | the follow-up by status class; `FollowUpShape` states what each class prints and starts |
| `Monitor.RedirectStep` | monitor.py:86-96 | the redirect follow-up; `StepRedirect` and `FetchRedirectNoLocation` state both of its cases |
| `Monitor.ReferenceStep` | monitor.py:98-114 | the reference follow-up; `FetchReferenced` states the fetches it starts |
| `Monitor.Drive` | monitor.py:149-176 | the depth-first run over the one-step function with bounded fuel; `DriveGrows` and `DriveMoreFuel` show the bound only cuts it short |
| `Monitor.DriveAll` | monitor.py:105-114 | the runs of a list of fetches, in order; `DriveAllAppend` shows it works fetch by fetch |
| `Monitor.Fetch` | monitor.py:149-176 | the lines one call of `fetch_url` prints; `FetchUrl` proves the program's procedures produce exactly this run |
| `Monitor.FetchAll` | monitor.py:105-114 | the lines a list of fetches prints; `FetchReferencedObjects` proves the loop produces exactly this run |
| `Monitor.FollowUpShape` | monitor.py:139-145 | only 3xx and 2xx answers start fetches; a redirect prints `Redirected URL: v` and starts one redirected fetch of `v`, or prints the failure line and starts none; references print nothing and start only referenced fetches of `http` URLs |
| `Monitor.StepShape` | monitor.py:151-172 | an invalid URL prints only its invalid line; a failed exchange prints the label and the network-error line; neither starts a fetch, and no fetch starts a primary fetch |
| `Monitor.DriveAllAppend` | monitor.py:105-114 | running two lists of fetches is running one list, then the other |
| `Monitor.DriveGrows` | monitor.py:149-176 | one more unit of fuel only extends the trace, and leaves a finished trace unchanged |
| `Monitor.DriveMoreFuel` | monitor.py:149-176 | with more fuel a trace is extended, and a finished trace stays as it is: the bound cuts the trace short and changes nothing else |
| `Monitor.FetchLeaf` | monitor.py:149-176 | a fetch that starts nothing prints exactly its step's lines |
| `Monitor.FetchAnswered` | monitor.py:157-169 | an answered fetch prints its label, then what `analyze_response` prints for the answer |
| `Monitor.StepRoles` | monitor.py:157-160 | the role changes only the label of a valid URL's step |
| `Monitor.FetchRoles` | monitor.py:157-160 | a primary fetch prints `URL: url`, and a referenced one `Referenced URL: url`, before exactly what the redirected fetch of that URL prints |
| `Monitor.FetchInvalid` | monitor.py:151-155 | a URL that does not parse, or parses with an empty host, prints only `Url: [url] is invalid`, whatever the role |
| `Monitor.FetchNetworkError` | monitor.py:165-172 | a failed exchange prints the label and `Status: Network error`, and nothing more |
| `Monitor.FetchEnds` | monitor.py:116-145 | an answered fetch whose analysis starts nothing prints its label and the analysis lines |
| `Monitor.FetchEmptyResponse` | monitor.py:118-120 | a server that closes without sending a byte gives the label and exactly the empty-response line |
| `Monitor.FetchInvalidFormat` | monitor.py:129-137 | a response whose status line does not parse gives the label and exactly the invalid-format line |
| `Monitor.FetchFinalStatus` | monitor.py:134-145 | a status code outside 200..399 prints the label and the status line and nothing more |
| `Monitor.FetchRedirectNoLocation` | monitor.py:95-96 | a 3xx answer without a `Location` match prints the label, the status line and the redirection-failure line, and starts nothing |
| `Monitor.StepRedirect` | monitor.py:139-141 | the step of a 3xx answer with `Location: v` prints the label, the status line and `Redirected URL: v`, and starts only the redirected fetch of `v` |
| `Monitor.FetchRedirect` | monitor.py:90-94 | a 3xx answer with `Location: v` prints the label, the status line and `Redirected URL: v`, then exactly the redirected fetch of `v` |
| `Monitor.FetchReferenced` | monitor.py:143-144 | a 2xx answer prints the label and the status line, then the referenced fetches of the resolved `http` sources of its body, in order |
| `Monitor.DriveSelfLoop` | monitor.py:86-96 | a fetch whose only child is itself never finishes |
| `Monitor.DriveIntoLoop` | monitor.py:86-96 | a fetch whose only child is a self-looping fetch never finishes |
| `Monitor.SelfRedirectNeverEnds` | monitor.py:86-96 | a URL whose answer redirects to itself never finishes with any fuel: the program has no cycle check |
| `Monitor.FetchUrl` | monitor.py:149-176 | the run is exactly `Fetch` of the URL and role with that fuel |
| `Monitor.FetchValid` | monitor.py:157-172 | for a URL with a host: the label, then the network-error line or the analysis of the answer, as `Fetch` describes |
| `Monitor.Download` | monitor.py:165-168 | None exactly when the exchange fails; otherwise the bytes the server sends before closing |
| `Monitor.AnalyzeResponse` | monitor.py:116-145 | the run is the analysis lines of the answer, then its follow-up and the fetches that starts |
| `Monitor.FollowRedirection` | monitor.py:86-96 | the run is the redirect step's line, then the redirected fetch when a `Location` matched |
| `Monitor.ReferencedTurn` | monitor.py:105-114 | one loop turn appends the run of one source to the runs of the sources before it |
| `Monitor.FetchSource` | monitor.py:106-114 | the run is the referenced fetch of the resolved source when that starts with `http`, else nothing |
| `Monitor.FetchReferencedObjects` | monitor.py:98-114 | the run is the referenced fetches of all resolved `http` sources in the body, in source order |

## Left out

- Opening the connection is not modelled: the socket, `connect`, the
  five-second timeout and the TLS wrap of `establish_connection`. Every way
  it can fail, and every exception while sending or receiving, is one
  `Failure` reply of the abstract network. A failure after some data has
  arrived gives the same single network-error line, so the model loses
  nothing there. The close in `finally` has no visible effect.
- The servers are deterministic in the model. The same endpoint and request
  bytes always get the same reply, so a URL fetched twice is answered the
  same way. Real servers need not behave like that.
- `sock.recv(4096)` size limits are not modelled. A chunk is whatever the
  network hands over. Only the order of the chunks and the first empty read
  matter to the result.
- The recursion is bounded by fuel. The program does not bound it, so a
  redirect cycle runs until Python's recursion limit is reached; what the
  resulting `RecursionError` prints is not modelled. The model instead
  reports an unfinished run, and
  `Monitor.SelfRedirectNeverEnds` proves that such a run never finishes with
  any fuel.
- The `__main__` block is not modelled: reading the URL file, stripping and
  skipping blank lines, and the usage and file-not-found errors. It is file
  I/O around a loop of primary fetches.
- `fetch_referenced_objects` parses `original_url` again. The model passes
  the parse that `fetch_url` already made of the same URL, which gives the
  same host and protocol.
- PyText.ParseInt: does not model Python's limit of 4300 digits on integer
  strings, above which `int()` raises and the program prints the
  invalid-format line. The model parses longer codes.
- PyText.IsSpace: whitespace is defined for characters up to U+00FF only.
  Every text the program searches or splits is Latin-1 decoded, so nothing
  outside that range reaches these functions. `PyText.Lower` likewise folds
  only ASCII letters. No other Latin-1 character case-folds to a letter of
  `location`, `src` or `img`.
- Exceptions other than network failures are not modelled. None of the
  modelled operations raises an exception that the program does not catch.
  Inside the `try` of `analyze_response`, a missing second token or an
  `int()` that fails raises, and is caught as the invalid-format line; the
  model gives that line for exactly those inputs (`Analyzer.ParseStatusLine`),
  except for the digit limit above.
