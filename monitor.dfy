/** `fetch_url` of monitor.py and the recursion it drives through
    `analyze_response`, `follow_redirection` and `fetch_referenced_objects`.
    The printed lines are returned as a trace; the recursion, which the
    source does not bound, is bounded by fuel. */
module Monitor {
  import opened PyText
  import opened UrlParser
  import opened Wire
  import opened Analyzer
  import opened Redirect
  import opened References

  /** Why a fetch was started: from the URL list, from a `Location` header,
      or from an `<img>` source. */
  datatype Role = Primary | Redirected | Referenced

  /** A pending fetch: the `url` and flags of a call to `fetch_url`. */
  datatype FetchContext = FetchContext(url: string, role: Role)

  function InvalidLine(url: string): string {
    "Url: [" + url + "] is invalid"
  }

  const NetworkErrorLine: string := "Status: Network error"
  const NoLocationLine: string := "Status: 3XX Redirection Failure (No Location header)"

  /** The label `fetch_url` prints before connecting. */
  function Label(url: string, role: Role): (lines: seq<string>)
    ensures role == Redirected <==> lines == []
    ensures |lines| <= 1
  {
    match role
    case Referenced => ["Referenced URL: " + url]
    case Primary => ["URL: " + url]
    case Redirected => []
  }

  /** The connection and request bytes for a parsed URL. */
  function ExchangeOf(u: Url): Exchange {
    Exchange(Endpoint(u.protocol, u.host, u.port), RequestBytes(u.host, u.path))
  }

  /** How a fetch ends before its follow-up. */
  datatype Outcome = Invalid | NetworkError | Answered(u: Url, analysis: Analysis)

  function Attempt(net: Network, url: string): Outcome
  {
    match ParseUrl(url)
    case None => Invalid
    case Some(u) =>
      if u.host == "" then Invalid
      else match Serve(net, ExchangeOf(u))
        case Failure => NetworkError
        case Chunks(chunks) => Answered(u, Analyze(Received(chunks)))
  }

  /** What one fetch prints itself, and the fetches it starts, in order. */
  datatype Step = Step(lines: seq<string>, children: seq<FetchContext>)

  function AsReferenced(urls: seq<string>): (cs: seq<FetchContext>)
    ensures |cs| == |urls|
    ensures forall k :: 0 <= k < |cs| ==> cs[k] == FetchContext(urls[k], Referenced)
  {
    seq(|urls|, k requires 0 <= k < |urls| => FetchContext(urls[k], Referenced))
  }

  /** `follow_redirection` without its fetch. */
  function RedirectStep(headers: string): Step {
    match FindLocation(headers)
    case Some(v) => Step(["Redirected URL: " + v], [FetchContext(v, Redirected)])
    case None => Step([NoLocationLine], [])
  }

  /** `fetch_referenced_objects` without its fetches. */
  function ReferenceStep(u: Url, body: string): Step {
    Step([], AsReferenced(ReferencedUrls(u, ImgSrcs(body))))
  }

  /** What follows the status line: the dispatch by status class. */
  function FollowUp(u: Url, a: Analysis): Step {
    match a
    case Reported(_, _, FollowRedirect(headers)) => RedirectStep(headers)
    case Reported(_, _, FetchReferences(body)) => ReferenceStep(u, body)
    case _ => Step([], [])
  }

  /** Only the redirect and reference actions start fetches; a redirect
      starts at most one, a redirected fetch announced on the line before
      it; the reference action starts only referenced fetches of URLs that
      start with `http`. */
  lemma FollowUpShape(u: Url, a: Analysis)
    ensures var s := FollowUp(u, a);
            s.children != [] ==> a.Reported? && !a.action.Done?
    ensures var s := FollowUp(u, a);
            a.Reported? && a.action.FollowRedirect? ==>
              (|s.children| == 1 && s.children[0].role == Redirected &&
               s.lines == ["Redirected URL: " + s.children[0].url]) ||
              (s.children == [] && s.lines == [NoLocationLine])
    ensures var s := FollowUp(u, a);
            a.Reported? && a.action.FetchReferences? ==>
              s.lines == [] &&
              forall k :: 0 <= k < |s.children| ==>
                s.children[k].role == Referenced && StartsWith(s.children[k].url, "http")
    ensures !a.Reported? || a.action.Done? ==> FollowUp(u, a) == Step([], [])
  {
  }

  /** One call of `fetch_url`, its children not yet run. */
  function StepOf(net: Network, url: string, role: Role): Step {
    match Attempt(net, url)
    case Invalid => Step([InvalidLine(url)], [])
    case NetworkError => Step(Label(url, role) + [NetworkErrorLine], [])
    case Answered(u, a) =>
      var f := FollowUp(u, a);
      Step(Label(url, role) + AnalysisLines(a) + f.lines, f.children)
  }

  /** An invalid URL prints its invalid line and a failed exchange the
      network-error line, neither starting anything; no fetch starts a
      primary fetch. */
  lemma StepShape(net: Network, url: string, role: Role)
    ensures Attempt(net, url).Invalid? ==> StepOf(net, url, role) == Step([InvalidLine(url)], [])
    ensures Attempt(net, url).NetworkError? ==>
              StepOf(net, url, role) == Step(Label(url, role) + [NetworkErrorLine], [])
    ensures var s := StepOf(net, url, role);
            forall k :: 0 <= k < |s.children| ==> s.children[k].role != Primary
  {
    if Attempt(net, url).Answered? {
      FollowUpShape(Attempt(net, url).u, Attempt(net, url).analysis);
    }
  }

  // ---------------------------------------------------------------------
  // The trace

  /** The lines printed, and whether the run finished within its fuel. An
      unfinished run holds the lines printed before the fuel ran out. */
  datatype Run = Run(lines: seq<string>, complete: bool)

  /** `a` then `b`; nothing runs after an unfinished run. */
  function Then(a: Run, b: Run): Run {
    if a.complete then Run(a.lines + b.lines, b.complete) else a
  }

  /** The depth-first driver over a one-step function: a fetch prints its
      own lines, then runs its children in order, each to its end before
      the next. One unit of fuel is one level of nesting. */
  function Drive(step: FetchContext -> Step, c: FetchContext, fuel: nat): Run
    decreases fuel, 0
  {
    if fuel == 0 then Run([], false)
    else
      var s := step(c);
      Then(Run(s.lines, true), DriveAll(step, s.children, fuel - 1))
  }

  function DriveAll(step: FetchContext -> Step, cs: seq<FetchContext>, fuel: nat): Run
    decreases fuel, 1, |cs|
  {
    if cs == [] then Run([], true)
    else Then(Drive(step, cs[0], fuel), DriveAll(step, cs[1..], fuel))
  }

  lemma AppendAssoc<T>(a: seq<T>, b: seq<T>, c: seq<T>)
    ensures a + b + c == a + (b + c)
  {
  }

  lemma AppendNil<T>(a: seq<T>)
    ensures a + [] == a && [] + a == a
  {
  }

  lemma ThenAssoc(a: Run, b: Run, c: Run)
    ensures Then(Then(a, b), c) == Then(a, Then(b, c))
  {
    if a.complete && b.complete {
      assert (a.lines + b.lines) + c.lines == a.lines + (b.lines + c.lines);
    }
  }

  lemma ThenUnit(a: Run)
    ensures Then(a, Run([], true)) == a
    ensures Then(Run([], true), a) == a
  {
    assert a.lines + [] == a.lines;
    assert [] + a.lines == a.lines;
  }

  /** Running two lists of fetches is running one list after the other. */
  lemma {:induction false} DriveAllAppend(step: FetchContext -> Step, a: seq<FetchContext>, b: seq<FetchContext>, fuel: nat)
    ensures DriveAll(step, a + b, fuel) == Then(DriveAll(step, a, fuel), DriveAll(step, b, fuel))
    decreases |a|
  {
    if a == [] {
      assert a + b == b;
      ThenUnit(DriveAll(step, b, fuel));
    } else {
      assert (a + b)[0] == a[0];
      assert (a + b)[1..] == a[1..] + b;
      DriveAllAppend(step, a[1..], b, fuel);
      ThenAssoc(Drive(step, a[0], fuel), DriveAll(step, a[1..], fuel), DriveAll(step, b, fuel));
    }
  }

  lemma DriveAllOne(step: FetchContext -> Step, c: FetchContext, fuel: nat)
    ensures DriveAll(step, [c], fuel) == Drive(step, c, fuel)
  {
    assert [c][1..] == [];
    ThenUnit(Drive(step, c, fuel));
  }

  /** More fuel only extends the trace, and a finished trace stays as it is. */
  lemma {:induction false} DriveGrows(step: FetchContext -> Step, c: FetchContext, fuel: nat)
    ensures Drive(step, c, fuel).lines <= Drive(step, c, fuel + 1).lines
    ensures Drive(step, c, fuel).complete ==> Drive(step, c, fuel + 1) == Drive(step, c, fuel)
    decreases fuel, 0
  {
    if fuel > 0 {
      DriveAllGrows(step, step(c).children, fuel - 1);
    }
  }

  lemma {:induction false} DriveAllGrows(step: FetchContext -> Step, cs: seq<FetchContext>, fuel: nat)
    ensures DriveAll(step, cs, fuel).lines <= DriveAll(step, cs, fuel + 1).lines
    ensures DriveAll(step, cs, fuel).complete ==> DriveAll(step, cs, fuel + 1) == DriveAll(step, cs, fuel)
    decreases fuel, 1, |cs|
  {
    if cs != [] {
      DriveGrows(step, cs[0], fuel);
      DriveAllGrows(step, cs[1..], fuel);
    }
  }

  /** A trace that finishes with some fuel is the same with any more fuel,
      and with less fuel a trace is a prefix of it: the bound cuts the trace
      short and changes nothing else. */
  lemma {:induction false} DriveMoreFuel(step: FetchContext -> Step, c: FetchContext, fuel: nat, more: nat)
    ensures Drive(step, c, fuel).lines <= Drive(step, c, fuel + more).lines
    ensures Drive(step, c, fuel).complete ==> Drive(step, c, fuel + more) == Drive(step, c, fuel)
    decreases more
  {
    if more > 0 {
      DriveMoreFuel(step, c, fuel, more - 1);
      DriveGrows(step, c, fuel + more - 1);
    }
  }

  /** The one-step function of `fetch_url` on a network. */
  function Steps(net: Network): FetchContext -> Step {
    (c: FetchContext) => StepOf(net, c.url, c.role)
  }

  /** The trace of `fetch_url(url)` with the flags of `role`. */
  function Fetch(net: Network, url: string, role: Role, fuel: nat): Run {
    Drive(Steps(net), FetchContext(url, role), fuel)
  }

  function FetchAll(net: Network, cs: seq<FetchContext>, fuel: nat): Run {
    DriveAll(Steps(net), cs, fuel)
  }

  /** `Fetch` one level down: the step's lines, then its children. */
  lemma FetchUnfold(net: Network, url: string, role: Role, fuel: nat)
    ensures Fetch(net, url, role, fuel + 1) ==
              Then(Run(StepOf(net, url, role).lines, true), FetchAll(net, StepOf(net, url, role).children, fuel))
  {
  }

  /** Names `Fetch` at `fuel` by the fuel one level down. */
  lemma FetchFuel(net: Network, url: string, role: Role, fuel: nat, more: nat)
    requires more + 1 == fuel
    ensures Fetch(net, url, role, fuel) == Fetch(net, url, role, more + 1)
  {
  }

  /** A fetch with no children prints exactly its step's lines. */
  lemma FetchLeaf(net: Network, url: string, role: Role, fuel: nat)
    requires StepOf(net, url, role).children == []
    ensures Fetch(net, url, role, fuel + 1) == Run(StepOf(net, url, role).lines, true)
  {
    FetchUnfold(net, url, role, fuel);
    AppendNil(StepOf(net, url, role).lines);
  }

  /** A URL that parses, with a host, to an endpoint the network answers. */
  predicate IsAnswered(net: Network, url: string) {
    ParseUrl(url).Some? && ParseUrl(url).value.host != "" &&
    Serve(net, ExchangeOf(ParseUrl(url).value)).Chunks?
  }

  /** The bytes the server sends for a URL it answers. */
  function Answer(net: Network, u: Url): seq<byte>
    requires Serve(net, ExchangeOf(u)).Chunks?
  {
    Received(Serve(net, ExchangeOf(u)).chunks)
  }

  /** What `analyze_response` makes of the answer to a URL. */
  function AnalysisOf(net: Network, url: string): Analysis
    requires IsAnswered(net, url)
  {
    Analyze(Answer(net, ParseUrl(url).value))
  }

  /** The step of an answered URL: its label, the analysis lines, the follow-up. */
  lemma StepAnswered(net: Network, url: string, role: Role)
    requires IsAnswered(net, url)
    ensures var u := ParseUrl(url).value;
            var f := FollowUp(u, AnalysisOf(net, url));
            StepOf(net, url, role) == Step(Label(url, role) + AnalysisLines(AnalysisOf(net, url)) + f.lines, f.children)
  {
  }

  /** The trace of `analyze_response` for an answer to `u`. */
  function AnalysisRun(net: Network, u: Url, a: Analysis, fuel: nat): Run {
    var f := FollowUp(u, a);
    Then(Run(AnalysisLines(a) + f.lines, true), FetchAll(net, f.children, fuel))
  }

  /** An answered fetch prints its label, then what `analyze_response`
      prints for the answer. */
  lemma FetchAnswered(net: Network, url: string, role: Role, fuel: nat, u: Url, data: seq<byte>, rest: Run)
    requires ParseUrl(url) == Some(u) && u.host != "" && Serve(net, ExchangeOf(u)).Chunks?
    requires data == Answer(net, u)
    requires rest == AnalysisRun(net, u, Analyze(data), fuel)
    ensures Fetch(net, url, role, fuel + 1) == Then(Run(Label(url, role), true), rest)
  {
    var a := Analyze(data);
    var f := FollowUp(u, a);
    assert a == AnalysisOf(net, url);
    StepAnswered(net, url, role);
    FetchUnfold(net, url, role, fuel);
    ThenAssoc(Run(Label(url, role), true), Run(AnalysisLines(a) + f.lines, true), FetchAll(net, f.children, fuel));
    AppendAssoc(Label(url, role), AnalysisLines(a), f.lines);
  }

  /** The role only decides the label of a valid URL's step. */
  lemma StepRoles(net: Network, url: string, role: Role)
    requires !Attempt(net, url).Invalid?
    ensures StepOf(net, url, role) ==
              Step(Label(url, role) + StepOf(net, url, Redirected).lines, StepOf(net, url, Redirected).children)
  {
    assert Label(url, Redirected) == [];
    match Attempt(net, url)
    case NetworkError =>
      AppendNil([NetworkErrorLine]);
    case Answered(u, a) =>
      var f := FollowUp(u, a);
      assert StepOf(net, url, Redirected).lines == AnalysisLines(a) + f.lines;
      AppendAssoc(Label(url, role), AnalysisLines(a), f.lines);
      AppendNil(AnalysisLines(a) + f.lines);
  }

  /** The role only decides the label: a primary fetch prints `URL: url`
      and a referenced one `Referenced URL: url` before what a redirected
      fetch of the same URL prints. */
  lemma FetchRoles(net: Network, url: string, fuel: nat)
    requires !Attempt(net, url).Invalid?
    ensures Fetch(net, url, Primary, fuel + 1) ==
              Then(Run(["URL: " + url], true), Fetch(net, url, Redirected, fuel + 1))
    ensures Fetch(net, url, Referenced, fuel + 1) ==
              Then(Run(["Referenced URL: " + url], true), Fetch(net, url, Redirected, fuel + 1))
  {
    var s := StepOf(net, url, Redirected);
    var rest := FetchAll(net, s.children, fuel);
    FetchUnfold(net, url, Redirected, fuel);
    FetchUnfold(net, url, Primary, fuel);
    FetchUnfold(net, url, Referenced, fuel);
    StepRoles(net, url, Primary);
    StepRoles(net, url, Referenced);
    ThenAssoc(Run(["URL: " + url], true), Run(s.lines, true), rest);
    ThenAssoc(Run(["Referenced URL: " + url], true), Run(s.lines, true), rest);
  }

  /** An invalid URL, or one with an empty host, prints only its invalid
      line, whatever the role. */
  lemma FetchInvalid(net: Network, url: string, role: Role, fuel: nat)
    requires ParseUrl(url).None? || ParseUrl(url).value.host == ""
    ensures Fetch(net, url, role, fuel + 1) == Run([InvalidLine(url)], true)
  {
    FetchLeaf(net, url, role, fuel);
  }

  /** A failed exchange prints the label and `Status: Network error`, and
      starts nothing. */
  lemma FetchNetworkError(net: Network, url: string, role: Role, fuel: nat)
    requires ParseUrl(url).Some? && ParseUrl(url).value.host != ""
    requires Serve(net, ExchangeOf(ParseUrl(url).value)).Failure?
    ensures Fetch(net, url, role, fuel + 1) == Run(Label(url, role) + [NetworkErrorLine], true)
  {
    FetchLeaf(net, url, role, fuel);
  }

  /** An answered fetch whose analysis prints `last` and starts nothing. */
  lemma FetchEnds(net: Network, url: string, role: Role, fuel: nat, last: seq<string>)
    requires IsAnswered(net, url)
    requires var f := FollowUp(ParseUrl(url).value, AnalysisOf(net, url));
             AnalysisLines(AnalysisOf(net, url)) + f.lines == last && f.children == []
    ensures Fetch(net, url, role, fuel + 1) == Run(Label(url, role) + last, true)
  {
    StepAnswered(net, url, role);
    FetchLeaf(net, url, role, fuel);
  }

  /** A server that closes without sending a byte gives exactly the
      empty-response line. */
  lemma FetchEmptyResponse(net: Network, url: string, role: Role, fuel: nat)
    requires IsAnswered(net, url)
    requires Answer(net, ParseUrl(url).value) == []
    ensures Fetch(net, url, role, fuel + 1) ==
              Run(Label(url, role) + ["Status: Network Error (Empty Response)"], true)
  {
    assert AnalysisOf(net, url) == EmptyResponse;
    FetchEnds(net, url, role, fuel, ["Status: Network Error (Empty Response)"]);
  }

  /** A response whose status line does not parse gives exactly the
      invalid-format line. */
  lemma FetchInvalidFormat(net: Network, url: string, role: Role, fuel: nat)
    requires IsAnswered(net, url)
    requires AnalysisOf(net, url) == InvalidFormat
    ensures Fetch(net, url, role, fuel + 1) ==
              Run(Label(url, role) + ["Status: Network Error (Invalid Response Format)"], true)
  {
    FetchEnds(net, url, role, fuel, ["Status: Network Error (Invalid Response Format)"]);
  }

  /** A status code outside 200..399 prints its status line and nothing more. */
  lemma FetchFinalStatus(net: Network, url: string, role: Role, fuel: nat, code: int, phrase: string)
    requires IsAnswered(net, url)
    requires AnalysisOf(net, url) == Reported(code, phrase, Done)
    ensures Fetch(net, url, role, fuel + 1) == Run(Label(url, role) + [StatusReport(code, phrase)], true)
  {
    AppendNil([StatusReport(code, phrase)]);
    FetchEnds(net, url, role, fuel, [StatusReport(code, phrase)]);
  }

  /** A 3xx answer without a `Location` match prints its status line and the
      redirection-failure line, and starts nothing. */
  lemma FetchRedirectNoLocation(net: Network, url: string, role: Role, fuel: nat, code: int, phrase: string, headers: string)
    requires IsAnswered(net, url)
    requires AnalysisOf(net, url) == Reported(code, phrase, FollowRedirect(headers))
    requires FindLocation(headers).None?
    ensures Fetch(net, url, role, fuel + 1) ==
              Run(Label(url, role) + [StatusReport(code, phrase), NoLocationLine], true)
  {
    assert [StatusReport(code, phrase)] + [NoLocationLine] == [StatusReport(code, phrase), NoLocationLine];
    FetchEnds(net, url, role, fuel, [StatusReport(code, phrase), NoLocationLine]);
  }

  /** The follow-up of a 3xx answer whose headers give `Location: v`. */
  lemma FollowUpRedirect(u: Url, code: int, phrase: string, headers: string, v: string)
    requires FindLocation(headers) == Some(v)
    ensures FollowUp(u, Reported(code, phrase, FollowRedirect(headers))) ==
              Step(["Redirected URL: " + v], [FetchContext(v, Redirected)])
  {
  }

  /** The step of a 3xx answer whose headers give `Location: v`. */
  lemma StepRedirect(net: Network, url: string, role: Role, code: int, phrase: string, headers: string, v: string)
    requires IsAnswered(net, url)
    requires AnalysisOf(net, url) == Reported(code, phrase, FollowRedirect(headers))
    requires FindLocation(headers) == Some(v)
    ensures StepOf(net, url, role) ==
              Step(Label(url, role) + [StatusReport(code, phrase)] + ["Redirected URL: " + v],
                   [FetchContext(v, Redirected)])
  {
    var u := ParseUrl(url).value;
    StepAnswered(net, url, role);
    FollowUpRedirect(u, code, phrase, headers, v);
  }

  /** A 3xx answer whose headers give `Location: v` prints its status line
      and `Redirected URL: v`, then the redirected fetch of `v`, which
      prints no label. */
  lemma FetchRedirect(net: Network, url: string, role: Role, fuel: nat, code: int, phrase: string, headers: string, v: string)
    requires IsAnswered(net, url)
    requires AnalysisOf(net, url) == Reported(code, phrase, FollowRedirect(headers))
    requires FindLocation(headers) == Some(v)
    ensures Fetch(net, url, role, fuel + 1) ==
              Then(Run(Label(url, role) + [StatusReport(code, phrase)] + ["Redirected URL: " + v], true),
                   Fetch(net, v, Redirected, fuel))
  {
    StepRedirect(net, url, role, code, phrase, headers, v);
    FetchUnfold(net, url, role, fuel + 1);
    DriveAllOne(Steps(net), FetchContext(v, Redirected), fuel);
  }

  /** A 2xx answer prints its status line, then fetches, in source order
      and each as a referenced fetch, the resolved `<img>` sources of its
      body that start with `http`. */
  lemma FetchReferenced(net: Network, url: string, role: Role, fuel: nat, code: int, phrase: string, body: string)
    requires IsAnswered(net, url)
    requires AnalysisOf(net, url) == Reported(code, phrase, FetchReferences(body))
    ensures Fetch(net, url, role, fuel + 1) ==
              Then(Run(Label(url, role) + [StatusReport(code, phrase)], true),
                   FetchAll(net, AsReferenced(ReferencedUrls(ParseUrl(url).value, ImgSrcs(body))), fuel))
  {
    StepAnswered(net, url, role);
    AppendNil(Label(url, role) + [StatusReport(code, phrase)]);
    FetchUnfold(net, url, role, fuel + 1);
  }

  /** A fetch whose only child is itself never finishes, whatever the fuel. */
  lemma {:induction false} DriveSelfLoop(step: FetchContext -> Step, c: FetchContext, fuel: nat)
    requires step(c).children == [c]
    ensures !Drive(step, c, fuel).complete
    decreases fuel
  {
    if fuel > 0 {
      DriveAllOne(step, c, fuel - 1);
      DriveSelfLoop(step, c, fuel - 1);
    }
  }

  /** A fetch whose only child is a self-looping fetch never finishes. */
  lemma DriveIntoLoop(step: FetchContext -> Step, c0: FetchContext, c: FetchContext, fuel: nat)
    requires step(c0).children == [c] && step(c).children == [c]
    ensures !Drive(step, c0, fuel).complete
  {
    if fuel > 0 {
      DriveAllOne(step, c, fuel - 1);
      DriveSelfLoop(step, c, fuel - 1);
    }
  }

  /** A URL whose answer redirects to itself never finishes, whatever the
      fuel: the source has no cycle check. */
  lemma SelfRedirectNeverEnds(net: Network, url: string, role: Role, fuel: nat, code: int, phrase: string, headers: string)
    requires IsAnswered(net, url)
    requires AnalysisOf(net, url) == Reported(code, phrase, FollowRedirect(headers))
    requires FindLocation(headers) == Some(url)
    ensures !Fetch(net, url, role, fuel).complete
  {
    var c0 := FetchContext(url, role);
    var c := FetchContext(url, Redirected);
    StepRedirect(net, url, role, code, phrase, headers, url);
    StepRedirect(net, url, Redirected, code, phrase, headers, url);
    assert Steps(net)(c0).children == [c];
    assert Steps(net)(c).children == [c];
    DriveIntoLoop(Steps(net), c0, c, fuel);
  }

  // ---------------------------------------------------------------------
  // The program, step by step

  /** `fetch_url(url, is_redirected, is_referenced)` */
  method FetchUrl(net: Network, url: string, role: Role, fuel: nat) returns (run: Run)
    ensures run == Fetch(net, url, role, fuel)
    decreases fuel, 0
  {
    if fuel == 0 {
      return Run([], false);
    }
    var more: nat := fuel - 1;
    FetchFuel(net, url, role, fuel, more);
    var parsed := ParseUrl(url);
    if parsed.None? || parsed.value.host == "" {
      FetchInvalid(net, url, role, more);
      return Run([InvalidLine(url)], true);
    }
    run := FetchValid(net, url, parsed.value, role, more);
  }

  /** The rest of `fetch_url` once `url` has parsed to `u` with a host: the
      label, then the exchange and its analysis, or the network error. */
  method FetchValid(net: Network, url: string, u: Url, role: Role, fuel: nat) returns (run: Run)
    requires ParseUrl(url) == Some(u) && u.host != ""
    ensures run == Fetch(net, url, role, fuel + 1)
    decreases fuel, 4
  {
    var heading := Label(url, role);
    var data := Download(net, u);
    if data.None? {
      FetchNetworkError(net, url, role, fuel);
      return Run(heading + [NetworkErrorLine], true);
    }
    var bytes := data.value;
    var rest := AnalyzeResponse(net, u, bytes, fuel);
    FetchAnswered(net, url, role, fuel, u, bytes, rest);
    run := Then(Run(heading, true), rest);
  }

  /** The `try` block of `fetch_url`: connect, send the request, read the
      response. None when the exchange fails. */
  method Download(net: Network, u: Url) returns (data: Option<seq<byte>>)
    ensures data.None? <==> Serve(net, ExchangeOf(u)).Failure?
    ensures data.Some? ==> Serve(net, ExchangeOf(u)).Chunks? && data.value == Answer(net, u)
  {
    var sock := new Socket();
    SendRequest(sock, u.host, u.path);
    assert sock.sent == RequestBytes(u.host, u.path);
    var reply := Serve(net, Exchange(Endpoint(u.protocol, u.host, u.port), sock.sent));
    if reply.Failure? {
      return None;
    }
    sock.Deliver(reply.chunks);
    assert sock.incoming == reply.chunks;
    var response := ReceiveResponse(sock);
    return Some(response);
  }

  /** `analyze_response(url, response_data)`; `u` is the parse of `url`. */
  method AnalyzeResponse(net: Network, u: Url, data: seq<byte>, fuel: nat) returns (run: Run)
    ensures run == AnalysisRun(net, u, Analyze(data), fuel)
    decreases fuel, 3
  {
    if data == [] {
      run := Run(["Status: Network Error (Empty Response)"], true);
      AppendNil(run.lines);
      return;
    }
    var text := Latin1Decode(data);
    var (headers, body) := SplitResponse(text);
    var status := ParseStatusLine(StatusLine(headers));
    if status.None? {
      run := Run(["Status: Network Error (Invalid Response Format)"], true);
      assert Analyze(data) == InvalidFormat;
      AppendNil(run.lines);
      return;
    }
    var (code, phrase) := status.value;
    AnalyzeReported(data, code, phrase);
    run := Run(["Status: " + IntToString(code) + " " + phrase], true);
    assert run.lines == AnalysisLines(Analyze(data));
    if 300 <= code < 400 {
      var r := FollowRedirection(net, headers, fuel);
      ThenAssoc(run, Run(RedirectStep(headers).lines, true), FetchAll(net, RedirectStep(headers).children, fuel));
      run := Then(run, r);
      return;
    }
    if 200 <= code < 300 {
      var r := FetchReferencedObjects(net, u, body, fuel);
      AppendNil(run.lines);
      run := Then(run, r);
      return;
    }
    AppendNil(run.lines);
  }

  /** `follow_redirection(original_url, headers_text)` */
  method FollowRedirection(net: Network, headers: string, fuel: nat) returns (run: Run)
    ensures run == Then(Run(RedirectStep(headers).lines, true), FetchAll(net, RedirectStep(headers).children, fuel))
    decreases fuel, 2
  {
    var location := FindLocation(headers);
    if location.Some? {
      var v := location.value;
      run := Run(["Redirected URL: " + v], true);
      var r := FetchUrl(net, v, Redirected, fuel);
      DriveAllOne(Steps(net), FetchContext(v, Redirected), fuel);
      run := Then(run, r);
    } else {
      run := Run([NoLocationLine], true);
    }
  }

  /** What one source adds: the referenced fetch of its resolution when
      that starts with `http`, nothing otherwise. */
  function SourceRun(net: Network, u: Url, src: string, fuel: nat): Run {
    var r := Resolve(u, src);
    if StartsWith(r, "http") then Fetch(net, r, Referenced, fuel) else Run([], true)
  }

  /** One turn of the loop of `fetch_referenced_objects`: the fetches of
      the sources seen so far, then that of `src`. */
  lemma ReferencedTurn(net: Network, u: Url, done: seq<string>, src: string, fuel: nat)
    ensures FetchAll(net, AsReferenced(ReferencedUrls(u, done + [src])), fuel) ==
              Then(FetchAll(net, AsReferenced(ReferencedUrls(u, done)), fuel), SourceRun(net, u, src, fuel))
  {
    var r := Resolve(u, src);
    var urls := ReferencedUrls(u, done);
    ReferencedUrlsAppend(u, done, [src]);
    ReferencedUrlsOne(u, src);
    if StartsWith(r, "http") {
      assert AsReferenced(urls + [r]) == AsReferenced(urls) + [FetchContext(r, Referenced)];
      DriveAllAppend(Steps(net), AsReferenced(urls), [FetchContext(r, Referenced)], fuel);
      DriveAllOne(Steps(net), FetchContext(r, Referenced), fuel);
    } else {
      AppendNil(urls);
      ThenUnit(FetchAll(net, AsReferenced(urls), fuel));
    }
  }

  /** The body of the loop of `fetch_referenced_objects` for one source. */
  method FetchSource(net: Network, u: Url, src: string, fuel: nat) returns (run: Run)
    ensures run == SourceRun(net, u, src, fuel)
    decreases fuel, 1
  {
    var imageUrl := src;
    if StartsWith(src, "//") {
      imageUrl := SchemeName(u.protocol) + ":" + src;
    } else if StartsWith(src, "/") {
      imageUrl := SchemeName(u.protocol) + "://" + u.host + src;
    }
    assert imageUrl == Resolve(u, src);
    if StartsWith(imageUrl, "http") {
      run := FetchUrl(net, imageUrl, Referenced, fuel);
    } else {
      run := Run([], true);
    }
  }

  lemma PrefixExtend<T>(s: seq<T>, i: nat, next: nat)
    requires i < |s| && next == i + 1
    ensures s[..next] == s[..i] + [s[i]]
  {
  }

  /** `fetch_referenced_objects(original_url, response_body)`; `u` is the
      parse of `original_url`. */
  method FetchReferencedObjects(net: Network, u: Url, body: string, fuel: nat) returns (run: Run)
    ensures run == FetchAll(net, ReferenceStep(u, body).children, fuel)
    decreases fuel, 2
  {
    var srcs := ImgSrcs(body);
    run := Run([], true);
    ghost var seen: seq<string> := [];
    var i := 0;
    while i < |srcs|
      invariant 0 <= i <= |srcs| && seen == srcs[..i]
      invariant run == FetchAll(net, AsReferenced(ReferencedUrls(u, seen)), fuel)
    {
      var src := srcs[i];
      var r := FetchSource(net, u, src, fuel);
      ReferencedTurn(net, u, seen, src, fuel);
      run := Then(run, r);
      var next := i + 1;
      PrefixExtend(srcs, i, next);
      seen := seen + [src];
      i := next;
    }
    assert seen == srcs;
  }
}
