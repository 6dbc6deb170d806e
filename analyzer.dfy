/** The parsing half of `analyze_response` in monitor.py: the empty-response
    check, the header/body split, the status line and the status-class
    dispatch. What the redirect and reference follow-ups then do is in the
    modules Redirect, References and Monitor. */
module Analyzer {
  import opened PyText

  /** The header/body split: `text.split('\r\n\r\n', 1)`, the body empty
      when there is no blank line. */
  function SplitResponse(text: string): (hb: (string, string))
    ensures forall k :: 0 <= k ==> !OccursAt(hb.0, "\r\n\r\n", k)
    ensures (exists k :: 0 <= k && OccursAt(text, "\r\n\r\n", k)) ==> hb.0 + "\r\n\r\n" + hb.1 == text
    ensures forall k :: 0 <= k < |hb.0| ==> !OccursAt(text, "\r\n\r\n", k)
    ensures (forall k :: 0 <= k ==> !OccursAt(text, "\r\n\r\n", k)) ==> hb.0 == text && hb.1 == ""
  {
    var h := SplitOnce(text, "\r\n\r\n");
    if h.rest.None? then (h.first, "")
    else
      assert OccursAt(text, "\r\n\r\n", |h.first|) by {
        assert text[|h.first|..|h.first| + 4] == "\r\n\r\n";
      }
      (h.first, h.rest.value)
  }

  /** `headers_text.split('\r\n')[0]`: the headers up to their first CRLF. */
  function StatusLine(headers: string): (line: string)
    ensures |line| <= |headers| && line == headers[..|line|]
    ensures forall k :: 0 <= k ==> !OccursAt(line, "\r\n", k)
    ensures |line| < |headers| ==> OccursAt(headers, "\r\n", |line|)
    ensures forall k :: 0 <= k < |line| ==> !OccursAt(headers, "\r\n", k)
  {
    var h := SplitOnce(headers, "\r\n");
    assert h.first == headers[..|h.first|];
    h.first
  }

  /** The `try` block of `analyze_response`: `parts = line.split()`, then
      `int(parts[1])` and `' '.join(parts[2:])`. None where Python raises
      (IndexError or ValueError). */
  function ParseStatusLine(line: string): (r: Option<(int, string)>)
    ensures r.None? <==> |Words(line)| < 2 || ParseInt(Words(line)[1]).None?
    ensures r.Some? ==> Some(r.value.0) == ParseInt(Words(line)[1])
    ensures r.Some? ==> r.value.1 == JoinSpace(Words(line)[2..])
  {
    var parts := Words(line);
    if |parts| < 2 then None
    else
      match ParseInt(parts[1])
      case None => None
      case Some(code) => Some((code, JoinSpace(parts[2..])))
  }

  /** A line whose tokens are a version, a rendered code and the phrase words
      parses to that code and the phrase. */
  lemma ParseStatusLineOfWords(line: string, version: string, code: int, phrase: seq<string>)
    requires Words(line) == [version, IntToString(code)] + phrase
    ensures ParseStatusLine(line) == Some((code, JoinSpace(phrase)))
  {
    var ws := [version, IntToString(code)] + phrase;
    ParseIntOfIntToString(code);
    assert ws[1] == IntToString(code);
    assert ws[2..] == phrase;
  }

  /** A well-formed status line `<version> <code> <phrase words>` parses back
      to its code and its phrase. */
  lemma ParseStatusLineOfFormat(version: string, code: int, phrase: seq<string>)
    requires IsWord(version)
    requires forall i :: 0 <= i < |phrase| ==> IsWord(phrase[i])
    ensures ParseStatusLine(JoinSpace([version, IntToString(code)] + phrase))
         == Some((code, JoinSpace(phrase)))
  {
    var ws := [version, IntToString(code)] + phrase;
    IntToStringIsWord(code);
    WordsOfJoinLine(version, IntToString(code), phrase);
    ParseStatusLineOfWords(JoinSpace(ws), version, code, phrase);
  }

  /** However the status line is spaced (tabs, runs of blanks, leading or
      trailing whitespace), its code is that of the second token and its
      phrase the remaining tokens joined by single spaces. */
  lemma ParseStatusLineOfSpaced(version: string, code: int, phrase: seq<string>, gaps: seq<string>)
    requires Gapped([version, IntToString(code)] + phrase, gaps)
    ensures ParseStatusLine(Spaced([version, IntToString(code)] + phrase, gaps))
         == Some((code, JoinSpace(phrase)))
  {
    var ws := [version, IntToString(code)] + phrase;
    WordsOfSpaced(ws, gaps);
    ParseStatusLineOfWords(Spaced(ws, gaps), version, code, phrase);
  }

  /** A line with fewer than two whitespace-separated tokens has no status code. */
  lemma ParseStatusLineOfOneWord(line: string)
    requires IsWord(line)
    ensures ParseStatusLine(line) == None
  {
    WordsOfJoin([line]);
  }

  /** What `analyze_response` does after printing the status line. */
  datatype Action =
    | FollowRedirect(headers: string)   // `follow_redirection(url, headers_text)`
    | FetchReferences(body: string)     // `fetch_referenced_objects(url, body_text)`
    | Done                              // nothing more

  /** The status-class dispatch, first match wins. */
  function Dispatch(code: int, headers: string, body: string): (a: Action)
    ensures a.FollowRedirect? <==> 300 <= code < 400
    ensures a.FetchReferences? <==> 200 <= code < 300
    ensures a.Done? <==> code < 200 || 400 <= code
    ensures a.FollowRedirect? ==> a.headers == headers
    ensures a.FetchReferences? ==> a.body == body
  {
    if 300 <= code < 400 then FollowRedirect(headers)
    else if 200 <= code < 300 then FetchReferences(body)
    else Done
  }

  /** The outcome of `analyze_response`. */
  datatype Analysis =
    | EmptyResponse
    | InvalidFormat
    | Reported(code: int, phrase: string, action: Action)

  /** `analyze_response(url, response_data)` up to its follow-up action. */
  function Analyze(data: seq<byte>): (a: Analysis)
    ensures a.EmptyResponse? <==> data == []
    ensures a.Reported? ==> (a.action.FollowRedirect? <==> 300 <= a.code < 400)
    ensures a.Reported? ==> (a.action.FetchReferences? <==> 200 <= a.code < 300)
  {
    if data == [] then EmptyResponse
    else
      var (headers, body) := SplitResponse(Latin1Decode(data));
      match ParseStatusLine(StatusLine(headers))
      case None => InvalidFormat
      case Some((code, phrase)) => Reported(code, phrase, Dispatch(code, headers, body))
  }

  /** The three outcomes: empty exactly for no bytes; invalid exactly when
      the status line of the decoded headers does not parse; otherwise that
      line's code and phrase, dispatched on the code. */
  lemma AnalyzeCases(data: seq<byte>)
    ensures Analyze(data).EmptyResponse? <==> data == []
    ensures Analyze(data).InvalidFormat? <==>
              data != [] && ParseStatusLine(StatusLine(SplitResponse(Latin1Decode(data)).0)).None?
    ensures Analyze(data).Reported? ==>
              var (headers, body) := SplitResponse(Latin1Decode(data));
              ParseStatusLine(StatusLine(headers)) == Some((Analyze(data).code, Analyze(data).phrase)) &&
              Analyze(data).action == Dispatch(Analyze(data).code, headers, body)
  {
  }

  /** A non-empty response whose status line parses is reported with that
      code and phrase, and dispatched on that code. */
  lemma AnalyzeReported(data: seq<byte>, code: int, phrase: string)
    requires data != []
    requires ParseStatusLine(StatusLine(SplitResponse(Latin1Decode(data)).0)) == Some((code, phrase))
    ensures var (headers, body) := SplitResponse(Latin1Decode(data));
            Analyze(data) == Reported(code, phrase, Dispatch(code, headers, body))
  {
  }

  /** A response made of a status line `<version> <code> <phrase words>`,
      further header lines, a blank line and a body is reported with that
      code and phrase, and dispatched on the code with those headers and
      that body. The blank line must be the first of the response. */
  lemma AnalyzeOfResponse(data: seq<byte>, version: string, code: int, phrase: seq<string>, fields: string, body: string)
    requires IsWord(version) && forall i :: 0 <= i < |phrase| ==> IsWord(phrase[i])
    requires fields == [] || StartsWith(fields, "\r\n")
    requires var headers := JoinSpace([version, IntToString(code)] + phrase) + fields;
             Latin1Decode(data) == headers + "\r\n\r\n" + body &&
             forall k :: 0 <= k < |headers| ==> !OccursAt(Latin1Decode(data), "\r\n\r\n", k)
    ensures var headers := JoinSpace([version, IntToString(code)] + phrase) + fields;
            Analyze(data) == Reported(code, JoinSpace(phrase), Dispatch(code, headers, body))
  {
    var line := JoinSpace([version, IntToString(code)] + phrase);
    var headers := line + fields;
    var text := Latin1Decode(data);
    SplitAtFirst(text, headers, body);
    var ws := [version, IntToString(code)] + phrase;
    IntToStringIsWord(code);
    assert forall i :: 0 <= i < |ws| ==> IsWord(ws[i]) by {
      forall i | 0 <= i < |ws| ensures IsWord(ws[i]) {
        if i >= 2 {
          assert ws[i] == phrase[i - 2];
        }
      }
    }
    JoinSpaceChars(ws);
    StatusLineOfFirst(line, fields);
    ParseStatusLineOfFormat(version, code, phrase);
    assert data != [] by {
      assert |text| >= 4;
    }
    AnalyzeReported(data, code, JoinSpace(phrase));
  }

  /** The header/body split cuts at the first blank line. */
  lemma SplitAtFirst(text: string, headers: string, body: string)
    requires text == headers + "\r\n\r\n" + body
    requires forall k :: 0 <= k < |headers| ==> !OccursAt(text, "\r\n\r\n", k)
    ensures SplitResponse(text) == (headers, body)
  {
    var sep := "\r\n\r\n";
    var n := |headers|;
    assert text[n..n + 4] == sep;
    assert OccursAt(text, sep, n);
    var hb := SplitResponse(text);
    assert hb.0 + sep + hb.1 == text;
    assert OccursAt(text, sep, |hb.0|) by {
      assert text[|hb.0|..|hb.0| + 4] == sep;
    }
    assert |hb.0| == n;
    assert hb.0 == text[..n] == headers;
    assert hb.1 == text[n + 4..] == body;
  }

  /** The status line is a line without CR, up to the CRLF that starts the
      other header lines, if any. */
  lemma StatusLineOfFirst(line: string, fields: string)
    requires forall k :: 0 <= k < |line| ==> line[k] != '\r'
    requires fields == [] || StartsWith(fields, "\r\n")
    ensures StatusLine(line + fields) == line
  {
    var headers := line + fields;
    var l := StatusLine(headers);
    forall j | 0 <= j < |line| ensures !OccursAt(headers, "\r\n", j) {
      if j + 2 <= |headers| {
        assert headers[j..j + 2][0] == headers[j] == line[j];
      }
    }
    if |l| > |line| {
      assert fields[..2] == "\r\n";
      assert headers[|line|..|line| + 2] == fields[..2];
      assert OccursAt(headers, "\r\n", |line|);
    }
    assert l == headers[..|l|];
    assert headers[..|line|] == line;
  }

  /** The lines `analyze_response` prints itself. */
  function AnalysisLines(a: Analysis): (lines: seq<string>)
    ensures |lines| == 1
  {
    match a
    case EmptyResponse => ["Status: Network Error (Empty Response)"]
    case InvalidFormat => ["Status: Network Error (Invalid Response Format)"]
    case Reported(code, phrase, _) => [StatusReport(code, phrase)]
  }

  /** The line a parsed status line is reported with. */
  function StatusReport(code: int, phrase: string): string {
    "Status: " + IntToString(code) + " " + phrase
  }

  /** The printed status line reads back: its tokens are `Status:`, the
      code as `str()` writes it, then the phrase's tokens, so the second
      token parses to the code. */
  lemma StatusReportWords(code: int, phrase: string)
    ensures Words(StatusReport(code, phrase)) == ["Status:", IntToString(code)] + Words(phrase)
    ensures ParseInt(Words(StatusReport(code, phrase))[1]) == Some(code)
  {
    IntToStringIsWord(code);
    StatusLineWords(IntToString(code), phrase);
    ParseIntOfIntToString(code);
  }

  lemma StatusLineWords(c: string, phrase: string)
    requires IsWord(c)
    ensures Words("Status: " + c + " " + phrase) == ["Status:", c] + Words(phrase)
  {
    WordsSpaceAfter(c, phrase);
    StatusLineSplit(c, phrase);
    StatusIsWord();
    WordsSpaceAfter("Status:", c + " " + phrase);
  }

  lemma StatusLineSplit(c: string, phrase: string)
    ensures "Status: " + c + " " + phrase == "Status:" + " " + (c + " " + phrase)
  {
  }

  lemma StatusIsWord()
    ensures IsWord("Status:")
  {
  }
}
