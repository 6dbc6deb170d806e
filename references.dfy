/** `fetch_referenced_objects` of monitor.py, without the fetches: the
    `<img>` source extraction of monitor.py:100 and the resolution of each
    source against the page URL. */
module References {
  import opened PyText
  import opened UrlParser

  // ---------------------------------------------------------------------
  // The pattern, matched without regard to case: `<img`, whitespace, any
  // run of characters other than `>`, `src`, optional whitespace, `=`,
  // optional whitespace, an optional quote, the captured source (one or
  // more characters that are neither quotes, whitespace nor `>`), and one
  // closing character that is a quote, whitespace or `>`.
  //
  // Backtracking in that pattern is decided as follows. `\s+` after `<img`
  // takes the longest run of whitespace; giving some back only offers
  // whitespace positions to `src`, which never match. `[^>]*` is greedy, so
  // the engine tries the positions of `src` from the first `>` backwards and
  // the LAST position where the rest matches wins. After `src` every step
  // has a single way to succeed: `\s*` must take all whitespace, `["\']?`
  // must take a quote if one is there (the group can not start with one),
  // the group is the longest run of value characters, and whatever character
  // ends that run is in the closing class, so the match needs only that one
  // more character exists.

  /** The class `[^"\'\s>]` of the captured source. */
  predicate IsValueChar(c: char) {
    c != '"' && c != '\'' && !IsSpace(c) && c != '>'
  }

  predicate IsValue(v: string) {
    |v| > 0 && forall k :: 0 <= k < |v| ==> IsValueChar(v[k])
  }

  /** The end of the whitespace run starting at `i`. */
  function SpaceRun(s: string, i: nat): (j: nat)
    requires i <= |s|
    ensures i <= j <= |s|
    ensures forall k :: i <= k < j ==> IsSpace(s[k])
    ensures j < |s| ==> !IsSpace(s[j])
    decreases |s| - i
  {
    if i < |s| && IsSpace(s[i]) then SpaceRun(s, i + 1) else i
  }

  /** The end of the run of value characters starting at `i`. */
  function ValueRun(s: string, i: nat): (j: nat)
    requires i <= |s|
    ensures i <= j <= |s|
    ensures forall k :: i <= k < j ==> IsValueChar(s[k])
    ensures j < |s| ==> !IsValueChar(s[j])
    decreases |s| - i
  {
    if i < |s| && IsValueChar(s[i]) then ValueRun(s, i + 1) else i
  }

  /** The first `>` at or after `i`, or the end of `s`. */
  function FirstGt(s: string, i: nat): (j: nat)
    requires i <= |s|
    ensures i <= j <= |s|
    ensures forall k :: i <= k < j ==> s[k] != '>'
    ensures j < |s| ==> s[j] == '>'
    decreases |s| - i
  {
    if i < |s| && s[i] != '>' then FirstGt(s, i + 1) else i
  }

  /** The part of the pattern from `src` on, matched at `p`: the group and
      the index after the match. */
  function SrcAt(s: string, p: nat): (r: Option<(string, nat)>)
    ensures r.Some? ==> p < r.value.1 <= |s| && IsValue(r.value.0)
  {
    if !CIOccursAt(s, "src", p) then None
    else
      var a := SpaceRun(s, p + 3);
      if a == |s| || s[a] != '=' then None
      else
        var b := SpaceRun(s, a + 1);
        var c := if b < |s| && (s[b] == '"' || s[b] == '\'') then b + 1 else b;
        var d := ValueRun(s, c);
        if d == c || d == |s| then None else Some((s[c..d], d + 1))
  }

  /** The last position `p` from `k` down to `e` where `SrcAt` matches. */
  function LastSrc(s: string, e: nat, k: nat): (r: Option<(string, nat)>)
    ensures r.Some? ==> e < r.value.1 <= |s| && IsValue(r.value.0)
    decreases k
  {
    if k < e then None
    else match SrcAt(s, k)
      case Some(m) => Some(m)
      case None => if k == 0 then None else LastSrc(s, e, k - 1)
  }

  /** The whole pattern matched at `i`: the group and the index after the match. */
  function ImgAt(s: string, i: nat): (r: Option<(string, nat)>)
    ensures r.Some? ==> i < r.value.1 <= |s| && IsValue(r.value.0)
  {
    if !CIOccursAt(s, "<img", i) || |s| <= i + 4 || !IsSpace(s[i + 4]) then None
    else
      var e := SpaceRun(s, i + 4);
      LastSrc(s, e, FirstGt(s, e))
  }

  /** `findall` from position `i`: try each start in turn, and after a match
      go on where it ended. */
  function ImgSrcsFrom(s: string, i: nat): (srcs: seq<string>)
    requires i <= |s|
    ensures forall k :: 0 <= k < |srcs| ==> IsValue(srcs[k])
    decreases |s| - i
  {
    if i == |s| then []
    else match ImgAt(s, i)
      case Some((v, end)) => [v] + ImgSrcsFrom(s, end)
      case None => ImgSrcsFrom(s, i + 1)
  }

  /** The `image_srcs` of monitor.py:100: every captured source is non-empty
      and holds no quote, whitespace or `>`. */
  function ImgSrcs(body: string): (srcs: seq<string>)
    ensures forall k :: 0 <= k < |srcs| ==> IsValue(srcs[k])
  {
    ImgSrcsFrom(body, 0)
  }

  /** No match starts at a position that is not `<`. */
  lemma NoImgAt(s: string, i: nat)
    requires i < |s| && s[i] != '<'
    ensures ImgAt(s, i) == None
  {
    if i + 4 <= |s| {
      assert s[i..i + 4][0] == s[i];
    }
  }

  /** Nothing is found in text without `<`. */
  lemma {:induction false} ImgSrcsFromNoTag(s: string, i: nat)
    requires i <= |s|
    requires forall k :: i <= k < |s| ==> s[k] != '<'
    ensures ImgSrcsFrom(s, i) == []
    decreases |s| - i
  {
    if i < |s| {
      NoImgAt(s, i);
      ImgSrcsFromNoTag(s, i + 1);
    }
  }

  /** No `src` starts at a position where none of `s`, `r`, `c` can be read. */
  lemma NoSrcAt(s: string, p: nat)
    requires p < |s| && Lower(s[p]) != 's'
    ensures SrcAt(s, p) == None
  {
    if p + 3 <= |s| {
      assert s[p..p + 3][0] == s[p];
    }
  }

  /** The text `src="v"` followed by `"` at `p`: the group is `v` and the
      match ends after the closing quote. */
  lemma SrcAtQuoted(s: string, p: nat, v: string)
    requires p + 6 + |v| <= |s|
    requires s[p..p + 5] == "src=\""
    requires s[p + 5..p + 5 + |v|] == v
    requires s[p + 5 + |v|] == '"'
    requires IsValue(v)
    ensures SrcAt(s, p) == Some((v, p + 6 + |v|))
  {
    var c := p + 5;
    var d := c + |v|;
    forall k | p <= k < p + 5 ensures s[k] == "src=\""[k - p] {
      assert s[k] == s[p..p + 5][k - p];
    }
    assert s[p..p + 3] == "src";
    assert CIOccursAt(s, "src", p);
    assert SpaceRun(s, p + 3) == p + 3;
    assert SpaceRun(s, p + 4) == p + 4;
    forall k | c <= k < d ensures s[k] == v[k - c] {
      assert s[k] == s[c..d][k - c];
    }
    ValueRunOver(s, c, d);
  }

  /** No `src=`, in any case, occurs in `v`. */
  ghost predicate NoSrcKey(v: string) {
    forall j: nat :: !CIOccursAt(v, "src=", j)
  }

  /** A `src` that overlaps the closing quote is no `src`. */
  lemma NoKeyOverQuote(s: string, k: nat, d: nat)
    requires k <= d < k + 3 && d < |s| && s[d] == '"'
    ensures !CIOccursAt(s, "src", k)
  {
    if k + 3 <= |s| {
      assert s[k..k + 3][d - k] == s[d];
    }
  }

  /** No match of `src=...` starts inside a quoted value free of `src=`. */
  lemma NoSrcInValue(s: string, c: nat, v: string, k: nat)
    requires c + |v| < |s| && s[c..c + |v|] == v && s[c + |v|] == '"'
    requires IsValue(v)
    requires NoSrcKey(v)
    requires c <= k < c + |v|
    ensures SrcAt(s, k) == None
  {
    var d := c + |v|;
    if k + 3 > d {
      NoKeyOverQuote(s, k, d);
    } else if k + 3 == d {
      assert SpaceRun(s, k + 3) == k + 3;
    } else {
      assert s[k + 3] == s[c..d][k + 3 - c];
      assert SpaceRun(s, k + 3) == k + 3;
      var w := s[k..k + 4];
      forall jj | 0 <= jj < 4 ensures w[jj] == v[k - c + jj] {
        assert s[k + jj] == s[c..d][k - c + jj];
      }
      assert w == v[k - c..k - c + 4];
      assert w[..3] == s[k..k + 3];
      assert w[3] == s[k + 3];
      assert !CIOccursAt(v, "src=", k - c);
    }
  }

  /** Inside `src="v">`, past its first character, no `src` match starts
      and no `>` comes before the last character. */
  lemma TagRest(s: string, p: nat, v: string)
    requires p + 7 + |v| <= |s|
    requires s[p..p + 5] == "src=\""
    requires s[p + 5..p + 5 + |v|] == v
    requires s[p + 5 + |v|] == '"' && s[p + 6 + |v|] == '>'
    requires IsValue(v)
    requires NoSrcKey(v)
    ensures forall k :: p < k <= p + 6 + |v| ==> SrcAt(s, k) == None
    ensures forall k :: p <= k < p + 6 + |v| ==> s[k] != '>'
  {
    var c := p + 5;
    var d := c + |v|;
    forall k | p <= k < d + 1 ensures s[k] != '>' {
      if k < c {
        assert s[k] == s[p..p + 5][k - p];
      } else if k < d {
        assert s[k] == s[c..d][k - c];
      }
    }
    forall k | p < k <= d + 1 ensures SrcAt(s, k) == None {
      if k < c {
        assert s[k] == s[p..p + 5][k - p];
        NoSrcAt(s, k);
      } else if k < d {
        NoSrcInValue(s, c, v, k);
      } else {
        NoSrcAt(s, k);
      }
    }
  }

  /** The pattern matched at a tag `<img src="v">` that starts at `i`. */
  lemma ImgAtTag(s: string, i: nat, v: string)
    requires i + 12 + |v| <= |s|
    requires s[i..i + 10] == "<img src=\""
    requires s[i + 10..i + 10 + |v|] == v
    requires s[i + 10 + |v|] == '"' && s[i + 11 + |v|] == '>'
    requires IsValue(v)
    requires NoSrcKey(v)
    ensures ImgAt(s, i) == Some((v, i + 11 + |v|))
  {
    var p := i + 5;
    assert s[i..i + 4] == s[i..i + 10][..4];
    assert CIOccursAt(s, "<img", i);
    assert s[i + 4] == s[i..i + 10][4];
    assert s[p] == s[i..i + 10][5];
    assert SpaceRun(s, i + 4) == p;
    assert s[p..p + 5] == s[i..i + 10][5..];
    SrcAtQuoted(s, p, v);
    TagRest(s, p, v);
    FirstGtSkips(s, p, p + 6 + |v|);
    LastSrcSkips(s, p, p + 6 + |v|);
  }

  /** The tag `<img src="v">` yields exactly `v`, for every value in which
      no `src=` occurs, in any case (an inner `src=` would win the greedy
      run before it). */
  lemma ImgSrcsOfTag(pre: string, v: string, post: string)
    requires forall k :: 0 <= k < |pre| ==> pre[k] != '<'
    requires forall k :: 0 <= k < |post| ==> post[k] != '<'
    requires IsValue(v)
    requires NoSrcKey(v)
    ensures ImgSrcs(pre + "<img src=\"" + v + "\">" + post) == [v]
  {
    var tag := "<img src=\"";
    var s := pre + tag + v + "\">" + post;
    var i := |pre|;
    var d := i + 10 + |v|;
    assert s[i..i + 10] == tag;
    assert s[i + 10..d] == v;
    assert s[d] == '"' && s[d + 1] == '>';
    forall k | 0 <= k < i ensures s[k] != '<' {
      assert s[k] == pre[k];
    }
    forall k | d + 1 <= k < |s| ensures s[k] != '<' {
      if k > d + 1 {
        assert s[k] == post[k - d - 2];
      }
    }
    ImgSrcsOfOnlyTag(s, i, v);
  }

  /** A text whose only `<` starts the tag `<img src="v">` yields exactly `v`. */
  lemma ImgSrcsOfOnlyTag(s: string, i: nat, v: string)
    requires i + 12 + |v| <= |s|
    requires s[i..i + 10] == "<img src=\""
    requires s[i + 10..i + 10 + |v|] == v
    requires s[i + 10 + |v|] == '"' && s[i + 11 + |v|] == '>'
    requires IsValue(v)
    requires NoSrcKey(v)
    requires forall k :: 0 <= k < i ==> s[k] != '<'
    requires forall k :: i + 11 + |v| <= k < |s| ==> s[k] != '<'
    ensures ImgSrcsFrom(s, 0) == [v]
  {
    ImgSrcsBefore(s, 0, i);
    ImgSrcsFromTag(s, i, v);
  }

  /** From the tag `<img src="v">` on, with no `<` after it, the search yields `v`. */
  lemma ImgSrcsFromTag(s: string, i: nat, v: string)
    requires i + 12 + |v| <= |s|
    requires s[i..i + 10] == "<img src=\""
    requires s[i + 10..i + 10 + |v|] == v
    requires s[i + 10 + |v|] == '"' && s[i + 11 + |v|] == '>'
    requires IsValue(v)
    requires NoSrcKey(v)
    requires forall k :: i + 11 + |v| <= k < |s| ==> s[k] != '<'
    ensures ImgSrcsFrom(s, i) == [v]
  {
    var end := i + 11 + |v|;
    ImgSrcsFromNoTag(s, end);
    ImgAtTag(s, i, v);
    ImgSrcsFromMatch(s, i, v, end);
    assert [v] + [] == [v];
  }

  /** After a match at `i`, the search goes on where the match ended. */
  lemma ImgSrcsFromMatch(s: string, i: nat, v: string, end: nat)
    requires i < |s| && ImgAt(s, i) == Some((v, end))
    ensures ImgSrcsFrom(s, i) == [v] + ImgSrcsFrom(s, end)
  {
  }

  lemma {:induction false} ImgSrcsBefore(s: string, k: nat, i: nat)
    requires k <= i <= |s|
    requires forall j :: k <= j < i ==> s[j] != '<'
    ensures ImgSrcsFrom(s, k) == ImgSrcsFrom(s, i)
    decreases i - k
  {
    if k < i {
      NoImgAt(s, k);
      ImgSrcsBefore(s, k + 1, i);
    }
  }

  lemma {:induction false} FirstGtSkips(s: string, i: nat, j: nat)
    requires i <= j < |s| && s[j] == '>'
    requires forall k :: i <= k < j ==> s[k] != '>'
    ensures FirstGt(s, i) == j
    decreases j - i
  {
    if i < j {
      FirstGtSkips(s, i + 1, j);
    }
  }

  lemma {:induction false} ValueRunOver(s: string, i: nat, j: nat)
    requires i <= j < |s| && !IsValueChar(s[j])
    requires forall k :: i <= k < j ==> IsValueChar(s[k])
    ensures ValueRun(s, i) == j
    decreases j - i
  {
    if i < j {
      ValueRunOver(s, i + 1, j);
    }
  }

  /** The greedy run before `src` makes the last `src=` before the `>`
      win: in `<img src="a?src=b">` the source found is `b`. */
  lemma InnerSrcWins()
    ensures ImgSrcs(InnerSrcTag) == ["b"]
  {
    var s := InnerSrcTag;
    InnerSrcTagAt();
    ImgSrcsFromMatch(s, 0, "b", 18);
    NoImgAt(s, 18);
    assert ImgSrcsFrom(s, 18) == [];
  }

  const InnerSrcTag: string := "<img src=\"a?src=b\">"

  lemma InnerSrcTagAt()
    ensures ImgAt(InnerSrcTag, 0) == Some(("b", 18))
  {
    var s := InnerSrcTag;
    assert s[0..4] == "<img" && IsSpace(s[4]);
    assert CIOccursAt(s, "<img", 0);
    assert SpaceRun(s, 4) == 5;
    FirstGtSkips(s, 5, 18);
    InnerSrcLast();
  }

  lemma InnerSrcLast()
    ensures LastSrc(InnerSrcTag, 5, 18) == Some(("b", 18))
  {
    var s := InnerSrcTag;
    InnerSrcAt();
    forall j | 12 < j <= 18 ensures SrcAt(s, j) == None {
      NoSrcAt(s, j);
    }
    LastSrcDown(s, 5, 12, 18);
  }

  lemma InnerSrcAt()
    ensures SrcAt(InnerSrcTag, 12) == Some(("b", 18))
  {
    var s := InnerSrcTag;
    assert s[12..15] == "src";
    assert CIOccursAt(s, "src", 12);
    assert SpaceRun(s, 15) == 15 && s[15] == '=';
    assert SpaceRun(s, 16) == 16 && s[16] == 'b';
    assert ValueRun(s, 17) == 17;
    assert ValueRun(s, 16) == 17;
    assert s[16..17] == "b";
  }

  lemma LastSrcSkips(s: string, e: nat, k: nat)
    requires e <= k
    requires forall j :: e < j <= k ==> SrcAt(s, j) == None
    ensures LastSrc(s, e, k) == LastSrc(s, e, e)
  {
    LastSrcDown(s, e, e, k);
  }

  /** The scan from `k` down to `e` passes over positions without a match
      to `m`. */
  lemma {:induction false} LastSrcDown(s: string, e: nat, m: nat, k: nat)
    requires e <= m <= k
    requires forall j :: m < j <= k ==> SrcAt(s, j) == None
    ensures LastSrc(s, e, k) == LastSrc(s, e, m)
    decreases k - m
  {
    if m < k {
      assert SrcAt(s, k) == None;
      LastSrcDown(s, e, m, k - 1);
    }
  }

  // ---------------------------------------------------------------------
  // The loop of monitor.py:105-114, without its fetches

  /** The URL a source resolves to against the page's protocol and host. */
  function Resolve(u: Url, src: string): string {
    if StartsWith(src, "//") then SchemeName(u.protocol) + ":" + src
    else if StartsWith(src, "/") then SchemeName(u.protocol) + "://" + u.host + src
    else src
  }

  /** A root-relative source names the page's own server, with the source as path. */
  lemma ResolveRootRelative(u: Url, src: string)
    requires '/' !in u.host && u.port == DefaultPort(u.protocol)
    requires StartsWith(src, "/") && !StartsWith(src, "//")
    ensures ParseUrl(Resolve(u, src)) == Some(Url(u.host, u.protocol, u.port, src))
  {
    assert src[0] == '/' by { assert src[..1] == "/"; }
    ParseOfFormat(Url(u.host, u.protocol, u.port, src));
  }

  /** A protocol-relative source `//rest` keeps the page's protocol and is
      parsed as `rest` would be after that protocol's prefix. */
  lemma ResolveProtocolRelative(u: Url, rest: string)
    ensures Resolve(u, "//" + rest) == SchemeName(u.protocol) + "://" + rest
    ensures ParseUrl(Resolve(u, "//" + rest)) == Some(SplitHostPath(rest, u.protocol))
  {
    var src := "//" + rest;
    assert StartsWith(src, "//") by {
      assert src[..2] == "//";
    }
    var url := SchemeName(u.protocol) + "://" + rest;
    assert Resolve(u, src) == url by {
      assert SchemeName(u.protocol) + ":" + src == url;
    }
    match u.protocol
    case Https =>
      assert url[..8] == "https://";
      assert url[8..] == rest;
    case Http =>
      assert !StartsWith(url, "https://") by {
        assert url[4] == ':';
      }
      assert url[..7] == "http://";
      assert url[7..] == rest;
  }

  /** A path-relative source is left as it is, and then not fetched. */
  lemma ResolveRelativeSkipped(u: Url, src: string)
    requires !StartsWith(src, "/") && !StartsWith(src, "http")
    ensures !StartsWith(Resolve(u, src), "http")
  {
  }

  /** The URLs the loop fetches, in source order: the resolved sources that
      start with `http`. */
  function ReferencedUrls(u: Url, srcs: seq<string>): (urls: seq<string>)
    ensures |urls| <= |srcs|
    ensures forall k :: 0 <= k < |urls| ==> StartsWith(urls[k], "http")
  {
    if srcs == [] then []
    else
      var init := ReferencedUrls(u, srcs[..|srcs| - 1]);
      var r := Resolve(u, srcs[|srcs| - 1]);
      if StartsWith(r, "http") then init + [r] else init
  }

  /** The selection works source by source: it distributes over concatenation. */
  lemma {:induction false} ReferencedUrlsAppend(u: Url, a: seq<string>, b: seq<string>)
    ensures ReferencedUrls(u, a + b) == ReferencedUrls(u, a) + ReferencedUrls(u, b)
    decreases |b|
  {
    if b == [] {
      assert a + b == a;
    } else {
      var b' := b[..|b| - 1];
      assert (a + b)[..|a + b| - 1] == a + b';
      assert (a + b)[|a + b| - 1] == b[|b| - 1];
      ReferencedUrlsAppend(u, a, b');
    }
  }

  /** What one source contributes: its resolution when that starts with
      `http`, nothing otherwise. */
  lemma ReferencedUrlsOne(u: Url, src: string)
    ensures ReferencedUrls(u, [src]) ==
              if StartsWith(Resolve(u, src), "http") then [Resolve(u, src)] else []
  {
    assert [src][..0] == [];
  }
}
