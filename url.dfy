/** `parse_url` of monitor.py: split a URL into host, protocol, port and path. */
module UrlParser {
  import opened PyText

  datatype Scheme = Http | Https

  /** The protocol string `parse_url` returns. */
  function SchemeName(s: Scheme): string {
    match s
    case Http => "http"
    case Https => "https"
  }

  /** The port `parse_url` assigns: an explicit `:port` in the URL is never read. */
  function DefaultPort(s: Scheme): int {
    match s
    case Http => 80
    case Https => 443
  }

  /** The tuple `host, protocol, port, path` of a recognised URL. The all-None
      tuple of an unrecognised one is `None` of `Option<Url>`. */
  datatype Url = Url(host: string, protocol: Scheme, port: int, path: string)

  /** The URL text after the `<protocol>://` prefix. */
  function Remainder(url: string, s: Scheme): string
    requires |SchemeName(s)| + 3 <= |url|
  {
    url[|SchemeName(s)| + 3..]
  }

  /** How `parse_url` cuts the remainder: at the first `/`, or all host and path `/`. */
  predicate HostPathOf(rest: string, host: string, path: string) {
    if '/' !in rest then host == rest && path == "/"
    else '/' !in host && |path| > 0 && path[0] == '/' && host + path == rest
  }

  function SplitHostPath(rest: string, s: Scheme): (u: Url)
    ensures u.protocol == s && u.port == DefaultPort(s)
    ensures HostPathOf(rest, u.host, u.path)
  {
    match Find(rest, "/")
    case None =>
      assert forall k :: 0 <= k < |rest| ==> rest[k] != '/' by {
        forall k | 0 <= k < |rest| ensures rest[k] != '/' {
          assert !OccursAt(rest, "/", k);
          assert rest[k..k + 1] == [rest[k]];
        }
      }
      Url(rest, s, DefaultPort(s), "/")
    case Some(i) =>
      assert rest[i..i + 1] == "/";
      assert rest[i] == '/';
      assert forall k :: 0 <= k < i ==> rest[k] != '/' by {
        forall k | 0 <= k < i ensures rest[k] != '/' {
          assert !OccursAt(rest, "/", k);
          assert rest[k..k + 1] == [rest[k]];
        }
      }
      assert rest[..i] + rest[i..] == rest;
      Url(rest[..i], s, DefaultPort(s), rest[i..])
  }

  /** `parse_url(url)`. */
  function ParseUrl(url: string): (r: Option<Url>)
    ensures r.None? <==> !StartsWith(url, "https://") && !StartsWith(url, "http://")
    ensures StartsWith(url, "https://") ==> r.Some? && r.value.protocol == Https && r.value.port == 443
    ensures !StartsWith(url, "https://") && StartsWith(url, "http://") ==>
              r.Some? && r.value.protocol == Http && r.value.port == 80
    ensures r.Some? ==>
              |SchemeName(r.value.protocol)| + 3 <= |url| &&
              url[..|SchemeName(r.value.protocol)| + 3] == SchemeName(r.value.protocol) + "://" &&
              HostPathOf(Remainder(url, r.value.protocol), r.value.host, r.value.path)
  {
    if StartsWith(url, "https://") then
      assert Remainder(url, Https) == url[8..];
      Some(SplitHostPath(url[8..], Https))
    else if StartsWith(url, "http://") then
      assert Remainder(url, Http) == url[7..];
      Some(SplitHostPath(url[7..], Http))
    else None
  }

  /** The URL text that parses to `u` (the inverse direction of `parse_url`). */
  function FormatUrl(u: Url): string {
    SchemeName(u.protocol) + "://" + u.host + u.path
  }

  /** The cut of `HostPathOf` is unique. */
  lemma HostPathUnique(rest: string, h1: string, p1: string, h2: string, p2: string)
    requires HostPathOf(rest, h1, p1) && HostPathOf(rest, h2, p2)
    ensures h1 == h2 && p1 == p2
  {
    if '/' in rest {
      assert h1 == rest[..|h1|] && h2 == rest[..|h2|];
      assert p1 == rest[|h1|..] && p2 == rest[|h2|..];
    }
  }

  /** Every host without `/`, with a path starting with `/`, survives formatting and parsing. */
  lemma ParseOfFormat(u: Url)
    requires '/' !in u.host && |u.path| > 0 && u.path[0] == '/'
    requires u.port == DefaultPort(u.protocol)
    ensures ParseUrl(FormatUrl(u)) == Some(u)
  {
    var url := FormatUrl(u);
    var rest := u.host + u.path;
    assert rest[|u.host|] == '/';
    assert HostPathOf(rest, u.host, u.path);
    match u.protocol
    case Https =>
      assert url == "https://" + rest;
      assert url[..8] == "https://" && url[8..] == rest;
      var v := SplitHostPath(rest, Https);
      HostPathUnique(rest, u.host, u.path, v.host, v.path);
    case Http =>
      assert url == "http://" + rest;
      assert !StartsWith(url, "https://") by {
        assert url[4] == ':';
      }
      assert url[..7] == "http://" && url[7..] == rest;
      var v := SplitHostPath(rest, Http);
      HostPathUnique(rest, u.host, u.path, v.host, v.path);
  }

  /** Parsing loses nothing but a missing `/`: formatting a parse result gives
      the URL back, with `/` appended when it had no path. */
  lemma FormatOfParse(url: string)
    requires ParseUrl(url).Some?
    ensures var u := ParseUrl(url).value;
            FormatUrl(u) == url || ('/' !in Remainder(url, u.protocol) && FormatUrl(u) == url + "/")
  {
    if StartsWith(url, "https://") {
      var rest := url[8..];
      assert url == "https://" + rest;
      assert Remainder(url, Https) == rest;
      FormatOfSplit(url, Https, rest);
    } else {
      var rest := url[7..];
      assert url == "http://" + rest;
      assert Remainder(url, Http) == rest;
      FormatOfSplit(url, Http, rest);
    }
  }

  lemma FormatOfSplit(url: string, s: Scheme, rest: string)
    requires url == SchemeName(s) + "://" + rest
    ensures var u := SplitHostPath(rest, s);
            FormatUrl(u) == url || ('/' !in rest && FormatUrl(u) == url + "/")
  {
    var u := SplitHostPath(rest, s);
    var p := SchemeName(s) + "://";
    if '/' in rest {
      assert p + u.host + u.path == p + (u.host + u.path);
    } else {
      assert p + rest + "/" == url + "/";
    }
  }
}
