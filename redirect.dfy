/** The header search of `follow_redirection` in monitor.py: the first place
    where `Location: ` (in any case) is followed, on the same line, by the
    shortest text that a CRLF ends; that text, stripped, is the new URL. */
module Redirect {
  import opened PyText

  /** The literal part of the pattern, in lower case; 10 characters. */
  const Key: string := "location: "

  /** The lazy group `(.*?)` starting at `s` can stop at `q`: a CRLF at `q`
      and no line feed (which `.` does not match) before it. */
  predicate GroupEndsAt(h: string, s: nat, q: nat) {
    s <= q && q + 2 <= |h| && h[q] == '\r' && h[q + 1] == '\n' &&
    forall j :: s <= j < q ==> h[j] != '\n'
  }

  /** The pattern matches at `p`, its group being `h[p + 10..q]`. */
  predicate LocationMatch(h: string, p: nat, q: nat) {
    CIOccursAt(h, Key, p) && GroupEndsAt(h, p + |Key|, q)
  }

  /** The lazy group has at most one end. */
  lemma GroupEndUnique(h: string, s: nat, q1: nat, q2: nat)
    requires GroupEndsAt(h, s, q1) && GroupEndsAt(h, s, q2)
    ensures q1 == q2
  {
  }

  /** Where the lazy group starting at `s` ends, trying the shortest first. */
  function GroupEnd(h: string, s: nat): (r: Option<nat>)
    ensures r.Some? ==> GroupEndsAt(h, s, r.value)
    ensures r.None? ==> forall q :: !GroupEndsAt(h, s, q)
    decreases |h| - s
  {
    if |h| < s + 2 then None
    else if h[s] == '\r' && h[s + 1] == '\n' then Some(s)
    else if h[s] == '\n' then None
    else
      var r := GroupEnd(h, s + 1);
      assert forall q :: GroupEndsAt(h, s, q) ==> GroupEndsAt(h, s + 1, q);
      r
  }

  /** The leftmost match at or after `p`, as (start, group end). */
  function SearchFrom(h: string, p: nat): (r: Option<(nat, nat)>)
    ensures r.Some? ==> p <= r.value.0 && LocationMatch(h, r.value.0, r.value.1)
    ensures r.Some? ==> forall p': nat, q: nat :: p <= p' < r.value.0 ==> !LocationMatch(h, p', q)
    ensures r.None? ==> forall p': nat, q: nat :: p <= p' ==> !LocationMatch(h, p', q)
    decreases |h| - p
  {
    if |h| < p + |Key| then None
    else if CIOccursAt(h, Key, p) && GroupEnd(h, p + |Key|).Some? then
      Some((p, GroupEnd(h, p + |Key|).value))
    else
      SearchFrom(h, p + 1)
  }

  /** The match `re.search` reports: the one that starts leftmost. */
  ghost predicate FirstMatch(h: string, p: nat, q: nat) {
    LocationMatch(h, p, q) && forall p': nat, q': nat :: p' < p ==> !LocationMatch(h, p', q')
  }

  /** `re.search(...)` on the headers, then `group(1).strip()`; None when
      nothing matches. */
  function FindLocation(h: string): (r: Option<string>)
    ensures r.None? <==> forall p: nat, q: nat :: !LocationMatch(h, p, q)
    ensures r.Some? ==> exists p: nat, q: nat :: FirstMatch(h, p, q) && r.value == Strip(h[p + |Key|..q])
    ensures r.Some? ==> r.value == [] || (!IsSpace(r.value[0]) && !IsSpace(r.value[|r.value| - 1]))
  {
    match SearchFrom(h, 0)
    case None => None
    case Some((p, q)) =>
      assert FirstMatch(h, p, q);
      Some(Strip(h[p + |Key|..q]))
  }

  /** The value `FindLocation` returns is that of the first match. */
  lemma FindLocationOfFirstMatch(h: string, p: nat, q: nat)
    requires FirstMatch(h, p, q)
    ensures FindLocation(h) == Some(Strip(h[p + |Key|..q]))
  {
    var r := SearchFrom(h, 0);
    if r.Some? {
      var (p1, q1) := r.value;
      assert !(p1 < p);
      assert !(p < p1);
      GroupEndUnique(h, p + |Key|, q, q1);
    }
  }

  /** A key occurrence can not overlap a character that is not in the key. */
  lemma NoKeyOver(h: string, p: nat, j: nat)
    requires p <= j < p + |Key| && j < |h|
    requires Lower(h[j]) !in Key
    ensures !CIOccursAt(h, Key, p)
  {
    if p + |Key| <= |h| {
      assert h[p..p + |Key|][j - p] == h[j];
    }
  }

  /** A key occurrence inside a prefix is one of the whole string. */
  lemma KeyInPrefix(h: string, first: string, p: nat)
    requires |first| <= |h| && h[..|first|] == first
    requires p + |Key| <= |first|
    ensures CIOccursAt(h, Key, p) == CIOccursAt(first, Key, p)
  {
    assert h[..|first|][p..p + |Key|] == h[p..p + |Key|];
  }

  /** No match starts in a first line free of the key, on its CRLF, or in
      what follows up to a character that is not in the key. */
  lemma NoKeyBefore(h: string, first: string, pre: string)
    requires forall p: nat :: !CIOccursAt(first, Key, p)
    requires pre == [] || (|pre| <= |Key| && Lower(pre[|pre| - 1]) !in Key)
    requires |first| + 2 + |pre| <= |h| && h[..|first|] == first
    requires h[|first|] == '\r' && h[|first| + 1] == '\n'
    requires pre != [] ==> h[|first| + 1 + |pre|] == pre[|pre| - 1]
    ensures forall p: nat, q: nat :: p < |first| + 2 + |pre| ==> !LocationMatch(h, p, q)
  {
    var n := |first| + 2 + |pre|;
    forall p: nat, q: nat | p < n ensures !LocationMatch(h, p, q) {
      if p + |Key| <= |first| {
        KeyInPrefix(h, first, p);
      } else if p <= |first| {
        NoKeyOver(h, p, |first|);
      } else if p == |first| + 1 {
        NoKeyOver(h, p, p);
      } else {
        NoKeyOver(h, p, n - 1);
      }
    }
  }

  /** `Location: v` found on a line that a CRLF ends, after a first line
      free of the key. `pre` is what stands between the first line's CRLF
      and `Location: `: empty for the `Location` header itself, `Content-`
      for `Content-Location`. */
  lemma FoundAfterFirstLine(first: string, pre: string, v: string, more: string)
    requires forall p: nat :: !CIOccursAt(first, Key, p)
    requires pre == [] || (|pre| <= |Key| && Lower(pre[|pre| - 1]) !in Key)
    requires NoLineFeed(v)
    ensures FindLocation(first + "\r\n" + pre + "Location: " + v + "\r\n" + more) == Some(Strip(v))
  {
    var h := first + "\r\n" + pre + "Location: " + v + "\r\n" + more;
    var p := |first| + 2 + |pre|;
    var q := p + |Key| + |v|;
    assert h[p..p + |Key|] == "Location: ";
    forall j | p + |Key| <= j < q ensures h[j] == v[j - p - |Key|] && h[j] != '\n' {
    }
    assert h[p + |Key|..q] == v;
    assert h[q] == '\r' && h[q + 1] == '\n';
    assert GroupEndsAt(h, p + |Key|, q);
    assert h[..|first|] == first;
    assert h[|first|] == '\r' && h[|first| + 1] == '\n';
    assert pre != [] ==> h[p - 1] == pre[|pre| - 1];
    FoundAfterPrefix(h, first, pre, p, q);
  }

  /** The step of `FoundAfterFirstLine` over the headers as a whole. */
  lemma FoundAfterPrefix(h: string, first: string, pre: string, p: nat, q: nat)
    requires forall p: nat :: !CIOccursAt(first, Key, p)
    requires pre == [] || (|pre| <= |Key| && Lower(pre[|pre| - 1]) !in Key)
    requires p == |first| + 2 + |pre| && p + |Key| <= |h| && h[..|first|] == first
    requires h[|first|] == '\r' && h[|first| + 1] == '\n'
    requires pre != [] ==> h[p - 1] == pre[|pre| - 1]
    requires h[p..p + |Key|] == "Location: " && GroupEndsAt(h, p + |Key|, q)
    ensures FindLocation(h) == Some(Strip(h[p + |Key|..q]))
  {
    NoKeyBefore(h, first, pre);
    assert FirstMatch(h, p, q);
    FindLocationOfFirstMatch(h, p, q);
  }

  /** `Location: v` is found when another line follows it. */
  lemma LocationFound(first: string, v: string, more: string)
    requires forall p: nat :: !CIOccursAt(first, Key, p)
    requires NoLineFeed(v)
    ensures FindLocation(first + "\r\nLocation: " + v + "\r\n" + more) == Some(Strip(v))
  {
    var h := first + "\r\nLocation: " + v + "\r\n" + more;
    var h' := first + "\r\n" + "" + "Location: " + v + "\r\n" + more;
    assert h == h' by {
      assert "\r\nLocation: " == "\r\n" + "" + "Location: ";
    }
    FoundAfterFirstLine(first, "", v, more);
  }

  /** The unanchored pattern also matches inside `Content-Location: v`. */
  lemma ContentLocationFound(first: string, v: string, more: string)
    requires forall p: nat :: !CIOccursAt(first, Key, p)
    requires NoLineFeed(v)
    ensures FindLocation(first + "\r\nContent-Location: " + v + "\r\n" + more) == Some(Strip(v))
  {
    var h := first + "\r\nContent-Location: " + v + "\r\n" + more;
    var h' := first + "\r\n" + "Content-" + "Location: " + v + "\r\n" + more;
    assert h == h' by {
      assert "\r\nContent-Location: " == "\r\n" + "Content-" + "Location: ";
    }
    assert Lower('-') == '-';
    FoundAfterFirstLine(first, "Content-", v, more);
  }

  /** On the last header line there is no CRLF after the value (the headers
      stop where the blank line begins), so `Location: v` is not found,
      however many header lines come before it. */
  lemma LocationOnLastLineMissed(first: string, v: string)
    requires forall p: nat :: !CIOccursAt(first, Key, p)
    requires NoLineFeed(v)
    ensures FindLocation(first + "\r\nLocation: " + v) == None
  {
    var h := first + "\r\nLocation: " + v;
    var tail := "Location: " + v;
    var n := |first|;
    assert h == first + "\r\n" + tail;
    assert h[..n] == first;
    assert h[n] == '\r' && h[n + 1] == '\n';
    assert NoLineFeed(tail) by {
      forall i | 0 <= i < |tail| ensures tail[i] != '\n' {
        if i >= |Key| {
          assert tail[i] == v[i - |Key|];
        }
      }
    }
    forall k | n + 1 < k < |h| ensures h[k] != '\n' {
      assert h[k] == tail[k - n - 2];
    }
    forall p: nat, q: nat ensures !LocationMatch(h, p, q) {
      if p + |Key| <= n {
        KeyInPrefix(h, first, p);
      } else if p <= n {
        NoKeyOver(h, p, n);
      } else if p == n + 1 {
        NoKeyOver(h, p, p);
      }
    }
  }
}
