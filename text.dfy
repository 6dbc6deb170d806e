/** The parts of Python's `str`, `bytes` and `int` behaviour that monitor.py
    relies on: `startswith`, `find`, `split(sep, 1)`, `split()`, `' '.join`,
    `strip()`, `int(str)`, `str(int)`, `bytes.decode('latin-1')` and
    `str.encode('utf-8')`. Every string this model hands to the whitespace
    functions is Latin-1 decoded text, so whitespace is defined for the
    characters U+0000..U+00FF. */
module PyText {

  newtype byte = x: int | 0 <= x < 256

  datatype Option<T> = None | Some(value: T)

  // ---------------------------------------------------------------------
  // Prefixes and searching

  predicate StartsWith(s: string, prefix: string) {
    |prefix| <= |s| && s[..|prefix|] == prefix
  }

  predicate OccursAt(s: string, pat: string, k: nat) {
    k + |pat| <= |s| && s[k..k + |pat|] == pat
  }

  /** `s.find(pat, from)`: the first index at or after `from` where `pat` occurs. */
  function FindFrom(s: string, pat: string, from: nat): (r: Option<nat>)
    ensures r.Some? ==> from <= r.value && OccursAt(s, pat, r.value)
    ensures r.Some? ==> forall k :: from <= k < r.value ==> !OccursAt(s, pat, k)
    ensures r.None? ==> forall k :: from <= k ==> !OccursAt(s, pat, k)
    decreases |s| - from
  {
    if |s| < from + |pat| then None
    else if OccursAt(s, pat, from) then Some(from)
    else FindFrom(s, pat, from + 1)
  }

  function Find(s: string, pat: string): (r: Option<nat>)
    ensures r.Some? ==> OccursAt(s, pat, r.value)
    ensures r.Some? ==> forall k :: 0 <= k < r.value ==> !OccursAt(s, pat, k)
    ensures r.None? ==> forall k :: 0 <= k ==> !OccursAt(s, pat, k)
  {
    FindFrom(s, pat, 0)
  }

  /** The two halves of `s.split(sep, 1)`; `rest` is None when the list has one element. */
  datatype Halves = Halves(first: string, rest: Option<string>)

  /** `s.split(sep, 1)` for a non-empty separator. */
  function SplitOnce(s: string, sep: string): (h: Halves)
    requires |sep| > 0
    ensures forall k :: 0 <= k ==> !OccursAt(h.first, sep, k)
    ensures h.rest.Some? ==> h.first + sep + h.rest.value == s
    ensures h.rest.Some? ==> forall k :: 0 <= k < |h.first| ==> !OccursAt(s, sep, k)
    ensures h.rest.None? ==> h.first == s
  {
    match Find(s, sep)
    case None => Halves(s, None)
    case Some(i) =>
      assert forall k :: 0 <= k ==> OccursAt(s[..i], sep, k) ==> OccursAt(s, sep, k) by {
        forall k | 0 <= k && OccursAt(s[..i], sep, k) ensures OccursAt(s, sep, k) {
          assert s[..i][k..k + |sep|] == s[k..k + |sep|];
        }
      }
      assert s[..i] + sep + s[i + |sep|..] == s by {
        assert s[i..i + |sep|] == sep;
        assert s == s[..i] + s[i..i + |sep|] + s[i + |sep|..];
      }
      Halves(s[..i], Some(s[i + |sep|..]))
  }

  lemma {:induction false} NotOccursInPrefix(s: string, pat: string, n: nat)
    requires n <= |s|
    requires forall k :: 0 <= k ==> !OccursAt(s, pat, k)
    ensures forall k :: 0 <= k ==> !OccursAt(s[..n], pat, k)
  {
    forall k | 0 <= k && OccursAt(s[..n], pat, k) ensures false {
      assert s[..n][k..k + |pat|] == s[k..k + |pat|];
      assert OccursAt(s, pat, k);
    }
  }

  // ---------------------------------------------------------------------
  // Whitespace, as `str.isspace()` and the regular-expression class `\s`
  // see it for the Latin-1 range: TAB, LF, VT, FF, CR, the four
  // information separators U+001C..U+001F, SPACE, NEL and NO-BREAK SPACE.

  predicate IsSpace(c: char) {
    (9 <= c as int <= 13) || (28 <= c as int <= 32) || c as int == 0x85 || c as int == 0xA0
  }

  predicate NoSpace(s: string) {
    forall k :: 0 <= k < |s| ==> !IsSpace(s[k])
  }

  /** A token of `str.split()`: non-empty and free of whitespace. */
  predicate IsWord(w: string) {
    |w| > 0 && NoSpace(w)
  }

  /** Length of the longest whitespace-free prefix of `s`. */
  function WordLength(s: string): (n: nat)
    ensures n <= |s|
    ensures forall k :: 0 <= k < n ==> !IsSpace(s[k])
    ensures n < |s| ==> IsSpace(s[n])
  {
    if s == [] || IsSpace(s[0]) then 0 else 1 + WordLength(s[1..])
  }

  /** `s.split()`: the maximal whitespace-free runs of `s`, in order. */
  function Words(s: string): (ws: seq<string>)
    ensures forall i :: 0 <= i < |ws| ==> IsWord(ws[i])
    decreases |s|
  {
    if s == [] then []
    else if IsSpace(s[0]) then Words(s[1..])
    else
      var n := WordLength(s);
      [s[..n]] + Words(s[n..])
  }

  /** `' '.join(ws)`. */
  function JoinSpace(ws: seq<string>): string {
    if ws == [] then ""
    else if |ws| == 1 then ws[0]
    else ws[0] + " " + JoinSpace(ws[1..])
  }

  /** A concatenation of word sequences is a word sequence. */
  lemma WordsConcat(a: seq<string>, b: seq<string>)
    requires forall i :: 0 <= i < |a| ==> IsWord(a[i])
    requires forall i :: 0 <= i < |b| ==> IsWord(b[i])
    ensures forall i :: 0 <= i < |a + b| ==> IsWord((a + b)[i])
  {
    forall i | 0 <= i < |a + b| ensures IsWord((a + b)[i]) {
      if i >= |a| {
        assert (a + b)[i] == b[i - |a|];
      }
    }
  }

  /** Splitting a space-joined line of two leading words and more words gives
      them back. */
  lemma WordsOfJoinLine(a: string, b: string, rest: seq<string>)
    requires IsWord(a) && IsWord(b)
    requires forall i :: 0 <= i < |rest| ==> IsWord(rest[i])
    ensures Words(JoinSpace([a, b] + rest)) == [a, b] + rest
  {
    WordsPair(a, b);
    WordsConcat([a, b], rest);
    WordsOfJoin([a, b] + rest);
  }

  lemma WordsPair(a: string, b: string)
    requires IsWord(a) && IsWord(b)
    ensures forall i :: 0 <= i < |[a, b]| ==> IsWord([a, b][i])
  {
    forall i | 0 <= i < |[a, b]| ensures IsWord([a, b][i]) {
      if i == 0 {
        assert [a, b][i] == a;
      } else {
        assert [a, b][i] == b;
      }
    }
  }

  /** A token and a space lead the tokens of what follows. */
  lemma WordsSpaceAfter(w: string, t: string)
    requires IsWord(w)
    ensures Words(w + " " + t) == [w] + Words(t)
  {
    assert w + " " + t == w + (" " + t);
    assert AllSpace(" ");
    WordsCons(w, " " + t);
    WordsSkipSpace(" ", t);
  }

  /** Splitting the space-joined words gives the words back. */
  lemma {:induction false} WordsOfJoin(ws: seq<string>)
    requires forall i :: 0 <= i < |ws| ==> IsWord(ws[i])
    ensures Words(JoinSpace(ws)) == ws
  {
    if ws == [] {
    } else {
      var w := ws[0];
      var s := JoinSpace(ws);
      WordLengthOfWord(w, if |ws| == 1 then "" else " " + JoinSpace(ws[1..]));
      if |ws| == 1 {
        assert s == w + "";
        assert s[|w|..] == [];
        assert s[..|w|] == w;
      } else {
        var tail := JoinSpace(ws[1..]);
        assert s == w + (" " + tail);
        assert s[..|w|] == w;
        assert s[|w|..] == " " + tail;
        assert (" " + tail)[1..] == tail;
        WordsOfJoin(ws[1..]);
      }
    }
  }

  predicate AllSpace(g: string) {
    forall k :: 0 <= k < |g| ==> IsSpace(g[k])
  }

  /** Words separated by whitespace gaps: `gaps[0] + ws[0] + gaps[1] + ... + gaps[|ws|]`. */
  function Spaced(ws: seq<string>, gaps: seq<string>): string
    requires |gaps| == |ws| + 1
    decreases |ws|
  {
    if ws == [] then gaps[0] else gaps[0] + ws[0] + Spaced(ws[1..], gaps[1..])
  }

  /** The gaps are whitespace, those between two words non-empty; the words
      are tokens. The outer gaps may be empty. */
  predicate Gapped(ws: seq<string>, gaps: seq<string>) {
    |gaps| == |ws| + 1 &&
    (forall i :: 0 <= i < |gaps| ==> AllSpace(gaps[i])) &&
    (forall i :: 0 < i < |ws| ==> gaps[i] != []) &&
    (forall i :: 0 <= i < |ws| ==> IsWord(ws[i]))
  }

  /** Leading whitespace does not change the tokens. */
  lemma {:induction false} WordsSkipSpace(a: string, t: string)
    requires AllSpace(a)
    ensures Words(a + t) == Words(t)
    decreases |a|
  {
    if a == [] {
      assert a + t == t;
    } else {
      assert (a + t)[0] == a[0];
      assert (a + t)[1..] == a[1..] + t;
      WordsSkipSpace(a[1..], t);
    }
  }

  /** A token followed by whitespace, or by nothing, is the first token. */
  lemma WordsCons(w: string, t: string)
    requires IsWord(w)
    requires t == [] || IsSpace(t[0])
    ensures Words(w + t) == [w] + Words(t)
  {
    WordLengthOfWord(w, t);
    assert (w + t)[0] == w[0];
    assert (w + t)[..|w|] == w;
    assert (w + t)[|w|..] == t;
  }

  /** `split()` gives back the words of every whitespace-gapped text,
      whatever whitespace the gaps hold. */
  lemma {:induction false} WordsOfSpaced(ws: seq<string>, gaps: seq<string>)
    requires Gapped(ws, gaps)
    ensures Words(Spaced(ws, gaps)) == ws
    decreases |ws|
  {
    if ws == [] {
      WordsSkipSpace(gaps[0], "");
      assert gaps[0] + "" == gaps[0];
    } else {
      var rest := Spaced(ws[1..], gaps[1..]);
      GappedTail(ws, gaps);
      assert AllSpace(gaps[0]) && IsWord(ws[0]);
      assert gaps[0] + ws[0] + rest == gaps[0] + (ws[0] + rest);
      WordsSkipSpace(gaps[0], ws[0] + rest);
      if |ws| > 1 {
        assert gaps[1] != [] && AllSpace(gaps[1]);
        assert rest[0] == gaps[1][0];
      }
      WordsCons(ws[0], rest);
      WordsOfSpaced(ws[1..], gaps[1..]);
    }
  }

  lemma GappedTail(ws: seq<string>, gaps: seq<string>)
    requires ws != [] && Gapped(ws, gaps)
    ensures Gapped(ws[1..], gaps[1..])
  {
    forall i | 0 <= i < |gaps| - 1 ensures AllSpace(gaps[1..][i]) {
      assert gaps[1..][i] == gaps[i + 1];
    }
    forall i | 0 < i < |ws| - 1 ensures gaps[1..][i] != [] {
      assert gaps[1..][i] == gaps[i + 1];
    }
    forall i | 0 <= i < |ws| - 1 ensures IsWord(ws[1..][i]) {
      assert ws[1..][i] == ws[i + 1];
    }
  }

  /** The whitespace gaps around the tokens of `s`. */
  function Gaps(s: string): (gaps: seq<string>)
    ensures |gaps| == |Words(s)| + 1
    decreases |s|
  {
    if s == [] then [""]
    else if IsSpace(s[0]) then
      var g := Gaps(s[1..]);
      [[s[0]] + g[0]] + g[1..]
    else [""] + Gaps(s[WordLength(s)..])
  }

  /** Every text is its tokens in whitespace gaps; with `WordsOfSpaced`,
      the tokens of `split()` are exactly the maximal whitespace-free runs
      of the text, in order. */
  lemma {:induction false} SpacedOfWords(s: string)
    ensures Gapped(Words(s), Gaps(s))
    ensures Spaced(Words(s), Gaps(s)) == s
    ensures s != [] && IsSpace(s[0]) ==> Gaps(s)[0] != []
    decreases |s|
  {
    if s == [] {
    } else if IsSpace(s[0]) {
      SpacedOfWords(s[1..]);
      SpacedOfSpace(s);
    } else {
      SpacedOfWords(s[WordLength(s)..]);
      SpacedOfWord(s);
    }
  }

  /** The step of `SpacedOfWords` for a text that starts with whitespace. */
  lemma SpacedOfSpace(s: string)
    requires s != [] && IsSpace(s[0])
    requires Gapped(Words(s[1..]), Gaps(s[1..]))
    requires Spaced(Words(s[1..]), Gaps(s[1..])) == s[1..]
    ensures Gapped(Words(s), Gaps(s))
    ensures Spaced(Words(s), Gaps(s)) == s
  {
    var t := s[1..];
    var g := Gaps(t);
    assert Words(s) == Words(t);
    assert Gaps(s) == [[s[0]] + g[0]] + g[1..];
    GappedOfSpace(s[0], Words(t), g);
    SpacedWithSpace(s[0], Words(t), g);
    assert s == [s[0]] + t;
  }

  lemma GappedOfSpace(c: char, ws: seq<string>, g: seq<string>)
    requires IsSpace(c) && Gapped(ws, g)
    ensures Gapped(ws, [[c] + g[0]] + g[1..])
  {
    var gaps := [[c] + g[0]] + g[1..];
    assert AllSpace(gaps[0]) by {
      assert AllSpace(g[0]);
    }
    forall i | 0 < i < |gaps| ensures gaps[i] == g[i] {
    }
  }

  lemma SpacedWithSpace(c: char, ws: seq<string>, g: seq<string>)
    requires |g| == |ws| + 1
    ensures Spaced(ws, [[c] + g[0]] + g[1..]) == [c] + Spaced(ws, g)
  {
    var gaps := [[c] + g[0]] + g[1..];
    assert gaps[1..] == g[1..];
    if ws != [] {
      var tail := Spaced(ws[1..], g[1..]);
      assert ([c] + g[0]) + ws[0] + tail == [c] + (g[0] + ws[0] + tail);
    }
  }

  /** The step of `SpacedOfWords` for a text that starts with a token. */
  lemma SpacedOfWord(s: string)
    requires s != [] && !IsSpace(s[0])
    requires var t := s[WordLength(s)..];
             Gapped(Words(t), Gaps(t)) && Spaced(Words(t), Gaps(t)) == t &&
             (t != [] && IsSpace(t[0]) ==> Gaps(t)[0] != [])
    ensures Gapped(Words(s), Gaps(s))
    ensures Spaced(Words(s), Gaps(s)) == s
  {
    GappedOfHead(s);
    SpacedOfHead(s);
  }

  lemma GappedOfHead(s: string)
    requires s != [] && !IsSpace(s[0])
    requires var t := s[WordLength(s)..];
             Gapped(Words(t), Gaps(t)) && (t != [] && IsSpace(t[0]) ==> Gaps(t)[0] != [])
    ensures Gapped(Words(s), Gaps(s))
  {
    var n := WordLength(s);
    WordsOfHead(s);
    GapsOfHead(s);
    GappedOfWord(s[..n], s[n..], Words(s[n..]), Gaps(s[n..]));
  }

  lemma SpacedOfHead(s: string)
    requires s != [] && !IsSpace(s[0])
    requires var t := s[WordLength(s)..];
             |Gaps(t)| == |Words(t)| + 1 && Spaced(Words(t), Gaps(t)) == t
    ensures Spaced(Words(s), Gaps(s)) == s
  {
    var n := WordLength(s);
    WordsOfHead(s);
    GapsOfHead(s);
    SplitsAt(s, n);
    SpacedOfParts(s, s[..n], s[n..], Words(s[n..]), Gaps(s[n..]));
  }

  lemma SplitsAt(s: string, n: nat)
    requires n <= |s|
    ensures s == s[..n] + s[n..]
  {
  }

  lemma SpacedOfParts(s: string, w: string, t: string, ws: seq<string>, g: seq<string>)
    requires |g| == |ws| + 1 && Spaced(ws, g) == t && s == w + t
    requires Words(s) == [w] + ws && Gaps(s) == [""] + g
    ensures Spaced(Words(s), Gaps(s)) == s
  {
    SpacedWithWord(w, ws, g);
  }

  /** A text that starts with a token has it as first word. */
  lemma WordsOfHead(s: string)
    requires s != [] && !IsSpace(s[0])
    ensures IsWord(s[..WordLength(s)])
    ensures Words(s) == [s[..WordLength(s)]] + Words(s[WordLength(s)..])
  {
  }

  /** A text that starts with a token has an empty leading gap. */
  lemma GapsOfHead(s: string)
    requires s != [] && !IsSpace(s[0])
    ensures Gaps(s) == [""] + Gaps(s[WordLength(s)..])
  {
  }

  lemma GappedOfWord(w: string, t: string, ws: seq<string>, g: seq<string>)
    requires IsWord(w) && Gapped(ws, g)
    requires ws != [] ==> t != [] && IsSpace(t[0])
    requires t != [] && IsSpace(t[0]) ==> g[0] != []
    ensures Gapped([w] + ws, [""] + g)
  {
    var ws' := [w] + ws;
    var gaps := [""] + g;
    forall i | 0 < i < |gaps| ensures gaps[i] == g[i - 1] {
    }
    forall i | 0 < i < |ws'| ensures ws'[i] == ws[i - 1] {
    }
  }

  lemma SpacedWithWord(w: string, ws: seq<string>, g: seq<string>)
    requires |g| == |ws| + 1
    ensures Spaced([w] + ws, [""] + g) == w + Spaced(ws, g)
  {
    assert ([w] + ws)[1..] == ws;
    assert ([""] + g)[1..] == g;
  }

  /** Space-joined tokens have no whitespace but their single spaces. */
  lemma {:induction false} JoinSpaceChars(ws: seq<string>)
    requires forall i :: 0 <= i < |ws| ==> IsWord(ws[i])
    ensures forall k :: 0 <= k < |JoinSpace(ws)| ==> JoinSpace(ws)[k] == ' ' || !IsSpace(JoinSpace(ws)[k])
  {
    if |ws| > 1 {
      var tail := JoinSpace(ws[1..]);
      JoinSpaceChars(ws[1..]);
      var s := JoinSpace(ws);
      assert s == ws[0] + " " + tail;
      forall k | 0 <= k < |s| ensures s[k] == ' ' || !IsSpace(s[k]) {
        if k < |ws[0]| {
          assert IsWord(ws[0]);
          assert s[k] == ws[0][k];
        } else if k == |ws[0]| {
          assert s[k] == ' ';
        } else {
          var j := k - |ws[0]| - 1;
          assert s[k] == tail[j];
          assert tail[j] == ' ' || !IsSpace(tail[j]);
        }
      }
    } else if |ws| == 1 {
      assert IsWord(ws[0]);
    }
  }

  lemma {:induction false} WordLengthOfWord(w: string, rest: string)
    requires IsWord(w)
    requires rest == [] || IsSpace(rest[0])
    ensures WordLength(w + rest) == |w|
    decreases |w|
  {
    if |w| > 1 {
      assert (w + rest)[1..] == w[1..] + rest;
      WordLengthOfWord(w[1..], rest);
    } else {
      assert (w + rest)[1..] == rest;
    }
  }

  /** `s.lstrip()` */
  function LStrip(s: string): (r: string)
    ensures |r| <= |s| && r == s[|s| - |r|..]
    ensures forall k :: 0 <= k < |s| - |r| ==> IsSpace(s[k])
    ensures r == [] || !IsSpace(r[0])
  {
    if s != [] && IsSpace(s[0]) then LStrip(s[1..]) else s
  }

  /** `s.rstrip()` */
  function RStrip(s: string): (r: string)
    ensures |r| <= |s| && r == s[..|r|]
    ensures forall k :: |r| <= k < |s| ==> IsSpace(s[k])
    ensures r == [] || !IsSpace(r[|r| - 1])
  {
    if s != [] && IsSpace(s[|s| - 1]) then RStrip(s[..|s| - 1]) else s
  }

  /** `s.strip()`: `s` without its leading and trailing whitespace. */
  function Strip(s: string): (r: string)
    ensures r == [] || (!IsSpace(r[0]) && !IsSpace(r[|r| - 1]))
  {
    RStrip(LStrip(s))
  }

  /** Stripping keeps the inner part: whatever is wrapped in whitespace comes back. */
  lemma StripOfPadded(a: string, v: string, b: string)
    requires forall k :: 0 <= k < |a| ==> IsSpace(a[k])
    requires forall k :: 0 <= k < |b| ==> IsSpace(b[k])
    requires v == [] || (!IsSpace(v[0]) && !IsSpace(v[|v| - 1]))
    ensures Strip(a + v + b) == v
  {
    if v == [] {
      assert a + v + b == a + b;
    } else {
      LStripOfPadded(a, v + b);
      assert a + v + b == a + (v + b);
      RStripOfPadded(v, b);
    }
  }

  lemma {:induction false} LStripOfPadded(a: string, t: string)
    requires forall k :: 0 <= k < |a| ==> IsSpace(a[k])
    requires t == [] || !IsSpace(t[0])
    ensures LStrip(a + t) == t
    decreases |a|
  {
    if a == [] {
      assert a + t == t;
    } else {
      assert (a + t)[1..] == a[1..] + t;
      LStripOfPadded(a[1..], t);
    }
  }

  lemma {:induction false} RStripOfPadded(t: string, b: string)
    requires forall k :: 0 <= k < |b| ==> IsSpace(b[k])
    requires t == [] || !IsSpace(t[|t| - 1])
    ensures RStrip(t + b) == t
    decreases |b|
  {
    if b == [] {
      assert t + b == t;
    } else {
      var s := t + b;
      assert s[..|s| - 1] == t + b[..|b| - 1];
      RStripOfPadded(t, b[..|b| - 1]);
    }
  }

  // ---------------------------------------------------------------------
  // Integers: `int(token)` and `str(n)` in base 10

  predicate IsDigit(c: char) {
    '0' <= c <= '9'
  }

  function DigitValue(c: char): (d: nat)
    requires IsDigit(c)
    ensures d < 10
  {
    c as int - '0' as int
  }

  function DigitChar(d: nat): (c: char)
    requires d < 10
    ensures IsDigit(c) && DigitValue(c) == d
  {
    (d + '0' as int) as char
  }

  /** The digits of a Python integer literal accepted by `int()`: a digit,
      then digits, each optionally preceded by one underscore. */
  predicate DigitGroups(d: string) {
    |d| > 0 && IsDigit(d[0]) &&
    forall k :: 0 <= k < |d| && !IsDigit(d[k]) ==> d[k] == '_' && k + 1 < |d| && IsDigit(d[k + 1])
  }

  /** The value of a digit string, ignoring underscores. */
  function DigitsValue(d: string): nat {
    if d == [] then 0
    else if d[|d| - 1] == '_' || !IsDigit(d[|d| - 1]) then DigitsValue(d[..|d| - 1])
    else 10 * DigitsValue(d[..|d| - 1]) + DigitValue(d[|d| - 1])
  }

  /** `int(t)` for a token (a whitespace-free string): None where Python raises ValueError. */
  function ParseInt(t: string): (r: Option<int>)
    ensures r.Some? <==> DigitGroups(t) || (|t| > 0 && (t[0] == '+' || t[0] == '-') && DigitGroups(t[1..]))
    ensures DigitGroups(t) ==> r == Some(DigitsValue(t))
    ensures |t| > 0 && t[0] == '+' && DigitGroups(t[1..]) ==> r == Some(DigitsValue(t[1..]))
    ensures |t| > 0 && t[0] == '-' && DigitGroups(t[1..]) ==> r == Some(-(DigitsValue(t[1..]) as int))
    ensures r.Some? ==> t != [] && (IsDigit(t[0]) || t[0] == '+' || t[0] == '-')
    ensures r.Some? ==> IsDigit(t[|t| - 1])
  {
    if t != [] && (t[0] == '+' || t[0] == '-') then
      var d := t[1..];
      if DigitGroups(d) then
        assert t[|t| - 1] == d[|d| - 1];
        LastOfDigitGroups(d);
        var v: int := DigitsValue(d);
        Some(if t[0] == '-' then -v else v)
      else None
    else if DigitGroups(t) then
      LastOfDigitGroups(t);
      Some(DigitsValue(t))
    else None
  }

  lemma LastOfDigitGroups(d: string)
    requires DigitGroups(d)
    ensures IsDigit(d[|d| - 1])
  {
    var k := |d| - 1;
    assert IsDigit(d[k]) || k + 1 < |d|;
  }

  /** `str(n)` for a natural number: its decimal digits, no leading zero. */
  function NatToString(n: nat): (s: string)
    ensures |s| > 0 && (s[0] == '0' ==> n == 0)
    ensures forall k :: 0 <= k < |s| ==> IsDigit(s[k])
    ensures DigitsValue(s) == n
  {
    if n < 10 then
      assert DigitsValue([DigitChar(n)][..0]) == 0;
      [DigitChar(n)]
    else
      var s := NatToString(n / 10) + [DigitChar(n % 10)];
      assert s[..|s| - 1] == NatToString(n / 10);
      s
  }

  /** `str(n)`. */
  function IntToString(n: int): (s: string)
    ensures |s| > 0
  {
    if n < 0 then "-" + NatToString(-n) else NatToString(n)
  }

  /** `int(str(n)) == n`. */
  lemma ParseIntOfIntToString(n: int)
    ensures ParseInt(IntToString(n)) == Some(n)
  {
    var s := IntToString(n);
    if n < 0 {
      var d := NatToString(-n);
      assert s[1..] == d;
      assert DigitGroups(d);
    } else {
      assert DigitGroups(s);
    }
  }

  lemma IntToStringIsWord(n: int)
    ensures IsWord(IntToString(n))
  {
    if n < 0 {
      var d := NatToString(-n);
      assert IntToString(n) == "-" + d;
      assert forall k :: 0 <= k < |d| ==> !IsSpace(d[k]);
    }
  }

  /** What `int()` makes of leading zeros, a sign and underscores. */
  /** Leading zeros and single underscores between digits are accepted. */
  lemma ParseIntSamples()
    ensures ParseInt("0200") == Some(200)
    ensures ParseInt("1_0") == Some(10)
  {
    assert DigitGroups("0200");
    assert DigitsValue("020") == 20 by {
      assert "020"[..2] == "02" && "02"[..1] == "0" && "0"[..0] == "";
    }
    assert "0200"[..3] == "020";
    assert DigitGroups("1_0");
    assert "1_0"[..2] == "1_" && "1_"[..1] == "1" && "1"[..0] == "";
  }

  /** A leading sign is accepted, and `-0` is zero. */
  lemma ParseIntSigned()
    ensures ParseInt("+5") == Some(5) && ParseInt("-0") == Some(0)
  {
    assert DigitGroups("5") && "+5"[1..] == "5" && "-0"[1..] == "0";
    assert DigitsValue("5") == 5 by { assert "5"[..0] == ""; }
    assert DigitsValue("0") == 0 by { assert "0"[..0] == ""; }
  }

  /** Doubled, leading and trailing underscores are rejected. */
  lemma ParseIntMalformed()
    ensures ParseInt("1__0") == None && ParseInt("_1") == None && ParseInt("1_") == None
  {
    assert !DigitGroups("1__0") by { assert "1__0"[1] == '_' && "1__0"[2] == '_'; }
    assert !DigitGroups("1_") by { assert "1_"[1] == '_'; }
  }

  /** `int()` rejects every token containing a character that is neither a
      digit, an underscore nor a leading sign. */
  lemma ParseIntRejects(t: string, k: nat)
    requires k < |t| && !IsDigit(t[k]) && t[k] != '_'
    requires k > 0 || (t[0] != '+' && t[0] != '-')
    ensures ParseInt(t) == None
  {
    if t[0] == '+' || t[0] == '-' {
      assert t[1..][k - 1] == t[k];
    }
  }

  // ---------------------------------------------------------------------
  // Byte encodings

  /** `data.decode('latin-1')`: byte b becomes the character U+00bb. */
  function Latin1Decode(data: seq<byte>): (s: string)
    ensures |s| == |data|
    ensures forall i :: 0 <= i < |s| ==> s[i] as int == data[i] as int
  {
    seq(|data|, i requires 0 <= i < |data| => (data[i] as int) as char)
  }

  /** `s.encode('latin-1')` for characters below U+0100. */
  function Latin1Encode(s: string): (data: seq<byte>)
    requires forall i :: 0 <= i < |s| ==> s[i] as int < 256
  {
    seq(|s|, i requires 0 <= i < |s| => s[i] as int as byte)
  }

  /** Latin-1 decoding never fails and loses nothing. */
  lemma Latin1RoundTrip(data: seq<byte>)
    ensures forall i :: 0 <= i < |Latin1Decode(data)| ==> Latin1Decode(data)[i] as int < 256
    ensures Latin1Encode(Latin1Decode(data)) == data
  {
  }

  /** The UTF-8 encoding of one Unicode scalar value. */
  function Utf8Char(c: char): (b: seq<byte>)
    ensures 1 <= |b| <= 4
    ensures (c as int < 0x80) == (|b| == 1)
  {
    var n := c as int;
    if n < 0x80 then [n as byte]
    else if n < 0x800 then [(0xC0 + n / 0x40) as byte, (0x80 + n % 0x40) as byte]
    else if n < 0x10000 then
      [(0xE0 + n / 0x1000) as byte, (0x80 + (n / 0x40) % 0x40) as byte, (0x80 + n % 0x40) as byte]
    else
      [(0xF0 + n / 0x40000) as byte, (0x80 + (n / 0x1000) % 0x40) as byte,
       (0x80 + (n / 0x40) % 0x40) as byte, (0x80 + n % 0x40) as byte]
  }

  /** `s.encode('utf-8')`. */
  function Utf8Encode(s: string): (data: seq<byte>)
    ensures |data| >= |s|
  {
    if s == [] then [] else Utf8Char(s[0]) + Utf8Encode(s[1..])
  }

  predicate NoLineFeed(s: string) {
    forall i :: 0 <= i < |s| ==> s[i] != '\n'
  }

  predicate IsAscii(s: string) {
    forall i :: 0 <= i < |s| ==> s[i] as int < 0x80
  }

  lemma AsciiConcat(a: string, b: string)
    requires IsAscii(a) && IsAscii(b)
    ensures IsAscii(a + b)
  {
    forall i | 0 <= i < |a + b| ensures (a + b)[i] as int < 0x80 {
      if i >= |a| {
        assert (a + b)[i] == b[i - |a|];
      }
    }
  }

  /** On ASCII text the UTF-8 encoding is one byte per character, equal to its code. */
  lemma {:induction false} Utf8OfAscii(s: string)
    requires IsAscii(s)
    ensures |Utf8Encode(s)| == |s|
    ensures forall i :: 0 <= i < |s| ==> Utf8Encode(s)[i] as int == s[i] as int
  {
    if s != [] {
      Utf8OfAscii(s[1..]);
    }
  }

  lemma {:induction false} Utf8Append(a: string, b: string)
    ensures Utf8Encode(a + b) == Utf8Encode(a) + Utf8Encode(b)
  {
    if a != [] {
      assert (a + b)[1..] == a[1..] + b;
      Utf8Append(a[1..], b);
    } else {
      assert a + b == b;
    }
  }

  // ---------------------------------------------------------------------
  // ASCII case-insensitive comparison (what `re.IGNORECASE` does for the
  // letters of the patterns in monitor.py on Latin-1 text)

  function Lower(c: char): char {
    if 'A' <= c <= 'Z' then (c as int + 32) as char else c
  }

  /** `a` equals `lit` (written in lower case), ignoring the case of ASCII letters. */
  predicate CIEqual(a: string, lit: string) {
    |a| == |lit| && forall j :: 0 <= j < |a| ==> Lower(a[j]) == lit[j]
  }

  /** `lit` (written in lower case) occurs at index k of `s`, ignoring case. */
  predicate CIOccursAt(s: string, lit: string, k: nat) {
    k + |lit| <= |s| && CIEqual(s[k..k + |lit|], lit)
  }
}
