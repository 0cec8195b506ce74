/**
 * The pieces of Rust's `str` API the core relies on: `char::is_whitespace`,
 * `trim`, `split_whitespace`, `split`, `join`, `trim_end_matches`, `strip_prefix`,
 * `contains`, byte-wise string ordering and decimal formatting of integers.
 * Strings are sequences of Unicode scalar values.
 */
module Text {
  import opened Wrappers

  /** The characters with the Unicode White_Space property, which `char::is_whitespace` tests for. */
  const WHITESPACE: seq<char> := [
    '\U{3000}', '\U{205F}', '\U{202F}', '\U{2029}', '\U{2028}',
    '\U{200A}', '\U{2009}', '\U{2008}', '\U{2007}', '\U{2006}', '\U{2005}',
    '\U{2004}', '\U{2003}', '\U{2002}', '\U{2001}', '\U{2000}',
    '\U{1680}', '\U{A0}', '\U{85}', '\U{C}', '\U{B}', '\r', '\n', '\t', ' ']

  /** Whether `c` is among the first `n` entries of `WHITESPACE`. */
  predicate ListedWhitespace(c: char, n: nat)
    requires n <= |WHITESPACE|
  {
    n > 0 && (WHITESPACE[n - 1] == c || ListedWhitespace(c, n - 1))
  }

  /** `char::is_whitespace`. */
  predicate IsWhitespace(c: char)
  {
    ListedWhitespace(c, |WHITESPACE|)
  }

  lemma {:induction false} NotListed(c: char, n: nat)
    requires n <= |WHITESPACE|
    requires forall i :: 0 <= i < n ==> WHITESPACE[i] != c
    ensures !ListedWhitespace(c, n)
  {
    if n > 0 {
      NotListed(c, n - 1);
    }
  }

  /** No printable ASCII character other than the space is whitespace. */
  lemma {:induction false} VisibleAsciiNotWhitespace(c: char)
    requires '!' <= c <= '~'
    ensures !IsWhitespace(c)
  {
    NotListed(c, |WHITESPACE|);
  }

  predicate AllWhitespace(s: string)
  {
    forall i :: 0 <= i < |s| ==> IsWhitespace(s[i])
  }

  predicate NoWhitespace(s: string)
  {
    forall i :: 0 <= i < |s| ==> !IsWhitespace(s[i])
  }

  function TrimStart(s: string): (r: string)
    ensures |r| <= |s| && r == s[|s| - |r|..]
    ensures AllWhitespace(s[..|s| - |r|])
  {
    if s != [] && IsWhitespace(s[0]) then
      var r := TrimStart(s[1..]);
      assert s[1..][..|s| - 1 - |r|] == s[1..|s| - |r|];
      r
    else s
  }

  function TrimEnd(s: string): (r: string)
    ensures |r| <= |s| && r == s[..|r|]
    ensures AllWhitespace(s[|r|..])
  {
    if s != [] && IsWhitespace(s[|s| - 1]) then TrimEnd(s[..|s| - 1]) else s
  }

  /** What `TrimStart` leaves starts with a non-whitespace character. */
  lemma {:induction false} TrimStartEdge(s: string)
    ensures TrimStart(s) == [] || !IsWhitespace(TrimStart(s)[0])
  {
    if s != [] && IsWhitespace(s[0]) {
      TrimStartEdge(s[1..]);
    }
  }

  /** What `TrimEnd` leaves ends with a non-whitespace character. */
  lemma {:induction false} TrimEndEdge(s: string)
    ensures TrimEnd(s) == [] || !IsWhitespace(TrimEnd(s)[|TrimEnd(s)| - 1])
  {
    if s != [] && IsWhitespace(s[|s| - 1]) {
      TrimEndEdge(s[..|s| - 1]);
    }
  }

  /** `str::trim`. */
  function Trim(s: string): string
  {
    TrimEnd(TrimStart(s))
  }

  /** `trim().is_empty()` holds exactly of the strings made only of whitespace. */
  lemma {:induction false} TrimEmptyIffBlank(s: string)
    ensures Trim(s) == [] <==> AllWhitespace(s)
  {
    var t := TrimStart(s);
    var k := |s| - |t|;
    if AllWhitespace(s) {
      TrimStartOfBlank(s);
      assert Trim(s) == TrimEnd([]);
    }
    if Trim(s) == [] {
      assert t[|TrimEnd(t)|..] == t;
      forall i | 0 <= i < |s|
        ensures IsWhitespace(s[i])
      {
        if i < k {
          assert s[..k][i] == s[i];
        } else {
          assert t[i - k] == s[i];
        }
      }
    }
  }

  lemma {:induction false} TrimStartOfBlank(s: string)
    requires AllWhitespace(s)
    ensures TrimStart(s) == []
  {
    if s != [] {
      TrimStartOfBlank(s[1..]);
    }
  }

  /** Trimming a trimmed string changes nothing. */
  lemma {:induction false} TrimIdempotent(s: string)
    ensures Trim(Trim(s)) == Trim(s)
  {
    var t := Trim(s);
    if t != [] {
      TrimStartEdge(s);
      TrimEndEdge(TrimStart(s));
      assert t == TrimStart(s)[..|t|];
      assert t[0] == TrimStart(s)[0];
    }
  }

  /** Number of leading non-whitespace characters. */
  function TokenLength(s: string): (n: nat)
    ensures n <= |s|
    ensures NoWhitespace(s[..n])
    ensures n == |s| || IsWhitespace(s[n])
    ensures s != [] && !IsWhitespace(s[0]) ==> n >= 1
  {
    if s == [] || IsWhitespace(s[0]) then 0
    else
      var n := TokenLength(s[1..]);
      assert s[..n + 1] == [s[0]] + s[1..][..n];
      n + 1
  }

  /** A token `split_whitespace` can yield: non-empty, without whitespace. */
  predicate IsWord(w: string)
  {
    w != [] && NoWhitespace(w)
  }

  /** `str::split_whitespace`: the maximal runs of non-whitespace characters. */
  function SplitWhitespace(s: string): (r: seq<string>)
    ensures r == [] <==> AllWhitespace(s)
    decreases |s|
  {
    var t := TrimStart(s);
    if t == [] then
      assert s[..|s| - |t|] == s;
      []
    else
      TrimStartEdge(s);
      var n := TokenLength(t);
      var word := t[..n];
      var rest := SplitWhitespace(t[n..]);
      assert !AllWhitespace(s) by {
        assert s[|s| - |t|] == t[0];
      }
      [word] + rest
  }

  /** Every element of `ws` is a word. */
  predicate AllWords(ws: seq<string>)
  {
    ws == [] || (IsWord(ws[0]) && AllWords(ws[1..]))
  }

  /** Every token of `split_whitespace` is a word. */
  lemma {:induction false} SplitWhitespaceWords(s: string)
    ensures AllWords(SplitWhitespace(s))
    decreases |s|
  {
    var t := TrimStart(s);
    if t != [] {
      TrimStartEdge(s);
      var n := TokenLength(t);
      SplitWhitespaceWords(t[n..]);
      var r := SplitWhitespace(s);
      assert r[1..] == SplitWhitespace(t[n..]);
    }
  }

  /** `join(sep)` over a list of strings. */
  function Join(parts: seq<string>, sep: string): string
  {
    if |parts| == 0 then []
    else if |parts| == 1 then parts[0]
    else parts[0] + sep + Join(parts[1..], sep)
  }

  lemma {:induction false} TokenLengthOfToken(w: string, rest: string)
    requires w != [] && NoWhitespace(w)
    requires rest == [] || IsWhitespace(rest[0])
    ensures TokenLength(w + rest) == |w|
    decreases |w|
  {
    var s := w + rest;
    assert s[0] == w[0];
    if |w| == 1 {
      assert s[1..] == rest;
    } else {
      assert s[1..] == w[1..] + rest;
      TokenLengthOfToken(w[1..], rest);
    }
  }

  lemma {:induction false} SplitSingleWord(w: string)
    requires IsWord(w)
    ensures SplitWhitespace(w) == [w]
  {
    assert TrimStart(w) == w;
    TokenLengthOfToken(w, []);
    assert w + [] == w;
    assert w[|w|..] == [];
  }

  lemma {:induction false} SplitWordThenSpace(w: string, tail: string)
    requires IsWord(w)
    ensures SplitWhitespace(w + " " + tail) == [w] + SplitWhitespace(tail)
  {
    var rest := " " + tail;
    var s := w + " " + tail;
    assert s == w + rest && s[0] == w[0];
    SplitAtWord(s);
    TokenLengthOfToken(w, rest);
    assert s[..|w|] == w;
    assert s[|w|..] == rest;
    assert TrimStart(rest) == TrimStart(tail) by {
      assert rest[1..] == tail;
    }
    SplitFromTrimmed(rest, tail);
  }

  /** A string that starts with a word splits into that word and the split of what follows it. */
  lemma {:induction false} SplitAtWord(s: string)
    requires s != [] && !IsWhitespace(s[0])
    ensures SplitWhitespace(s) == [s[..TokenLength(s)]] + SplitWhitespace(s[TokenLength(s)..])
  {
    assert TrimStart(s) == s;
  }

  /**
   * Splitting a space-joined list of whitespace-free, non-empty words on
   * whitespace gives the words back.
   */
  lemma {:induction false} SplitJoinedWords(parts: seq<string>)
    requires AllWords(parts)
    ensures SplitWhitespace(Join(parts, " ")) == parts
  {
    if |parts| == 1 {
      SplitSingleWord(parts[0]);
    } else if |parts| > 1 {
      var tail := Join(parts[1..], " ");
      assert Join(parts, " ") == parts[0] + " " + tail;
      SplitWordThenSpace(parts[0], tail);
      SplitJoinedWords(parts[1..]);
      assert parts == [parts[0]] + parts[1..];
    }
  }

  lemma {:induction false} SplitFromTrimmed(a: string, b: string)
    requires TrimStart(a) == TrimStart(b)
    ensures SplitWhitespace(a) == SplitWhitespace(b)
  {
  }

  predicate StartsWith(s: string, prefix: string)
  {
    |prefix| <= |s| && s[..|prefix|] == prefix
  }

  predicate EndsWith(s: string, suffix: string)
  {
    |suffix| <= |s| && s[|s| - |suffix|..] == suffix
  }

  predicate MatchesAt(s: string, pat: string, i: nat)
  {
    i + |pat| <= |s| && s[i..i + |pat|] == pat
  }

  /** Index of the first occurrence of `pat` in `s` at or after `from`. */
  function FindFrom(s: string, pat: string, from: nat): (r: Option<nat>)
    requires pat != []
    ensures r.Some? ==> from <= r.value && MatchesAt(s, pat, r.value)
    ensures r.Some? ==> forall j :: from <= j < r.value ==> !MatchesAt(s, pat, j)
    ensures r.None? ==> forall j :: from <= j ==> !MatchesAt(s, pat, j)
    decreases |s| - from
  {
    if from + |pat| > |s| then None
    else if s[from..from + |pat|] == pat then Some(from)
    else FindFrom(s, pat, from + 1)
  }

  /** `str::find`. */
  function Find(s: string, pat: string): Option<nat>
    requires pat != []
  {
    FindFrom(s, pat, 0)
  }

  /** `str::contains`. */
  predicate Contains(s: string, pat: string)
    requires pat != []
  {
    Find(s, pat).Some?
  }

  /** A match that no earlier occurrence of the pattern's first character can precede is the first one. */
  lemma {:induction false} FirstMatch(s: string, pat: string, i: nat)
    requires pat != [] && MatchesAt(s, pat, i) && pat[0] !in s[..i]
    ensures Find(s, pat) == Some(i)
  {
  }

  /** A string without the pattern's first character does not contain the pattern. */
  lemma {:induction false} NoFirstChar(s: string, pat: string)
    requires pat != [] && pat[0] !in s
    ensures !Contains(s, pat)
  {
  }

  /** A pattern that would have to start before `n`, where its first character does not occur, is absent. */
  lemma {:induction false} NoMatchBefore(s: string, pat: string, n: nat)
    requires pat != [] && n <= |s| < n + |pat| && pat[0] !in s[..n]
    ensures !Contains(s, pat)
  {
  }

  /** `s.split(pat).nth(1)`: the piece between the first and the second match. */
  function SplitSecond(s: string, pat: string): (r: Option<string>)
    requires pat != []
    ensures r.None? <==> !Contains(s, pat)
  {
    match Find(s, pat)
    case None => None
    case Some(i) =>
      var rest := s[i + |pat|..];
      match Find(rest, pat)
      case None => Some(rest)
      case Some(j) => Some(rest[..j])
  }

  /** Index of the first `c` in `s`, or `|s|` when there is none. */
  function CharIndex(s: string, c: char): (i: nat)
    ensures i <= |s| && c !in s[..i]
    ensures i < |s| ==> s[i] == c
  {
    if s == [] || s[0] == c then 0
    else
      var i := CharIndex(s[1..], c);
      assert s[..i + 1] == [s[0]] + s[1..][..i];
      i + 1
  }

  /** `s.split(c)` for a single character: every piece, empty ones included. */
  function SplitChar(s: string, c: char): (r: seq<string>)
    ensures |r| >= 1
    ensures forall i :: 0 <= i < |r| ==> c !in r[i]
    decreases |s|
  {
    var i := CharIndex(s, c);
    if i == |s| then
      assert s[..i] == s;
      [s]
    else [s[..i]] + SplitChar(s[i + 1..], c)
  }

  /** `trim_end_matches(pat)`: removes every trailing repetition of `pat`. */
  function TrimEndMatches(s: string, pat: string): (r: string)
    requires pat != []
    ensures !EndsWith(r, pat)
    ensures StartsWith(s, r)
  {
    if EndsWith(s, pat) then
      var r := TrimEndMatches(s[..|s| - |pat|], pat);
      assert s[..|s| - |pat|][..|r|] == s[..|r|];
      r
    else s
  }

  /** Decimal rendering of a natural number, as `{}` formats an unsigned integer. */
  function NatToString(n: nat): (r: string)
    ensures r != []
    ensures forall i :: 0 <= i < |r| ==> '0' <= r[i] <= '9'
  {
    var digit := (48 + n % 10) as char;
    if n < 10 then [digit] else NatToString(n / 10) + [digit]
  }

  /** Lexicographic order on code points (equal to byte order on UTF-8, as Rust and SQLite compare text). */
  predicate Less(a: string, b: string)
  {
    if b == [] then false
    else if a == [] then true
    else if a[0] != b[0] then a[0] < b[0]
    else Less(a[1..], b[1..])
  }

  lemma {:induction false} LessIrreflexive(a: string)
    ensures !Less(a, a)
  {
    if a != [] {
      LessIrreflexive(a[1..]);
    }
  }

  lemma {:induction false} LessTransitive(a: string, b: string, c: string)
    requires Less(a, b) && Less(b, c)
    ensures Less(a, c)
  {
    if a != [] && a[0] == b[0] && b[0] == c[0] {
      LessTransitive(a[1..], b[1..], c[1..]);
    }
  }

  lemma {:induction false} LessTotal(a: string, b: string)
    requires a != b
    ensures Less(a, b) || Less(b, a)
  {
    if a != [] && b != [] && a[0] == b[0] {
      assert a == [a[0]] + a[1..] && b == [b[0]] + b[1..];
      LessTotal(a[1..], b[1..]);
    }
  }
}
