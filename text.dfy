/** The pieces of Rust's `str` API that the agent's parsers and the admin
    gate use, on `string = seq<char>`: `starts_with`, `strip_prefix`,
    `trim_start_matches`, `trim_matches`, `trim`, `split_whitespace`,
    `split_once`, `split(c).nth(1)`, `contains` and `u64::from_str`, plus
    decimal printing, which the lemmas use to build well-formed input. */
module Text {
  import opened Common

  /** `char::is_whitespace`: the Unicode White_Space property. */
  predicate IsWhitespace(c: char) {
    ('\t' <= c <= '\r') || c == ' ' || c == '\U{0085}' || c == '\U{00A0}' ||
    c == '\U{1680}' || ('\U{2000}' <= c <= '\U{200A}') || c == '\U{2028}' ||
    c == '\U{2029}' || c == '\U{202F}' || c == '\U{205F}' || c == '\U{3000}'
  }

  predicate NoWhitespace(w: string) {
    forall i :: 0 <= i < |w| ==> !IsWhitespace(w[i])
  }

  predicate StartsWith(s: string, prefix: string) {
    |prefix| <= |s| && s[..|prefix|] == prefix
  }

  /** Two prefixes that differ at some position cannot both start `s`. */
  lemma PrefixesDiffer(s: string, p: string, q: string, k: nat)
    requires StartsWith(s, p)
    requires k < |p| && k < |q| && p[k] != q[k]
    ensures !StartsWith(s, q)
  {
    assert s[..|p|][k] == s[k];
    assert |q| <= |s| ==> s[..|q|][k] == s[k];
  }

  /** `str::strip_prefix`. */
  function StripPrefix(s: string, prefix: string): (r: Option<string>)
    ensures r.Some? <==> StartsWith(s, prefix)
    ensures r.Some? ==> s == prefix + r.value
  {
    if StartsWith(s, prefix) then Some(s[|prefix|..]) else None
  }

  /** `str::trim_start_matches` with a non-empty string pattern: removes the
      pattern from the front as many times as it occurs there. */
  function TrimStartMatches(s: string, pattern: string): (r: string)
    requires pattern != []
    ensures |r| <= |s|
    ensures !StartsWith(r, pattern)
    ensures !StartsWith(s, pattern) ==> r == s
    decreases |s|
  {
    if StartsWith(s, pattern) then TrimStartMatches(s[|pattern|..], pattern) else s
  }

  /** What is left is a suffix of the input. */
  lemma {:induction false} TrimStartMatchesIsSuffix(s: string, pattern: string)
    requires pattern != []
    ensures TrimStartMatches(s, pattern) == s[|s| - |TrimStartMatches(s, pattern)|..]
    decreases |s|
  {
    if StartsWith(s, pattern) {
      var rest := s[|pattern|..];
      TrimStartMatchesIsSuffix(rest, pattern);
      var r := TrimStartMatches(rest, pattern);
      assert rest[|rest| - |r|..] == s[|s| - |r|..];
    }
  }

  /** A leading copy of the pattern is dropped like the rest: the result is
      what follows all the whole copies at the front. */
  lemma TrimStartMatchesDropsCopy(s: string, pattern: string)
    requires pattern != []
    ensures TrimStartMatches(pattern + s, pattern) == TrimStartMatches(s, pattern)
  {
    var t := pattern + s;
    assert t[..|pattern|] == pattern;
    assert t[|pattern|..] == s;
  }

  /** Drops leading characters that satisfy `drop`. */
  function TrimStartBy(s: string, drop: char -> bool): (r: string)
    ensures |r| <= |s|
    ensures r == [] || !drop(r[0])
    decreases |s|
  {
    if |s| > 0 && drop(s[0]) then TrimStartBy(s[1..], drop) else s
  }

  /** Drops trailing characters that satisfy `drop`. */
  function TrimEndBy(s: string, drop: char -> bool): (r: string)
    ensures |r| <= |s|
    ensures r == [] || !drop(r[|r| - 1])
    decreases |s|
  {
    if |s| > 0 && drop(s[|s| - 1]) then TrimEndBy(s[..|s| - 1], drop) else s
  }

  /** `str::trim`. */
  function Trim(s: string): string {
    TrimEndBy(TrimStartBy(s, IsWhitespace), IsWhitespace)
  }

  /** Drops leading copies of `c`. */
  function TrimStartChar(s: string, c: char): (r: string)
    ensures |r| <= |s|
    ensures r == [] || r[0] != c
    decreases |s|
  {
    if |s| > 0 && s[0] == c then TrimStartChar(s[1..], c) else s
  }

  /** Drops trailing copies of `c`. */
  function TrimEndChar(s: string, c: char): (r: string)
    ensures |r| <= |s|
    ensures r == [] || r[|r| - 1] != c
    decreases |s|
  {
    if |s| > 0 && s[|s| - 1] == c then TrimEndChar(s[..|s| - 1], c) else s
  }

  /** `str::trim_matches(c)` for a single character. */
  function TrimMatches(s: string, c: char): string {
    TrimEndChar(TrimStartChar(s, c), c)
  }

  /** Trimming `c` from a text enclosed in one `c` on each side, which
      neither starts nor ends with `c` itself, gives the text back. */
  lemma TrimMatchesEnclosed(v: string, c: char)
    requires v != [] && v[0] != c && v[|v| - 1] != c
    ensures TrimMatches([c] + v + [c], c) == v
  {
    var q := [c] + v + [c];
    assert q[1..] == v + [c];
    assert TrimStartChar(v + [c], c) == v + [c] by {
      assert (v + [c])[0] == v[0];
    }
    assert (v + [c])[..|v|] == v;
    assert TrimEndChar(v, c) == v;
  }

  /** Length of the run of non-whitespace characters at the front of `s`. */
  function WordLength(s: string): (n: nat)
    ensures n <= |s|
    ensures NoWhitespace(s[..n])
    ensures n == |s| || IsWhitespace(s[n])
  {
    if |s| == 0 || IsWhitespace(s[0]) then 0 else 1 + WordLength(s[1..])
  }

  /** `str::split_whitespace`, collected into a sequence. */
  function SplitWhitespace(s: string): (words: seq<string>)
    ensures forall i :: 0 <= i < |words| ==> words[i] != [] && NoWhitespace(words[i])
    decreases |s|
  {
    if |s| == 0 then []
    else if IsWhitespace(s[0]) then SplitWhitespace(s[1..])
    else
      var n := WordLength(s);
      [s[..n]] + SplitWhitespace(s[n..])
  }

  /** Words joined by single spaces: what `split_whitespace` takes apart. */
  function JoinWords(words: seq<string>): string {
    if |words| == 0 then ""
    else if |words| == 1 then words[0]
    else words[0] + " " + JoinWords(words[1..])
  }

  predicate ProperWords(words: seq<string>) {
    forall i :: 0 <= i < |words| ==> words[i] != [] && NoWhitespace(words[i])
  }

  lemma {:induction false} WordLengthOfWord(w: string, tail: string)
    requires NoWhitespace(w)
    requires tail == [] || IsWhitespace(tail[0])
    ensures WordLength(w + tail) == |w|
    decreases |w|
  {
    if |w| > 0 {
      assert (w + tail)[1..] == w[1..] + tail;
      WordLengthOfWord(w[1..], tail);
    } else {
      assert w + tail == tail;
    }
  }

  /** `split_whitespace` recovers the words that `JoinWords` put together. */
  lemma {:induction false} SplitJoinWords(words: seq<string>)
    requires ProperWords(words)
    ensures SplitWhitespace(JoinWords(words)) == words
    decreases |words|
  {
    if |words| == 1 {
      var w := words[0];
      WordLengthOfWord(w, "");
      assert w + "" == w;
      assert w[|w|..] == [];
      assert w[..|w|] == w;
    } else if |words| > 1 {
      var w := words[0];
      var rest := JoinWords(words[1..]);
      var s := w + " " + rest;
      assert s == w + (" " + rest);
      WordLengthOfWord(w, " " + rest);
      assert s[..|w|] == w;
      assert s[|w|..] == " " + rest;
      assert (" " + rest)[1..] == rest;
      SplitJoinWords(words[1..]);
    }
  }

  /** Index of the first occurrence of `c` in `s`, if any. */
  function IndexOf(s: string, c: char): (r: Option<nat>)
    ensures r.Some? ==> r.value < |s| && s[r.value] == c && c !in s[..r.value]
    ensures r.None? ==> c !in s
  {
    if |s| == 0 then None
    else if s[0] == c then Some(0)
    else
      match IndexOf(s[1..], c)
      case None => None
      case Some(i) => Some(i + 1)
  }

  lemma {:induction false} IndexOfJoin(a: string, b: string, c: char)
    requires c !in a
    ensures IndexOf(a + [c] + b, c) == Some(|a|)
    decreases |a|
  {
    if |a| > 0 {
      assert (a + [c] + b)[1..] == a[1..] + [c] + b;
      IndexOfJoin(a[1..], b, c);
    }
  }

  /** `str::split_once(c)`: the text before the first `c` and the text after it. */
  function SplitOnce(s: string, c: char): (r: Option<(string, string)>)
    ensures r.Some? ==> s == r.value.0 + [c] + r.value.1 && c !in r.value.0
    ensures r.None? ==> c !in s
  {
    match IndexOf(s, c)
    case None => None
    case Some(i) =>
      assert s == s[..i] + [c] + s[i + 1..];
      Some((s[..i], s[i + 1..]))
  }

  /** Splitting at the first `c` undoes joining around a `c`-free left part. */
  lemma SplitOnceJoin(a: string, b: string, c: char)
    requires c !in a
    ensures SplitOnce(a + [c] + b, c) == Some((a, b))
  {
    IndexOfJoin(a, b, c);
    var s := a + [c] + b;
    assert s[..|a|] == a;
    assert s[|a| + 1..] == b;
  }

  /** `s.split(c).nth(1)`: the piece between the first and second `c`
      (or the end), present exactly when `s` contains `c`. */
  function SecondPiece(s: string, c: char): (r: Option<string>)
    ensures r.Some? <==> c in s
    ensures r.Some? ==> c !in r.value
  {
    match SplitOnce(s, c)
    case None => None
    case Some((_, rest)) =>
      match SplitOnce(rest, c)
      case None => Some(rest)
      case Some((middle, _)) => Some(middle)
  }

  /** The piece is the text between the first `c` and the next one, or
      the end of the string when there is no second `c`. */
  lemma SecondPieceOfJoin(a: string, b: string, d: string, c: char)
    requires c !in a && c !in b
    ensures SecondPiece(a + [c] + b, c) == Some(b)
    ensures SecondPiece(a + [c] + b + [c] + d, c) == Some(b)
  {
    SplitOnceJoin(a, b, c);
    SplitOnceJoin(b, d, c);
    SplitOnceJoin(a, b + [c] + d, c);
    assert a + [c] + (b + [c] + d) == a + [c] + b + [c] + d;
  }

  /** `str::contains` with a string pattern. */
  predicate Contains(s: string, pattern: string)
    decreases |s|
  {
    StartsWith(s, pattern) || (|s| > 0 && Contains(s[1..], pattern))
  }

  predicate IsDigit(c: char) {
    '0' <= c <= '9'
  }

  predicate AllDigits(s: string) {
    forall i :: 0 <= i < |s| ==> IsDigit(s[i])
  }

  function DigitValue(c: char): (d: nat)
    requires IsDigit(c)
    ensures d < 10
  {
    c as int - '0' as int
  }

  function DigitChar(d: nat): (c: char)
    requires d < 10
    ensures IsDigit(c) && DigitValue(c) == d
  {
    ('0' as int + d) as char
  }

  /** Value of a string of decimal digits, most significant first. */
  function DigitsValue(s: string): nat
    requires AllDigits(s)
  {
    if |s| == 0 then 0 else DigitsValue(s[..|s| - 1]) * 10 + DigitValue(s[|s| - 1])
  }

  /** `str::parse::<u64>`: an optional '+', then one or more ASCII digits,
      whose value fits in 64 bits; anything else is an error. */
  function ParseU64(s: string): (r: Option<nat>)
    ensures r.Some? ==> IsU64(r.value)
  {
    var digits := if |s| > 0 && s[0] == '+' then s[1..] else s;
    if |digits| == 0 || !AllDigits(digits) then None
    else if DigitsValue(digits) <= U64_MAX then Some(DigitsValue(digits))
    else None
  }

  /** Decimal representation of `n`, without leading zeros. */
  function ShowNat(n: nat): (s: string)
    ensures s != [] && AllDigits(s)
    decreases n
  {
    if n < 10 then [DigitChar(n)] else ShowNat(n / 10) + [DigitChar(n % 10)]
  }

  lemma {:induction false} ShowNatValue(n: nat)
    ensures DigitsValue(ShowNat(n)) == n
    decreases n
  {
    if n >= 10 {
      var s := ShowNat(n);
      assert s[..|s| - 1] == ShowNat(n / 10);
      ShowNatValue(n / 10);
    }
  }

  /** Parsing a printed `u64` gives the number back. */
  lemma ParseShowNat(n: nat)
    requires IsU64(n)
    ensures ParseU64(ShowNat(n)) == Some(n)
  {
    ShowNatValue(n);
  }

  lemma ShowNatIsWord(n: nat)
    ensures ShowNat(n) != [] && NoWhitespace(ShowNat(n))
  {
    var s := ShowNat(n);
    forall i | 0 <= i < |s| ensures !IsWhitespace(s[i]) {
      assert IsDigit(s[i]);
    }
  }
}
