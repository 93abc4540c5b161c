/** String helpers with the semantics of the Rust `str` methods the system calls:
    `trim`, `split_whitespace`, `starts_with`, `ends_with`, `len` (UTF-8 bytes) and
    integer formatting. */
module Text {

  /** The Unicode White_Space property, which Rust's `char::is_whitespace` tests. */
  predicate IsWhitespace(c: char) {
    ('\U{9}' <= c <= '\U{D}') || c == ' ' || c == '\U{85}' || c == '\U{A0}' || c == '\U{1680}'
    || ('\U{2000}' <= c <= '\U{200A}') || c == '\U{2028}' || c == '\U{2029}' || c == '\U{202F}'
    || c == '\U{205F}' || c == '\U{3000}'
  }

  predicate AllWhitespace(s: string) {
    forall i :: 0 <= i < |s| ==> IsWhitespace(s[i])
  }

  predicate StartsWith(s: string, prefix: string) {
    |prefix| <= |s| && s[..|prefix|] == prefix
  }

  predicate EndsWith(s: string, suffix: string) {
    |suffix| <= |s| && s[|s| - |suffix|..] == suffix
  }

  /** Concatenation is associative. */
  lemma AppendAssociative(a: string, b: string, c: string)
    ensures (a + b) + c == a + (b + c)
  {
  }

  lemma EndsWithAppend(a: string, b: string)
    ensures EndsWith(a + b, b)
  {
    assert (a + b)[|a + b| - |b|..] == b;
  }

  lemma EndsWithExtend(a: string, b: string, x: string)
    requires EndsWith(b, x)
    ensures EndsWith(a + b, x)
  {
    assert (a + b)[|a + b| - |x|..] == b[|b| - |x|..];
  }

  lemma AllWhitespaceConcat(a: string, b: string)
    ensures AllWhitespace(a + b) <==> AllWhitespace(a) && AllWhitespace(b)
  {
    if AllWhitespace(a) && AllWhitespace(b) {
      forall i | 0 <= i < |a + b| ensures IsWhitespace((a + b)[i]) {
        if i >= |a| { assert (a + b)[i] == b[i - |a|]; }
      }
    }
    if AllWhitespace(a + b) {
      forall i | 0 <= i < |a| ensures IsWhitespace(a[i]) {
        assert a[i] == (a + b)[i];
      }
      forall i | 0 <= i < |b| ensures IsWhitespace(b[i]) {
        assert b[i] == (a + b)[i + |a|];
      }
    }
  }

  /** The number of leading whitespace characters of `s`. */
  function LeadingWhitespace(s: string): (n: nat)
    ensures n <= |s|
  {
    if s != [] && IsWhitespace(s[0]) then 1 + LeadingWhitespace(s[1..]) else 0
  }

  /** The number of trailing whitespace characters of `s`. */
  function TrailingWhitespace(s: string): (n: nat)
    ensures n <= |s|
  {
    if s != [] && IsWhitespace(s[|s| - 1]) then 1 + TrailingWhitespace(s[..|s| - 1]) else 0
  }

  /** The leading run is all whitespace and is maximal. */
  lemma {:induction false} LeadingWhitespaceMaximal(s: string)
    ensures AllWhitespace(s[..LeadingWhitespace(s)])
    ensures LeadingWhitespace(s) < |s| ==> !IsWhitespace(s[LeadingWhitespace(s)])
  {
    if s != [] && IsWhitespace(s[0]) {
      var n := LeadingWhitespace(s[1..]);
      LeadingWhitespaceMaximal(s[1..]);
      assert s[..1 + n] == [s[0]] + s[1..][..n];
      AllWhitespaceConcat([s[0]], s[1..][..n]);
    } else {
      assert s[..0] == [];
    }
  }

  /** The trailing run is all whitespace and is maximal. */
  lemma {:induction false} TrailingWhitespaceMaximal(s: string)
    ensures AllWhitespace(s[|s| - TrailingWhitespace(s)..])
    ensures TrailingWhitespace(s) < |s| ==> !IsWhitespace(s[|s| - 1 - TrailingWhitespace(s)])
  {
    if s != [] && IsWhitespace(s[|s| - 1]) {
      var t := s[..|s| - 1];
      var n := TrailingWhitespace(t);
      TrailingWhitespaceMaximal(t);
      assert s[|s| - (1 + n)..] == t[|t| - n..] + [s[|s| - 1]];
      AllWhitespaceConcat(t[|t| - n..], [s[|s| - 1]]);
    } else {
      assert s[|s|..] == [];
    }
  }

  /** `str::trim_start`: drops the leading whitespace. */
  function TrimStart(s: string): (r: string)
    ensures |r| <= |s|
  {
    s[LeadingWhitespace(s)..]
  }

  /** What `TrimStart` drops is all whitespace, and what it keeps is a suffix that does not
      start with whitespace. */
  lemma TrimStartSpec(s: string)
    ensures var r := TrimStart(s);
      r == s[|s| - |r|..] && AllWhitespace(s[..|s| - |r|]) && (r == [] || !IsWhitespace(r[0]))
  {
    LeadingWhitespaceMaximal(s);
  }

  /** `str::trim_end`: drops the trailing whitespace. */
  function TrimEnd(s: string): (r: string)
    ensures |r| <= |s|
  {
    s[..|s| - TrailingWhitespace(s)]
  }

  /** What `TrimEnd` drops is all whitespace, and what it keeps is a prefix that does not end
      with whitespace. */
  lemma TrimEndSpec(s: string)
    ensures var r := TrimEnd(s);
      r == s[..|r|] && AllWhitespace(s[|r|..]) && (r == [] || !IsWhitespace(r[|r| - 1]))
  {
    TrailingWhitespaceMaximal(s);
  }

  /** `str::trim`: drops the leading and the trailing whitespace. */
  function Trim(s: string): (r: string)
    ensures |r| <= |s|
  {
    TrimEnd(TrimStart(s))
  }

  /** `Trim` keeps the longest infix of `s` that neither starts nor ends with whitespace: it is
      empty exactly when `s` is all whitespace, and it is `s` itself when `s` neither starts nor
      ends with whitespace. */
  lemma TrimSpec(s: string)
    ensures var r := Trim(s);
      (r == [] <==> AllWhitespace(s)) &&
      (r != [] ==> !IsWhitespace(r[0]) && !IsWhitespace(r[|r| - 1])) &&
      (s != [] && !IsWhitespace(s[0]) && !IsWhitespace(s[|s| - 1]) ==> r == s)
  {
    var t := TrimStart(s);
    var r := TrimEnd(t);
    TrimStartSpec(s);
    TrimEndSpec(t);
    assert r != [] ==> r[0] == t[0];
    if r == [] {
      assert s == s[..|s| - |t|] + t;
      AllWhitespaceConcat(s[..|s| - |t|], t);
    }
  }

  /** The leading run of non-whitespace characters. */
  function Word(s: string): (r: string)
    ensures |r| <= |s| && r == s[..|r|]
    ensures forall i :: 0 <= i < |r| ==> !IsWhitespace(r[i])
    ensures |r| < |s| ==> IsWhitespace(s[|r|])
    ensures s != [] && !IsWhitespace(s[0]) ==> IsWord(r)
  {
    if s == [] || IsWhitespace(s[0]) then [] else [s[0]] + Word(s[1..])
  }

  /** A non-empty run of non-whitespace characters. */
  predicate IsWord(w: string) {
    w != [] && forall i :: 0 <= i < |w| ==> !IsWhitespace(w[i])
  }

  /** `str::split_whitespace`: the maximal non-whitespace runs of `s`, in order. */
  function Words(s: string): (r: seq<string>)
    ensures forall i :: 0 <= i < |r| ==> IsWord(r[i])
    ensures r == [] <==> AllWhitespace(s)
    decreases |s|
  {
    var t := TrimStart(s);
    TrimStartSpec(s);
    if t == [] then
      []
    else
      var w := Word(t);
      var rest := Words(t[|w|..]);
      assert !IsWhitespace(s[|s| - |t|]);
      PrependWord(w, rest);
      [w] + rest
  }

  lemma PrependWord(w: string, rest: seq<string>)
    requires IsWord(w) && forall i :: 0 <= i < |rest| ==> IsWord(rest[i])
    ensures forall i :: 0 <= i < |rest| + 1 ==> IsWord(([w] + rest)[i])
  {
    forall i | 0 <= i < |rest| + 1 ensures IsWord(([w] + rest)[i]) {
      if i > 0 { assert ([w] + rest)[i] == rest[i - 1]; }
    }
  }

  /** `[..].join(sep)`. */
  function Join(parts: seq<string>, sep: string): string {
    if parts == [] then ""
    else if |parts| == 1 then parts[0]
    else parts[0] + sep + Join(parts[1..], sep)
  }

  /** The number of bytes of the UTF-8 encoding of `c`. */
  function Utf8Width(c: char): (n: nat)
    ensures 1 <= n <= 4
  {
    if c < '\U{80}' then 1 else if c < '\U{800}' then 2 else if c < '\U{10000}' then 3 else 4
  }

  /** `str::len`: the length of the UTF-8 encoding of `s`, in bytes. */
  function Utf8Len(s: string): (n: nat)
    ensures |s| <= n <= 4 * |s|
    ensures n == 0 <==> s == []
  {
    if s == [] then 0 else Utf8Width(s[0]) + Utf8Len(s[1..])
  }

  function DigitChar(d: nat): char
    requires d < 10
  {
    "0123456789"[d]
  }

  /** Decimal formatting of a natural number, as `format!("{}", n)` does it. */
  function NatToString(n: nat): (r: string)
    ensures r != []
    ensures |r| == 1 <==> n < 10
    ensures forall i :: 0 <= i < |r| ==> '0' <= r[i] <= '9'
  {
    if n < 10 then [DigitChar(n)] else NatToString(n / 10) + [DigitChar(n % 10)]
  }

  /** Distinct numbers are formatted differently. */
  lemma {:induction false} NatToStringInjective(a: nat, b: nat)
    requires NatToString(a) == NatToString(b)
    ensures a == b
    decreases a
  {
    var r := NatToString(a);
    if a < 10 || b < 10 {
      assert a < 10 && b < 10;
      assert "0123456789"[a] == r[0] == "0123456789"[b];
    } else {
      assert r[|r| - 1] == DigitChar(a % 10) == DigitChar(b % 10);
      assert "0123456789"[a % 10] == "0123456789"[b % 10];
      assert r[..|r| - 1] == NatToString(a / 10) == NatToString(b / 10);
      NatToStringInjective(a / 10, b / 10);
    }
  }

  /** The number of occurrences of `c` in `s`. */
  function Count(s: string, c: char): nat {
    if s == [] then 0 else (if s[0] == c then 1 else 0) + Count(s[1..], c)
  }

  lemma {:induction false} CountConcat(a: string, b: string, c: char)
    ensures Count(a + b, c) == Count(a, c) + Count(b, c)
  {
    if a != [] {
      assert (a + b)[1..] == a[1..] + b;
      CountConcat(a[1..], b, c);
    } else {
      assert a + b == b;
    }
  }

  lemma CountAbsent(s: string, c: char)
    requires c !in s
    ensures Count(s, c) == 0
  {
    if s != [] {
      assert c !in s[1..];
      CountAbsent(s[1..], c);
    }
  }
}
