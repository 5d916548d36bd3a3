/** The PHP string built-ins the token helpers use: truthiness of a string,
    `trim`, ASCII case folding for `stripos`, `explode`, the decimal text of
    an int and the `(int)` cast of a string. */
module PhpStrings {

  /** PHP strings are byte strings: a `string` here holds one byte per
      character. */
  predicate IsByteString(s: string) {
    forall i :: 0 <= i < |s| ==> s[i] as int < 256
  }

  /** A string is falsy in PHP when it is empty or "0". */
  predicate Truthy(s: string) {
    s != "" && s != "0"
  }

  /** The characters `trim` strips by default: space, tab, newline,
      carriage return, NUL and vertical tab. */
  predicate IsTrimmed(c: char) {
    c == ' ' || c == '\t' || c == '\n' || c == '\r' || c == '\0' || c == '\U{0B}'
  }

  predicate AllTrimmed(s: string) {
    forall i :: 0 <= i < |s| ==> IsTrimmed(s[i])
  }

  /** `ltrim`: drops the leading trim characters. */
  function TrimLeft(s: string): (r: string)
    ensures |r| <= |s|
    ensures r != [] ==> !IsTrimmed(r[0])
  {
    if s != [] && IsTrimmed(s[0]) then TrimLeft(s[1..]) else s
  }

  /** What `ltrim` drops is a prefix made of trim characters only. */
  lemma {:induction false} TrimLeftDrops(s: string)
    ensures TrimLeft(s) == s[|s| - |TrimLeft(s)|..]
    ensures AllTrimmed(s[..|s| - |TrimLeft(s)|])
  {
    if s != [] && IsTrimmed(s[0]) {
      TrimLeftDrops(s[1..]);
      var k := |s| - |TrimLeft(s)|;
      assert s[1..][k - 1..] == s[k..];
    }
  }

  /** `rtrim`: drops the trailing trim characters. */
  function TrimRight(s: string): (r: string)
    ensures |r| <= |s|
    ensures r != [] ==> !IsTrimmed(r[|r| - 1])
  {
    if s != [] && IsTrimmed(s[|s| - 1]) then TrimRight(s[..|s| - 1]) else s
  }

  /** What `rtrim` drops is a suffix made of trim characters only. */
  lemma {:induction false} TrimRightDrops(s: string)
    ensures TrimRight(s) == s[..|TrimRight(s)|]
    ensures AllTrimmed(s[|TrimRight(s)|..])
  {
    if s != [] && IsTrimmed(s[|s| - 1]) {
      TrimRightDrops(s[..|s| - 1]);
      var k := |TrimRight(s)|;
      assert s[..|s| - 1][..k] == s[..k];
    }
  }

  /** `trim`: `s` without its leading and trailing trim characters; the
      result has none at either end (`TrimAround` shows it is the only such
      middle part). */
  function Trim(s: string): (r: string)
    ensures |r| <= |s|
    ensures r != [] ==> !IsTrimmed(r[0]) && !IsTrimmed(r[|r| - 1])
  {
    TrimRightDrops(TrimLeft(s));
    TrimRight(TrimLeft(s))
  }

  /** Trimming a string that has trim characters only around a core with
      none at either end gives that core. */
  lemma {:induction false} TrimAround(w1: string, x: string, w2: string)
    requires AllTrimmed(w1) && AllTrimmed(w2)
    requires x != [] ==> !IsTrimmed(x[0]) && !IsTrimmed(x[|x| - 1])
    ensures Trim(w1 + x + w2) == x
  {
    if x == [] {
      var w := w1 + x + w2;
      assert AllTrimmed(w);
      assert w == w + [];
      TrimLeftAfter(w, []);
    } else {
      assert w1 + x + w2 == w1 + (x + w2);
      TrimLeftAfter(w1, x + w2);
      TrimRightBefore(x, w2);
    }
  }

  /** `ltrim` skips exactly the trim characters before `x`. */
  lemma {:induction false} TrimLeftAfter(w: string, x: string)
    requires AllTrimmed(w) && (x != [] ==> !IsTrimmed(x[0]))
    ensures TrimLeft(w + x) == x
    decreases |w|
  {
    if w != [] {
      assert (w + x)[1..] == w[1..] + x;
      TrimLeftAfter(w[1..], x);
    }
  }

  /** `rtrim` skips exactly the trim characters after `x`. */
  lemma {:induction false} TrimRightBefore(x: string, w: string)
    requires AllTrimmed(w) && (x != [] ==> !IsTrimmed(x[|x| - 1]))
    ensures TrimRight(x + w) == x
    decreases |w|
  {
    if w != [] {
      assert (x + w)[..|x + w| - 1] == x + w[..|w| - 1];
      TrimRightBefore(x, w[..|w| - 1]);
    } else {
      assert x + w == x;
    }
  }

  /** One character in ASCII lower case. */
  function LowerChar(c: char): char {
    if 'A' <= c <= 'Z' then (c as int + 32) as char else c
  }

  /** ASCII lower case, as `stripos` compares. */
  function LowerAscii(s: string): (r: string)
    ensures |r| == |s|
    ensures forall i :: 0 <= i < |s| ==> r[i] == LowerChar(s[i])
  {
    if s == [] then [] else [LowerChar(s[0])] + LowerAscii(s[1..])
  }

  /** `explode(':', s)`: the pieces of `s` between colons, from left to
      right; a string without a colon is one piece. */
  function Explode(s: string): (parts: seq<string>)
    ensures |parts| >= 1
    ensures forall k :: 0 <= k < |parts| ==> ':' !in parts[k]
  {
    if s == [] then [""]
    else
      var rest := Explode(s[1..]);
      if s[0] == ':' then [""] + rest
      else [[s[0]] + rest[0]] + rest[1..]
  }

  /** `implode(':', parts)`, the inverse of `Explode`. */
  function Join(parts: seq<string>): string
    requires |parts| >= 1
  {
    if |parts| == 1 then parts[0] else parts[0] + ":" + Join(parts[1..])
  }

  /** Joining the pieces with colons gives the string back. */
  lemma {:induction false} JoinExplode(s: string)
    ensures Join(Explode(s)) == s
  {
    if s != [] {
      var rest := Explode(s[1..]);
      JoinExplode(s[1..]);
      if s[0] == ':' {
        assert ([""] + rest)[1..] == rest;
      } else {
        var parts := [[s[0]] + rest[0]] + rest[1..];
        if |rest| > 1 {
          assert parts[1..] == rest[1..];
        }
      }
    }
  }

  /** There are two pieces or more exactly when there is a colon. */
  lemma {:induction false} ExplodeSplits(s: string)
    ensures |Explode(s)| >= 2 <==> ':' in s
  {
    if s != [] {
      ExplodeSplits(s[1..]);
      assert ':' in s <==> s[0] == ':' || ':' in s[1..];
    }
  }

  /** A colon-free prefix followed by a colon is the first piece. */
  lemma {:induction false} ExplodeField(a: string, rest: string)
    requires ':' !in a
    ensures Explode(a + ":" + rest) == [a] + Explode(rest)
  {
    if a == [] {
      assert a + ":" + rest == [':'] + rest;
      assert ([':'] + rest)[1..] == rest;
    } else {
      assert (a + ":" + rest)[1..] == a[1..] + ":" + rest;
      ExplodeField(a[1..], rest);
      assert [a[0]] + a[1..] == a;
    }
  }

  /** A colon-free string is a single piece. */
  lemma {:induction false} ExplodeWhole(a: string)
    requires ':' !in a
    ensures Explode(a) == [a]
  {
    if a != [] {
      ExplodeWhole(a[1..]);
      assert [a[0]] + a[1..] == a;
    }
  }

  predicate IsDigit(c: char) {
    '0' <= c <= '9'
  }

  predicate AllDigits(s: string) {
    forall i :: 0 <= i < |s| ==> IsDigit(s[i])
  }

  function DigitChar(d: int): (c: char)
    requires 0 <= d < 10
    ensures IsDigit(c)
  {
    ('0' as int + d) as char
  }

  /** The decimal digits of a natural number, most significant first. */
  function Digits(n: nat): (r: string)
    ensures |r| >= 1 && AllDigits(r)
  {
    if n < 10 then [DigitChar(n)] else Digits(n / 10) + [DigitChar(n % 10)]
  }

  /** PHP's string form of an int: its digits, after a '-' when negative. */
  function DecimalOf(n: int): (r: string)
    ensures r != [] && ':' !in r && IsByteString(r)
    ensures forall i :: 0 <= i < |r| ==> r[i] == '-' || IsDigit(r[i])
  {
    if n < 0 then "-" + Digits(-n) else Digits(n)
  }

  /** The value of a digit string, most significant digit first. */
  function DigitsValue(ds: string): (v: nat)
    requires AllDigits(ds)
  {
    if ds == [] then 0 else DigitsValue(ds[..|ds| - 1]) * 10 + (ds[|ds| - 1] as int - '0' as int)
  }

  /** The run of digits at the start of `s`. */
  function DigitPrefix(s: string): (r: string)
    ensures AllDigits(r) && |r| <= |s|
  {
    if s == [] || !IsDigit(s[0]) then [] else [s[0]] + DigitPrefix(s[1..])
  }

  /** `DigitPrefix` is the longest prefix made of digits: the character
      after it, if any, is not a digit. */
  lemma {:induction false} DigitPrefixLongest(s: string)
    ensures DigitPrefix(s) == s[..|DigitPrefix(s)|]
    ensures |DigitPrefix(s)| < |s| ==> !IsDigit(s[|DigitPrefix(s)|])
  {
    if s != [] && IsDigit(s[0]) {
      DigitPrefixLongest(s[1..]);
      assert [s[0]] + s[1..][..|DigitPrefix(s[1..])|] == s[..|DigitPrefix(s)|];
    }
  }

  /** The whitespace a numeric string may start with. */
  predicate IsLeadingSpace(c: char) {
    c == ' ' || c == '\t' || c == '\n' || c == '\r' || c == '\U{0B}' || c == '\U{0C}'
  }

  function SkipLeadingSpace(s: string): (r: string)
    ensures |r| <= |s|
    ensures r != [] ==> !IsLeadingSpace(r[0])
  {
    if s != [] && IsLeadingSpace(s[0]) then SkipLeadingSpace(s[1..]) else s
  }

  /** What `SkipLeadingSpace` skips is a prefix of `s` made of leading
      whitespace only. */
  lemma {:induction false} SkipLeadingSpaceSuffix(s: string)
    ensures SkipLeadingSpace(s) == s[|s| - |SkipLeadingSpace(s)|..]
    ensures forall i :: 0 <= i < |s| - |SkipLeadingSpace(s)| ==> IsLeadingSpace(s[i])
  {
    if s != [] && IsLeadingSpace(s[0]) {
      SkipLeadingSpaceSuffix(s[1..]);
      assert s[1..][|s| - 1 - |SkipLeadingSpace(s)|..] == s[|s| - |SkipLeadingSpace(s)|..];
    }
  }

  /** `(int)$s`: leading whitespace, an optional sign and the longest run of
      digits after it; 0 when there are no digits. */
  function IntCast(s: string): (r: int)
    ensures r < 0 ==> SkipLeadingSpace(s) != [] && SkipLeadingSpace(s)[0] == '-'
    ensures SkipLeadingSpace(s) == [] ==> r == 0
  {
    var t := SkipLeadingSpace(s);
    if t != [] && t[0] == '-' then -(DigitsValue(DigitPrefix(t[1..])) as int)
    else if t != [] && t[0] == '+' then DigitsValue(DigitPrefix(t[1..]))
    else DigitsValue(DigitPrefix(t))
  }

  /** Reading back the digits of a number gives the number. */
  lemma {:induction false} DigitsValueOfDigits(n: nat)
    ensures DigitsValue(Digits(n)) == n
  {
    if n >= 10 {
      DigitsValueOfDigits(n / 10);
      var ds := Digits(n);
      assert ds[..|ds| - 1] == Digits(n / 10);
    }
  }

  /** A digit string is its own digit prefix. */
  lemma {:induction false} DigitPrefixOfDigits(s: string)
    requires AllDigits(s)
    ensures DigitPrefix(s) == s
  {
    if s != [] {
      DigitPrefixOfDigits(s[1..]);
      assert [s[0]] + s[1..] == s;
    }
  }

  /** Round trip: casting the decimal text of an int gives the int back. */
  lemma IntCastDecimal(n: int)
    ensures IntCast(DecimalOf(n)) == n
  {
    var d := DecimalOf(n);
    assert !IsLeadingSpace(d[0]);
    if n < 0 {
      assert d[1..] == Digits(-n);
      DigitPrefixOfDigits(Digits(-n));
      DigitsValueOfDigits(-n);
    } else {
      DigitPrefixOfDigits(Digits(n));
      DigitsValueOfDigits(n);
    }
  }
}
