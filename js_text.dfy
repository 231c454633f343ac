/**
 * The JavaScript string built-ins the services rely on: `trim`, `startsWith`,
 * `endsWith`, `indexOf`, `split`, number-to-string conversion and the global
 * `parseInt` of ECMA-262 (section 19.2.5 of the 2023 edition).
 */
module JsText {
  import opened Wrappers

  /**
   * The WhiteSpace and LineTerminator code points of ECMA-262; both
   * `String.prototype.trim` and `parseInt` strip exactly these.
   */
  predicate IsWhitespace(c: char) {
    || c == '\t' || c == '\n' || c == '\U{000B}' || c == '\U{000C}' || c == '\r' || c == ' '
    || c == '\U{00A0}' || c == '\U{1680}' || ('\U{2000}' <= c <= '\U{200A}')
    || c == '\U{2028}' || c == '\U{2029}' || c == '\U{202F}' || c == '\U{205F}'
    || c == '\U{3000}' || c == '\U{FEFF}'
  }

  predicate AllWhitespace(s: string) {
    forall i :: 0 <= i < |s| ==> IsWhitespace(s[i])
  }

  /** The first position from `i` on that does not hold whitespace, or `|s|`. */
  function SkipWhitespace(s: string, i: nat): (n: nat)
    requires i <= |s|
    ensures i <= n <= |s|
    decreases |s| - i
  {
    if i < |s| && IsWhitespace(s[i]) then SkipWhitespace(s, i + 1) else i
  }

  /** How many whitespace characters `s` starts with. */
  function LeadingWhitespace(s: string): (n: nat)
    ensures n <= |s|
  {
    SkipWhitespace(s, 0)
  }

  /** Where the whitespace at the end of `s[..j]` begins. */
  function TrailingFrom(s: string, j: nat): (n: nat)
    requires j <= |s|
    ensures n <= j
    decreases j
  {
    if j > 0 && IsWhitespace(s[j - 1]) then TrailingFrom(s, j - 1) else j
  }

  /** Where the whitespace at the end of `s` begins. */
  function TrailingWhitespace(s: string): (n: nat)
    ensures n <= |s|
  {
    TrailingFrom(s, |s|)
  }

  /** Every character of `s` from `lo` up to `hi` is whitespace. */
  predicate WhitespaceBetween(s: string, lo: int, hi: int)
    requires 0 <= lo && hi <= |s|
  {
    forall i :: lo <= i < hi ==> IsWhitespace(s[i])
  }

  /** Skipping whitespace from `i` passes only whitespace and stops at the first other character. */
  lemma {:induction false} SkipWhitespaceStops(s: string, i: nat)
    requires i <= |s|
    ensures var n := SkipWhitespace(s, i);
      WhitespaceBetween(s, i, n) && (n < |s| ==> !IsWhitespace(s[n]))
    decreases |s| - i
  {
    if i < |s| && IsWhitespace(s[i]) {
      SkipWhitespaceStops(s, i + 1);
    }
  }

  /** The trailing whitespace of `s[..j]` is whitespace, and the character before it is not. */
  lemma {:induction false} TrailingFromStops(s: string, j: nat)
    requires j <= |s|
    ensures var n := TrailingFrom(s, j);
      WhitespaceBetween(s, n, j) && (n > 0 ==> !IsWhitespace(s[n - 1]))
    decreases j
  {
    if j > 0 && IsWhitespace(s[j - 1]) {
      TrailingFromStops(s, j - 1);
    }
  }

  /** Drops the leading whitespace of `s`. */
  function TrimStart(s: string): string {
    s[LeadingWhitespace(s)..]
  }

  /** `String.prototype.trim`: `s` without its leading and trailing whitespace. */
  function Trim(s: string): string {
    var a := LeadingWhitespace(s);
    var b := TrailingWhitespace(s);
    if a < b then s[a..b] else []
  }

  /** A text trims to nothing exactly when it is made only of whitespace. */
  lemma TrimEmpty(s: string)
    ensures Trim(s) == [] <==> AllWhitespace(s)
  {
    if AllWhitespace(s) {
      SkipWhitespaceStops(s, 0);
    } else {
      var a, b := TrimCore(s);
    }
  }

  /** Where the trimmed text sits inside `s`: between whitespace margins, starting and ending with a non-whitespace character. */
  lemma TrimCore(s: string) returns (a: nat, b: nat)
    requires !AllWhitespace(s)
    ensures a < b <= |s| && Trim(s) == s[a..b]
    ensures WhitespaceBetween(s, 0, a) && WhitespaceBetween(s, b, |s|)
    ensures !IsWhitespace(s[a]) && !IsWhitespace(s[b - 1])
  {
    a := LeadingWhitespace(s);
    b := TrailingWhitespace(s);
    SkipWhitespaceStops(s, 0);
    TrailingFromStops(s, |s|);
    var k :| 0 <= k < |s| && !IsWhitespace(s[k]);
    assert a <= k < b;
  }

  /** Conversely, a slice between whitespace margins that starts and ends with non-whitespace is the trimmed text. */
  lemma TrimIsCore(s: string, a: nat, b: nat)
    requires a < b <= |s|
    requires WhitespaceBetween(s, 0, a) && WhitespaceBetween(s, b, |s|)
    requires !IsWhitespace(s[a]) && !IsWhitespace(s[b - 1])
    ensures Trim(s) == s[a..b]
  {
    assert !AllWhitespace(s) by {
      assert !IsWhitespace(s[a]);
    }
    var c, d := TrimCore(s);
    assert c == a && d == b;
  }

  /** Trimming does not see whitespace margins cut off beforehand. */
  lemma TrimDropsMargin(s: string, a: nat, b: nat)
    requires a <= b <= |s|
    requires WhitespaceBetween(s, 0, a) && WhitespaceBetween(s, b, |s|)
    ensures Trim(s[a..b]) == Trim(s)
  {
    var m := s[a..b];
    if AllWhitespace(s) {
      assert AllWhitespace(m) by {
        forall i | 0 <= i < |m| ensures IsWhitespace(m[i]) {
          assert m[i] == s[a + i];
        }
      }
      TrimEmpty(s);
      TrimEmpty(m);
    } else {
      var c, d := TrimCore(s);
      TrimOfMiddle(s, a, b, c, d);
    }
  }

  lemma TrimOfMiddle(s: string, a: nat, b: nat, c: nat, d: nat)
    requires a <= b <= |s| && c < d <= |s|
    requires WhitespaceBetween(s, 0, a) && WhitespaceBetween(s, b, |s|)
    requires WhitespaceBetween(s, 0, c) && WhitespaceBetween(s, d, |s|)
    requires !IsWhitespace(s[c]) && !IsWhitespace(s[d - 1])
    ensures a <= c && d <= b
    ensures Trim(s[a..b]) == s[c..d]
  {
    var m := s[a..b];
    assert a <= c by {
      assert !IsWhitespace(s[c]);
    }
    assert d <= b by {
      assert !IsWhitespace(s[d - 1]);
    }
    assert WhitespaceBetween(m, 0, c - a) by {
      forall i | 0 <= i < c - a ensures IsWhitespace(m[i]) {
        assert m[i] == s[a + i];
      }
    }
    assert WhitespaceBetween(m, d - a, |m|) by {
      forall i | d - a <= i < |m| ensures IsWhitespace(m[i]) {
        assert m[i] == s[a + i];
      }
    }
    assert m[c - a] == s[c] && m[d - a - 1] == s[d - 1];
    TrimIsCore(m, c - a, d - a);
    SliceOfSlice(s, a, b, c, d);
  }

  lemma SliceOfSlice(s: string, a: nat, b: nat, c: nat, d: nat)
    requires a <= c <= d <= b <= |s|
    ensures s[a..b][c - a..d - a] == s[c..d]
  {
    var l := s[a..b][c - a..d - a];
    assert |l| == d - c;
    forall i | 0 <= i < d - c
      ensures l[i] == s[c..d][i]
    {
      assert l[i] == s[a..b][c - a + i] == s[c + i];
    }
  }

  lemma TrimOfUnpadded(s: string)
    requires s != [] && !IsWhitespace(s[0]) && !IsWhitespace(s[|s| - 1])
    ensures Trim(s) == s
  {
    TrimIsCore(s, 0, |s|);
  }

  predicate StartsWith(s: string, prefix: string) {
    |prefix| <= |s| && s[..|prefix|] == prefix
  }

  /** A one-character prefix is a test on the first character. */
  lemma StartsWithChar(s: string, c: char)
    ensures StartsWith(s, [c]) <==> s != [] && s[0] == c
  {
    if s != [] && s[0] == c {
      assert s[..1] == [c];
    }
  }

  predicate EndsWith(s: string, suffix: string) {
    |suffix| <= |s| && s[|s| - |suffix|..] == suffix
  }

  /** `String.prototype.indexOf` for one character: the first position of `c`, or -1. */
  function IndexOf(s: string, c: char): (r: int)
    ensures -1 <= r < |s|
  {
    IndexFrom(s, c, 0)
  }

  /** The first position from `i` on that holds `c`, or -1. */
  function IndexFrom(s: string, c: char, i: nat): (r: int)
    requires i <= |s|
    ensures -1 <= r < |s| && (r >= 0 ==> i <= r)
    decreases |s| - i
  {
    if i == |s| then -1
    else if s[i] == c then i
    else IndexFrom(s, c, i + 1)
  }

  /** The search from `i` finds the first `c` at or after `i`, and -1 exactly when there is none. */
  lemma {:induction false} IndexFromFinds(s: string, c: char, i: nat)
    requires i <= |s|
    ensures var r := IndexFrom(s, c, i);
      && (r == -1 <==> forall j :: i <= j < |s| ==> s[j] != c)
      && (r >= 0 ==> s[r] == c && forall j :: i <= j < r ==> s[j] != c)
    decreases |s| - i
  {
    if i < |s| && s[i] != c {
      IndexFromFinds(s, c, i + 1);
    }
  }

  /** `indexOf` gives the first position of `c`, and -1 exactly when `c` does not occur. */
  lemma IndexOfFinds(s: string, c: char)
    ensures var r := IndexOf(s, c);
      && (r == -1 <==> c !in s)
      && (r >= 0 ==> s[r] == c && forall j :: 0 <= j < r ==> s[j] != c)
  {
    IndexFromFinds(s, c, 0);
  }

  /** `String.prototype.split` with a one-character separator. */
  function Split(s: string, sep: char): (r: seq<string>)
    ensures |r| >= 1
    decreases |s|
  {
    var i := IndexOf(s, sep);
    if i < 0 then [s] else [s[..i]] + Split(s[i + 1..], sep)
  }

  /** No piece of a split holds the separator. */
  lemma {:induction false} SplitPieces(s: string, sep: char)
    ensures forall i :: 0 <= i < |Split(s, sep)| ==> sep !in Split(s, sep)[i]
    decreases |s|
  {
    var i := IndexOf(s, sep);
    if i >= 0 {
      var head := s[..i];
      var rest := Split(s[i + 1..], sep);
      assert sep !in head by {
        IndexOfFinds(s, sep);
        assert forall j :: 0 <= j < |head| ==> head[j] == s[j];
      }
      SplitPieces(s[i + 1..], sep);
      var r := [head] + rest;
      assert Split(s, sep) == r;
      forall j | 0 <= j < |r| ensures sep !in r[j] {
        if j > 0 {
          assert r[j] == rest[j - 1];
        }
      }
    } else {
      assert sep !in s by {
        IndexOfFinds(s, sep);
      }
    }
  }

  /** `Array.prototype.join` with a one-character separator. */
  function Join(parts: seq<string>, sep: char): string
    requires |parts| >= 1
  {
    if |parts| == 1 then parts[0] else parts[0] + [sep] + Join(parts[1..], sep)
  }

  /** Splitting and joining again gives back the original text. */
  lemma {:induction false} JoinSplit(s: string, sep: char)
    ensures Join(Split(s, sep), sep) == s
    decreases |s|
  {
    var i := IndexOf(s, sep);
    if i >= 0 {
      var tail := s[i + 1..];
      assert Split(s, sep) == [s[..i]] + Split(tail, sep);
      assert s[i] == sep by { IndexOfFinds(s, sep); }
      JoinSplit(tail, sep);
      JoinAtSeparator(s, sep, i, Split(tail, sep));
    } else {
      assert Split(s, sep) == [s];
    }
  }

  /** Joining the text before a separator with pieces that join to the text after it gives the whole text. */
  lemma JoinAtSeparator(s: string, sep: char, i: nat, rest: seq<string>)
    requires i < |s| && s[i] == sep
    requires |rest| >= 1 && Join(rest, sep) == s[i + 1..]
    ensures Join([s[..i]] + rest, sep) == s
  {
    JoinCons(s[..i], rest, sep);
    assert s == s[..i] + [sep] + s[i + 1..];
  }

  lemma JoinCons(head: string, rest: seq<string>, sep: char)
    requires |rest| >= 1
    ensures Join([head] + rest, sep) == head + [sep] + Join(rest, sep)
  {
    assert ([head] + rest)[1..] == rest;
  }

  /** Joining pieces that do not contain the separator and splitting again gives back the pieces. */
  lemma {:induction false} SplitJoin(parts: seq<string>, sep: char)
    requires |parts| >= 1
    requires forall i :: 0 <= i < |parts| ==> sep !in parts[i]
    ensures Split(Join(parts, sep), sep) == parts
  {
    if |parts| > 1 {
      var rest := Join(parts[1..], sep);
      var s := parts[0] + [sep] + rest;
      IndexOfAfterPrefix(parts[0], sep, rest);
      assert s[..|parts[0]|] == parts[0];
      assert s[|parts[0]| + 1..] == rest;
      SplitJoin(parts[1..], sep);
    } else {
      IndexOfFinds(parts[0], sep);
    }
  }

  lemma IndexOfAfterPrefix(a: string, c: char, b: string)
    requires c !in a
    ensures IndexOf(a + [c] + b, c) == |a|
  {
    var s := a + [c] + b;
    IndexOfFinds(s, c);
    assert s[|a|] == c;
    assert forall j :: 0 <= j < |a| ==> s[j] == a[j];
    assert c !in s[..|a|] by {
      assert s[..|a|] == a;
    }
  }

  function DigitChar(d: nat): char
    requires d < 10
  {
    "0123456789"[d]
  }

  predicate IsDecimalDigit(c: char) {
    '0' <= c <= '9'
  }

  /** The decimal digits of `n` with no leading zero, as `String(n)` writes a non-negative integer. */
  function NatToString(n: nat): (r: string)
    ensures r != []
    ensures forall i :: 0 <= i < |r| ==> IsDecimalDigit(r[i])
  {
    if n < 10 then [DigitChar(n)] else NatToString(n / 10) + [DigitChar(n % 10)]
  }

  /** `String(n)` for an integer `n` (the template literal `${n}`). */
  function IntToString(n: int): string {
    if n < 0 then "-" + NatToString(-n) else NatToString(n)
  }

  /** The value of `c` as a digit in base `radix` (2 to 36), if it is one. */
  function DigitValue(c: char, radix: nat): (r: Option<nat>)
    ensures r.Some? ==> r.value < radix
  {
    var d: int :=
      if '0' <= c <= '9' then c as int - '0' as int
      else if 'a' <= c <= 'z' then c as int - 'a' as int + 10
      else if 'A' <= c <= 'Z' then c as int - 'A' as int + 10
      else 36;
    if d < radix then Some(d) else None
  }

  /** The longest prefix of `s` made of digits in base `radix`. */
  function DigitPrefix(s: string, radix: nat): (r: string)
    ensures |r| <= |s| && r == s[..|r|]
    ensures forall i :: 0 <= i < |r| ==> DigitValue(r[i], radix).Some?
    ensures |r| < |s| ==> DigitValue(s[|r|], radix).None?
  {
    if s != [] && DigitValue(s[0], radix).Some? then [s[0]] + DigitPrefix(s[1..], radix) else []
  }

  /** The number that the digit string `ds` denotes in base `radix`. */
  function DigitsValue(ds: string, radix: nat): nat {
    if ds == [] then 0
    else DigitsValue(ds[..|ds| - 1], radix) * radix + DigitValue(ds[|ds| - 1], radix).GetOr(0)
  }

  /**
   * The global `parseInt(s)` with no radix argument: skip leading whitespace,
   * take an optional sign, switch to base 16 after a `0x` or `0X` prefix, then
   * read the longest run of digits; `None` stands for `NaN` (no digit at all).
   */
  function ParseInt(s: string): Option<int> {
    var t := TrimStart(s);
    if t != [] && t[0] == '-' then
      match ParseUnsigned(t[1..])
      case None => None
      case Some(n) => Some(-(n as int))
    else if t != [] && t[0] == '+' then ParseUnsigned(t[1..])
    else ParseUnsigned(t)
  }

  /** The digits after the sign: hexadecimal after `0x`/`0X`, decimal otherwise. */
  function ParseUnsigned(u: string): Option<nat> {
    if |u| >= 2 && u[0] == '0' && (u[1] == 'x' || u[1] == 'X') then ParseDigits(u[2..], 16)
    else ParseDigits(u, 10)
  }

  function ParseDigits(w: string, radix: nat): Option<nat> {
    var digits := DigitPrefix(w, radix);
    if digits == [] then None else Some(DigitsValue(digits, radix))
  }

  lemma {:induction false} DecimalValue(n: nat)
    ensures DigitsValue(NatToString(n), 10) == n
  {
    if n >= 10 {
      var s := NatToString(n / 10);
      var r := s + [DigitChar(n % 10)];
      assert r[..|r| - 1] == s;
      DecimalValue(n / 10);
    }
  }

  lemma DigitPrefixOfDigits(s: string)
    requires forall i :: 0 <= i < |s| ==> IsDecimalDigit(s[i])
    ensures DigitPrefix(s, 10) == s
  {
    assert forall i :: 0 <= i < |s| ==> DigitValue(s[i], 10).Some?;
  }

  /** Reading back what `String(n)` wrote gives `n`: `parseInt(`${n}`) === n`. */
  lemma ParseIntOfIntToString(n: int)
    ensures ParseInt(IntToString(n)) == Some(n)
  {
    var m: nat := if n < 0 then -n else n;
    var u := NatToString(m);
    DecimalTextParses(m);
    if n < 0 {
      ParseIntOfMinus(u);
    } else {
      ParseIntOfDigits(u);
    }
  }

  /** Text that starts with `-` reads as the negated number after the sign. */
  lemma ParseIntOfMinus(u: string)
    ensures ParseInt("-" + u) == if ParseUnsigned(u).Some? then Some(-(ParseUnsigned(u).value as int)) else None
  {
    var s := "-" + u;
    TrimStartUnpadded(s);
    assert s[1..] == u;
  }

  /** Text that starts with a decimal digit reads without a sign. */
  lemma ParseIntOfDigits(u: string)
    requires u != [] && IsDecimalDigit(u[0])
    ensures ParseInt(u) == ParseUnsigned(u)
  {
    TrimStartUnpadded(u);
  }

  /** The decimal text of `m`, read without a sign, is `m`. */
  lemma DecimalTextParses(m: nat)
    ensures ParseUnsigned(NatToString(m)) == Some(m)
  {
    var digits := NatToString(m);
    DigitPrefixOfDigits(digits);
    DecimalValue(m);
    assert |digits| >= 2 ==> digits[1] != 'x' && digits[1] != 'X' by {
      if |digits| >= 2 {
        assert IsDecimalDigit(digits[1]);
      }
    }
  }

  /** Text that does not start with whitespace is left alone by `trimStart`. */
  lemma TrimStartUnpadded(s: string)
    requires s != [] && !IsWhitespace(s[0])
    ensures TrimStart(s) == s
  {
    assert LeadingWhitespace(s) == 0;
  }

  /** `trimStart` removes a whitespace margin in front of text that does not itself start with whitespace. */
  lemma TrimStartOfPadded(w: string, t: string)
    requires AllWhitespace(w) && t != [] && !IsWhitespace(t[0])
    ensures TrimStart(w + t) == t
  {
    var s := w + t;
    SkipWhitespaceStops(s, 0);
    assert s[|w|] == t[0];
    assert forall i :: 0 <= i < |w| ==> s[i] == w[i];
    assert s[|w|..] == t;
  }

  /** The digit prefix of a run of digits followed by a non-digit is that run. */
  lemma {:induction false} DigitPrefixOfRun(h: string, x: string, radix: nat)
    requires forall i :: 0 <= i < |h| ==> DigitValue(h[i], radix).Some?
    requires x == [] || DigitValue(x[0], radix).None?
    ensures DigitPrefix(h + x, radix) == h
  {
    if h == [] {
      assert h + x == x;
    } else {
      assert (h + x)[0] == h[0];
      assert (h + x)[1..] == h[1..] + x;
      DigitPrefixOfRun(h[1..], x, radix);
    }
  }

  /**
   * `parseInt` is `NaN` exactly when, after the leading whitespace and an
   * optional sign, no decimal digit follows, or `0x` follows with no
   * hexadecimal digit after it.
   */
  lemma ParseIntNaN(s: string)
    ensures var t := TrimStart(s);
      var u := if t != [] && (t[0] == '-' || t[0] == '+') then t[1..] else t;
      ParseInt(s).None? <==>
        || u == [] || !IsDecimalDigit(u[0])
        || (|u| >= 2 && u[0] == '0' && (u[1] == 'x' || u[1] == 'X') && (|u| == 2 || DigitValue(u[2], 16).None?))
  {
    var t := TrimStart(s);
    var u := if t != [] && (t[0] == '-' || t[0] == '+') then t[1..] else t;
    assert ParseInt(s).None? <==> ParseUnsigned(u).None?;
    if |u| >= 2 && u[0] == '0' && (u[1] == 'x' || u[1] == 'X') {
      assert |u| > 2 ==> u[2..][0] == u[2];
    }
  }

  /**
   * `parseInt` skips leading whitespace and reads the decimal digits up to the
   * first non-digit; a lone `0` followed by `x` would start a hexadecimal number instead.
   */
  lemma ParseIntOfPaddedDecimal(w: string, n: nat, x: string)
    requires AllWhitespace(w)
    requires x == [] || !IsDecimalDigit(x[0])
    requires n == 0 && x != [] ==> x[0] != 'x' && x[0] != 'X'
    ensures ParseInt(w + NatToString(n) + x) == Some(n)
  {
    var u := NatToString(n) + x;
    assert IsDecimalDigit(u[0]);
    assert w + NatToString(n) + x == w + u;
    TrimStartOfPadded(w, u);
    DecimalRunParses(n, x);
  }

  /** The decimal text of `n` followed by text that does not continue the number reads, unsigned, as `n`. */
  lemma DecimalRunParses(n: nat, x: string)
    requires x == [] || !IsDecimalDigit(x[0])
    requires n == 0 && x != [] ==> x[0] != 'x' && x[0] != 'X'
    ensures ParseUnsigned(NatToString(n) + x) == Some(n)
  {
    var d := NatToString(n);
    var u := d + x;
    assert !(|u| >= 2 && u[0] == '0' && (u[1] == 'x' || u[1] == 'X')) by {
      if |d| >= 2 {
        assert u[1] == d[1] && IsDecimalDigit(d[1]);
      } else if n != 0 {
        assert d == [DigitChar(n)];
      }
    }
    assert DigitPrefix(u, 10) == d by {
      assert forall i :: 0 <= i < |d| ==> DigitValue(d[i], 10).Some?;
      DigitPrefixOfRun(d, x, 10);
    }
    DecimalValue(n);
  }

  /** After `0x` or `0X`, `parseInt` reads hexadecimal digits. */
  lemma ParseIntOfHexPrefix(p: string, w: string)
    requires p == "0x" || p == "0X"
    ensures ParseInt(p + w) == ParseDigits(w, 16)
  {
    var s := p + w;
    ParseIntOfDigits(s);
    assert s[2..] == w;
  }

  /**
   * Without a radix, `parseInt` reads the hexadecimal digits after a `0x` or
   * `0X` prefix, up to the first character that is not one, as a base-16 number.
   */
  lemma ParseIntOfHex(h: string, x: string)
    requires h != [] && forall i :: 0 <= i < |h| ==> DigitValue(h[i], 16).Some?
    requires x == [] || DigitValue(x[0], 16).None?
    ensures ParseInt("0x" + h + x) == Some(DigitsValue(h, 16))
    ensures ParseInt("0X" + h + x) == Some(DigitsValue(h, 16))
  {
    DigitPrefixOfRun(h, x, 16);
    assert "0x" + h + x == "0x" + (h + x);
    assert "0X" + h + x == "0X" + (h + x);
    ParseIntOfHexPrefix("0x", h + x);
    ParseIntOfHexPrefix("0X", h + x);
  }

  /** The value of `w` when it is entirely digits in base `radix`; `None` (`NaN`) otherwise. */
  function WholeDigits(w: string, radix: nat): Option<int> {
    if w != [] && DigitPrefix(w, radix) == w then Some(DigitsValue(w, radix)) else None
  }

  /**
   * ECMA-262 StringToNumber (section 7.1.4.1.1 of the 2023 edition), the
   * conversion `-` applies to text, for the notations of integers without a
   * fraction or an exponent: surrounding whitespace is ignored, blank text is
   * 0, a sign may precede decimal digits, and `0x`, `0o` and `0b` introduce
   * unsigned hexadecimal, octal and binary digits. `None` stands for `NaN`.
   */
  function StringToNumber(s: string): Option<int> {
    var t := Trim(s);
    if t == [] then Some(0)
    else if |t| >= 2 && t[0] == '0' && (t[1] == 'x' || t[1] == 'X') then WholeDigits(t[2..], 16)
    else if |t| >= 2 && t[0] == '0' && (t[1] == 'o' || t[1] == 'O') then WholeDigits(t[2..], 8)
    else if |t| >= 2 && t[0] == '0' && (t[1] == 'b' || t[1] == 'B') then WholeDigits(t[2..], 2)
    else if t[0] == '-' then
      match WholeDigits(t[1..], 10)
      case None => None
      case Some(n) => Some(-n)
    else if t[0] == '+' then WholeDigits(t[1..], 10)
    else WholeDigits(t, 10)
  }

  /** Blank text converts to 0. */
  lemma StringToNumberOfBlank(s: string)
    requires AllWhitespace(s)
    ensures StringToNumber(s) == Some(0)
  {
    TrimEmpty(s);
  }

  /** The decimal text of an integer converts back to that integer. */
  lemma StringToNumberOfIntToString(n: int)
    ensures StringToNumber(IntToString(n)) == Some(n)
  {
    var m: nat := if n < 0 then -n else n;
    var d := NatToString(m);
    DecimalWhole(m);
    if n < 0 {
      StringToNumberOfMinus(d);
    } else {
      StringToNumberOfDecimal(d);
    }
  }

  /** The decimal text of `m` is entirely digits, whose value is `m`. */
  lemma DecimalWhole(m: nat)
    ensures WholeDigits(NatToString(m), 10) == Some(m)
  {
    DigitPrefixOfDigits(NatToString(m));
    DecimalValue(m);
  }

  /** Text that starts and ends with a non-whitespace character is its own trim. */
  lemma TrimUnpadded(t: string)
    requires t != [] && !IsWhitespace(t[0]) && !IsWhitespace(t[|t| - 1])
    ensures Trim(t) == t
  {
    TrimIsCore(t, 0, |t|);
    assert t[0..|t|] == t;
  }

  /** Decimal digits alone convert as a whole. */
  lemma StringToNumberOfDecimal(d: string)
    requires d != [] && forall i :: 0 <= i < |d| ==> IsDecimalDigit(d[i])
    ensures StringToNumber(d) == WholeDigits(d, 10)
  {
    TrimUnpadded(d);
    if |d| >= 2 {
      assert IsDecimalDigit(d[1]);
    }
  }

  /** `-` and decimal digits convert to the negated value of the digits. */
  lemma StringToNumberOfMinus(d: string)
    requires d != [] && forall i :: 0 <= i < |d| ==> IsDecimalDigit(d[i])
    ensures WholeDigits(d, 10).Some? ==> StringToNumber("-" + d) == Some(-WholeDigits(d, 10).value)
  {
    var t := "-" + d;
    assert t[|t| - 1] == d[|d| - 1];
    TrimUnpadded(t);
    assert t[1..] == d;
  }

  /** `String.prototype.length`: the number of UTF-16 code units, two for a character beyond U+FFFF. */
  function Utf16Length(s: string): (r: nat)
    ensures |s| <= r <= 2 * |s|
  {
    if s == [] then 0 else Utf16Length(s[..|s| - 1]) + (if s[|s| - 1] as int >= 0x1_0000 then 2 else 1)
  }

  /** Within the Basic Multilingual Plane the length counts characters. */
  lemma {:induction false} Utf16LengthOfBmp(s: string)
    requires forall i :: 0 <= i < |s| ==> (s[i] as int) < 0x1_0000
    ensures Utf16Length(s) == |s|
  {
    if s != [] {
      Utf16LengthOfBmp(s[..|s| - 1]);
    }
  }

  function Pow10(k: nat): (r: nat)
    ensures r >= 1
  {
    if k == 0 then 1 else 10 * Pow10(k - 1)
  }

  /** `String(n)` has more than `k` digits exactly when `n` is at least 10 to the power `k`. */
  lemma {:induction false} NatToStringLonger(n: nat, k: nat)
    requires k >= 1
    ensures k < |NatToString(n)| <==> Pow10(k) <= n
    decreases n
  {
    if n >= 10 {
      assert |NatToString(n)| == |NatToString(n / 10)| + 1;
      if k > 1 {
        NatToStringLonger(n / 10, k - 1);
        assert Pow10(k - 1) <= n / 10 <==> 10 * Pow10(k - 1) <= n;
      }
    }
  }
}
