/** The string operations of the Kotlin standard library (and of Python's `str`)
    that the app relies on: prefix and substring tests, `split`, `trim`,
    `lowercase`, `toIntOrNull`, `Int.toString` and `compareTo`. */
module Strings {
  import opened Wrappers
  import opened Ints

  // ---------------------------------------------------------------- characters

  predicate IsDigit(c: char) { '0' <= c <= '9' }

  predicate IsHexDigit(c: char) { IsDigit(c) || 'a' <= c <= 'f' || 'A' <= c <= 'F' }

  /** Kotlin's `Char.isWhitespace()` on the JVM: Java whitespace or a Unicode space character. */
  predicate IsWhitespace(c: char) {
    || '\t' <= c <= '\r'
    || '\U{1C}' <= c <= ' '
    || c == '\U{A0}' || c == '\U{1680}'
    || '\U{2000}' <= c <= '\U{200A}'
    || c == '\U{2028}' || c == '\U{2029}' || c == '\U{202F}' || c == '\U{205F}' || c == '\U{3000}'
  }

  /** Lower-case mapping of the Basic Latin and Latin-1 capitals; every other character is kept. */
  function Lower(c: char): char {
    if 'A' <= c <= 'Z' || ('\U{C0}' <= c <= '\U{DE}' && c != '\U{D7}') then (c as int + 32) as char else c
  }

  function DigitChar(d: int): (c: char)
    requires 0 <= d < 10
    ensures IsDigit(c) && c as int == '0' as int + d
  {
    ('0' as int + d) as char
  }

  function DigitValue(c: char): (d: nat)
    requires IsDigit(c)
    ensures d < 10 && DigitChar(d) == c
  {
    c as int - '0' as int
  }

  // ---------------------------------------------------------------- whole strings

  /** `String.lowercase()`. */
  function LowerCase(s: string): (r: string)
    ensures |r| == |s|
    ensures forall i :: 0 <= i < |s| ==> r[i] == Lower(s[i])
  {
    seq(|s|, i requires 0 <= i < |s| => Lower(s[i]))
  }

  /** `String.isBlank()`: empty or whitespace only. */
  predicate IsBlank(s: string) {
    forall i :: 0 <= i < |s| ==> IsWhitespace(s[i])
  }

  function TrimStart(s: string): (r: string)
    ensures |r| == 0 || !IsWhitespace(r[0])
    ensures |r| <= |s| && r == s[|s| - |r|..]
  {
    if |s| > 0 && IsWhitespace(s[0]) then TrimStart(s[1..]) else s
  }

  function TrimEnd(s: string): (r: string)
    ensures |r| == 0 || !IsWhitespace(r[|r| - 1])
    ensures |r| <= |s| && r == s[..|r|]
  {
    if |s| > 0 && IsWhitespace(s[|s| - 1]) then TrimEnd(s[..|s| - 1]) else s
  }

  /** `String.trim()`: leading and trailing whitespace removed. */
  function Trim(s: string): (r: string)
    ensures |r| == 0 || (!IsWhitespace(r[0]) && !IsWhitespace(r[|r| - 1]))
  {
    TrimEnd(TrimStart(s))
  }

  predicate StartsWith(s: string, prefix: string) {
    |prefix| <= |s| && s[..|prefix|] == prefix
  }

  /** `String.contains(other)`: `sub` occurs somewhere in `s`. */
  predicate Contains(s: string, sub: string)
    decreases |s|
  {
    StartsWith(s, sub) || (|s| > 0 && Contains(s[1..], sub))
  }

  /** `contains(other, ignoreCase = true)`, with the case mapping of `Lower`. */
  predicate ContainsIgnoreCase(s: string, sub: string) {
    Contains(LowerCase(s), LowerCase(sub))
  }

  /** `String.indexOf(other)`: the first position where `sep` occurs. */
  function IndexOf(s: string, sep: string): (r: Option<nat>)
    ensures r.Some? ==> r.value + |sep| <= |s| && s[r.value..r.value + |sep|] == sep
    decreases |s|
  {
    if StartsWith(s, sep) then Some(0)
    else if |s| == 0 then None
    else match IndexOf(s[1..], sep)
      case None => None
      case Some(i) => Some(i + 1)
  }

  /** `String.split(sep)` (no limit): the pieces between the occurrences of `sep`,
      found left to right, empty pieces included. */
  function Split(s: string, sep: string): (parts: seq<string>)
    requires |sep| > 0
    ensures |parts| >= 1
    decreases |s|
  {
    match IndexOf(s, sep)
    case None => [s]
    case Some(i) => [s[..i]] + Split(s[i + |sep|..], sep)
  }

  lemma {:induction false} IndexOfMissingChar(s: string, sep: string, c: char)
    requires c in sep && c !in s
    ensures IndexOf(s, sep) == None
    decreases |s|
  {
    if !StartsWith(s, sep) && |s| > 0 {
      assert forall k :: 0 <= k < |s[1..]| ==> s[1..][k] == s[k + 1];
      IndexOfMissingChar(s[1..], sep, c);
    }
  }

  /** A string without the separator's character splits into itself alone. */
  lemma {:induction false} SplitMissingChar(s: string, sep: string, c: char)
    requires |sep| > 0 && c in sep && c !in s
    ensures Split(s, sep) == [s]
  {
    IndexOfMissingChar(s, sep, c);
  }

  lemma {:induction false} IndexOfChar(x: string, c: char, y: string)
    requires c !in x
    ensures IndexOf(x + [c] + y, [c]) == Some(|x|)
    decreases |x|
  {
    var s := x + [c] + y;
    if |x| > 0 {
      assert s[0] == x[0];
      assert s[1..] == x[1..] + [c] + y;
      IndexOfChar(x[1..], c, y);
    } else {
      assert s[..1] == [c];
    }
  }

  /** Splitting at a one-character separator peels off the text before its first occurrence. */
  lemma {:induction false} SplitCharConcat(x: string, c: char, y: string)
    requires c !in x
    ensures Split(x + [c] + y, [c]) == [x] + Split(y, [c])
  {
    var s := x + [c] + y;
    IndexOfChar(x, c, y);
    assert s[..|x|] == x;
    assert s[|x| + 1..] == y;
  }

  /** Three fields joined by a separator character they do not hold split back into themselves. */
  lemma {:induction false} SplitThreeFields(x: string, c: char, y: string, z: string)
    requires c !in x && c !in y && c !in z
    ensures Split(x + [c] + y + [c] + z, [c]) == [x, y, z]
  {
    var tail := y + [c] + z;
    calc {
      Split(x + [c] + y + [c] + z, [c]);
      { assert x + [c] + y + [c] + z == x + [c] + tail; }
      Split(x + [c] + tail, [c]);
      { SplitCharConcat(x, c, tail); }
      [x] + Split(tail, [c]);
      { SplitCharConcat(y, c, z); }
      [x] + ([y] + Split(z, [c]));
      { SplitMissingChar(z, [c], c); }
      [x] + ([y] + [z]);
      [x, y, z];
    }
  }

  /** A digit string holds no character other than digits. */
  lemma {:induction false} DigitsHaveNo(s: string, c: char)
    requires AllDigits(s) && !IsDigit(c)
    ensures c !in s
  {
  }

  /** A one-character separator yields at least two pieces exactly when it occurs. */
  lemma {:induction false} SplitCharHasTwoParts(s: string, c: char)
    ensures |Split(s, [c])| >= 2 <==> c in s
  {
    if c in s {
      var k :| 0 <= k < |s| && s[k] == c;
      var j := FirstIndexOfChar(s, c, k);
      assert s == s[..j] + [c] + s[j + 1..];
      SplitCharConcat(s[..j], c, s[j + 1..]);
    } else {
      SplitMissingChar(s, [c], c);
    }
  }

  /** The position of the first `c` in `s`, given some position `k` holding it. */
  lemma {:induction false} FirstIndexOfChar(s: string, c: char, k: nat) returns (j: nat)
    requires k < |s| && s[k] == c
    ensures j <= k && s[j] == c && c !in s[..j]
  {
    j := k;
    while j > 0 && c in s[..j]
      invariant j <= k && s[j] == c
      decreases j
    {
      var i :| 0 <= i < j && s[..j][i] == c;
      j := i;
    }
  }

  lemma {:induction false} IndexOfSpacedSlash(x: string, y: string)
    requires '/' !in x
    ensures IndexOf(x + " / " + y, " / ") == Some(|x|)
    decreases |x|
  {
    var s := x + " / " + y;
    if |x| > 0 {
      assert s[1] == (if |x| > 1 then x[1] else ' ');
      assert !StartsWith(s, " / ");
      assert s[1..] == x[1..] + " / " + y;
      IndexOfSpacedSlash(x[1..], y);
    } else {
      assert s[..3] == " / ";
    }
  }

  /** Two slash-free names joined by " / " split back into exactly those two names. */
  lemma {:induction false} SplitSpacedSlash(x: string, y: string)
    requires '/' !in x && '/' !in y
    ensures Split(x + " / " + y, " / ") == [x, y]
  {
    var s := x + " / " + y;
    IndexOfSpacedSlash(x, y);
    assert s[..|x|] == x;
    assert s[|x| + 3..] == y;
    SplitMissingChar(y, " / ", '/');
  }

  // ---------------------------------------------------------------- numbers

  predicate AllDigits(s: string) {
    forall i :: 0 <= i < |s| ==> IsDigit(s[i])
  }

  /** The value of a string of decimal digits (0 for the empty string). */
  function DigitsValue(s: string): nat
    requires AllDigits(s)
  {
    if s == [] then 0 else DigitsValue(s[..|s| - 1]) * 10 + DigitValue(s[|s| - 1])
  }

  /** `String.toIntOrNull()` in base 10: an optional '+' or '-' followed by at least
      one digit, with a value that fits in an `Int`; otherwise nothing. */
  function ParseInt(s: string): (r: Option<int>)
    ensures r.Some? ==> InIntRange(r.value)
  {
    if |s| == 0 then None
    else if s[0] < '0' then
      if |s| == 1 || (s[0] != '-' && s[0] != '+') then None
      else ParseDigits(s[1..], s[0] == '-')
    else ParseDigits(s, false)
  }

  function ParseDigits(digits: string, negative: bool): (r: Option<int>)
    ensures r.Some? ==> InIntRange(r.value)
  {
    if !AllDigits(digits) then None
    else
      var v := if negative then -(DigitsValue(digits) as int) else DigitsValue(digits);
      if InIntRange(v) then Some(v) else None
  }

  /** Decimal digits of a natural number, without leading zeros. */
  function NatToDecimal(n: nat): (s: string)
    ensures |s| >= 1 && AllDigits(s)
  {
    if n < 10 then [DigitChar(n)] else NatToDecimal(n / 10) + [DigitChar(n % 10)]
  }

  /** `Int.toString()`, as used by string templates. */
  function IntToString(i: int): string {
    if i < 0 then "-" + NatToDecimal(-i) else NatToDecimal(i)
  }

  /** Exactly two digits, with a leading zero below 10 (the `HH`, `mm`, `ss` of a time pattern). */
  function TwoDigits(n: nat): (s: string)
    requires n < 100
    ensures |s| == 2 && AllDigits(s)
  {
    [DigitChar(n / 10), DigitChar(n % 10)]
  }

  /** `if (n < 10) "0$n" else "$n"` is the two-digit form of `n`. */
  lemma {:induction false} TwoDigitsPadded(n: nat)
    requires n < 100
    ensures (if n < 10 then "0" + IntToString(n) else IntToString(n)) == TwoDigits(n)
  {
    assert DigitChar(0) == '0';
    if n >= 10 {
      assert NatToDecimal(n) == NatToDecimal(n / 10) + [DigitChar(n % 10)];
    }
  }

  lemma {:induction false} NatToDecimalValue(n: nat)
    ensures DigitsValue(NatToDecimal(n)) == n
  {
    var s := NatToDecimal(n);
    if n < 10 {
      assert s[..|s| - 1] == [];
    } else {
      assert s[..|s| - 1] == NatToDecimal(n / 10);
      NatToDecimalValue(n / 10);
    }
  }

  /** Parsing the decimal form of an `Int`-sized natural number gives it back. */
  lemma {:induction false} ParseNatToDecimal(n: nat)
    requires n <= IntMax
    ensures ParseInt(NatToDecimal(n)) == Some(n)
  {
    NatToDecimalValue(n);
    assert IsDigit(NatToDecimal(n)[0]);
  }

  /** Parsing a two-digit field gives its value back. */
  lemma {:induction false} ParseTwoDigits(n: nat)
    requires n < 100
    ensures ParseInt(TwoDigits(n)) == Some(n)
  {
    var s := TwoDigits(n);
    assert s[..1][..0] == [];
    assert s[..1] == [DigitChar(n / 10)];
    assert DigitsValue(s[..1]) == n / 10;
    assert DigitsValue(s) == DigitsValue(s[..1]) * 10 + n % 10;
  }

  // ---------------------------------------------------------------- ordering

  /** `a.compareTo(b) < 0` for Kotlin strings and `a < b` for Python strings:
      lexicographic order on characters, a proper prefix first. */
  predicate LexLess(a: string, b: string)
    decreases |a|
  {
    if |a| == 0 then |b| > 0
    else if |b| == 0 then false
    else if a[0] != b[0] then a[0] < b[0]
    else LexLess(a[1..], b[1..])
  }

  lemma {:induction false} LexLessIrreflexive(a: string)
    ensures !LexLess(a, a)
    decreases |a|
  {
    if |a| > 0 { LexLessIrreflexive(a[1..]); }
  }

  lemma {:induction false} LexLessTransitive(a: string, b: string, c: string)
    requires LexLess(a, b) && LexLess(b, c)
    ensures LexLess(a, c)
    decreases |a|
  {
    if |a| > 0 && |b| > 0 && |c| > 0 && a[0] == b[0] == c[0] {
      LexLessTransitive(a[1..], b[1..], c[1..]);
    }
  }

  lemma {:induction false} LexLessTotal(a: string, b: string)
    ensures a == b || LexLess(a, b) || LexLess(b, a)
    decreases |a|
  {
    if |a| > 0 && |b| > 0 && a[0] == b[0] {
      LexLessTotal(a[1..], b[1..]);
      if a[1..] == b[1..] {
        assert a == [a[0]] + a[1..] && b == [b[0]] + b[1..];
      }
    }
  }

  lemma {:induction false} LexLessAsymmetric(a: string, b: string)
    requires LexLess(a, b)
    ensures !LexLess(b, a)
  {
    if LexLess(b, a) {
      LexLessTransitive(a, b, a);
      LexLessIrreflexive(a);
    }
  }

  /** Comparing two concatenations whose first parts have the same length compares
      the first parts, and the second parts only when the first parts are equal. */
  lemma {:induction false} LexLessConcat(x: string, y: string, x': string, y': string)
    requires |x| == |x'|
    ensures LexLess(x + y, x' + y') == if x == x' then LexLess(y, y') else LexLess(x, x')
    decreases |x|
  {
    if |x| > 0 {
      assert (x + y)[0] == x[0] && (x' + y')[0] == x'[0];
      assert (x + y)[1..] == x[1..] + y && (x' + y')[1..] == x'[1..] + y';
      LexLessConcat(x[1..], y, x'[1..], y');
      if x[0] == x'[0] && x[1..] == x'[1..] {
        assert x == [x[0]] + x[1..] && x' == [x'[0]] + x'[1..];
      }
    } else {
      assert x + y == y && x' + y' == y';
    }
  }

  /** Zero-padded two-digit fields compare as their numbers do. */
  lemma {:induction false} LexLessTwoDigits(a: nat, b: nat)
    requires a < 100 && b < 100
    ensures LexLess(TwoDigits(a), TwoDigits(b)) <==> a < b
  {
    var sa, sb := TwoDigits(a), TwoDigits(b);
    assert sa[1..] == [sa[1]] && sb[1..] == [sb[1]];
    assert sa[1..][1..] == [] && sb[1..][1..] == [];
    assert sa[0] == sb[0] <==> a / 10 == b / 10;
    assert sa[0] < sb[0] <==> a / 10 < b / 10;
    assert sa[1] == sb[1] <==> a % 10 == b % 10;
    assert sa[1] < sb[1] <==> a % 10 < b % 10;
    assert LexLess(sa[1..], sb[1..]) <==> sa[1] < sb[1];
  }

  // ---------------------------------------------------------------- facts used by the model

  /** A nonempty digit string with an `Int`-sized value parses to that value. */
  lemma {:induction false} ParseDigitString(s: string)
    requires |s| >= 1 && AllDigits(s) && DigitsValue(s) <= IntMax
    ensures ParseInt(s) == Some(DigitsValue(s) as int)
  {
    assert IsDigit(s[0]);
  }

  lemma {:induction false} LowerCaseAppend(a: string, b: string)
    ensures LowerCase(a + b) == LowerCase(a) + LowerCase(b)
  {
    assert forall i :: 0 <= i < |a| + |b| ==> LowerCase(a + b)[i] == (LowerCase(a) + LowerCase(b))[i];
  }

  /** Lower-casing never produces a '/'. */
  lemma {:induction false} LowerCaseSlashFree(s: string)
    requires '/' !in s
    ensures '/' !in LowerCase(s)
  {
    forall i | 0 <= i < |s| ensures LowerCase(s)[i] != '/' {
      assert s[i] != '/';
    }
  }

  /** A string cut at the first occurrence of a separator character has one decomposition. */
  lemma {:induction false} SplitAtFirst(x1: string, c: char, y1: string, x2: string, y2: string)
    requires x1 + [c] + y1 == x2 + [c] + y2
    requires c !in x1 && c !in x2
    ensures x1 == x2 && y1 == y2
  {
    var s := x1 + [c] + y1;
    assert s[|x1|] == c && (x2 + [c] + y2)[|x2|] == c;
    assert x1 == s[..|x1|] && x2 == s[..|x2|];
    assert y1 == s[|x1| + 1..] && y2 == s[|x2| + 1..];
  }

  /** A string that neither starts nor ends with whitespace is its own trim. */
  lemma {:induction false} TrimUnchanged(s: string)
    requires |s| > 0 && !IsWhitespace(s[0]) && !IsWhitespace(s[|s| - 1])
    ensures Trim(s) == s
  {
    assert TrimStart(s) == s;
  }

  /** Trimming twice trims nothing more. */
  lemma {:induction false} TrimIdempotent(s: string)
    ensures Trim(Trim(s)) == Trim(s)
  {
    var t := TrimStart(s);
    var u := TrimEnd(t);
    assert |u| > 0 ==> u[0] == t[0];
    assert TrimStart(u) == u;
  }
}
