/**
  The handful of PHP string builtins both components rely on:
  trim(), explode("\n", …), implode(…), the (int) cast of a string and the
  decimal rendering of an integer in a string interpolation.
 */
module PhpStrings {

  // ---------------------------------------------------------------------------
  // trim()
  // ---------------------------------------------------------------------------

  /** The characters trim() strips by default: " \t\n\r\0\x0B". */
  predicate IsTrimChar(c: char) {
    c == ' ' || c == '\t' || c == '\n' || c == '\r' || c == '\0' || c == '\U{000B}'
  }

  /** ltrim(): drops the leading trim characters. */
  function TrimStart(s: string): (r: string)
    ensures |r| <= |s| && r == s[|s| - |r|..]
    ensures r == [] || !IsTrimChar(r[0])
    ensures forall i :: 0 <= i < |s| - |r| ==> IsTrimChar(s[i])
  {
    if s != [] && IsTrimChar(s[0]) then TrimStart(s[1..]) else s
  }

  /** rtrim(): drops the trailing trim characters. */
  function TrimEnd(s: string): (r: string)
    ensures |r| <= |s| && r == s[..|r|]
    ensures r == [] || !IsTrimChar(r[|r| - 1])
    ensures forall i :: |r| <= i < |s| ==> IsTrimChar(s[i])
  {
    if s != [] && IsTrimChar(s[|s| - 1]) then TrimEnd(s[..|s| - 1]) else s
  }

  /** trim(): both ends. */
  function Trim(s: string): string {
    TrimEnd(TrimStart(s))
  }

  /** A string that starts and ends with a kept character is its own trim. */
  lemma TrimOfTrimmed(s: string)
    requires s == [] || (!IsTrimChar(s[0]) && !IsTrimChar(s[|s| - 1]))
    ensures Trim(s) == s
  {
  }

  /** trim() is idempotent, and what it keeps neither starts nor ends with a trim character. */
  lemma TrimIdempotent(s: string)
    ensures var t := Trim(s); t == [] || (!IsTrimChar(t[0]) && !IsTrimChar(t[|t| - 1]))
    ensures Trim(Trim(s)) == Trim(s)
  {
    var t := Trim(s);
    if t != [] {
      assert t[0] == TrimStart(s)[0];
    }
    TrimOfTrimmed(t);
  }

  /** trim() yields "" exactly when every character of the input is a trim character. */
  lemma TrimEmptyIff(s: string)
    ensures Trim(s) == [] <==> forall i :: 0 <= i < |s| ==> IsTrimChar(s[i])
  {
    var u := TrimStart(s);
    assert |u| > 0 ==> !IsTrimChar(s[|s| - |u|]);
  }

  // ---------------------------------------------------------------------------
  // explode("\n", …) and implode(…)
  // ---------------------------------------------------------------------------

  /** explode(PHP_EOL, s) with PHP_EOL = "\n": the pieces between newlines, always at least one. */
  function Split(s: string): (parts: seq<string>)
    ensures |parts| >= 1
    ensures forall p <- parts :: '\n' !in p
  {
    if s == [] then [""]
    else
      var rest := Split(s[1..]);
      if s[0] == '\n' then [""] + rest
      else [[s[0]] + rest[0]] + rest[1..]
  }

  /** implode(sep, parts): "" for no parts, otherwise the parts with `sep` between neighbours. */
  function Join(parts: seq<string>, sep: string): string {
    if |parts| == 0 then ""
    else if |parts| == 1 then parts[0]
    else parts[0] + sep + Join(parts[1..], sep)
  }

  lemma JoinConsHead(c: char, x: string, tail: seq<string>, sep: string)
    ensures Join([[c] + x] + tail, sep) == [c] + Join([x] + tail, sep)
  {
    var l := [[c] + x] + tail;
    assert l[1..] == tail;
    assert ([x] + tail)[1..] == tail;
  }

  /** implode() of a first piece and the rest: the piece alone, or the piece, the separator and the rest. */
  lemma JoinCons(x: string, tail: seq<string>, sep: string)
    ensures Join([x] + tail, sep) == if tail == [] then x else x + sep + Join(tail, sep)
  {
    assert ([x] + tail)[1..] == tail;
  }

  /** implode("\n", explode("\n", s)) == s: splitting on newlines loses nothing. */
  lemma {:induction false} JoinSplit(s: string)
    ensures Join(Split(s), "\n") == s
  {
    if s != [] {
      var rest := Split(s[1..]);
      JoinSplit(s[1..]);
      if s[0] == '\n' {
        assert ([""] + rest)[1..] == rest;
      } else {
        assert rest == [rest[0]] + rest[1..];
        JoinConsHead(s[0], rest[0], rest[1..], "\n");
      }
    }
  }

  /** implode() of non-empty pieces is empty only when there are no pieces. */
  lemma {:induction false} JoinEmptyIff(parts: seq<string>, sep: string)
    requires forall p <- parts :: p != ""
    ensures Join(parts, sep) == "" <==> parts == []
  {
    if |parts| > 1 {
      assert parts[0] in parts;
      assert |Join(parts, sep)| >= |parts[0]|;
    } else if |parts| == 1 {
      assert parts[0] in parts;
    }
  }

  // ---------------------------------------------------------------------------
  // (int) $string and "{$int}"
  // ---------------------------------------------------------------------------

  /** Whitespace the (int) cast skips before the number: " \t\n\r\v\f". */
  predicate IsSpace(c: char) {
    c == ' ' || c == '\t' || c == '\n' || c == '\r' || c == '\U{000B}' || c == '\U{000C}'
  }

  predicate IsDigit(c: char) {
    '0' <= c <= '9'
  }

  predicate AllDigits(s: string) {
    forall i :: 0 <= i < |s| ==> IsDigit(s[i])
  }

  function SkipSpace(s: string): (r: string)
    ensures |r| <= |s|
  {
    if s != [] && IsSpace(s[0]) then SkipSpace(s[1..]) else s
  }

  /** The longest run of digits at the front of `s`. */
  function DigitPrefix(s: string): (d: string)
    ensures AllDigits(d) && |d| <= |s| && d == s[..|d|]
  {
    if s != [] && IsDigit(s[0]) then [s[0]] + DigitPrefix(s[1..]) else []
  }

  /** The value of a run of decimal digits, most significant first. */
  function DigitsValue(d: string): nat
    requires AllDigits(d)
  {
    if d == [] then 0 else DigitsValue(d[..|d| - 1]) * 10 + (d[|d| - 1] as int - '0' as int)
  }

  /**
    PHP's (int) cast of a string: leading whitespace, an optional sign and the
    leading decimal digits; anything without leading digits is 0.
   */
  function ToInt(s: string): int {
    var t := SkipSpace(s);
    if t != [] && t[0] == '-' then -(DigitsValue(DigitPrefix(t[1..])) as int)
    else if t != [] && t[0] == '+' then DigitsValue(DigitPrefix(t[1..]))
    else DigitsValue(DigitPrefix(t))
  }

  function DigitChar(n: nat): (c: char)
    requires n < 10
    ensures IsDigit(c) && c as int - '0' as int == n
  {
    ('0' as int + n) as char
  }

  /** Decimal rendering of a natural number, without leading zeros. */
  function NatToString(n: nat): (s: string)
    ensures |s| > 0 && AllDigits(s)
  {
    if n < 10 then [DigitChar(n)] else NatToString(n / 10) + [DigitChar(n % 10)]
  }

  /** How PHP renders an integer inside a string: "-" for negatives, then the digits. */
  function IntToString(i: int): (s: string)
    ensures |s| > 0 && (s[0] == '-' || IsDigit(s[0])) && IsDigit(s[|s| - 1])
  {
    if i < 0 then "-" + NatToString(-i) else NatToString(i)
  }

  lemma {:induction false} DigitsValueOfNatToString(n: nat)
    ensures DigitsValue(NatToString(n)) == n
  {
    var s := NatToString(n);
    if n >= 10 {
      DigitsValueOfNatToString(n / 10);
      assert s[..|s| - 1] == NatToString(n / 10);
    }
  }

  lemma {:induction false} DigitPrefixOfDigits(d: string)
    requires AllDigits(d)
    ensures DigitPrefix(d) == d
  {
    if d != [] {
      DigitPrefixOfDigits(d[1..]);
    }
  }

  /** Reading back what was written: (int) "{$i}" == $i for every integer. */
  lemma ToIntOfIntToString(i: int)
    ensures ToInt(IntToString(i)) == i
  {
    var s := IntToString(i);
    var m: nat := if i < 0 then -i else i;
    DigitsValueOfNatToString(m);
    DigitPrefixOfDigits(NatToString(m));
    if i < 0 {
      assert s[1..] == NatToString(m);
    }
  }

  /** The rendering is also read back through trim() first, as the deployment agent does. */
  lemma ToIntOfTrimmedIntToString(i: int)
    ensures ToInt(Trim(IntToString(i))) == i
  {
    TrimOfTrimmed(IntToString(i));
    ToIntOfIntToString(i);
  }

  /** Different integers are rendered differently. */
  lemma IntToStringInjective(i: int, j: int)
    requires IntToString(i) == IntToString(j)
    ensures i == j
  {
    ToIntOfIntToString(i);
    ToIntOfIntToString(j);
  }
}
