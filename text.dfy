/**
 * The handful of Python string operations the bot relies on, restricted to
 * ASCII: str.strip, str.split with a one-character separator, str.partition,
 * str.isdigit, int() on a decimal literal, str() of an int, str.replace of
 * one character and str.title.
 */
module Text {
  import opened Wrappers

  // ---------------------------------------------------------------- whitespace

  /** The ASCII characters that Python's str.isspace accepts (and str.strip removes). */
  predicate IsSpace(c: char) {
    c == ' ' || (9 <= c as int <= 13) || (28 <= c as int <= 31)
  }

  /** str.lstrip() */
  function TrimStart(s: string): (r: string)
    ensures |r| <= |s|
  {
    if s != [] && IsSpace(s[0]) then TrimStart(s[1..]) else s
  }

  /** str.rstrip() */
  function TrimEnd(s: string): (r: string)
    ensures |r| <= |s|
  {
    if s != [] && IsSpace(s[|s| - 1]) then TrimEnd(s[..|s| - 1]) else s
  }

  /** str.lstrip() drops a prefix of whitespace and stops at the first other character. */
  lemma {:induction false} TrimStartShape(s: string)
    ensures var r := TrimStart(s);
            && r == s[|s| - |r|..]
            && (r != [] ==> !IsSpace(r[0]))
            && (forall i :: 0 <= i < |s| - |r| ==> IsSpace(s[i]))
  {
    if s != [] && IsSpace(s[0]) {
      TrimStartShape(s[1..]);
      var r := TrimStart(s);
      forall i | 0 < i < |s| - |r| ensures IsSpace(s[i]) {
        assert s[i] == s[1..][i - 1];
      }
    }
  }

  /** str.rstrip() drops a suffix of whitespace and stops at the last other character. */
  lemma {:induction false} TrimEndShape(s: string)
    ensures var r := TrimEnd(s);
            && r == s[..|r|]
            && (r != [] ==> !IsSpace(r[|r| - 1]))
            && (forall i :: |r| <= i < |s| ==> IsSpace(s[i]))
  {
    if s != [] && IsSpace(s[|s| - 1]) {
      TrimEndShape(s[..|s| - 1]);
      var r := TrimEnd(s);
      forall i | |r| <= i < |s| - 1 ensures IsSpace(s[i]) {
        assert s[i] == s[..|s| - 1][i];
      }
    }
  }

  /** How many whitespace characters str.strip() removes from the front of `s`. */
  function LeadingSpaces(s: string): (n: nat)
    ensures n <= |s|
  {
    |s| - |TrimStart(s)|
  }

  /** str.strip() */
  function Strip(s: string): (r: string)
    ensures |r| <= |s|
    ensures r != [] ==> !IsSpace(r[0]) && !IsSpace(r[|r| - 1])
  {
    TrimStartShape(s);
    TrimEndShape(TrimStart(s));
    TrimEnd(TrimStart(s))
  }

  /** str.strip() keeps one infix of its input. */
  lemma StripIsInfix(s: string)
    ensures LeadingSpaces(s) + |Strip(s)| <= |s|
    ensures Strip(s) == s[LeadingSpaces(s)..LeadingSpaces(s) + |Strip(s)|]
  {
    var a := TrimStart(s);
    TrimStartShape(s);
    TrimEndShape(a);
    assert a == s[|s| - |a|..];
  }

  /** What str.strip() removes, on both sides of the infix it keeps, is whitespace only. */
  lemma StripRemovesOnlySpace(s: string)
    ensures forall j :: 0 <= j < LeadingSpaces(s) ==> IsSpace(s[j])
    ensures forall j :: LeadingSpaces(s) + |Strip(s)| <= j < |s| ==> IsSpace(s[j])
  {
    var a := TrimStart(s);
    TrimStartShape(s);
    TrimEndShape(a);
    var i := |s| - |a|;
    var n := |Strip(s)|;
    assert a == s[i..];
    forall j | i + n <= j < |s| ensures IsSpace(s[j]) {
      assert s[j] == a[j - i];
    }
  }

  /** str.strip() gives "" exactly for all-blank text. */
  lemma StripBlank(s: string)
    ensures Strip(s) == [] <==> forall j :: 0 <= j < |s| ==> IsSpace(s[j])
  {
    StripIsInfix(s);
    StripRemovesOnlySpace(s);
    var r := Strip(s);
    if r != [] {
      assert s[LeadingSpaces(s)] == r[0];
    }
  }

  /** Text that neither starts nor ends with whitespace is its own str.strip(). */
  lemma StripKeepsTrimmed(s: string)
    requires s != [] && !IsSpace(s[0]) && !IsSpace(s[|s| - 1])
    ensures Strip(s) == s
  {
    assert TrimStart(s) == s;
  }

  // ---------------------------------------------------------------- splitting

  /** str.split(sep) for a one-character separator: never empty, empty fields kept. */
  function Split(s: string, sep: char): (parts: seq<string>)
    ensures |parts| > 0
    ensures forall i :: 0 <= i < |parts| ==> sep !in parts[i]
  {
    if s == [] then [""]
    else
      var rest := Split(s[1..], sep);
      if s[0] == sep then [""] + rest else [[s[0]] + rest[0]] + rest[1..]
  }

  /** How many times `c` occurs in `s` (str.count for one character). */
  function Count(s: string, c: char): nat
  {
    if s == [] then 0 else (if s[0] == c then 1 else 0) + Count(s[1..], c)
  }

  /** str.split gives one more field than there are separators. */
  lemma {:induction false} SplitCount(s: string, sep: char)
    ensures |Split(s, sep)| == Count(s, sep) + 1
  {
    if s != [] {
      SplitCount(s[1..], sep);
    }
  }

  /** sep.join(parts) */
  function Join(parts: seq<string>, sep: char): string
  {
    if parts == [] then ""
    else if |parts| == 1 then parts[0]
    else parts[0] + [sep] + Join(parts[1..], sep)
  }

  /** Joining the fields of a split gives back the original text. */
  lemma {:induction false} JoinSplit(s: string, sep: char)
    ensures Join(Split(s, sep), sep) == s
  {
    if s != [] {
      var rest := Split(s[1..], sep);
      JoinSplit(s[1..], sep);
      if s[0] == sep {
        assert Split(s, sep)[1..] == rest;
      } else if |rest| > 1 {
        var parts := Split(s, sep);
        assert parts[1..] == rest[1..];
        calc {
          Join(parts, sep);
          parts[0] + [sep] + Join(rest[1..], sep);
          [s[0]] + (rest[0] + [sep] + Join(rest[1..], sep));
          [s[0]] + s[1..];
        }
      }
    }
  }

  /** Splitting at a separator splits both sides independently. */
  lemma {:induction false} SplitConcat(a: string, b: string, sep: char)
    ensures Split(a + [sep] + b, sep) == Split(a, sep) + Split(b, sep)
  {
    if a == [] {
      assert a + [sep] + b == [sep] + b;
      assert ([sep] + b)[1..] == b;
    } else {
      var s := a + [sep] + b;
      assert s[0] == a[0] && s[1..] == a[1..] + [sep] + b;
      SplitConcat(a[1..], b, sep);
    }
  }

  /** Text without the separator is a single field. */
  lemma {:induction false} SplitWithoutSeparator(s: string, sep: char)
    requires sep !in s
    ensures Split(s, sep) == [s]
  {
    if s != [] {
      assert s[0] != sep && sep !in s[1..];
      SplitWithoutSeparator(s[1..], sep);
      assert [s[0]] + s[1..] == s;
    }
  }

  /** Splitting joined fields that do not contain the separator gives back the fields. */
  lemma {:induction false} SplitJoin(parts: seq<string>, sep: char)
    requires |parts| > 0
    requires forall i :: 0 <= i < |parts| ==> sep !in parts[i]
    ensures Split(Join(parts, sep), sep) == parts
  {
    if |parts| == 1 {
      SplitWithoutSeparator(parts[0], sep);
    } else {
      SplitWithoutSeparator(parts[0], sep);
      SplitJoin(parts[1..], sep);
      SplitConcat(parts[0], Join(parts[1..], sep), sep);
    }
  }

  /**
   * The text after the first `sep`, or "" when there is none: the third
   * component of str.partition(sep).
   */
  function AfterFirst(s: string, sep: char): (r: string)
    ensures sep !in s ==> r == ""
    ensures sep in s ==> |r| < |s| && r == s[|s| - |r|..] && s[|s| - |r| - 1] == sep
                         && sep !in s[..|s| - |r| - 1]
  {
    if s == [] then ""
    else if s[0] == sep then s[1..]
    else
      var r := AfterFirst(s[1..], sep);
      assert sep in s ==> sep in s[1..];
      if sep in s[1..] then
        assert s[1..][..|s| - 1 - |r| - 1] == s[1..|s| - |r| - 1];
        r
      else r
  }

  // ---------------------------------------------------------------- digits

  predicate IsAsciiDigit(c: char) { '0' <= c <= '9' }

  predicate AllDigits(s: string) { forall i :: 0 <= i < |s| ==> IsAsciiDigit(s[i]) }

  /** str.isdigit() on ASCII text: non-empty and nothing but digits, so neither end is blank. */
  predicate IsDigits(s: string)
    ensures IsDigits(s) ==> |s| > 0 && !IsSpace(s[0]) && !IsSpace(s[|s| - 1])
  {
    |s| > 0 && AllDigits(s)
  }

  function DigitValue(c: char): (d: nat)
    requires IsAsciiDigit(c)
    ensures d < 10
  {
    c as int - '0' as int
  }

  function DigitChar(d: nat): (c: char)
    requires d < 10
    ensures IsAsciiDigit(c) && DigitValue(c) == d
  {
    ('0' as int + d) as char
  }

  /** The number a string of decimal digits denotes (0 for the empty string). */
  function DigitsValue(s: string): nat
    requires AllDigits(s)
  {
    if s == [] then 0 else DigitsValue(s[..|s| - 1]) * 10 + DigitValue(s[|s| - 1])
  }

  /** str(n) for a natural number: digits only, and no leading zero. */
  function NatToDecimal(n: nat): (r: string)
    ensures IsDigits(r)
    ensures r[0] == '0' ==> r == "0"
  {
    if n < 10 then [DigitChar(n)] else NatToDecimal(n / 10) + [DigitChar(n % 10)]
  }

  /** str(i) for any integer: a minus sign exactly for a negative number, then the digits of the magnitude. */
  function IntToDecimal(i: int): (r: string)
    ensures |r| > 0 && (r[0] == '-' <==> i < 0)
    ensures i >= 0 ==> IsDigits(r)
  {
    if i < 0 then "-" + NatToDecimal(-i) else NatToDecimal(i)
  }

  /** str(i) is a minus sign or a digit, then digits only. */
  lemma DecimalShape(i: int)
    ensures var s := IntToDecimal(i);
            && |s| > 0 && (s[0] == '-' || IsAsciiDigit(s[0])) && IsAsciiDigit(s[|s| - 1])
            && forall k :: 0 < k < |s| ==> IsAsciiDigit(s[k])
  {
    if i < 0 {
      var d := NatToDecimal(-i);
      assert forall k :: 0 < k < |d| + 1 ==> ("-" + d)[k] == d[k - 1];
    }
  }

  /** Reading back a printed number gives the number. */
  lemma {:induction false} DecimalRoundTrip(n: nat)
    ensures DigitsValue(NatToDecimal(n)) == n
  {
    if n >= 10 {
      var s := NatToDecimal(n);
      assert s[..|s| - 1] == NatToDecimal(n / 10);
      DecimalRoundTrip(n / 10);
    }
  }

  /** A string of digits with its redundant leading zeros removed ("007" to "7", "000" to "0"). */
  function DropLeadingZeros(s: string): (r: string)
    ensures |r| <= |s| && r == s[|s| - |r|..]
    ensures |s| > 0 ==> |r| > 0
    ensures |r| > 1 ==> r[0] != '0'
  {
    if |s| > 1 && s[0] == '0' then DropLeadingZeros(s[1..]) else s
  }

  lemma {:induction false} LeadingZeroIsIgnored(r: string)
    requires AllDigits(r)
    ensures AllDigits("0" + r) && DigitsValue("0" + r) == DigitsValue(r)
  {
    var s := "0" + r;
    if r != [] {
      assert s[..|s| - 1] == "0" + r[..|r| - 1];
      LeadingZeroIsIgnored(r[..|r| - 1]);
    }
  }

  lemma {:induction false} NonZeroLead(s: string)
    requires IsDigits(s) && s[0] != '0'
    ensures DigitsValue(s) > 0
  {
    if |s| > 1 {
      NonZeroLead(s[..|s| - 1]);
    }
  }

  lemma {:induction false} CanonicalIsPrinted(s: string)
    requires IsDigits(s) && (|s| > 1 ==> s[0] != '0')
    ensures NatToDecimal(DigitsValue(s)) == s
  {
    if |s| > 1 {
      var p := s[..|s| - 1];
      NonZeroLead(p);
      CanonicalIsPrinted(p);
      var v := DigitsValue(s);
      assert v / 10 == DigitsValue(p) && v % 10 == DigitValue(s[|s| - 1]);
      assert DigitChar(DigitValue(s[|s| - 1])) == s[|s| - 1];
    } else {
      assert DigitChar(DigitValue(s[0])) == s[0];
    }
  }

  /** int() followed by str() on a string of digits drops exactly its leading zeros. */
  lemma {:induction false} ReprintDropsLeadingZeros(s: string)
    requires IsDigits(s)
    ensures NatToDecimal(DigitsValue(s)) == DropLeadingZeros(s)
  {
    if |s| > 1 && s[0] == '0' {
      assert s == "0" + s[1..];
      LeadingZeroIsIgnored(s[1..]);
      ReprintDropsLeadingZeros(s[1..]);
    } else {
      CanonicalIsPrinted(s);
    }
  }

  /** A decimal integer literal with an optional sign, as int() accepts it once stripped. */
  function ParseSigned(s: string): Option<int>
  {
    if |s| > 0 && (s[0] == '+' || s[0] == '-') then
      if IsDigits(s[1..]) then
        Some(if s[0] == '-' then -(DigitsValue(s[1..]) as int) else DigitsValue(s[1..]))
      else None
    else if IsDigits(s) then Some(DigitsValue(s))
    else None
  }

  /** int(s) on a string: surrounding whitespace ignored, None where Python raises ValueError. */
  function IntOfText(s: string): (r: Option<int>)
    ensures r.Some? ==> Strip(s) != ""
  {
    ParseSigned(Strip(s))
  }

  /** Text that passes isdigit() is accepted by int(), with its decimal value. */
  lemma DigitsAreInts(s: string)
    requires IsDigits(s)
    ensures IntOfText(s) == Some(DigitsValue(s))
  {
    StripKeepsTrimmed(s);
    assert s[0] != '+' && s[0] != '-';
  }

  /** Text that starts with a letter is not a number, whatever follows. */
  lemma WordIsNotInt(s: string)
    requires |s| > 0 && IsAsciiLetter(s[0])
    ensures IntOfText(s) == None
  {
    assert TrimStart(s) == s;
    TrimEndShape(s);
    var r := Strip(s);
    assert r != [] && r[0] == s[0];
  }

  /** int(str(i)) == i */
  lemma IntRoundTrip(i: int)
    ensures IntOfText(IntToDecimal(i)) == Some(i)
  {
    var s := IntToDecimal(i);
    var m := if i < 0 then -i else i;
    var d := NatToDecimal(m);
    DecimalRoundTrip(m);
    DecimalShape(i);
    StripKeepsTrimmed(s);
    if i < 0 {
      assert s[1..] == d;
    }
  }

  // ---------------------------------------------------------------- letters

  predicate IsAsciiUpper(c: char) { 'A' <= c <= 'Z' }
  predicate IsAsciiLower(c: char) { 'a' <= c <= 'z' }
  predicate IsAsciiLetter(c: char) { IsAsciiUpper(c) || IsAsciiLower(c) }

  function ToUpper(c: char): char { if IsAsciiLower(c) then (c as int - 32) as char else c }
  function ToLower(c: char): char { if IsAsciiUpper(c) then (c as int + 32) as char else c }

  /** str.title(): a letter is upper-cased when it follows a non-letter, lower-cased otherwise. */
  function Title(s: string): (r: string)
    ensures |r| == |s|
  {
    TitleAfter(s, false)
  }

  function TitleAfter(s: string, afterLetter: bool): (r: string)
    ensures |r| == |s|
    ensures forall i :: 0 <= i < |s| ==>
              r[i] == if (if i == 0 then afterLetter else IsAsciiLetter(s[i - 1]))
                      then ToLower(s[i]) else ToUpper(s[i])
  {
    if s == [] then []
    else [if afterLetter then ToLower(s[0]) else ToUpper(s[0])] + TitleAfter(s[1..], IsAsciiLetter(s[0]))
  }

  /**
   * str.replace(old, new) for single characters: text without `from` is left
   * as it is, no `from` survives, and a character that changed was `from` and
   * became `to`.
   */
  function ReplaceChar(s: string, from: char, to: char): (r: string)
    ensures |r| == |s|
    ensures from !in s ==> r == s
    ensures from != to ==> from !in r
    ensures forall i :: 0 <= i < |s| && r[i] != s[i] ==> s[i] == from && r[i] == to
  {
    seq(|s|, i requires 0 <= i < |s| => if s[i] == from then to else s[i])
  }
}
