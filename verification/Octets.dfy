/**
 Strings of octets, and the searches and conversions on them that the HTTP code uses.
 A `char` stands for one octet.  Nothing here depends on the size of the alphabet, so what is
 proved about every `string` holds in particular for strings over the 256 octets.
 */
module Octets {

  const CRLF: string := "\r\n"
  const NPOS: int := -1
  const LONG_MAX: int := 0x7FFF_FFFF_FFFF_FFFF
  const LONG_MIN: int := -0x8000_0000_0000_0000

  // ---------------------------------------------------------------- line ends

  predicate CrlfAt(s: string, i: nat) {
    i + 1 < |s| && s[i] == '\r' && s[i + 1] == '\n'
  }

  ghost predicate NoCrlf(s: string) {
    forall i: nat :: !CrlfAt(s, i)
  }

  /** The position of the first CR LF, or NPOS. */
  function FindCrlf(s: string): (pos: int)
    ensures pos == NPOS || (0 <= pos && CrlfAt(s, pos))
    ensures pos == NPOS <==> NoCrlf(s)
    ensures forall i: nat :: i < pos ==> !CrlfAt(s, i)
  {
    FindCrlfFrom(s, 0)
  }

  function FindCrlfFrom(s: string, from: nat): (pos: int)
    requires forall i: nat :: i < from ==> !CrlfAt(s, i)
    ensures pos == NPOS || (0 <= pos && CrlfAt(s, pos))
    ensures pos == NPOS <==> NoCrlf(s)
    ensures forall i: nat :: i < pos ==> !CrlfAt(s, i)
    decreases |s| - from
  {
    if |s| <= from then NPOS
    else if CrlfAt(s, from) then from
    else FindCrlfFrom(s, from + 1)
  }

  lemma {:induction false} FirstCrlfIs(s: string, pos: nat)
    requires CrlfAt(s, pos)
    requires forall i: nat :: i < pos ==> !CrlfAt(s, i)
    ensures FindCrlf(s) == pos
  {
  }

  lemma {:induction false} FindCrlfAppend(s: string, more: string)
    requires FindCrlf(s) != NPOS
    ensures FindCrlf(s + more) == FindCrlf(s)
  {
    var pos := FindCrlf(s);
    forall i: nat | i < pos ensures !CrlfAt(s + more, i) {
      assert !CrlfAt(s, i);
    }
    FirstCrlfIs(s + more, pos);
  }

  /** A line without CR LF, followed by CR LF, ends at that CR LF and not before. */
  lemma {:induction false} FindCrlfAfterLine(line: string, rest: string)
    requires NoCrlf(line)
    ensures FindCrlf(line + CRLF + rest) == |line|
    ensures (line + CRLF + rest)[..|line|] == line
    ensures (line + CRLF + rest)[|line| + 2..] == rest
  {
    var s := line + CRLF + rest;
    forall i: nat | i < |line| ensures !CrlfAt(s, i) {
      assert !CrlfAt(line, i);
    }
    FirstCrlfIs(s, |line|);
  }

  lemma {:induction false} LineBeforeFirstCrlf(s: string)
    requires FindCrlf(s) != NPOS
    ensures var pos := FindCrlf(s);
            NoCrlf(s[..pos]) && s == s[..pos] + CRLF + s[pos + 2..]
  {
    var pos := FindCrlf(s);
    forall i: nat ensures !CrlfAt(s[..pos], i) {
      assert i < pos ==> !CrlfAt(s, i);
    }
  }

  lemma {:induction false} NoCrlfConcat(a: string, b: string)
    ensures NoCrlf(a + b) <==>
            NoCrlf(a) && NoCrlf(b) && !(a != "" && b != "" && a[|a| - 1] == '\r' && b[0] == '\n')
  {
    if NoCrlf(a + b) {
      forall i: nat ensures !CrlfAt(a, i) { assert !CrlfAt(a + b, i); }
      forall i: nat ensures !CrlfAt(b, i) { assert !CrlfAt(a + b, |a| + i); }
      if a != "" { assert !CrlfAt(a + b, |a| - 1); }
    } else {
      var i: nat :| CrlfAt(a + b, i);
      assert CrlfAt(a, i) || i == |a| - 1 || (i >= |a| && CrlfAt(b, i - |a|));
    }
  }

  // ---------------------------------------------------------------- single characters

  function Find(s: string, c: char): (pos: int)
    ensures pos == NPOS <==> c !in s
    ensures pos != NPOS ==> 0 <= pos < |s| && s[pos] == c
    ensures forall i :: 0 <= i < pos ==> s[i] != c
  {
    if s == "" then NPOS
    else if s[0] == c then 0
    else
      var p := Find(s[1..], c);
      assert s == [s[0]] + s[1..];
      if p == NPOS then NPOS else p + 1
  }

  function RFind(s: string, c: char): (pos: int)
    ensures pos == NPOS <==> c !in s
    ensures pos != NPOS ==> 0 <= pos < |s| && s[pos] == c
    ensures pos != NPOS ==> forall i :: pos < i < |s| ==> s[i] != c
  {
    if s == "" then NPOS
    else if s[|s| - 1] == c then |s| - 1
    else
      var p := RFind(s[..|s| - 1], c);
      assert s == s[..|s| - 1] + [s[|s| - 1]];
      p
  }

  lemma {:induction false} FirstIs(s: string, c: char, pos: nat)
    requires pos < |s| && s[pos] == c
    requires forall i :: 0 <= i < pos ==> s[i] != c
    ensures Find(s, c) == pos
  {
  }

  lemma {:induction false} LastIs(s: string, c: char, pos: nat)
    requires pos < |s| && s[pos] == c
    requires forall i :: pos < i < |s| ==> s[i] != c
    ensures RFind(s, c) == pos
  {
  }

  lemma {:induction false} CutAt(before: string, c: char, after: string)
    ensures (before + [c] + after)[..|before|] == before
    ensures (before + [c] + after)[|before|] == c
    ensures (before + [c] + after)[|before| + 1..] == after
  {
  }

  /** Cutting at the first `c` gives back the two parts. */
  lemma {:induction false} FindIs(before: string, c: char, after: string)
    requires c !in before
    ensures Find(before + [c] + after, c) == |before|
    ensures (before + [c] + after)[..|before|] == before
    ensures (before + [c] + after)[|before| + 1..] == after
  {
    var s := before + [c] + after;
    forall i | 0 <= i < |before| ensures s[i] != c {
      assert s[i] == before[i];
    }
    CutAt(before, c, after);
    FirstIs(s, c, |before|);
  }

  /** Cutting at the last `c` gives back the two parts. */
  lemma {:induction false} RFindIs(before: string, c: char, after: string)
    requires c !in after
    ensures RFind(before + [c] + after, c) == |before|
    ensures (before + [c] + after)[..|before|] == before
    ensures (before + [c] + after)[|before| + 1..] == after
  {
    var s := before + [c] + after;
    forall i | |before| < i < |s| ensures s[i] != c {
      assert s[i] == after[i - |before| - 1];
    }
    CutAt(before, c, after);
    LastIs(s, c, |before|);
  }

  // ---------------------------------------------------------------- letter case

  function ToLower(c: char): char {
    if 'A' <= c <= 'Z' then (c as int + 32) as char else c
  }

  function Lower(s: string): (r: string)
    ensures |r| == |s|
    ensures forall i :: 0 <= i < |s| ==> r[i] == ToLower(s[i])
  {
    seq(|s|, i requires 0 <= i < |s| => ToLower(s[i]))
  }

  // The two alphabets, letter by letter; what follows pins the functions above down without them.
  const UPPER_CASE: string := "ABCDEFGHIJKLMNOPQRSTUVWXYZ"
  const LOWER_CASE: string := "abcdefghijklmnopqrstuvwxyz"

  /** The same octet, or the two cases of one letter. */
  ghost predicate SameLetter(a: char, b: char) {
    a == b || CasesOfOne(a, b) || CasesOfOne(b, a)
  }

  ghost predicate CasesOfOne(upper: char, lower: char) {
    exists i :: 0 <= i < 26 && UPPER_CASE[i] == upper && LOWER_CASE[i] == lower
  }

  ghost predicate SameButCase(a: string, b: string) {
    |a| == |b| && forall i :: 0 <= i < |a| ==> SameLetter(a[i], b[i])
  }

  lemma {:induction false} Alphabets(i: nat)
    requires i < 26
    ensures UPPER_CASE[i] as int == 65 + i && LOWER_CASE[i] as int == 97 + i
  {
  }

  lemma {:induction false} UpperCaseIs(c: char)
    ensures c in UPPER_CASE <==> 65 <= c as int < 91
  {
    if c in UPPER_CASE {
      var i :| 0 <= i < |UPPER_CASE| && UPPER_CASE[i] == c;
      Alphabets(i);
    }
    if 65 <= c as int < 91 {
      Alphabets(c as int - 65);
      assert UPPER_CASE[c as int - 65] == c;
    }
  }

  /** A capital becomes its small letter; every other octet stays. */
  lemma {:induction false} ToLowerExact(c: char)
    ensures c in UPPER_CASE ==> CasesOfOne(c, ToLower(c))
    ensures c !in UPPER_CASE ==> ToLower(c) == c
    ensures ToLower(c) !in UPPER_CASE
  {
    UpperCaseIs(c);
    UpperCaseIs(ToLower(c));
    if c in UPPER_CASE {
      var i := c as int - 65;
      Alphabets(i);
      assert UPPER_CASE[i] == c && LOWER_CASE[i] == ToLower(c);
    }
  }

  lemma {:induction false} CasesLowerAlike(upper: char, lower: char)
    requires CasesOfOne(upper, lower)
    ensures ToLower(upper) == lower == ToLower(lower)
  {
    var i :| 0 <= i < 26 && UPPER_CASE[i] == upper && LOWER_CASE[i] == lower;
    Alphabets(i);
  }

  lemma {:induction false} OnlyCasesLowerAlike(a: char, b: char)
    ensures ToLower(a) == ToLower(b) <==> SameLetter(a, b)
  {
    ToLowerExact(a);
    ToLowerExact(b);
    if CasesOfOne(a, b) { CasesLowerAlike(a, b); }
    if CasesOfOne(b, a) { CasesLowerAlike(b, a); }
  }

  /** No capital is left, and nothing but capitals has changed. */
  lemma {:induction false} LowerExact(s: string)
    ensures forall i :: 0 <= i < |s| ==> Lower(s)[i] !in UPPER_CASE
    ensures forall i :: 0 <= i < |s| ==> if s[i] in UPPER_CASE then CasesOfOne(s[i], Lower(s)[i]) else Lower(s)[i] == s[i]
  {
    forall i | 0 <= i < |s|
      ensures Lower(s)[i] !in UPPER_CASE
      ensures if s[i] in UPPER_CASE then CasesOfOne(s[i], Lower(s)[i]) else Lower(s)[i] == s[i]
    {
      ToLowerExact(s[i]);
    }
  }

  /** Two names are the same in lower case exactly when they are the same but for the case of letters. */
  lemma {:induction false} LowerForgetsCaseOnly(a: string, b: string)
    ensures Lower(a) == Lower(b) <==> SameButCase(a, b)
  {
    forall i | 0 <= i < |a| && i < |b| ensures Lower(a)[i] == Lower(b)[i] <==> SameLetter(a[i], b[i]) {
      OnlyCasesLowerAlike(a[i], b[i]);
    }
    if Lower(a) == Lower(b) {
      assert |a| == |Lower(a)| == |b|;
    }
  }

  lemma {:induction false} LowerTwice(s: string)
    ensures Lower(Lower(s)) == Lower(s)
  {
  }

  lemma {:induction false} LowerKeepsColonAndCrlf(s: string)
    ensures ':' in Lower(s) <==> ':' in s
    ensures NoCrlf(Lower(s)) <==> NoCrlf(s)
  {
    forall i: nat ensures CrlfAt(Lower(s), i) <==> CrlfAt(s, i) {}
    if ':' in s {
      var i :| 0 <= i < |s| && s[i] == ':';
      assert Lower(s)[i] == ':';
    }
  }

  // ---------------------------------------------------------------- blanks

  predicate IsBlank(c: char) {
    c == ' ' || c == '\t'
  }

  ghost predicate AllBlank(s: string) {
    forall i :: 0 <= i < |s| ==> IsBlank(s[i])
  }

  /** The position of the first character that is no blank, or NPOS. */
  function FindNonBlank(s: string): (pos: int)
    ensures pos == NPOS <==> AllBlank(s)
    ensures pos != NPOS ==> 0 <= pos < |s| && !IsBlank(s[pos])
    ensures forall i :: 0 <= i < pos ==> IsBlank(s[i])
  {
    if s == "" then NPOS
    else if !IsBlank(s[0]) then 0
    else
      var p := FindNonBlank(s[1..]);
      assert s == [s[0]] + s[1..];
      if p == NPOS then NPOS else p + 1
  }

  /** A field value without its leading blanks; a value of nothing but blanks is left alone. */
  function TrimValue(s: string): string {
    var start := FindNonBlank(s);
    if start == NPOS then s else s[start..]
  }

  lemma {:induction false} TrimValueIs(blanks: string, v: string)
    requires AllBlank(blanks)
    requires v != "" && !IsBlank(v[0])
    ensures TrimValue(blanks + v) == v
  {
    var s := blanks + v;
    assert s[|blanks|] == v[0];
    assert forall i :: 0 <= i < |blanks| ==> s[i] == blanks[i];
    assert s[|blanks|..] == v;
  }

  /** `v` is `s` without the spaces and tabs it begins with, or `s` itself if it is nothing else. */
  ghost predicate Trimmed(s: string, v: string) {
    if forall i :: 0 <= i < |s| ==> s[i] == ' ' || s[i] == '\t' then v == s
    else
      && |v| <= |s| && v == s[|s| - |v|..] && v != "" && v[0] != ' ' && v[0] != '\t'
      && forall i :: 0 <= i < |s| - |v| ==> s[i] == ' ' || s[i] == '\t'
  }

  lemma {:induction false} TrimValueExact(s: string)
    ensures Trimmed(s, TrimValue(s))
  {
    var start := FindNonBlank(s);
    if start != NPOS {
      assert !IsBlank(s[start]);
      assert |s| - |s[start..]| == start;
    }
  }

  /** What trimming leaves is what a second trimming leaves alone. */
  lemma {:induction false} TrimValueTwice(s: string)
    ensures TrimValue(TrimValue(s)) == TrimValue(s)
  {
    var start := FindNonBlank(s);
    if start != NPOS {
      TrimValueIs("", s[start..]);
      assert "" + s[start..] == s[start..];
    }
  }

  // ---------------------------------------------------------------- numbers

  predicate IsDigit(c: char) {
    '0' <= c <= '9'
  }

  ghost predicate AllDigits(s: string) {
    forall i :: 0 <= i < |s| ==> IsDigit(s[i])
  }

  predicate IsSpace(c: char) {
    c == ' ' || c == '\t' || c == '\n' || c == 11 as char || c == 12 as char || c == '\r'
  }

  function SkipSpaces(s: string): string {
    if s != "" && IsSpace(s[0]) then SkipSpaces(s[1..]) else s
  }

  /** The longest prefix of digits. */
  function DigitRun(s: string): (r: string)
    ensures AllDigits(r)
  {
    if s != "" && IsDigit(s[0]) then [s[0]] + DigitRun(s[1..]) else ""
  }

  function Value(digits: string): int {
    if digits == "" then 0
    else 10 * Value(digits[..|digits| - 1]) + (digits[|digits| - 1] as int - '0' as int)
  }

  function Saturate(n: int): int {
    if n > LONG_MAX then LONG_MAX else if n < LONG_MIN then LONG_MIN else n
  }

  datatype StrtolResult = NoConversion | Converted(value: int)

  /** `strtol` in base 10 for a 64-bit `long`: white space, an optional sign, digits; saturating. */
  function Strtol(s: string): StrtolResult {
    var t := SkipSpaces(s);
    var signed := t != "" && (t[0] == '-' || t[0] == '+');
    var digits := DigitRun(if signed then t[1..] else t);
    if digits == "" then NoConversion
    else
      var magnitude: int := Value(digits);
      Converted(Saturate(if signed && t[0] == '-' then -magnitude else magnitude))
  }

  function Digit(d: nat): char
    requires d < 10
  {
    ('0' as int + d) as char
  }

  function Decimal(n: nat): (r: string)
    ensures r != "" && AllDigits(r)
  {
    if n < 10 then [Digit(n)] else Decimal(n / 10) + [Digit(n % 10)]
  }

  function DecimalInt(n: int): string {
    if n < 0 then "-" + Decimal(-n) else Decimal(n)
  }

  lemma {:induction false} DigitRunOfDigits(s: string)
    requires AllDigits(s)
    ensures DigitRun(s) == s
  {
    if s != "" {
      DigitRunOfDigits(s[1..]);
    }
  }

  lemma {:induction false} ValueOfDecimal(n: nat)
    ensures Value(Decimal(n)) == n
  {
    if n >= 10 {
      ValueOfDecimal(n / 10);
      var d := Decimal(n);
      assert d[..|d| - 1] == Decimal(n / 10);
    } else {
      assert Decimal(n)[..0] == "";
    }
  }

  /** Reading back a printed number gives the number, up to the largest `long`. */
  lemma {:induction false} StrtolOfDecimal(n: nat)
    ensures Strtol(Decimal(n)) == Converted(Clamped(n))
  {
    var d := Decimal(n);
    assert IsDigit(d[0]);
    assert SkipSpaces(d) == d;
    DigitRunOfDigits(d);
    ValueOfDecimal(n);
  }

  // ---------------------------------------------------------------- what strtol reads

  ghost predicate AllSpace(s: string) {
    forall i :: 0 <= i < |s| ==> IsSpace(s[i])
  }

  const DIGITS: string := "0123456789"
  const SPACES: string := [' ', '\t', '\n', 11 as char, 12 as char, '\r']

  /** White space, a sign or none, digits, and a rest that does not go on with a digit. */
  ghost predicate Numeral(s: string, spaces: string, sign: string, digits: string, tail: string) {
    && s == spaces + (sign + (digits + tail))
    && (forall i :: 0 <= i < |spaces| ==> spaces[i] in SPACES)
    && (forall i :: 0 <= i < |digits| ==> digits[i] in DIGITS) && digits != ""
    && (sign == "" || sign == "+" || sign == "-")
    && (tail == "" || tail[0] !in DIGITS)
  }

  lemma {:induction false} SpaceIs(c: char)
    ensures IsSpace(c) <==> c in SPACES
  {
  }

  lemma {:induction false} DigitIs(c: char)
    ensures IsDigit(c) <==> c in DIGITS
  {
    assert c in DIGITS <==> 48 <= c as int < 58;
  }

  /** A numeral's value, digit by digit. */
  lemma {:induction false} ValueExact(digits: string, k: nat)
    requires k < 10
    ensures Value("") == 0
    ensures Value(digits + [DIGITS[k]]) == 10 * Value(digits) + k
  {
    var more := digits + [DIGITS[k]];
    assert more[..|digits|] == digits;
    assert DIGITS[k] as int == 48 + k;
  }

  lemma {:induction false} ValueNotNegative(digits: string)
    requires AllDigits(digits)
    ensures Value(digits) >= 0
    decreases |digits|
  {
    if digits != "" {
      ValueNotNegative(digits[..|digits| - 1]);
    }
  }

  /** The value that fits 64 bits nearest to `n`. */
  function Clamped(n: int): int {
    if n > 9223372036854775807 then 9223372036854775807
    else if n < -9223372036854775808 then -9223372036854775808
    else n
  }

  lemma {:induction false} SkipSpacesOver(spaces: string, rest: string)
    requires AllSpace(spaces) && (rest == "" || !IsSpace(rest[0]))
    ensures SkipSpaces(spaces + rest) == rest
  {
    if spaces == "" {
      assert spaces + rest == rest;
    } else {
      SkipSpacesOver(spaces[1..], rest);
      assert (spaces + rest)[1..] == spaces[1..] + rest;
    }
  }

  lemma {:induction false} DigitRunOver(digits: string, tail: string)
    requires AllDigits(digits) && (tail == "" || !IsDigit(tail[0]))
    ensures DigitRun(digits + tail) == digits
  {
    var s := digits + tail;
    if digits == "" {
      assert s == tail;
    } else {
      var first, rest := digits[0], digits[1..];
      assert s[0] == first && s[1..] == rest + tail;
      DigitRunOver(rest, tail);
      assert DigitRun(s) == [first] + rest;
    }
  }

  /** A numeral converts to its value, saturated. */
  lemma {:induction false} StrtolOfNumeral(s: string, spaces: string, sign: string, digits: string, tail: string)
    requires Numeral(s, spaces, sign, digits, tail)
    ensures Strtol(s) == Converted(Clamped(if sign == "-" then -Value(digits) else Value(digits)))
  {
    var rest := sign + (digits + tail);
    forall i | 0 <= i < |spaces| ensures IsSpace(spaces[i]) { SpaceIs(spaces[i]); }
    forall i | 0 <= i < |digits| ensures IsDigit(digits[i]) { DigitIs(digits[i]); }
    if tail != "" { DigitIs(tail[0]); }
    assert IsDigit(digits[0]);
    SkipSpacesOver(spaces, rest);
    DigitRunOver(digits, tail);
    if sign == "" {
      assert rest == digits + tail;
    } else {
      assert rest[1..] == digits + tail;
    }
  }

  lemma {:induction false} SkippedSpaces(s: string) returns (spaces: string)
    ensures s == spaces + SkipSpaces(s) && AllSpace(spaces)
    ensures SkipSpaces(s) == "" || !IsSpace(SkipSpaces(s)[0])
  {
    if s != "" && IsSpace(s[0]) {
      var more := SkippedSpaces(s[1..]);
      spaces := [s[0]] + more;
    } else {
      spaces := "";
    }
  }

  lemma {:induction false} RunOfDigits(s: string) returns (tail: string)
    ensures s == DigitRun(s) + tail
    ensures tail == "" || !IsDigit(tail[0])
  {
    if s != "" && IsDigit(s[0]) {
      tail := RunOfDigits(s[1..]);
    } else {
      tail := s;
    }
  }

  /** Only numerals convert. */
  lemma {:induction false} StrtolReadsNumeral(s: string) returns (spaces: string, sign: string, digits: string, tail: string)
    requires Strtol(s) != NoConversion
    ensures Numeral(s, spaces, sign, digits, tail)
  {
    spaces := SkippedSpaces(s);
    var t := SkipSpaces(s);
    var signed := t != "" && (t[0] == '-' || t[0] == '+');
    sign := if signed then [t[0]] else "";
    var rest := if signed then t[1..] else t;
    assert t == sign + rest;
    digits := DigitRun(rest);
    tail := RunOfDigits(rest);
    forall i | 0 <= i < |spaces| ensures spaces[i] in SPACES { SpaceIs(spaces[i]); }
    forall i | 0 <= i < |digits| ensures digits[i] in DIGITS { DigitIs(digits[i]); }
    if tail != "" { DigitIs(tail[0]); }
  }

  lemma {:induction false} SignedDigitsAreNumeral(digits: string)
    requires AllDigits(digits) && digits != ""
    ensures Numeral("-" + digits, "", "-", digits, "")
  {
    forall i | 0 <= i < |digits| ensures digits[i] in DIGITS { DigitIs(digits[i]); }
    assert digits + "" == digits && "" + ("-" + digits) == "-" + digits;
  }

  lemma {:induction false} StrtolOfNegative(digits: string)
    requires AllDigits(digits) && digits != ""
    ensures Strtol("-" + digits) == Converted(Clamped(-Value(digits)))
  {
    SignedDigitsAreNumeral(digits);
    StrtolOfNumeral("-" + digits, "", "-", digits, "");
  }

  /** Digits with no zero too many in front. */
  ghost predicate PlainDigits(s: string) {
    && s != "" && (forall i :: 0 <= i < |s| ==> s[i] in DIGITS)
    && (|s| > 1 ==> s[0] != '0')
  }

  lemma {:induction false} DecimalIsPlain(n: nat)
    ensures PlainDigits(Decimal(n))
    ensures n > 0 ==> Decimal(n)[0] != '0'
    decreases n
  {
    var d := Decimal(n);
    forall i | 0 <= i < |d| ensures d[i] in DIGITS { DigitIs(d[i]); }
    if n >= 10 {
      DecimalIsPlain(n / 10);
      assert d[0] == Decimal(n / 10)[0];
    }
  }

  lemma {:induction false} DecimalIntIsPlain(n: int)
    ensures if n < 0 then DecimalInt(n) != "" && DecimalInt(n)[0] == '-' && PlainDigits(DecimalInt(n)[1..])
            else PlainDigits(DecimalInt(n))
  {
    if n < 0 {
      DecimalIsPlain(-n);
      assert DecimalInt(n)[1..] == Decimal(-n);
    } else {
      DecimalIsPlain(n);
    }
  }

  /** Reading back a printed number, below zero or not. */
  lemma {:induction false} StrtolOfDecimalInt(n: int)
    ensures Strtol(DecimalInt(n)) == Converted(Clamped(n))
  {
    if n < 0 {
      ValueOfDecimal(-n);
      StrtolOfNegative(Decimal(-n));
    } else {
      StrtolOfDecimal(n);
    }
  }
}
