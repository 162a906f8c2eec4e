/** Printing and scanning of the index file's fields: what `fprintf` writes for
    %i, %li, %lf and %s, and what `fscanf` reads back, with %i and %li in base 0
    (sections 7.21.6.1 and 7.21.6.2 of ISO C11). */
module Scanning {

  predicate IsSpace(c: char) {
    c == ' ' || c == '\t' || c == '\n' || c == '\r' || c == 11 as char || c == 12 as char
  }

  predicate NoSpace(s: string) {
    forall i | 0 <= i < |s| :: !IsSpace(s[i])
  }

  // ----- digits -----

  /** The value of a digit, or 16 for what is no digit in any base. */
  function DigitValue(c: char): (v: nat) {
    if '0' <= c <= '9' then (c as int) - ('0' as int)
    else if 'a' <= c <= 'f' then (c as int) - ('a' as int) + 10
    else if 'A' <= c <= 'F' then (c as int) - ('A' as int) + 10
    else 16
  }

  predicate AllDigits(s: string, base: nat) {
    forall i | 0 <= i < |s| :: DigitValue(s[i]) < base
  }

  /** The length of the longest prefix of digits. */
  function Run(s: string, base: nat): (n: nat)
    ensures n <= |s| && AllDigits(s[..n], base)
    ensures n < |s| ==> DigitValue(s[n]) >= base
  {
    if s == [] || DigitValue(s[0]) >= base then 0
    else
      var n := Run(s[1..], base);
      assert s[1..][..n] == s[1..n + 1];
      assert s[..n + 1] == [s[0]] + s[1..n + 1];
      n + 1
  }

  lemma {:induction false} RunStops(digits: string, rest: string, base: nat)
    requires AllDigits(digits, base)
    requires rest == [] || DigitValue(rest[0]) >= base
    ensures Run(digits + rest, base) == |digits|
  {
    if digits == [] {
      assert digits + rest == rest;
    } else {
      assert (digits + rest)[1..] == digits[1..] + rest;
      RunStops(digits[1..], rest, base);
    }
  }

  function Value(digits: string, base: nat): nat {
    if digits == [] then 0 else Value(digits[..|digits| - 1], base) * base + DigitValue(digits[|digits| - 1])
  }

  // ----- decimal printing -----

  function DigitChar(d: nat): (c: char)
    requires d < 10
    ensures DigitValue(c) == d && '0' <= c <= '9'
  {
    '0' + d as char
  }

  function Decimal(n: nat): (s: string)
    ensures s != [] && AllDigits(s, 10)
    ensures forall i | 0 <= i < |s| :: '0' <= s[i] <= '9'
  {
    if n < 10 then [DigitChar(n)] else Decimal(n / 10) + [DigitChar(n % 10)]
  }

  /** No leading zero is ever printed, so base 0 reads the number as decimal. */
  lemma {:induction false} DecimalValue(n: nat)
    ensures Value(Decimal(n), 10) == n
    ensures Decimal(n)[0] == '0' ==> n == 0 && |Decimal(n)| == 1
  {
    var s := Decimal(n);
    if n < 10 {
      assert s[..0] == [];
      assert s == [DigitChar(n)];
    } else {
      DecimalValue(n / 10);
      assert s[..|s| - 1] == Decimal(n / 10);
    }
  }

  /** `width` decimals of n, most significant first. */
  function Padded(n: nat, width: nat): (s: string)
    ensures |s| == width && AllDigits(s, 10)
    ensures forall i | 0 <= i < |s| :: '0' <= s[i] <= '9'
  {
    if width == 0 then [] else Padded(n / 10, width - 1) + [DigitChar(n % 10)]
  }

  function Power10(k: nat): (p: nat)
    ensures p > 0
  {
    if k == 0 then 1 else 10 * Power10(k - 1)
  }

  lemma DivideByTen(n: nat, p: nat)
    requires n < 10 * p
    ensures n / 10 < p && n / 10 * 10 + n % 10 == n
  {
  }

  lemma {:induction false} PaddedValue(n: nat, width: nat)
    requires n < Power10(width)
    ensures Value(Padded(n, width), 10) == n
  {
    if width > 0 {
      DivideByTen(n, Power10(width - 1));
      PaddedValue(n / 10, width - 1);
      var s := Padded(n, width);
      assert s[..width - 1] == Padded(n / 10, width - 1);
      assert s[width - 1] == DigitChar(n % 10);
    }
  }

  lemma {:induction false} DecimalLength(i: nat, k: nat)
    requires k >= 1 && i < Power10(k)
    ensures |Decimal(i)| <= k
    decreases k
  {
    if i >= 10 {
      assert Power10(k) == 10 * Power10(k - 1);
      assert k > 1 by {
        assert Power10(1) == 10 * Power10(0) == 10;
      }
      DecimalLength(i / 10, k - 1);
    }
  }

  function Sign(negative: bool): string {
    if negative then "-" else ""
  }

  function Abs(n: int): nat {
    if n < 0 then -n else n
  }

  /** %i and %li. */
  function PrintInt(n: int): (s: string)
    ensures s != []
  {
    Sign(n < 0) + Decimal(Abs(n))
  }

  const MILLION := 1_000_000

  /** %lf of n millionths: six decimals. */
  function PrintFixed(n: int): (s: string)
    ensures s != []
  {
    Sign(n < 0) + Decimal(Abs(n) / MILLION) + "." + Padded(Abs(n) % MILLION, 6)
  }

  // ----- the scanner -----

  /** The text left, whether the end of the file has been seen, and whether every
      conversion so far has succeeded. After a failure `fscanf` returns. */
  datatype Cursor = Cursor(text: string, eof: bool, ok: bool)

  function SkipSpace(s: string): (r: string)
    ensures |r| <= |s| && (r != [] ==> !IsSpace(r[0]))
    ensures s != [] && !IsSpace(s[0]) ==> r == s
  {
    if s != [] && IsSpace(s[0]) then SkipSpace(s[1..]) else s
  }

  /** A white-space directive. */
  function ScanSpace(c: Cursor): (r: Cursor)
    ensures |r.text| <= |c.text| && r.ok == c.ok && (c.eof ==> r.eof)
  {
    if !c.ok then c
    else
      var rest := SkipSpace(c.text);
      Cursor(rest, c.eof || rest == [], true)
  }

  /** The length of the word at the front, at most `width`. */
  function WordLength(s: string, width: nat): (n: nat)
    ensures n <= |s| && n <= width
    ensures s != [] && !IsSpace(s[0]) && width > 0 ==> n > 0
  {
    if s == [] || width == 0 || IsSpace(s[0]) then 0 else 1 + WordLength(s[1..], width - 1)
  }

  /** %<width>s. */
  function ScanWord(c: Cursor, width: nat, unset: string): (r: (string, Cursor))
    requires width > 0
    ensures |r.1.text| <= |c.text| && (c.eof ==> r.1.eof)
    ensures c.ok ==> r.1.eof || |r.1.text| < |c.text|
  {
    if !c.ok then (unset, c)
    else
      var s := SkipSpace(c.text);
      if s == [] then (unset, Cursor([], true, false))
      else
        var n := WordLength(s, width);
        (s[..n], Cursor(s[n..], c.eof || (n == |s| && n < width), true))
  }

  function AfterSign(s: string): (r: (bool, string))
    ensures |r.1| <= |s|
  {
    if s != [] && s[0] == '-' then (true, s[1..])
    else if s != [] && s[0] == '+' then (false, s[1..])
    else (false, s)
  }

  /** The base that base 0 chooses, and the digits behind its prefix. */
  function ChooseBase(s: string): (r: (nat, string))
    ensures |r.1| <= |s|
  {
    if |s| >= 3 && s[0] == '0' && (s[1] == 'x' || s[1] == 'X') && DigitValue(s[2]) < 16 then (16, s[2..])
    else if s != [] && s[0] == '0' then (8, s)
    else (10, s)
  }

  function Signed(negative: bool, n: int): int {
    if negative then -n else n
  }

  /** %i and %li. */
  function ScanInt(c: Cursor, unset: int): (r: (int, Cursor))
    ensures |r.1.text| <= |c.text| && (c.eof ==> r.1.eof)
  {
    if !c.ok then (unset, c)
    else
      var (negative, unsigned) := AfterSign(SkipSpace(c.text));
      var (base, digits) := ChooseBase(unsigned);
      var n := Run(digits, base);
      var eof := c.eof || n == |digits|;
      if n == 0 then (unset, Cursor(digits, eof, false))
      else (Signed(negative, Value(digits[..n], base)), Cursor(digits[n..], eof, true))
  }

  /** The first six decimals behind the point, filled up with zeros. */
  function Millionths(decimals: string): nat {
    Value(if |decimals| >= 6 then decimals[..6] else decimals, 10)
    * (if |decimals| >= 6 then 1 else Power10(6 - |decimals|))
  }

  datatype Magnitude = Magnitude(found: bool, millionths: nat, rest: string)

  /** The point and the decimals behind it, if there are any. */
  function ScanFraction(s: string): (r: Magnitude)
    ensures |r.rest| <= |s|
  {
    if s == [] || s[0] != '.' then Magnitude(false, 0, s)
    else
      var m := Run(s[1..], 10);
      Magnitude(m > 0, Millionths(s[1..][..m]), s[1..][m..])
  }

  function ScanMagnitude(s: string): (r: Magnitude)
    ensures |r.rest| <= |s|
  {
    var n := Run(s, 10);
    var fraction := ScanFraction(s[n..]);
    Magnitude(n > 0 || fraction.found, Value(s[..n], 10) * MILLION + fraction.millionths, fraction.rest)
  }

  /** %lf, for numbers without an exponent. */
  function ScanFixed(c: Cursor, unset: int): (r: (int, Cursor))
    ensures |r.1.text| <= |c.text| && (c.eof ==> r.1.eof)
  {
    if !c.ok then (unset, c)
    else
      var (negative, s) := AfterSign(SkipSpace(c.text));
      var m := ScanMagnitude(s);
      var eof := c.eof || m.rest == [];
      (if m.found then Signed(negative, m.millionths) else unset, Cursor(m.rest, eof, m.found))
  }

  // ----- what is printed is read back -----

  /** Text that ends a field. */
  predicate Ends(rest: string) {
    rest != [] && IsSpace(rest[0])
  }

  lemma {:induction false} WordEnds(word: string, rest: string, width: nat)
    requires NoSpace(word) && |word| <= width && Ends(rest)
    ensures WordLength(word + rest, width) == |word|
  {
    if word == [] {
      assert word + rest == rest;
    } else {
      assert (word + rest)[1..] == word[1..] + rest;
      WordEnds(word[1..], rest, width - 1);
    }
  }

  lemma SkipOne(s: string)
    requires s != [] && !IsSpace(s[0])
    ensures SkipSpace(" " + s) == s && SkipSpace(s) == s
  {
    assert (" " + s)[1..] == s;
  }

  predicate Separated(c: Cursor, s: string) {
    c.ok && !c.eof && (c.text == s || c.text == " " + s)
  }

  lemma WordReadBack(c: Cursor, word: string, rest: string, width: nat, unset: string)
    requires Separated(c, word + rest)
    requires NoSpace(word) && 0 < |word| <= width && Ends(rest)
    ensures ScanWord(c, width, unset) == (word, Cursor(rest, false, true))
  {
    var s := word + rest;
    SkipOne(s);
    WordEnds(word, rest, width);
    assert s[..|word|] == word && s[|word|..] == rest;
  }

  lemma SignReadBack(negative: bool, digits: string)
    requires digits != [] && '0' <= digits[0] <= '9'
    ensures AfterSign(Sign(negative) + digits) == (negative, digits)
    ensures !IsSpace((Sign(negative) + digits)[0])
  {
    if negative {
      assert ("-" + digits)[1..] == digits;
    } else {
      assert "" + digits == digits;
    }
  }

  /** Base 0 reads back what was printed: "0" is octal, anything else decimal. */
  lemma NumberReadBack(n: nat, rest: string)
    requires Ends(rest)
    ensures var (base, digits) := ChooseBase(Decimal(n) + rest);
            && digits == Decimal(n) + rest
            && Run(digits, base) == |Decimal(n)|
            && Value(Decimal(n), base) == n
  {
    var decimal := Decimal(n);
    var digits := decimal + rest;
    DecimalValue(n);
    assert digits[0] == decimal[0];
    if decimal[0] == '0' {
      assert digits[1] == rest[0];
      assert decimal == ['0'];
      assert decimal[..0] == [];
      RunStops(decimal, rest, 8);
    } else {
      RunStops(decimal, rest, 10);
    }
  }

  lemma SplitConcat(a: string, b: string)
    ensures (a + b)[..|a|] == a && (a + b)[|a|..] == b
  {
  }

  lemma IntBySign(c: Cursor, t: string, negative: bool, decimal: string, rest: string, unset: int)
    requires c.ok && !c.eof && SkipSpace(c.text) == t && AfterSign(t) == (negative, decimal + rest)
    requires decimal != [] && rest != []
    requires var (base, digits) := ChooseBase(decimal + rest);
             digits == decimal + rest && Run(digits, base) == |decimal|
    requires (decimal + rest)[..|decimal|] == decimal && (decimal + rest)[|decimal|..] == rest
    ensures ScanInt(c, unset)
            == (Signed(negative, Value(decimal, ChooseBase(decimal + rest).0)), Cursor(rest, false, true))
  {
  }

  lemma IntReadBack(c: Cursor, n: int, rest: string, unset: int)
    requires Separated(c, PrintInt(n) + rest) && Ends(rest)
    ensures ScanInt(c, unset) == (n, Cursor(rest, false, true))
  {
    var decimal := Decimal(Abs(n));
    var digits := decimal + rest;
    var t := Sign(n < 0) + digits;
    assert PrintInt(n) + rest == t;
    SignReadBack(n < 0, digits);
    SkipOne(t);
    NumberReadBack(Abs(n), rest);
    SplitConcat(decimal, rest);
    IntBySign(c, t, n < 0, decimal, rest, unset);
  }

  lemma SixDecimals(n: nat)
    requires n < MILLION
    ensures Millionths(Padded(n, 6)) == n
  {
    assert Power10(6) == MILLION by {
      assert Power10(0) == 1 && Power10(1) == 10 && Power10(2) == 100 && Power10(3) == 1000 && Power10(4) == 10000
             && Power10(5) == 100000;
    }
    PaddedValue(n, 6);
    assert Padded(n, 6)[..6] == Padded(n, 6);
  }

  lemma FractionReadBack(decimals: string, rest: string)
    requires AllDigits(decimals, 10) && Ends(rest)
    ensures ScanFraction("." + (decimals + rest)) == Magnitude(decimals != [], Millionths(decimals), rest)
  {
    RunStops(decimals, rest, 10);
    SplitConcat(".", decimals + rest);
    SplitConcat(decimals, rest);
  }

  lemma MagnitudeParts(whole: string, tail: string, fraction: Magnitude)
    requires whole != [] && Run(whole + tail, 10) == |whole| && ScanFraction(tail) == fraction
    ensures ScanMagnitude(whole + tail)
            == Magnitude(true, Value(whole, 10) * MILLION + fraction.millionths, fraction.rest)
  {
    SplitConcat(whole, tail);
  }

  lemma SplitAtPoint(whole: string, decimals: string, rest: string)
    requires AllDigits(whole, 10) && AllDigits(decimals, 10) && Ends(rest) && whole != []
    ensures ScanMagnitude(whole + ("." + (decimals + rest)))
            == Magnitude(true, Value(whole, 10) * MILLION + Millionths(decimals), rest)
  {
    var tail := "." + (decimals + rest);
    FractionReadBack(decimals, rest);
    RunStops(whole, tail, 10);
    MagnitudeParts(whole, tail, Magnitude(decimals != [], Millionths(decimals), rest));
  }

  lemma MagnitudeReadBack(n: nat, rest: string)
    requires Ends(rest)
    ensures ScanMagnitude(Decimal(n / MILLION) + ("." + (Padded(n % MILLION, 6) + rest))) == Magnitude(true, n, rest)
  {
    SplitAtPoint(Decimal(n / MILLION), Padded(n % MILLION, 6), rest);
    DecimalValue(n / MILLION);
    SixDecimals(n % MILLION);
  }

  lemma PrintFixedParts(n: int, rest: string)
    ensures var s := Decimal(Abs(n) / MILLION) + ("." + (Padded(Abs(n) % MILLION, 6) + rest));
            PrintFixed(n) + rest == Sign(n < 0) + s && s[0] == Decimal(Abs(n) / MILLION)[0]
  {
  }

  /** A signed number is read by its magnitude. */
  lemma FixedBySign(c: Cursor, t: string, negative: bool, s: string, m: Magnitude, unset: int)
    requires c.ok && !c.eof && SkipSpace(c.text) == t && AfterSign(t) == (negative, s)
    requires ScanMagnitude(s) == m && m.found && m.rest != []
    ensures ScanFixed(c, unset) == (Signed(negative, m.millionths), Cursor(m.rest, false, true))
  {
  }

  /** The printed number and what follows it, with and without the sign. */
  lemma FixedText(n: int, rest: string) returns (t: string, s: string)
    requires Ends(rest)
    ensures PrintFixed(n) + rest == t && t != [] && !IsSpace(t[0]) && AfterSign(t) == (n < 0, s)
    ensures ScanMagnitude(s) == Magnitude(true, Abs(n), rest)
  {
    s := Decimal(Abs(n) / MILLION) + ("." + (Padded(Abs(n) % MILLION, 6) + rest));
    t := Sign(n < 0) + s;
    PrintFixedParts(n, rest);
    SignReadBack(n < 0, s);
    MagnitudeReadBack(Abs(n), rest);
  }

  lemma FixedReadBack(c: Cursor, n: int, rest: string, unset: int)
    requires Separated(c, PrintFixed(n) + rest) && Ends(rest)
    ensures ScanFixed(c, unset) == (n, Cursor(rest, false, true))
  {
    var t, s := FixedText(n, rest);
    SkipOne(t);
    FixedBySign(c, t, n < 0, s, Magnitude(true, Abs(n), rest), unset);
  }

  // ----- what is printed, character by character -----

  lemma DigitCodes(c: char)
    requires '0' <= c <= '9'
    ensures DigitValue(c) == c as int - 48 && DigitChar(DigitValue(c)) == c
  {
  }

  /** A minus sign exactly for a negative number, and its decimal digits without leading zeros. */
  lemma PrintedInt(n: int) returns (digits: string)
    ensures PrintInt(n) == (if n < 0 then "-" else "") + digits
    ensures digits != [] && forall i | 0 <= i < |digits| :: '0' <= digits[i] <= '9'
    ensures Value(digits, 10) == (if n < 0 then -n else n) && (digits[0] == '0' ==> |digits| == 1)
  {
    digits := Decimal(Abs(n));
    DecimalValue(Abs(n));
  }

  /** The same for a number of millionths: whole digits, a point and exactly six decimals. */
  lemma PrintedFixed(n: int) returns (whole: string, decimals: string)
    ensures PrintFixed(n) == (if n < 0 then "-" else "") + whole + "." + decimals
    ensures whole != [] && (forall i | 0 <= i < |whole| :: '0' <= whole[i] <= '9')
    ensures |decimals| == 6 && forall i | 0 <= i < 6 :: '0' <= decimals[i] <= '9'
    ensures Value(whole, 10) * 1_000_000 + Value(decimals, 10) == (if n < 0 then -n else n)
    ensures whole[0] == '0' ==> |whole| == 1
  {
    var m := Abs(n);
    whole, decimals := Decimal(m / MILLION), Padded(m % MILLION, 6);
    DecimalValue(m / MILLION);
    SixDecimals(m % MILLION);
    assert decimals[..6] == decimals;
  }

  // ----- other text that the directives take -----

  /** A leading zero makes a number octal. */
  lemma OctalRead(c: Cursor, digits: string, rest: string, unset: int)
    requires Separated(c, digits + rest) && Ends(rest)
    requires digits != [] && digits[0] == '0' && AllDigits(digits, 8)
    ensures ScanInt(c, unset) == (Value(digits, 8), Cursor(rest, false, true))
  {
    var t := digits + rest;
    SkipOne(t);
    RunStops(digits, rest, 8);
    SplitConcat(digits, rest);
    assert t[0] == '0' && (|digits| > 1 ==> t[1] == digits[1]) && (|digits| == 1 ==> t[1] == rest[0]);
    IntBySign(c, t, false, digits, rest, unset);
  }

  /** "0x" makes it hexadecimal. */
  lemma HexadecimalRead(c: Cursor, digits: string, rest: string, unset: int)
    requires Separated(c, "0x" + (digits + rest)) && Ends(rest)
    requires digits != [] && AllDigits(digits, 16)
    ensures ScanInt(c, unset) == (Value(digits, 16), Cursor(rest, false, true))
  {
    var t := "0x" + (digits + rest);
    SkipOne(t);
    RunStops(digits, rest, 16);
    SplitConcat(digits, rest);
    SplitConcat("0x", digits + rest);
    assert t[2] == digits[0];
    assert ChooseBase(t) == (16, digits + rest);
  }

  /** A word longer than the width is cut there, and the rest of it is left to read. */
  lemma {:induction false} LongWord(word: string, rest: string, width: nat)
    requires NoSpace(word) && width < |word|
    ensures WordLength(word + rest, width) == width
    decreases width
  {
    if width > 0 {
      assert (word + rest)[1..] == word[1..] + rest;
      LongWord(word[1..], rest, width - 1);
    }
  }

  lemma LongWordRead(c: Cursor, word: string, rest: string, width: nat, unset: string)
    requires Separated(c, word + rest) && NoSpace(word) && 0 < width < |word|
    ensures ScanWord(c, width, unset) == (word[..width], Cursor(word[width..] + rest, false, true))
  {
    SkipOne(word + rest);
    LongWord(word, rest, width);
    assert (word + rest)[..width] == word[..width] && (word + rest)[width..] == word[width..] + rest;
  }

  // ----- whole lines: fields, and the directives that read them -----

  datatype Field = Word(word: string) | Integer(n: int) | Fixed(millionths: int)

  datatype Directive = ReadWord(width: nat) | ReadInteger | ReadFixed

  function Show(f: Field): string {
    match f
    case Word(word) => word
    case Integer(n) => PrintInt(n)
    case Fixed(n) => PrintFixed(n)
  }

  /** The line of some fields, and what comes after it. */
  function PrintLine(fields: seq<Field>, more: string): string {
    if fields == [] then "\n" + more
    else if |fields| == 1 then Show(fields[0]) + ("\n" + more)
    else Show(fields[0]) + (" " + PrintLine(fields[1..], more))
  }

  function ScanField(d: Directive, c: Cursor): (r: (Field, Cursor))
    ensures |r.1.text| <= |c.text| && (c.eof ==> r.1.eof)
    ensures d.ReadWord? && d.width > 0 && c.ok ==> r.1.eof || |r.1.text| < |c.text|
  {
    match d
    case ReadWord(width) =>
      if width == 0 then (Word(""), c)
      else
        var (word, next) := ScanWord(c, width, "");
        (Word(word), next)
    case ReadInteger =>
      var (n, next) := ScanInt(c, 0);
      (Integer(n), next)
    case ReadFixed =>
      var (n, next) := ScanFixed(c, 0);
      (Fixed(n), next)
  }

  /** `fscanf` with a format of these directives, separated by spaces and closed by
      a newline. What it does not reach stays as zeroed memory. */
  function ScanLine(format: seq<Directive>, c: Cursor): (r: (seq<Field>, Cursor))
    ensures |r.0| == |format| && |r.1.text| <= |c.text| && (c.eof ==> r.1.eof)
    ensures format != [] && format[0].ReadWord? && format[0].width > 0 && c.ok ==> r.1.eof || |r.1.text| < |c.text|
  {
    if format == [] then ([], ScanSpace(c))
    else
      var (field, c) := ScanField(format[0], c);
      var (fields, c) := ScanLine(format[1..], c);
      ([field] + fields, c)
  }

  /** What a field holds when its directive was not reached. */
  function Unset(d: Directive): Field {
    match d
    case ReadWord(_) => Word("")
    case ReadInteger => Integer(0)
    case ReadFixed => Fixed(0)
  }

  /** After a failure nothing more is read. */
  lemma {:induction false} FailedLine(format: seq<Directive>, c: Cursor)
    requires !c.ok
    ensures ScanLine(format, c).1 == c
    ensures forall i | 0 <= i < |format| :: ScanLine(format, c).0[i] == Unset(format[i])
  {
    if format != [] {
      FailedLine(format[1..], c);
    }
  }

  lemma FailedFirst(format: seq<Directive>, c: Cursor, failed: Cursor)
    requires format != [] && !failed.ok && ScanField(format[0], c) == (Unset(format[0]), failed)
    ensures ScanLine(format, c).1 == failed
    ensures forall i | 0 <= i < |format| :: ScanLine(format, c).0[i] == Unset(format[i])
  {
    FailedLine(format[1..], failed);
  }

  /** A field that its directive can read back. */
  predicate Matches(d: Directive, f: Field) {
    match d
    case ReadWord(width) => f.Word? && NoSpace(f.word) && 0 < |f.word| <= width
    case ReadInteger => f.Integer?
    case ReadFixed => f.Fixed?
  }

  lemma FieldReadBack(d: Directive, f: Field, c: Cursor, rest: string)
    requires Matches(d, f) && Separated(c, Show(f) + rest) && Ends(rest)
    ensures ScanField(d, c) == (f, Cursor(rest, false, true))
  {
    match f
    case Word(word) => WordReadBack(c, word, rest, d.width, "");
    case Integer(n) => IntReadBack(c, n, rest, 0);
    case Fixed(n) => FixedReadBack(c, n, rest, 0);
  }

  /** Whatever follows a line does not start with white space. */
  predicate LineStart(more: string) {
    more == [] || !IsSpace(more[0])
  }

  lemma NewlineReadBack(more: string)
    requires LineStart(more)
    ensures ScanLine([], Cursor("\n" + more, false, true)) == ([], Cursor(more, more == [], true))
  {
    assert ("\n" + more)[1..] == more;
  }

  lemma FirstScanned(format: seq<Directive>, fields: seq<Field>, c: Cursor, next: Cursor, end: Cursor)
    requires |format| == |fields| > 0 && ScanField(format[0], c) == (fields[0], next)
    requires ScanLine(format[1..], next) == (fields[1..], end)
    ensures ScanLine(format, c) == (fields, end)
  {
    assert fields == [fields[0]] + fields[1..];
  }

  /** The first field of a line, given how the rest of the line is read. */
  lemma FirstFieldReadBack(format: seq<Directive>, fields: seq<Field>, c: Cursor, rest: string, end: Cursor)
    requires |format| == |fields| > 0 && Matches(format[0], fields[0])
    requires Separated(c, Show(fields[0]) + rest) && Ends(rest)
    requires ScanLine(format[1..], Cursor(rest, false, true)) == (fields[1..], end)
    ensures ScanLine(format, c) == (fields, end)
  {
    FieldReadBack(format[0], fields[0], c, rest);
    FirstScanned(format, fields, c, Cursor(rest, false, true), end);
  }

  /** A line printed from fields is read back as those fields, whatever the format,
      and the reading stops right behind it. */
  lemma {:induction false} LineReadBack(format: seq<Directive>, fields: seq<Field>, c: Cursor, more: string)
    requires |format| == |fields| > 0 && LineStart(more)
    requires forall i | 0 <= i < |fields| :: Matches(format[i], fields[i])
    requires Separated(c, PrintLine(fields, more))
    ensures ScanLine(format, c) == (fields, Cursor(more, more == [], true))
    decreases |fields|
  {
    var end := Cursor(more, more == [], true);
    if |fields| == 1 {
      NewlineReadBack(more);
      assert format[1..] == [] && fields[1..] == [];
      FirstFieldReadBack(format, fields, c, "\n" + more, end);
    } else {
      var rest := " " + PrintLine(fields[1..], more);
      LineReadBack(format[1..], fields[1..], Cursor(rest, false, true), more);
      FirstFieldReadBack(format, fields, c, rest, end);
    }
  }
}
