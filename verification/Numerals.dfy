/** Reading the numeric constants of arithmetic expressions: `get_ndigit` and `get_num`. */
module Numerals {
  import opened ArithOps
  import opened Basics

  // The characters get_ndigit looks at; any other ends the number without an error.
  predicate DigitLike(c: char) { IsDigit(c) || IsLower(c) || IsUpper(c) || c == '@' || c == '_' }

  datatype Digit = Stop | Digit(d: nat) | Invalid

  // get_ndigit: Stop is a return of 0 with no error, Invalid one with the error flag up.
  function GetNDigit(c: char, radix: nat): Digit
    requires 2 <= radix <= 64
  {
    if !DigitLike(c) then Stop
    else if radix <= 10 then
      if IsDigit(c) && c as int <= '0' as int + radix - 1 then Digit(c as int - '0' as int) else Invalid
    else if IsDigit(c) then Digit(c as int - '0' as int)
    else if radix <= 36 then
      var max := 'a' as int + radix - 11;
      if 'a' <= c && c as int <= max then Digit(c as int - 'a' as int + 10)
      else if 'A' <= c && c as int <= max - 32 then Digit(c as int - 'A' as int + 10)
      else Invalid
    else if IsLower(c) then Digit(c as int - 'a' as int + 10)
    else if 'A' <= c && c as int <= 'A' as int + radix - 37 then Digit(c as int - 'A' as int + 36)
    else if c == '@' && radix >= 63 then Digit(62)
    else if c == '_' && radix == 64 then Digit(63)
    else Invalid
  }

  /** The digit alphabet: 0-9, a-z, A-Z, @ and _. */
  function DigitChar(d: nat): char
    requires d < 64
  {
    if d < 10 then ('0' as int + d) as char
    else if d < 36 then ('a' as int + d - 10) as char
    else if d < 62 then ('A' as int + d - 36) as char
    else if d == 62 then '@'
    else '_'
  }

  /** The alphabet written out: three runs of consecutive characters, and two more. */
  lemma AlphabetIs()
    ensures DigitChar(0) == '0' && DigitChar(9) == '9' && DigitChar(10) == 'a' && DigitChar(35) == 'z'
    ensures DigitChar(36) == 'A' && DigitChar(61) == 'Z' && DigitChar(62) == '@' && DigitChar(63) == '_'
    ensures forall d :: 0 < d < 62 && d != 10 && d != 36 ==> DigitChar(d) as int == DigitChar(d - 1) as int + 1
  {}

  function Lower(c: char): char { if IsUpper(c) then (c as int + 32) as char else c }

  /** Below the base the alphabet and get_ndigit are inverse to each other, up to the case of
      letters in bases that need no more than 36 digits. */
  lemma DigitInverse(c: char, radix: nat, d: nat)
    requires 2 <= radix <= 64 && d < 64
    ensures GetNDigit(c, radix) == Digit(d) <==>
            d < radix && (c == DigitChar(d) || (radix <= 36 && Lower(c) == DigitChar(d)))
  {
    if radix <= 10 {
      assert GetNDigit(c, radix) == Digit(d) <==> IsDigit(c) && d < radix && c as int == '0' as int + d;
    }
  }

  function At(s: string, i: nat): char { if i < |s| then s[i] else '\0' }

  /** A digit string read from position i on: what has been read, where it ends and whether it
      ends at a character that is no digit of any base. */
  datatype Scan = Scan(num: int, end: nat, ok: bool)

  function ScanDigits(s: string, i: nat, radix: nat, num: int): Scan
    requires 2 <= radix <= 64
    decreases |s| - i
  {
    match GetNDigit(At(s, i), radix)
    case Stop => Scan(num, i, true)
    case Invalid => Scan(num, i, false)
    case Digit(d) => ScanDigits(s, i + 1, radix, ToLong(num * radix + d))
  }

  datatype Parsed = Parsed(num: int, count: nat) | Malformed

  // What may follow a lone zero.
  predicate EndsZero(c: char) {
    IsSpace(c) || c == '\0' || c == '+' || c == '-' || c == '*' || c == '/' || c == '%' || c == '!'
    || c == '^' || c == ','
  }

  // Where the digits start and in which base, from the prefix of the constant.
  datatype Lead = LoneZero | NoNumber | From(radix: nat, start: nat)

  function LeadOf(s: string): Lead {
    if At(s, 0) != '0' then From(10, 0)
    else if At(s, 1) == 'x' || At(s, 1) == 'X' then From(16, 2)
    else if At(s, 1) == 'b' || At(s, 1) == 'B' then From(2, 2)
    else if IsDigit(At(s, 1)) then From(8, 1)
    else if EndsZero(At(s, 1)) then LoneZero
    else NoNumber
  }

  // get_num
  function ParseNum(s: string): Parsed {
    match LeadOf(s)
    case LoneZero => Parsed(0, 1)
    case NoNumber => Malformed
    case From(radix, start) =>
      var a := ScanDigits(s, start, radix, 0);
      if !a.ok then Malformed
      else if radix != 10 || At(s, a.end) != '#' then Parsed(a.num, a.end)
      else if a.num < 2 || a.num > 64 then Malformed
      else
        var b := ScanDigits(s, a.end + 1, a.num, 0);
        if !b.ok || (At(s, b.end) != '\0' && !IsSpace(At(s, b.end))) then Malformed
        else Parsed(b.num, b.end)
  }

  method ReadDigits(s: string, i: nat, radix: nat) returns (num: int, end: nat, error: bool)
    requires 2 <= radix <= 64
    ensures Scan(num, end, !error) == ScanDigits(s, i, radix, 0)
  {
    num, end, error := 0, i, false;
    while true
      invariant ScanDigits(s, end, radix, num) == ScanDigits(s, i, radix, 0)
      decreases |s| - end
    {
      match GetNDigit(At(s, end), radix)
      case Stop => return;
      case Invalid => error := true; return;
      case Digit(d) =>
        num := ToLong(num * radix + d);
        end := end + 1;
    }
  }

  method GetNum(s: string) returns (r: Parsed)
    ensures r == ParseNum(s)
  {
    var start, radix := 0, 10;
    if At(s, 0) == '0' {
      var c := At(s, 1);
      if c == 'x' || c == 'X' {
        radix, start := 16, 2;
      } else if c == 'b' || c == 'B' {
        radix, start := 2, 2;
      } else if IsDigit(c) {
        radix, start := 8, 1;
      } else if EndsZero(c) {
        return Parsed(0, 1);
      } else {
        return Malformed;
      }
    }
    var num, end, error := ReadDigits(s, start, radix);
    if error { return Malformed; }
    if radix != 10 { return Parsed(num, end); }
    if At(s, end) == '#' {
      if num < 2 || num > 64 { return Malformed; }
      num, end, error := ReadDigits(s, end + 1, num);
      if error { return Malformed; }
      if At(s, end) != '\0' && !IsSpace(At(s, end)) { return Malformed; }
    }
    r := Parsed(num, end);
  }

  /* ----- printing and reading back ----- */

  // Every digit but the last, and the last digit.
  function High(n: nat, radix: nat): nat
    requires 2 <= radix
  {
    n / radix
  }

  function Low(n: nat, radix: nat): (d: nat)
    requires 2 <= radix
    ensures d < radix
  {
    n % radix
  }

  lemma HighLowSum(n: nat, radix: nat)
    requires 2 <= radix
    ensures High(n, radix) * radix + Low(n, radix) == n
  {
  }

  lemma MulAtLeast(q: nat, radix: nat)
    requires 2 <= radix
    ensures q + q <= q * radix
  {
  }

  lemma HighLow(n: nat, radix: nat)
    requires 2 <= radix
    ensures High(n, radix) * radix + Low(n, radix) == n
    ensures radix <= n ==> 0 < High(n, radix) < n
  {
    hide High, Low;
    HighLowSum(n, radix);
    MulAtLeast(High(n, radix), radix);
    if High(n, radix) == 0 { assert High(n, radix) * radix == 0; }
  }

  function Digits(n: nat, radix: nat): (s: string)
    requires 2 <= radix <= 64
    ensures s != []
    decreases n
  {
    HighLow(n, radix);
    if n < radix then [DigitChar(n)] else Digits(High(n, radix), radix) + [DigitChar(Low(n, radix))]
  }

  lemma AtAppend(a: string, b: string, c: string, k: nat)
    requires k < |b|
    ensures At(a + b + c, |a| + k) == b[k]
  {
  }

  lemma ScanOne(s: string, i: nat, radix: nat, num: int, d: nat)
    requires 2 <= radix <= 64 && d < radix && At(s, i) == DigitChar(d)
    ensures ScanDigits(s, i, radix, num) == ScanDigits(s, i + 1, radix, ToLong(num * radix + d))
  {
    DigitInverse(At(s, i), radix, d);
  }

  /** Reading a printed numeral leaves its value, ready to go on after it. */
  lemma {:induction false} ScanPrinted(before: string, n: nat, radix: nat, after: string)
    requires 2 <= radix <= 64 && n < TWO63
    ensures ScanDigits(before + Digits(n, radix) + after, |before|, radix, 0) ==
            ScanDigits(before + Digits(n, radix) + after, |before| + |Digits(n, radix)|, radix, n)
    decreases n
  {
    hide GetNDigit, DigitChar, ScanDigits, High, Low, ToLong;
    HighLow(n, radix);
    var ds := Digits(n, radix);
    var s := before + ds + after;
    if n < radix {
      AtAppend(before, ds, after, 0);
      ScanOne(s, |before|, radix, 0, n);
    } else {
      var high := Digits(High(n, radix), radix);
      var low := [DigitChar(Low(n, radix))];
      assert s == before + high + (low + after);
      ScanPrinted(before, High(n, radix), radix, low + after);
      AtAppend(before, ds, after, |high|);
      ScanOne(s, |before| + |high|, radix, High(n, radix), Low(n, radix));
    }
  }

  /** A printed numeral that no digit follows is scanned whole. */
  lemma ScanWhole(before: string, n: nat, radix: nat, after: string)
    requires 2 <= radix <= 64 && n < TWO63 && !DigitLike(At(after, 0))
    ensures var end := |before| + |Digits(n, radix)|;
            var s := before + Digits(n, radix) + after;
            ScanDigits(s, |before|, radix, 0) == Scan(n, end, true) && At(s, end) == At(after, 0)
  {
    ScanPrinted(before, n, radix, after);
  }

  lemma {:induction false} FirstDigit(n: nat, radix: nat)
    requires 2 <= radix <= 10
    ensures IsDigit(Digits(n, radix)[0])
    ensures n > 0 ==> Digits(n, radix)[0] != '0'
    decreases n
  {
    hide High, Low;
    HighLow(n, radix);
    if n >= radix { FirstDigit(High(n, radix), radix); }
  }

  /** Every natural number within `long`, printed as base#digits, is read back with its exact
      length when it stands at the end of the text or before white space, and refused before
      any other character that is not a digit. */
  lemma BasedRoundTrip(radix: nat, n: nat, after: string)
    requires 2 <= radix <= 64 && n < TWO63
    requires !DigitLike(At(after, 0))
    ensures var s := Digits(radix, 10) + "#" + Digits(n, radix) + after;
            ParseNum(s) == if At(after, 0) == '\0' || IsSpace(At(after, 0)) then Parsed(n, |s| - |after|) else Malformed
  {
    hide GetNDigit, DigitChar, ScanDigits, Digits;
    var head, ds := Digits(radix, 10), Digits(n, radix);
    var s := head + "#" + ds + after;
    FirstDigit(radix, 10);
    ScanWhole([], radix, 10, "#" + ds + after);
    assert s == [] + head + ("#" + ds + after);
    ScanWhole(head + "#", n, radix, after);
    assert LeadOf(s) == From(10, 0);
  }

  /** A base below 2 or above 64 is refused, whatever follows. */
  lemma BadBase(base: nat, after: string)
    requires base < TWO63 && base > 0 && !(2 <= base <= 64)
    ensures ParseNum(Digits(base, 10) + ("#" + after)) == Malformed
  {
    hide GetNDigit, DigitChar, ScanDigits, Digits;
    var ds := Digits(base, 10);
    FirstDigit(base, 10);
    ScanWhole([], base, 10, "#" + after);
    assert [] + ds + ("#" + after) == ds + ("#" + after);
    assert At(ds + ("#" + after), 0) == ds[0];
  }

  /** Decimal constants, and the prefixes of base 16, 2 and 8, in either case of the letter. */
  lemma PlainRoundTrip(prefix: string, radix: nat, n: nat, after: string)
    requires (prefix == "" && radix == 10 && n > 0) || (prefix in {"0x", "0X"} && radix == 16)
             || (prefix in {"0b", "0B"} && radix == 2) || (prefix == "0" && radix == 8)
    requires n < TWO63 && !DigitLike(At(after, 0)) && (radix == 10 ==> At(after, 0) != '#')
    ensures ParseNum(prefix + Digits(n, radix) + after) == Parsed(n, |prefix| + |Digits(n, radix)|)
  {
    hide GetNDigit, DigitChar, ScanDigits, Digits;
    var ds := Digits(n, radix);
    var s := prefix + ds + after;
    if radix <= 10 { FirstDigit(n, radix); }
    assert At(s, |prefix|) == ds[0];
    ScanWhole(prefix, n, radix, after);
  }

  /** A lone zero is a constant only before white space, the end of the text, or one of
      + - * / % ! ^ and the comma: before `)`, `<`, `>`, `=`, `&`, `|` and `~` it is refused. */
  lemma ZeroAlone(after: string)
    requires !DigitLike(At(after, 0))
    ensures ParseNum("0" + after)
            == if IsSpace(At(after, 0)) || At(after, 0) in "\0+-*/%!^," then Parsed(0, 1) else Malformed
  {
    assert At("0" + after, 1) == At(after, 0);
  }

  /** The first digit counts for more: two digits a and b are a times the base and b. */
  lemma TwoDigits(a: nat, b: nat, radix: nat)
    requires 2 <= radix <= 64 && 0 < a < radix && b < radix
    ensures Digits(a * radix + b, radix) == [DigitChar(a), DigitChar(b)]
  {
    var n := a * radix + b;
    HighLow(n, radix);
    LowOf(a, b, radix);
    hide DigitChar, High, Low;
  }

  lemma LowOf(a: nat, b: nat, radix: nat)
    requires 2 <= radix && 0 < a && b < radix
    ensures var n := a * radix + b; n >= radix && High(n, radix) == a && Low(n, radix) == b
  {
    var n := a * radix + b;
    var q, r := n / radix, n % radix;
    assert n == q * radix + r;
    Distinct(q, a, radix, r, b);
    AtLeastBase(a, radix);
  }

  lemma AtLeastBase(a: nat, radix: nat)
    requires a > 0
    ensures a * radix >= radix
  {}

  lemma Distinct(q: int, a: int, radix: int, r: int, b: int)
    requires q * radix + r == a * radix + b && 0 <= r < radix && 0 <= b < radix
    ensures q == a && r == b
  {
    var k := q - a;
    assert k * radix == b - r;
    Beyond(k, radix);
  }

  lemma Beyond(k: int, radix: int)
    requires radix > 0
    ensures k >= 1 ==> k * radix >= radix
    ensures k <= -1 ==> k * radix <= -radix
  {
    if k >= 1 { assert (k - 1) * radix >= 0; }
    if k <= -1 { assert (-k - 1) * radix >= 0; }
  }

  /** A number that is followed by a character of the alphabet, which is no digit of its base, is
      refused: `09`, `0x1g` and `12a`. */
  lemma WrongDigit(prefix: string, radix: nat, n: nat, c: char, after: string)
    requires (prefix == "" && radix == 10 && n > 0) || (prefix in {"0x", "0X"} && radix == 16)
             || (prefix in {"0b", "0B"} && radix == 2) || (prefix == "0" && radix == 8)
    requires n < TWO63 && DigitLike(c) && forall d :: 0 <= d < radix ==> c != DigitChar(d) && Lower(c) != DigitChar(d)
    ensures ParseNum(prefix + Digits(n, radix) + ([c] + after)) == Malformed
  {
    hide DigitChar, Digits;
    var ds := Digits(n, radix);
    var s := prefix + ds + ([c] + after);
    if radix <= 10 { FirstDigit(n, radix); }
    assert At(s, |prefix|) == ds[0] && At(s, |prefix| + |ds|) == c;
    ScanPrinted(prefix, n, radix, [c] + after);
    NoDigit(c, radix);
    hide GetNDigit;
  }

  lemma NoDigit(c: char, radix: nat)
    requires 2 <= radix <= 64 && DigitLike(c)
    requires forall d :: 0 <= d < radix ==> c != DigitChar(d) && Lower(c) != DigitChar(d)
    ensures GetNDigit(c, radix) == Invalid
  {
    var g := GetNDigit(c, radix);
    if g.Digit? && g.d < 64 { DigitInverse(c, radix, g.d); }
  }
}
