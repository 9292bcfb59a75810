/** The letter and number ranges of a brace expression, and how their bounds are read. */
module Ranges {
  import opened Basics

  // get_num_list and get_letter_list take the step's absolute value, and 1 for 0.
  function Stride(z: int): (s: int)
    ensures s > 0
  {
    if z < 0 then -z else if z == 0 then 1 else z
  }

  function Distance(x: int, y: int): nat { if x <= y then y - x else x - y }

  function Length(x: int, y: int, z: int): nat { Distance(x, y) / Stride(z) + 1 }

  function At(x: int, y: int, z: int, i: int): int { if x <= y then x + i * Stride(z) else x - i * Stride(z) }

  // The value at i has not passed y.
  predicate Within(x: int, y: int, v: int) { if x <= y then x <= v <= y else y <= v <= x }

  /** Length is the number of values before the first that passes y: every one of them lies
      between the bounds and one more step would not. */
  lemma LengthExact(x: int, y: int, z: int)
    ensures forall i: int :: i >= 0 ==> (Within(x, y, At(x, y, z, i)) <==> i < Length(x, y, z))
  {
    var d, s := Distance(x, y), Stride(z);
    forall i: int | i >= 0
      ensures Within(x, y, At(x, y, z, i)) <==> i < Length(x, y, z)
    {
      Quotient(d, s, i);
      assert i * s >= 0 by { Product(i, s); }
    }
  }

  lemma Product(i: int, s: int)
    requires i >= 0 && s >= 0
    ensures i * s >= 0
  {}

  lemma Quotient(d: int, s: int, i: int)
    requires d >= 0 && s > 0 && i >= 0
    ensures i * s <= d <==> i <= d / s
  {
    var q := d / s;
    assert q * s <= d < (q + 1) * s;
    if i <= q { Product(q - i, s); assert (q - i) * s == q * s - i * s; }
    else { Product(i - q - 1, s); assert (i - q - 1) * s == i * s - (q + 1) * s; }
  }

  function Values(x: int, y: int, z: int): seq<int> { seq(Length(x, y, z), i => At(x, y, z, i)) }

  // The counting pass and the filling pass of either list.
  method FillRange(x: int, y: int, z: int) returns (list: seq<int>)
    ensures list == Values(x, y, z)
  {
    var step := z;
    if step < 0 {
      step := -step;
    } else if step == 0 {
      step := 1;
    }
    var count, l: int := 0, x;
    NotPassed(x, y, z, 0);
    hide At, Length;
    while if x <= y then l <= y else l >= y
      invariant 0 <= count <= Length(x, y, z) && l == At(x, y, z, count)
      decreases Length(x, y, z) - count
    {
      NotPassed(x, y, z, count);
      Advance(x, y, z, count);
      l := if x <= y then l + step else l - step;
      count := count + 1;
    }
    NotPassed(x, y, z, count);
    list := [];
    var v := x;
    while count > 0
      invariant 0 <= count && |list| + count == Length(x, y, z)
      invariant v == At(x, y, z, |list|)
      invariant list == Values(x, y, z)[..|list|]
    {
      Advance(x, y, z, |list|);
      list := list + [v];
      v := if x <= y then v + step else v - step;
      count := count - 1;
    }
  }

  // The loop's test, at the value number i.
  lemma NotPassed(x: int, y: int, z: int, i: int)
    requires i >= 0
    ensures (if x <= y then At(x, y, z, i) <= y else At(x, y, z, i) >= y) <==> i < Length(x, y, z)
    ensures At(x, y, z, 0) == x
  {
    LengthExact(x, y, z);
    Product(i, Stride(z));
  }

  lemma Advance(x: int, y: int, z: int, i: int)
    ensures At(x, y, z, i + 1) == if x <= y then At(x, y, z, i) + Stride(z) else At(x, y, z, i) - Stride(z)
  {
    assert (i + 1) * Stride(z) == i * Stride(z) + Stride(z);
  }

  /** A range starts at x, moves by the step towards y, and stays between the two. */
  lemma ValuesExact(x: int, y: int, z: int)
    ensures var v := Values(x, y, z);
            && |v| == Distance(x, y) / Stride(z) + 1 && v[0] == x
            && (forall i :: 0 <= i < |v| - 1 ==> v[i + 1] == if x <= y then v[i] + Stride(z) else v[i] - Stride(z))
            && (forall i :: 0 <= i < |v| ==> Within(x, y, v[i]))
            && !Within(x, y, if x <= y then v[|v| - 1] + Stride(z) else v[|v| - 1] - Stride(z))
  {
    LengthExact(x, y, z);
    var v := Values(x, y, z);
    forall i | 0 <= i < |v|
      ensures At(x, y, z, i + 1) == if x <= y then v[i] + Stride(z) else v[i] - Stride(z)
    {
      Advance(x, y, z, i);
    }
    assert !Within(x, y, At(x, y, z, |v|));
  }

  /* ----- the bounds ----- */

  predicate Sign(c: char) { c == '+' || c == '-' }

  predicate AllDigits(s: string) { forall i :: 0 <= i < |s| ==> IsDigit(s[i]) }

  // is_num; no digits at all will do.
  predicate IsNum(s: string) { AllDigits(if s != [] && Sign(s[0]) then s[1..] else s) }

  function DigitValue(c: char): nat
    requires IsDigit(c)
  {
    c as int - '0' as int
  }

  // The value of the digits s begins with, after acc.
  function Leading(s: string, acc: nat): nat {
    if s == [] || !IsDigit(s[0]) then acc else Leading(s[1..], 10 * acc + DigitValue(s[0]))
  }

  // atol, unbounded
  function Atol(s: string): int {
    if s == [] then 0
    else if IsSpace(s[0]) then Atol(s[1..])
    else if s[0] == '-' then 0 - Leading(s[1..], 0)
    else if s[0] == '+' then Leading(s[1..], 0)
    else Leading(s, 0)
  }

  // The digits that "%ld" prints.
  function Decimal(n: int): string {
    if n < 0 then ['-'] + Digits(-n) else Digits(n)
  }

  function Digits(n: nat): (s: string)
    ensures s != [] && AllDigits(s)
  {
    if n < 10 then ['0' + n as char] else Digits(n / 10) + ['0' + (n % 10) as char]
  }

  lemma {:induction false} LeadingDigits(n: nat, rest: string, acc: nat)
    ensures Leading(Digits(n) + rest, acc) == Leading(rest, acc * Power(|Digits(n)|) + n)
  {
    if n < 10 {
      assert (Digits(n) + rest)[1..] == rest;
      assert Power(1) == 10;
    } else {
      var d := ['0' + (n % 10) as char];
      assert Digits(n) + rest == Digits(n / 10) + (d + rest);
      LeadingDigits(n / 10, d + rest, acc);
      assert (d + rest)[1..] == rest;
      var p := Power(|Digits(n / 10)|);
      TenTimes(acc, p, n);
    }
  }

  lemma TenTimes(acc: nat, p: nat, n: nat)
    ensures 10 * (acc * p + n / 10) + n % 10 == acc * (10 * p) + n
  {}

  function Power(k: nat): nat { if k == 0 then 1 else 10 * Power(k - 1) }

  /** A printed number is one for is_num, and reads back as itself. */
  lemma DecimalReadsBack(n: int)
    ensures IsNum(Decimal(n)) && Atol(Decimal(n)) == n
  {
    var d := Digits(if n < 0 then -n else n);
    LeadingDigits(if n < 0 then -n else n, [], 0);
    assert d + [] == d;
    assert IsDigit(d[0]);
    if n < 0 { assert Decimal(n)[1..] == d; }
  }

  /** atol reads digits in base ten: one more digit takes the value times ten and adds the digit. */
  lemma AtolPlaces(s: string, c: char)
    requires s != [] && AllDigits(s) && IsDigit(c)
    ensures Atol(s + [c]) == 10 * Atol(s) + (c as int - '0' as int)
  {
    LeadingSnoc(s, c, 0);
    assert IsDigit(s[0]) && (s + [c])[0] == s[0];
  }

  lemma {:induction false} LeadingSnoc(s: string, c: char, acc: nat)
    requires AllDigits(s) && IsDigit(c)
    ensures Leading(s + [c], acc) == 10 * Leading(s, acc) + (c as int - '0' as int)
  {
    if s == [] {
      assert s + [c] == [c] && [c][1..] == [];
    } else {
      assert IsDigit(s[0]) && (s + [c])[1..] == s[1..] + [c];
      LeadingSnoc(s[1..], c, 10 * acc + DigitValue(s[0]));
    }
  }
}
