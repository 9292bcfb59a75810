/** The items of one brace expression: a comma list, ranges, or both, with nested braces left for
    later. Indexes are those of the string that starts at the opening brace. */
module BraceList {
  import opened Basics
  import opened Ranges

  // find_closing_brace as its callers see it: an index inside the text, or 0.
  type Finder = f: string -> nat | (forall s :: f(s) == 0 || f(s) < |s|) witness (s => 0)

  // The character at p of a terminated string.
  function CharAt(s: string, p: nat): char { if p < |s| then s[p] else '\0' }

  // Where the next c from p on is, or the end of s.
  function NextAt(s: string, p: nat, c: char): (q: nat)
    requires p <= |s|
    ensures p <= q <= |s|
    decreases |s| - p
  {
    if p == |s| || s[p] == c then p else NextAt(s, p + 1, c)
  }

  /* ----- ranges ----- */

  datatype Ranged = Bad | Ranged(items: seq<string>, next: nat)

  predicate LetterWord(s: string) { |s| == 1 && IsLetter(s[0]) }

  function LetterItems(x: char, y: char, z: int): seq<string>
    requires IsLetter(x) && IsLetter(y)
  {
    var v := Values(x as int, y as int, z);
    seq(|v|, i requires 0 <= i < |v| => LettersOnly(x, y, z, i); [v[i] as char])
  }

  lemma LettersOnly(x: char, y: char, z: int, i: nat)
    requires IsLetter(x) && IsLetter(y) && i < |Values(x as int, y as int, z)|
    ensures 65 <= Values(x as int, y as int, z)[i] <= 122
  {
    ValuesExact(x as int, y as int, z);
  }

  function NumberItems(x: int, y: int, z: int): seq<string> {
    var v := Values(x, y, z);
    seq(|v|, i requires 0 <= i < |v| => Decimal(v[i]))
  }

  // The end of the second bound: a dot, a comma outside nested braces, or the end.
  function BoundEnd(s: string, end: nat, p: nat, find: Finder): (q: nat)
    requires end < |s| && p <= |s|
    ensures p <= q <= |s|
    decreases |s| - p
  {
    if p >= end || s[p] == '.' then p
    else if s[p] == '{' then BoundEnd(s, end, p + find(s[p..]) + 1, find)
    else if s[p] == ',' then p
    else BoundEnd(s, end, p + 1, find)
  }

  // What the bounds x and y and the step z make; an absent step is 1.
  function MakeRange(x: string, y: string, step: string, stepped: bool, next: nat): Ranged {
    var z := if stepped then Atol(step) else 1;
    if LetterWord(x) && LetterWord(y) then Ranged(LetterItems(x[0], y[0], z), next)
    else if IsNum(x) && IsNum(y) then
      if stepped && !IsNum(step) then Bad else Ranged(NumberItems(Atol(x), Atol(y), z), next)
    else Ranged([], next)
  }

  // The range whose first bound is s[p0..p1], with two dots at p1.
  function RangeAt(s: string, end: nat, p0: nat, p1: nat, find: Finder): (r: Ranged)
    requires p0 <= p1 <= end < |s| && CharAt(s, p1 + 1) == '.'
    ensures r.Ranged? ==> p1 < r.next <= |s|
  {
    if p1 + 2 >= |s| then Bad
    else
      var q := BoundEnd(s, end, p1 + 2, find);
      if CharAt(s, q) !in "\0.},"  then Bad
      else if CharAt(s, q) != '.' then MakeRange(s[p0..p1], s[p1 + 2..q], [], false, q)
      else if CharAt(s, q + 1) != '.' || q + 2 > end then Bad
      else MakeRange(s[p0..p1], s[p1 + 2..q], s[q + 2..end], true, end)
  }

  /* ----- the list ----- */

  datatype Listed = Failed | Listed(items: seq<string>)

  // get_brace_list from p1 on, with the current item starting at p0.
  function ListFrom(s: string, end: nat, p0: nat, p1: nat, list: seq<string>, find: Finder): Listed
    requires end < |s| && p0 <= p1
    decreases |s| - p1
  {
    if p1 > end then Listed(list)
    else if s[p1] == '\'' || s[p1] == '"' then ListFrom(s, end, p0, NextAt(s, p1 + 1, s[p1]) + 1, list, find)
    else if s[p1] == '\\' then ListFrom(s, end, p0, p1 + 2, list, find)
    else if s[p1] == '{' then ListFrom(s, end, p0, p1 + find(s[p1..]) + 1, list, find)
    else if s[p1] == '}' || s[p1] == ',' then
      if p1 == p0 || s[p1 - 1] == '\\' then ListFrom(s, end, p0, p1 + 1, list, find)
      else ListFrom(s, end, p1 + 1, p1 + 1, list + [s[p0..p1]], find)
    else if s[p1] == '.' && CharAt(s, p1 + 1) == '.' then
      var r := RangeAt(s, end, p0, p1, find);
      if r.Bad? then Failed else ListFrom(s, end, r.next + 1, r.next + 1, list + r.items, find)
    else ListFrom(s, end, p0, p1 + 1, list, find)
  }

  // No items at all is a failure too: the list is then a null pointer.
  function BraceItems(s: string, end: nat, find: Finder): Listed
    requires 0 < end < |s|
  {
    var r := ListFrom(s, end, 1, 1, [], find);
    if r.Failed? || r.items == [] then Failed else r
  }

  // One turn of the list, by what is at p1.
  lemma ListTurn(s: string, end: nat, p0: nat, p1: nat, list: seq<string>, find: Finder)
    requires p0 <= p1 <= end < |s|
    ensures ListFrom(s, end, p0, p1, list, find) ==
            var c := s[p1];
            if c in "'\"" then ListFrom(s, end, p0, NextAt(s, p1 + 1, c) + 1, list, find)
            else if c == '\\' then ListFrom(s, end, p0, p1 + 2, list, find)
            else if c == '{' then ListFrom(s, end, p0, p1 + find(s[p1..]) + 1, list, find)
            else if c in "}," && p1 != p0 && s[p1 - 1] != '\\' then
              ListFrom(s, end, p1 + 1, p1 + 1, list + [s[p0..p1]], find)
            else if c == '.' && CharAt(s, p1 + 1) == '.' then
              var r := RangeAt(s, end, p0, p1, find);
              if r.Bad? then Failed else ListFrom(s, end, r.next + 1, r.next + 1, list + r.items, find)
            else ListFrom(s, end, p0, p1 + 1, list, find)
  {
    hide RangeAt;
  }

  lemma ListEnd(s: string, end: nat, p0: nat, p1: nat, list: seq<string>, find: Finder)
    requires end < |s| && p0 <= p1 && p1 > end
    ensures ListFrom(s, end, p0, p1, list, find) == Listed(list)
  {}

  method SkipTo(s: string, from: nat, c: char) returns (p: nat)
    requires from <= |s|
    ensures p == NextAt(s, from, c)
  {
    p := from;
    while p < |s| && s[p] != c
      invariant p <= |s| && NextAt(s, p, c) == NextAt(s, from, c)
    {
      p := p + 1;
    }
  }

  method SkipBound(s: string, end: nat, p: nat, find: Finder) returns (q: nat)
    requires end < |s| && p <= |s|
    ensures q == BoundEnd(s, end, p, find)
  {
    q := p;
    while q < end && s[q] != '.' && s[q] != ','
      invariant p <= q <= |s|
      invariant BoundEnd(s, end, q, find) == BoundEnd(s, end, p, find)
      decreases |s| - q
    {
      if s[q] == '{' {
        q := q + find(s[q..]);
      }
      q := q + 1;
    }
  }

  method GetRange(s: string, end: nat, p0: nat, p1: nat, find: Finder) returns (r: Ranged)
    requires p0 <= p1 <= end < |s| && CharAt(s, p1 + 1) == '.'
    ensures r == RangeAt(s, end, p0, p1, find)
  {
    hide BoundEnd, MakeRange;
    var x := s[p0..p1];
    if p1 + 2 >= |s| { return Bad; }
    var q := SkipBound(s, end, p1 + 2, find);
    var y := s[p1 + 2..q];
    var c := CharAt(s, q);
    if c !in "\0.}," { return Bad; }
    if c != '.' { return MakeRange(x, y, [], false, q); }
    if CharAt(s, q + 1) != '.' || q + 2 > end { return Bad; }
    return MakeRange(x, y, s[q + 2..end], true, end);
  }

  method GetBraceList(s: string, end: nat, find: Finder) returns (r: Listed)
    requires 0 < end < |s|
    ensures r == BraceItems(s, end, find)
  {
    hide ListFrom, RangeAt;
    var p0, p1, list: seq<string> := 1, 1, [];
    while p1 <= end
      invariant 1 <= p0 <= p1
      invariant ListFrom(s, end, p0, p1, list, find) == ListFrom(s, end, 1, 1, [], find)
      decreases end + 1 - p1
    {
      ListTurn(s, end, p0, p1, list, find);
      var c := s[p1];
      if c in "'\"" {
        p1 := SkipTo(s, p1 + 1, c);
      } else if c == '\\' {
        p1 := p1 + 1;
      } else if c == '{' {
        p1 := p1 + find(s[p1..]);
      } else if c in "}," {
        if p1 != p0 && s[p1 - 1] != '\\' {
          list := list + [s[p0..p1]];
          p0 := p1 + 1;
        }
      } else if c == '.' && CharAt(s, p1 + 1) == '.' {
        var range := GetRange(s, end, p0, p1, find);
        if range.Bad? { return Failed; }
        list := list + range.items;
        p0, p1 := range.next + 1, range.next;
      }
      p1 := p1 + 1;
    }
    ListEnd(s, end, p0, p1, list, find);
    return if list == [] then Failed else Listed(list);
  }

  /* ----- an item holds no more opening braces than the body ----- */

  function Braces(s: string): nat {
    if s == [] then 0 else (if s[0] == '{' then 1 else 0) + Braces(s[1..])
  }

  lemma {:induction false} BracesJoin(a: string, b: string)
    ensures Braces(a + b) == Braces(a) + Braces(b)
  {
    if a == [] {
      assert a + b == b;
    } else {
      BracesJoin(a[1..], b);
      assert (a + b)[1..] == a[1..] + b;
    }
  }

  lemma {:induction false} BracesNone(s: string)
    requires '{' !in s
    ensures Braces(s) == 0
  {
    if s != [] { BracesNone(s[1..]); }
  }

  lemma BracesSlice(s: string, p: nat, q: nat, end: nat)
    requires 1 <= p <= q <= end <= |s|
    ensures Braces(s[p..q]) <= Braces(s[1..end])
  {
    assert s[1..end] == s[1..p] + (s[p..q] + s[q..end]);
    BracesJoin(s[1..p], s[p..q] + s[q..end]);
    BracesJoin(s[p..q], s[q..end]);
  }

  ghost predicate NoMore(list: seq<string>, n: nat) { forall i :: 0 <= i < |list| ==> Braces(list[i]) <= n }

  lemma OneMore(list: seq<string>, item: string, n: nat)
    requires NoMore(list, n) && Braces(item) <= n
    ensures NoMore(list + [item], n)
  {}

  lemma SomeMore(list: seq<string>, items: seq<string>, n: nat)
    requires NoMore(list, n) && NoMore(items, 0)
    ensures NoMore(list + items, n)
  {}

  lemma DigitsPlain(n: nat)
    ensures '{' !in Digits(n)
  {
    assert forall i :: 0 <= i < |Digits(n)| ==> IsDigit(Digits(n)[i]);
  }

  lemma RangePlain(x: string, y: string, step: string, stepped: bool, next: nat)
    ensures var r := MakeRange(x, y, step, stepped, next); r.Ranged? ==> NoMore(r.items, 0)
  {
    var r := MakeRange(x, y, step, stepped, next);
    if r.Ranged? {
      forall i | 0 <= i < |r.items| ensures Braces(r.items[i]) <= 0 {
        if LetterWord(x) && LetterWord(y) {
          LettersOnly(x[0], y[0], if stepped then Atol(step) else 1, i);
        } else {
          var v := Values(Atol(x), Atol(y), if stepped then Atol(step) else 1)[i];
          DigitsPlain(if v < 0 then -v else v);
        }
        BracesNone(r.items[i]);
      }
    }
  }

  lemma {:induction false} ListNoMore(s: string, end: nat, p0: nat, p1: nat, list: seq<string>, find: Finder)
    requires 1 <= end < |s| && 1 <= p0 <= p1 && NoMore(list, Braces(s[1..end]))
    ensures var r := ListFrom(s, end, p0, p1, list, find); r.Listed? ==> NoMore(r.items, Braces(s[1..end]))
    decreases |s| - p1
  {
    hide Braces, NoMore, RangeAt;
    if p1 > end {
    } else if s[p1] == '\'' || s[p1] == '"' {
      ListNoMore(s, end, p0, NextAt(s, p1 + 1, s[p1]) + 1, list, find);
    } else if s[p1] == '\\' {
      ListNoMore(s, end, p0, p1 + 2, list, find);
    } else if s[p1] == '{' {
      ListNoMore(s, end, p0, p1 + find(s[p1..]) + 1, list, find);
    } else if s[p1] == '}' || s[p1] == ',' {
      if p1 == p0 || s[p1 - 1] == '\\' {
        ListNoMore(s, end, p0, p1 + 1, list, find);
      } else {
        BracesSlice(s, p0, p1, end);
        OneMore(list, s[p0..p1], Braces(s[1..end]));
        ListNoMore(s, end, p1 + 1, p1 + 1, list + [s[p0..p1]], find);
      }
    } else if s[p1] == '.' && CharAt(s, p1 + 1) == '.' {
      var r := RangeAt(s, end, p0, p1, find);
      if r.Ranged? {
        RangeAtPlain(s, end, p0, p1, find);
        SomeMore(list, r.items, Braces(s[1..end]));
        ListNoMore(s, end, r.next + 1, r.next + 1, list + r.items, find);
      }
    } else {
      ListNoMore(s, end, p0, p1 + 1, list, find);
    }
  }

  lemma RangeAtPlain(s: string, end: nat, p0: nat, p1: nat, find: Finder)
    requires p0 <= p1 <= end < |s| && CharAt(s, p1 + 1) == '.'
    ensures var r := RangeAt(s, end, p0, p1, find); r.Ranged? ==> NoMore(r.items, 0)
  {
    hide MakeRange, BoundEnd, NoMore;
    if p1 + 2 < |s| {
      var q := BoundEnd(s, end, p1 + 2, find);
      RangePlain(s[p0..p1], s[p1 + 2..q], [], false, q);
      if q + 2 <= end { RangePlain(s[p0..p1], s[p1 + 2..q], s[q + 2..end], true, end); }
    }
  }

  /** An item with the text around the braces put back has fewer opening braces than the text
      it replaces. */
  lemma FewerBraces(s: string, p: nat, end: nat, i: nat, find: Finder)
    requires p < |s| && s[p] == '{' && 0 < end < |s| - p
    requires var r := BraceItems(s[p..], end, find); r.Listed? && i < |r.items|
    ensures Braces(s[..p] + BraceItems(s[p..], end, find).items[i] + s[p + end + 1..]) < Braces(s)
  {
    var t := s[p..];
    var r := BraceItems(t, end, find);
    ListNoMore(t, end, 1, 1, [], find);
    assert NoMore(r.items, Braces(t[1..end]));
    hide ListFrom, BraceItems, Braces;
    assert t[1..end] == s[p + 1..p + end];
    Replaced(s, p, end, r.items[i]);
  }

  lemma Replaced(s: string, p: nat, end: nat, item: string)
    requires p < |s| && s[p] == '{' && 0 < end < |s| - p
    requires Braces(item) <= Braces(s[p + 1..p + end])
    ensures Braces(s[..p] + item + s[p + end + 1..]) < Braces(s)
  {
    hide Braces;
    var pre, body, rest, post := s[..p], s[p + 1..p + end], s[p + end..], s[p + end + 1..];
    assert s == pre + (['{'] + (body + rest));
    assert rest == [s[p + end]] + post;
    BracesJoin(pre, ['{'] + (body + rest));
    BracesJoin(['{'], body + rest);
    BracesJoin(body, rest);
    BracesJoin([s[p + end]], post);
    BracesJoin(pre + item, post);
    BracesJoin(pre, item);
    OneBrace();
  }

  lemma OneBrace()
    ensures Braces(['{']) == 1
  {
    assert ['{'][1..] == [];
  }
}
