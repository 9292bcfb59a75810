/** `field_split` and its helpers, and the field splitting of section 2.6.5 of the Shell Command
    Language of POSIX.1-2017. */
module FieldSplitting {
  import opened Basics

  // The white space of an IFS, and its other characters.
  datatype Ifs = Ifs(space: string, delim: string) {
    predicate Has(c: char) { c in space || c in delim }
  }

  function Spaces(ifs: string): string {
    if ifs == [] then [] else (if IsSpace(ifs[0]) then [ifs[0]] else []) + Spaces(ifs[1..])
  }

  function Delims(ifs: string): string {
    if ifs == [] then [] else (if IsSpace(ifs[0]) then [] else [ifs[0]]) + Delims(ifs[1..])
  }

  // get_IFS_spaces_and_delims
  function Classify(ifs: string): Ifs { Ifs(Spaces(ifs), Delims(ifs)) }

  lemma {:induction false} ClassifyHas(ifs: string, c: char)
    ensures c in Classify(ifs).space <==> c in ifs && IsSpace(c)
    ensures c in Classify(ifs).delim <==> c in ifs && !IsSpace(c)
  {
    if ifs != [] {
      assert ifs == [ifs[0]] + ifs[1..];
      ClassifyHas(ifs[1..], c);
    }
  }

  function SkipSpaces(s: string, f: Ifs): (r: string)
    ensures |r| <= |s| && r == s[|s| - |r|..]
    ensures r != [] ==> r[0] !in f.space
  {
    if s == [] || s[0] !in f.space then s else SkipSpaces(s[1..], f)
  }

  // skip_IFS_delim
  function SkipDelim(s: string, f: Ifs): (r: string)
    ensures |r| <= |s| && r == s[|s| - |r|..]
    ensures s != [] && f.Has(s[0]) ==> |r| < |s|
  {
    var a := SkipSpaces(s, f);
    var b := if a != [] && a[0] in f.delim then a[1..] else a;
    SkipSpaces(b, f)
  }

  /* ----- section 2.6.5 on plain text ----- */

  /** The fields of plain text that follows cur, the part of a field already read: a delimiter
      ends a field, and nothing is left after one that ends the text. */
  function PlainFields(cur: string, rest: string, f: Ifs): (r: seq<string>)
    ensures r != []
    decreases |rest|
  {
    if rest == [] then [cur]
    else if f.Has(rest[0]) then
      var next := SkipDelim(rest, f);
      [cur] + if next == [] then [] else PlainFields([], next, f)
    else PlainFields(cur + [rest[0]], rest[1..], f)
  }

  function PlainSplit(v: string, f: Ifs): seq<string> {
    var t := SkipSpaces(v, f);
    if t == [] then [] else PlainFields([], t, f)
  }

  /* ----- splitting quoted text ----- */

  const NONE: char := '\0'

  /** The fields that the loop of field_split makes of the rest of a word after cur, with the
      quote it is inside of. Quotes and backslashes stay in the fields; text that ends inside
      a quotation or after a lone backslash makes no field. */
  function QuotedFields(cur: string, rest: string, quote: char, f: Ifs): seq<string>
    decreases |rest|
  {
    if rest == [] then (if quote == NONE then [cur] else [])
    else
      var c := rest[0];
      if c == '\\' then
        (if |rest| == 1 then [] else QuotedFields(cur + rest[..2], rest[2..], quote, f))
      else if c == '\'' then
        (var n := NextSingle(rest[1..]) + 1;
         if n == |rest| then [] else QuotedFields(cur + rest[..n + 1], rest[n + 1..], quote, f))
      else if c == '"' || c == '`' then
        QuotedFields(cur + [c], rest[1..], if quote == c then NONE else c, f)
      else if quote == NONE && f.Has(c) then
        var next := SkipDelim(rest, f);
        [cur] + if next == [] then [] else QuotedFields([], next, NONE, f)
      else QuotedFields(cur + [c], rest[1..], quote, f)
  }

  // The IFS variable: unset means space, tab and newline.
  function IfsOf(ifs: Option<string>): string { if ifs.None? then " \t\n" else ifs.value }

  /** field_split: None is the null pointer, "no field splitting was done". */
  function FieldSplit(s: string, ifs: Option<string>): Option<seq<string>> {
    if IfsOf(ifs) == "" then None
    else
      var f := Classify(IfsOf(ifs));
      var fields := QuotedFields([], SkipSpaces(s, f), NONE, f);
      if fields == [] then None else Some(fields)
  }

  /* ----- the code ----- */

  lemma {:induction false} ClassifyNext(ifs: string, i: nat)
    requires i < |ifs|
    ensures Spaces(ifs[..i + 1]) == Spaces(ifs[..i]) + if IsSpace(ifs[i]) then [ifs[i]] else []
    ensures Delims(ifs[..i + 1]) == Delims(ifs[..i]) + if IsSpace(ifs[i]) then [] else [ifs[i]]
  {
    if i == 0 {
      assert ifs[..1] == [ifs[0]] && ifs[..0] == [];
    } else {
      assert ifs[..i + 1][1..] == ifs[1..][..i] && ifs[..i][1..] == ifs[1..][..i - 1];
      ClassifyNext(ifs[1..], i - 1);
    }
  }

  method GetIfsSpacesAndDelims(ifs: string) returns (f: Ifs)
    ensures f == Classify(ifs)
  {
    if ifs == " \t\n" { // the standard IFS
      StandardIfs();
      return Ifs(" \t\n", "");
    }
    var space, delim := "", "";
    for i := 0 to |ifs|
      invariant space == Spaces(ifs[..i]) && delim == Delims(ifs[..i])
    {
      ClassifyNext(ifs, i);
      if IsSpace(ifs[i]) { space := space + [ifs[i]]; } else { delim := delim + [ifs[i]]; }
    }
    assert ifs[..|ifs|] == ifs;
    f := Ifs(space, delim);
  }

  lemma StandardIfs()
    ensures Classify(" \t\n") == Ifs(" \t\n", "")
  {
    var s := " \t\n";
    assert s[1..] == "\t\n" && s[1..][1..] == "\n" && s[1..][1..][1..] == "";
  }

  // skip_IFS_whitespace
  method SkipIfsWhitespace(s: string, i: nat, f: Ifs) returns (k: nat)
    requires i <= |s|
    ensures i <= k <= |s| && s[k..] == SkipSpaces(s[i..], f)
  {
    k := i;
    while k < |s| && s[k] in f.space
      invariant i <= k <= |s|
      invariant SkipSpaces(s[k..], f) == SkipSpaces(s[i..], f)
    {
      assert s[k..][1..] == s[k + 1..];
      k := k + 1;
    }
  }

  method SkipIfsDelim(s: string, i: nat, f: Ifs) returns (k: nat)
    requires i <= |s|
    ensures i <= k <= |s| && s[k..] == SkipDelim(s[i..], f)
  {
    hide SkipSpaces;
    var a := SkipIfsWhitespace(s, i, f);
    var b := a;
    if a < |s| && s[a] in f.delim {
      b := a + 1;
      assert s[a..][1..] == s[b..];
    }
    k := SkipIfsWhitespace(s, b, f);
  }

  method FindSingle(s: string, i: nat) returns (k: nat)
    requires i <= |s|
    ensures i <= k <= |s| && k == i + NextSingle(s[i..])
  {
    k := i;
    while k < |s| && s[k] != '\''
      invariant i <= k <= |s|
      invariant k + NextSingle(s[k..]) == i + NextSingle(s[i..])
    {
      assert s[k..][1..] == s[k + 1..];
      k := k + 1;
    }
  }

  /** The fields the loop still has to make at position i, of which the current one began at j. */
  function From(str: string, j: nat, i: nat, quote: char, f: Ifs): seq<string>
  {
    if i > |str| || j > i then [] else QuotedFields(str[j..i], str[i..], quote, f)
  }

  lemma Extend(str: string, j: nat, i: nat, k: nat)
    requires j <= i <= k <= |str|
    ensures str[j..i] + str[i..][..k - i] == str[j..k] && str[i..][k - i..] == str[k..]
  {
  }

  lemma ExtendOne(str: string, j: nat, i: nat)
    requires j <= i < |str|
    ensures str[j..i] + [str[i]] == str[j..i + 1] && str[i..][1..] == str[i + 1..] && str[i..][0] == str[i]
  {
  }

  lemma FromBackslash(str: string, j: nat, i: nat, quote: char, f: Ifs)
    requires j <= i < |str| && str[i] == '\\'
    ensures From(str, j, i, quote, f) == From(str, j, i + 2, quote, f)
  {
    if i + 2 <= |str| { Extend(str, j, i, i + 2); }
  }

  lemma FromSingle(str: string, j: nat, i: nat, p: nat, quote: char, f: Ifs)
    requires j <= i < |str| && str[i] == '\'' && p == i + 1 + NextSingle(str[i + 1..])
    ensures From(str, j, i, quote, f) == From(str, j, p + 1, quote, f)
  {
    hide NextSingle;
    ExtendOne(str, j, i);
    var rest := str[i..];
    var n := NextSingle(rest[1..]) + 1;
    assert n == p - i;
    if p < |str| { Extend(str, j, i, p + 1); }
  }

  lemma FromToggle(str: string, j: nat, i: nat, quote: char, f: Ifs)
    requires j <= i < |str| && (str[i] == '"' || str[i] == '`')
    ensures From(str, j, i, quote, f) == From(str, j, i + 1, if quote == str[i] then NONE else str[i], f)
  {
    ExtendOne(str, j, i);
  }

  predicate Ordinary(c: char) { c != '\\' && c != '\'' && c != '"' && c != '`' }

  lemma FromOther(str: string, j: nat, i: nat, quote: char, f: Ifs)
    requires j <= i < |str| && Ordinary(str[i]) && (quote != NONE || !f.Has(str[i]))
    ensures From(str, j, i, quote, f) == From(str, j, i + 1, quote, f)
  {
    ExtendOne(str, j, i);
  }

  lemma FromDelim(str: string, j: nat, i: nat, k: nat, f: Ifs)
    requires j <= i < |str| && Ordinary(str[i]) && f.Has(str[i])
    requires i <= k <= |str| && str[k..] == SkipDelim(str[i..], f)
    ensures From(str, j, i, NONE, f) == [str[j..i]] + if k < |str| then From(str, k, k, NONE, f) else []
    ensures i < k
  {
    var s := str[i..];
    assert s[0] == str[i];
    OneField(str[j..i], s, f);
    hide QuotedFields, SkipDelim;
    assert str[k..k] == [];
  }

  // An IFS character outside quotes ends a field.
  lemma OneField(cur: string, s: string, f: Ifs)
    requires s != [] && Ordinary(s[0]) && f.Has(s[0])
    ensures QuotedFields(cur, s, NONE, f)
         == [cur] + if SkipDelim(s, f) == [] then [] else QuotedFields([], SkipDelim(s, f), NONE, f)
    ensures |SkipDelim(s, f)| < |s|
  {
    hide SkipDelim;
  }

  lemma FromEnd(str: string, j: nat, quote: char, f: Ifs)
    requires j <= |str|
    ensures From(str, j, |str|, quote, f) == if quote == NONE then [str[j..|str|]] else []
  {
    assert str[|str|..] == [];
  }

  lemma FromPast(str: string, j: nat, i: nat, quote: char, f: Ifs)
    requires i > |str|
    ensures From(str, j, i, quote, f) == []
  {
  }

  /** One turn of the loop of field_split, up to and with its `++i`: at most one field is made. */
  method Turn(str: string, f: Ifs, j0: nat, i0: nat, quote0: char)
    returns (made: seq<string>, j: nat, i: nat, quote: char)
    requires j0 <= i0 <= |str|
    ensures j <= i && i0 < i <= |str| + 2
    ensures From(str, j0, i0, quote0, f) == made + From(str, j, i, quote, f)
  {
    hide QuotedFields, SkipDelim, NextSingle, From;
    var len := |str|;
    made, j, i, quote := [], j0, i0, quote0;
    if i == len {
      if quote == NONE { made := [str[j..i]]; }
      FromEnd(str, j, quote, f);
      FromPast(str, j, i + 1, quote, f);
      return made, j, i + 1, quote;
    }
    if str[i] == '\\' {
      FromBackslash(str, j, i, quote, f);
      return made, j, i + 2, quote;
    }
    if str[i] == '\'' {
      var p := FindSingle(str, i + 1);
      FromSingle(str, j, i, p, quote, f);
      return made, j, p + 1, quote;
    }
    if str[i] == '"' || str[i] == '`' {
      FromToggle(str, j, i, quote, f);
      return made, j, i + 1, if quote == str[i] then NONE else str[i];
    }
    if quote != NONE || !f.Has(str[i]) {
      FromOther(str, j, i, quote, f);
      return made, j, i + 1, quote;
    }
    made := [str[j..i]];
    var k := SkipIfsDelim(str, i, f);
    FromDelim(str, j, i, k, f);
    // the code goes back one step here, so that its `++i` comes to k, or steps past the end
    FromPast(str, k, len + 1, NONE, f);
    return made, k, if k < len then k else len + 1, NONE;
  }

  /** The loop of field_split over the word str, whose leading IFS white space is gone. */
  method MakeFields(str: string, f: Ifs) returns (fields: seq<string>)
    ensures fields == QuotedFields([], str, NONE, f)
  {
    assert From(str, 0, 0, NONE, f) == QuotedFields([], str, NONE, f) by { assert str[0..0] == [] && str[0..] == str; }
    hide From;
    var j: nat, i: nat, quote := 0, 0, NONE;
    fields := [];
    while i <= |str|
      invariant j <= i <= |str| + 2
      invariant fields + From(str, j, i, quote, f) == From(str, 0, 0, NONE, f)
      decreases |str| + 1 - i
    {
      var made;
      made, j, i, quote := Turn(str, f, j, i, quote);
      fields := fields + made;
    }
    FromPast(str, j, i, quote, f);
  }

  method SplitWord(str: string, ifs: Option<string>) returns (r: Option<seq<string>>)
    ensures r == FieldSplit(str, ifs)
  {
    var IFS := IfsOf(ifs);
    if IFS == "" { return None; }
    var f := GetIfsSpacesAndDelims(IFS);
    assert str[0..] == str;
    var k := SkipIfsWhitespace(str, 0, f);
    var fields := MakeFields(str[k..], f);
    r := if fields == [] then None else Some(fields);
  }
}
