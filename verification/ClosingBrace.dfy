/** find_closing_brace on text without quotes, here-documents and comments, against the grammar of
    balanced braces it is meant to recognise. */
module ClosingBrace {
  import opened Basics

  function CloserOf(open: char): char { if open == '{' then '}' else if open == '[' then ']' else ')' }

  predicate CaseAt(data: string, i: nat) { i + 4 <= |data| && data[i..i + 4] == "case" }

  predicate HeredocAt(data: string, i: nat) { i + 1 < |data| && data[i] == '<' && data[i + 1] == '<' }

  predicate CommentAt(data: string, i: nat) {
    0 < i < |data| && data[i] == '#' && (IsSpace(data[i - 1]) || data[i - 1] == ';')
  }

  /** The text whose braces are all that counts: no quotes, here-documents or comments, and no
      `case` where it is looked for. Inside double quotes a single quote is an ordinary
      character, and `case` is looked for nowhere; elsewhere it is within parentheses only. */
  predicate BracesOnly(data: string, inDoubleQuotes: bool) {
    && '"' !in data && '`' !in data && (!inDoubleQuotes ==> '\'' !in data)
    && (forall i: nat :: i < |data| ==> !HeredocAt(data, i) && !CommentAt(data, i))
    && (!inDoubleQuotes && '(' in data ==> forall i: nat :: i < |data| ==> !CaseAt(data, i))
  }

  datatype Rest = Nothing | Rest(text: string)

  // What follows the brace that closes the group whose inside t starts with.
  function After(t: string, close: char): (r: Rest)
    ensures r.Rest? ==> |r.text| < |t|
    decreases |t|
  {
    if t == [] then Nothing
    else if t[0] == '\\' then if |t| == 1 then Nothing else After(t[2..], close)
    else if Opener(t[0]) then
      var inner := After(t[1..], CloserOf(t[0]));
      if inner.Nothing? then Nothing else After(inner.text, close)
    else if t[0] == close then Rest(t[1..])
    else After(t[1..], close)
  }

  // The index of the closing brace, or 0.
  function Find(data: string): (k: nat)
    ensures k > 0 ==> k < |data|
  {
    if data == [] || !Opener(data[0]) then 0
    else
      var r := After(data[1..], CloserOf(data[0]));
      if r.Nothing? then 0 else |data| - 1 - |r.text|
  }

  // What follows the brace when the scan is at i.
  function From(data: string, i: nat, close: char): Rest {
    if i <= |data| then After(data[i..], close) else Nothing
  }

  method FindClosingBrace(data: string, inDoubleQuotes: bool) returns (k: nat)
    requires BracesOnly(data, inDoubleQuotes)
    ensures k == Find(data)
    decreases |data|
  {
    hide From, BracesOnly, Find, CloserOf;
    if |data| == 0 || !Opener(data[0]) {
      FindNone(data);
      return 0;
    }
    var close := CloserOf(data[0]);
    CloserPlain(data[0]);
    var i := 1;
    FindFrom(data);
    while i < |data|
      invariant 1 <= i <= |data| + 1
      invariant From(data, 1, close) == From(data, i, close)
    {
      FromAt(data, i, close);
      if data[i] == '\\' {
        i := i + 1;
      } else {
        if data[i] == '$' && i + 1 < |data| && Opener(data[i + 1]) {
          i := i + 1;
          FromAt(data, i, close);
        }
        if Opener(data[i]) {
          SuffixBracesOnly(data, i, inDoubleQuotes);
          var j := FindClosingBrace(data[i..], inDoubleQuotes);
          if j == 0 { return 0; }
          i := i + j;
        } else if data[i] == close {
          return i;
        }
      }
      i := i + 1;
    }
    FromEnd(data, i, close);
    return 0;
  }

  lemma FindFrom(data: string)
    requires data != [] && Opener(data[0])
    ensures var r := From(data, 1, CloserOf(data[0]));
            Find(data) == if r.Nothing? then 0 else |data| - 1 - |r.text|
  {}

  lemma CloserPlain(open: char)
    ensures CloserOf(open) in "})]"
  {}

  lemma FindNone(data: string)
    requires data == [] || !Opener(data[0])
    ensures Find(data) == 0
  {}

  lemma FromEnd(data: string, i: nat, close: char)
    requires i >= |data|
    ensures From(data, i, close) == Nothing
  {}

  // One step of the scan.
  lemma FromAt(data: string, i: nat, close: char)
    requires i < |data|
    ensures data[i] == '\\' ==> From(data, i, close) == From(data, i + 2, close)
    ensures data[i] != '\\' && Opener(data[i]) ==>
              var j := Find(data[i..]);
              From(data, i, close) == if j == 0 then Nothing else From(data, i + j + 1, close)
    ensures data[i] != '\\' && !Opener(data[i]) && data[i] != close ==> From(data, i, close) == From(data, i + 1, close)
    ensures data[i] == close && !Opener(data[i]) && data[i] != '\\' ==>
              From(data, i, close).Rest? && |From(data, i, close).text| == |data| - i - 1
  {
    var t := data[i..];
    assert t[1..] == data[i + 1..];
    if t[0] == '\\' {
      if |t| > 1 { assert t[2..] == data[i + 2..]; }
    } else if Opener(t[0]) {
      AfterIsSuffix(data, i + 1, CloserOf(t[0]));
    }
  }

  lemma AfterIsSuffix(data: string, i: nat, close: char)
    requires i <= |data|
    ensures var r := After(data[i..], close); r.Rest? ==> r.text == data[|data| - |r.text|..]
  {
    var t := data[i..];
    var r := After(t, close);
    if r.Rest? {
      ParseReads(t, close);
      hide After, Parse;
      var head := Text(Parse(t, close)) + [close];
      assert data == data[..i] + t;
      assert data == (data[..i] + head) + r.text;
    }
  }

  lemma SuffixBracesOnly(data: string, i: nat, inDoubleQuotes: bool)
    requires BracesOnly(data, inDoubleQuotes) && i <= |data|
    ensures BracesOnly(data[i..], inDoubleQuotes)
  {
    var t := data[i..];
    assert forall k :: 0 <= k < |t| ==> t[k] == data[i + k];
    assert forall c :: c in t ==> c in data;
    forall k: nat | k < |t| ensures !HeredocAt(t, k) && !CommentAt(t, k) {
      assert !HeredocAt(data, i + k) && !CommentAt(data, i + k);
    }
    if !inDoubleQuotes && '(' in t {
      forall k: nat | k < |t| ensures !CaseAt(t, k) {
        assert !CaseAt(data, i + k);
        if k + 4 <= |t| { assert t[k..k + 4] == data[i + k..i + k + 4]; }
      }
    }
  }

  /* ----- the grammar ----- */

  datatype Item = Escaped(c: char) | Ordinary(c: char) | Group(open: char, body: Items)

  datatype Items = End | More(head: Item, tail: Items)

  function ItemText(g: Item): string {
    match g
    case Escaped(c) => ['\\', c]
    case Ordinary(c) => [c]
    case Group(open, body) => [open] + Text(body) + [CloserOf(open)]
  }

  function Text(g: Items): string {
    match g
    case End => []
    case More(head, tail) => ItemText(head) + Text(tail)
  }

  // An item between a brace and its partner close; another kind of closing brace is ordinary.
  predicate GoodItem(g: Item, close: char) {
    match g
    case Escaped(c) => true
    case Ordinary(c) => c != '\\' && !Opener(c) && c != close
    case Group(open, body) => Opener(open) && Good(body, CloserOf(open))
  }

  predicate Good(g: Items, close: char) {
    match g
    case End => true
    case More(head, tail) => GoodItem(head, close) && Good(tail, close)
  }

  /** s is one balanced group. */
  ghost predicate Balanced(s: string) {
    exists open, body :: Opener(open) && Good(body, CloserOf(open)) && s == ItemText(Group(open, body))
  }

  /** The text up to k is one balanced group. */
  ghost predicate BalancedTo(data: string, k: int) { 0 < k < |data| && Balanced(data[..k + 1]) }

  // The items before the closing brace.
  function Parse(t: string, close: char): Items
    requires After(t, close).Rest?
    decreases |t|
  {
    if t[0] == '\\' then More(Escaped(t[1]), Parse(t[2..], close))
    else if Opener(t[0]) then
      var inner := After(t[1..], CloserOf(t[0]));
      More(Group(t[0], Parse(t[1..], CloserOf(t[0]))), Parse(inner.text, close))
    else if t[0] == close then End
    else More(Ordinary(t[0]), Parse(t[1..], close))
  }

  // One step over a text that is put together.
  lemma StepEscaped(c: char, after: string, close: char)
    ensures After(['\\', c] + after, close) == After(after, close)
    ensures After(after, close).Rest? ==> Parse(['\\', c] + after, close) == More(Escaped(c), Parse(after, close))
  {
    assert (['\\', c] + after)[2..] == after;
  }

  lemma StepOrdinary(c: char, after: string, close: char)
    requires c != '\\' && !Opener(c) && c != close
    ensures After([c] + after, close) == After(after, close)
    ensures After(after, close).Rest? ==> Parse([c] + after, close) == More(Ordinary(c), Parse(after, close))
  {
    assert ([c] + after)[1..] == after;
  }

  lemma StepGroup(open: char, t: string, after: string, close: char)
    requires Opener(open) && After(t, CloserOf(open)) == Rest(after)
    ensures After([open] + t, close) == After(after, close)
    ensures After(after, close).Rest? ==>
              Parse([open] + t, close) == More(Group(open, Parse(t, CloserOf(open))), Parse(after, close))
  {
    assert ([open] + t)[1..] == t;
  }

  lemma StepEnd(close: char, rest: string)
    requires close in "})]"
    ensures After([close] + rest, close) == Rest(rest) && Parse([close] + rest, close) == End
  {}

  // What a scan that finds its brace went through first.
  lemma Unfold(t: string, close: char)
    requires After(t, close).Rest?
    ensures t != []
    ensures t[0] == '\\' ==> |t| > 1 && After(t[2..], close).Rest?
    ensures t[0] != '\\' && Opener(t[0]) ==>
              var inner := After(t[1..], CloserOf(t[0]));
              inner.Rest? && After(inner.text, close).Rest?
    ensures t[0] != '\\' && !Opener(t[0]) ==>
              if t[0] == close then After(t, close).text == t[1..] && Parse(t, close) == End
              else After(t[1..], close).Rest?
  {}

  // t is the text of the good items g, their brace, and r.
  predicate Reads(t: string, g: Items, close: char, r: string) { Good(g, close) && t == Text(g) + [close] + r }

  lemma ReadsEscaped(c: char, t: string, g: Items, close: char, r: string)
    requires Reads(t, g, close, r)
    ensures Reads(['\\', c] + t, More(Escaped(c), g), close, r)
  {}

  lemma ReadsOrdinary(c: char, t: string, g: Items, close: char, r: string)
    requires Reads(t, g, close, r) && c != '\\' && !Opener(c) && c != close
    ensures Reads([c] + t, More(Ordinary(c), g), close, r)
  {}

  lemma ReadsGroup(open: char, inside: string, body: Items, t: string, g: Items, close: char, r: string)
    requires Opener(open) && Reads(inside, body, CloserOf(open), t) && Reads(t, g, close, r)
    ensures Reads([open] + inside, More(Group(open, body), g), close, r)
  {
    var a, b := ItemText(Group(open, body)), Text(g);
    assert [open] + inside == a + t;
    assert a + (b + [close] + r) == (a + b) + [close] + r;
  }

  // What is passed is the text of good items and the brace.
  lemma {:induction false} ParseReads(t: string, close: char)
    requires After(t, close).Rest?
    ensures Reads(t, Parse(t, close), close, After(t, close).text)
    decreases |t|
  {
    Unfold(t, close);
    var r := After(t, close).text;
    if t[0] != '\\' && !Opener(t[0]) && t[0] == close {
      assert t == [close] + t[1..];
      return;
    }
    hide After, Parse, Reads;
    if t[0] == '\\' {
      var after := t[2..];
      ParseReads(after, close);
      assert t == ['\\', t[1]] + after;
      StepEscaped(t[1], after, close);
      ReadsEscaped(t[1], after, Parse(after, close), close, r);
    } else if Opener(t[0]) {
      var c, inside := CloserOf(t[0]), t[1..];
      var after := After(inside, c).text;
      ParseReads(inside, c);
      ParseReads(after, close);
      assert t == [t[0]] + inside;
      StepGroup(t[0], inside, after, close);
      ReadsGroup(t[0], inside, Parse(inside, c), after, Parse(after, close), close, r);
    } else {
      var after := t[1..];
      ParseReads(after, close);
      assert t == [t[0]] + after;
      StepOrdinary(t[0], after, close);
      ReadsOrdinary(t[0], after, Parse(after, close), close, r);
    }
  }

  // Whatever follows, a good text is passed up to its brace, and Parse gives it back.
  lemma {:induction false} AfterGood(g: Items, close: char, rest: string)
    requires Good(g, close) && close in "})]"
    ensures After(Text(g) + [close] + rest, close) == Rest(rest)
    ensures Parse(Text(g) + [close] + rest, close) == g
    decreases g
  {
    hide After, Parse;
    match g
    case End =>
      StepEnd(close, rest);
      assert Text(g) + [close] + rest == [close] + rest;
    case More(head, tail) =>
      AfterGood(tail, close, rest);
      var after := Text(tail) + [close] + rest;
      assert Text(g) + [close] + rest == ItemText(head) + after;
      match head {
        case Escaped(c) => StepEscaped(c, after, close);
        case Ordinary(c) => StepOrdinary(c, after, close);
        case Group(open, body) =>
          AfterGood(body, CloserOf(open), after);
          var t := Text(body) + [CloserOf(open)] + after;
          StepGroup(open, t, after, close);
          assert ItemText(head) + after == [open] + t;
      }
  }

  /** find_closing_brace answers k > 0 exactly when the text up to k is one balanced group. */
  lemma FindIsBalanced(data: string, k: nat)
    requires k > 0
    ensures Find(data) == k <==> BalancedTo(data, k)
  {
    if Find(data) == k { FoundBalanced(data); }
    if BalancedTo(data, k) {
      var open, body :| Opener(open) && Good(body, CloserOf(open)) && data[..k + 1] == ItemText(Group(open, body));
      BalancedFound(open, body, data[k + 1..]);
      assert data == data[..k + 1] + data[k + 1..];
    }
  }

  lemma FoundBalanced(data: string)
    requires Find(data) > 0
    ensures BalancedTo(data, Find(data))
  {
    var k, open, t := Find(data), data[0], data[1..];
    var body := Parse(t, CloserOf(open));
    ParseReads(t, CloserOf(open));
    hide After, Parse;
    assert data == ItemText(Group(open, body)) + After(t, CloserOf(open)).text;
    assert data[..k + 1] == ItemText(Group(open, body));
  }

  lemma BalancedFound(open: char, body: Items, rest: string)
    requires Opener(open) && Good(body, CloserOf(open))
    ensures Find(ItemText(Group(open, body)) + rest) == |ItemText(Group(open, body))| - 1
  {
    hide After;
    var data := ItemText(Group(open, body)) + rest;
    AfterGood(body, CloserOf(open), rest);
    assert data[1..] == Text(body) + [CloserOf(open)] + rest;
  }

  /** It answers 0 exactly when no beginning of the text is a balanced group; and at most one is. */
  lemma FindNothing(data: string)
    ensures Find(data) == 0 <==> forall k :: !BalancedTo(data, k)
    ensures forall j, k :: BalancedTo(data, j) && BalancedTo(data, k) ==> j == k
  {
    forall k: int | k > 0 ensures BalancedTo(data, k) <==> Find(data) == k {
      FindIsBalanced(data, k);
    }
    if Find(data) != 0 { assert BalancedTo(data, Find(data)); }
  }

  /** A text is the text of at most one sequence of items. */
  lemma OneReading(g: Items, h: Items, close: char)
    requires Good(g, close) && Good(h, close) && close in "})]"
    requires Text(g) == Text(h)
    ensures g == h
  {
    AfterGood(g, close, []);
    AfterGood(h, close, []);
  }

  /* ----- the three kinds of braces ----- */

  function Ordinaries(s: string): Items { if s == [] then End else More(Ordinary(s[0]), Ordinaries(s[1..])) }

  lemma {:induction false} PlainGood(s: string, close: char)
    requires forall i :: 0 <= i < |s| ==> s[i] !in "{}()[]\\"
    requires close in "})]"
    ensures Good(Ordinaries(s), close) && Text(Ordinaries(s)) == s
  {
    if s != [] {
      PlainGood(s[1..], close);
      assert s == [s[0]] + s[1..];
    }
  }

  /** Around text without braces, `{` is closed by `}`, `(` by `)` and `[` by `]`, and by nothing
      else. */
  lemma PairsFound(t: string, rest: string)
    requires forall i :: 0 <= i < |t| ==> t[i] !in "{}()[]\\"
    ensures Find("{" + t + "}" + rest) == |t| + 1
    ensures Find("(" + t + ")" + rest) == |t| + 1
    ensures Find("[" + t + "]" + rest) == |t| + 1
  {
    PlainGood(t, '}');
    PlainGood(t, ')');
    PlainGood(t, ']');
    BalancedFound('{', Ordinaries(t), rest);
    BalancedFound('(', Ordinaries(t), rest);
    BalancedFound('[', Ordinaries(t), rest);
    hide Find;
    assert ItemText(Group('{', Ordinaries(t))) == "{" + t + "}";
    assert ItemText(Group('(', Ordinaries(t))) == "(" + t + ")";
    assert ItemText(Group('[', Ordinaries(t))) == "[" + t + "]";
  }

  lemma {:induction false} NoClose(t: string, close: char)
    requires forall i :: 0 <= i < |t| ==> t[i] !in "{([\\" && t[i] != close
    ensures After(t, close).Nothing?
  {
    if t != [] { NoClose(t[1..], close); }
  }

  /** Another brace closes none: `(` and text with no `)`, no opening brace and no backslash is
      not closed, and so for the others. */
  lemma PairsOnly(t: string)
    requires forall i :: 0 <= i < |t| ==> t[i] !in "{([\\"
    ensures '}' !in t ==> Find("{" + t) == 0
    ensures ')' !in t ==> Find("(" + t) == 0
    ensures ']' !in t ==> Find("[" + t) == 0
  {
    assert ("{" + t)[1..] == t && ("(" + t)[1..] == t && ("[" + t)[1..] == t;
    if '}' !in t { NoClose(t, '}'); }
    if ')' !in t { NoClose(t, ')'); }
    if ']' !in t { NoClose(t, ']'); }
    hide After;
  }
}
