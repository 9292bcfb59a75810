/** What whole words with a comma list or a range in braces expand to. */
module BraceWords {
  import opened Basics
  import opened ClosingBrace
  import opened Ranges
  import opened BraceList
  import opened BraceSplit
  import opened BraceExpansion

  // A character in front of the braces that the scan just passes, and that does not escape them.
  predicate Passed(c: char) { c !in "'\"`${\\" }

  predicate AllPassed(s: string) { forall i :: 0 <= i < |s| ==> Passed(s[i]) }

  lemma {:induction false} SeekPasses(s: string, p: nat, q: nat, find: Finder)
    requires p <= q <= |s| && forall i :: p <= i < q ==> Passed(s[i])
    ensures Seek(s, p, find) == Seek(s, q, find)
    decreases q - p
  {
    if p < q { SeekPasses(s, p + 1, q, find); }
  }

  // Each word is an item with pre in front and post behind.
  predicate Around(words: seq<string>, pre: string, items: seq<string>, post: string) {
    |words| == |items| && forall i :: 0 <= i < |items| ==> words[i] == pre + items[i] + post
  }

  lemma AroundIs(words: seq<string>, pre: string, items: seq<string>, post: string)
    requires Around(words, pre, items, post)
    ensures Affixed(pre, items, post) == words
  {}

  lemma ThreeTexts(pre: string, braces: string, post: string)
    ensures var s := pre + braces + post;
            && s[..|pre|] == pre && s[|pre|..] == braces + post && s[|pre| + |braces|..] == post
            && |s| == |pre| + |braces| + |post| && (forall i :: 0 <= i < |pre| ==> s[i] == pre[i])
  {
    var s := pre + braces + post;
    assert s[|pre|..] == braces + post;
  }

  // The scan comes to the braces, and takes what they hold.
  lemma SeekAt(s: string, p: nat, end: nat, items: seq<string>, find: Finder)
    requires p + end < |s| && s[p] == '{' && end > 0 && (forall i :: 0 <= i < p ==> Passed(s[i]))
    requires find(s[p..]) == end && BraceItems(s[p..], end, find) == Listed(items)
    ensures Seek(s, 0, find) == Brace(p, end, items)
  {
    hide BraceItems;
    SeekPasses(s, 0, p, find);
    if p > 0 { assert Passed(s[p - 1]); }
    SeekTurn(s, p, find);
    hide Seek;
  }

  /** A word with a first expression after plain characters stands for the words of the items
      with the rest of the word around them, in order. */
  lemma FirstExpression(pre: string, braces: string, post: string, items: seq<string>, find: Finder, words: seq<string>)
    requires Around(words, pre, items, post)
    requires AllPassed(pre) && |braces| > 1 && braces[0] == '{'
    requires find(braces + post) == |braces| - 1
    requires items != [] && BraceItems(braces + post, |braces| - 1, find) == Listed(items)
    ensures Expand(pre + braces + post, find) == Each(words, find)
  {
    var s := pre + braces + post;
    AroundIs(words, pre, items, post);
    ThreeTexts(pre, braces, post);
    assert s[|pre|] == (braces + post)[0];
    SeekAt(s, |pre|, |braces| - 1, items, find);
    ExpandChildren(s, |pre|, |braces| - 1, items, find);
    hide *;
    assert |pre| + (|braces| - 1) + 1 == |pre| + |braces|;
  }

  lemma ExpandChildren(s: string, p: nat, end: nat, items: seq<string>, find: Finder)
    requires p + end < |s| && Seek(s, 0, find) == Brace(p, end, items)
    ensures Expand(s, find) == Each(Affixed(s[..p], items, s[p + end + 1..]), find)
  {
    ExpandStep(s, find);
    hide Seek, Each, Expand, Affixed;
  }

  /** pre{item,item}post is what the words pre, item, post put together stand for, each in turn:
      for any items, nested braces included, and whatever follows. */
  lemma CommaWord(pre: string, pieces: seq<Items>, post: string, words: seq<string>)
    requires Around(words, pre, Texts(pieces), post)
    requires AllPassed(pre) && Pieces(pieces) && pieces != []
    ensures Expand(pre + (['{'] + Join(Texts(pieces)) + ['}']) + post, Find) == Each(words, Find)
  {
    CommaSplit(pieces, post);
    hide BraceItems, Find, Join, Texts, Each, Expand, Around;
    FirstExpression(pre, ['{'] + Join(Texts(pieces)) + ['}'], post, Texts(pieces), Find, words);
  }

  /* ----- words as text ----- */

  // A character that means nothing within braces.
  predicate Easy(c: char) { c !in "'\"\\.,{}()[]`$<#" }

  predicate EasyText(s: string) { s != [] && forall i :: 0 <= i < |s| ==> Easy(s[i]) }

  lemma {:induction false} EasyPiece(s: string)
    requires forall i :: 0 <= i < |s| ==> Easy(s[i])
    ensures Piece(Ordinaries(s)) && Text(Ordinaries(s)) == s && (s != [] ==> Ordinaries(s) != End)
  {
    if s != [] {
      EasyPiece(s[1..]);
      assert s == [s[0]] + s[1..];
    }
  }

  lemma {:induction false} NothingFound(s: string, p: nat, find: Finder)
    requires forall i :: p <= i < |s| ==> s[i] != '{'
    ensures Seek(s, p, find) == NoBrace
    decreases |s| - p
  {
    if p < |s| {
      if s[p] == '\'' || s[p] == '"' || s[p] == '`' {
        NothingFound(s, NextAt(s, p + 1, s[p]) + 1, find);
      } else if s[p] == '$' && Opener(CharAt(s, p + 1)) {
        NothingFound(s, p + 1 + find(s[p + 1..]) + 1, find);
      } else {
        NothingFound(s, p + 1, find);
      }
    }
  }

  /** A brace behind a backslash opens nothing. */
  lemma EscapedBrace(t: string, find: Finder)
    requires '{' !in t
    ensures Expand("\\{" + t, find) == ["\\{" + t]
  {
    var s := "\\{" + t;
    assert s[0] == '\\' && s[1] == '{';
    SeekTurn(s, 0, find);
    SeekTurn(s, 1, find);
    NothingFound(s, 2, find);
    ExpandStep(s, find);
    hide Expand, Seek;
  }

  /** Neither does one behind a dollar sign. */
  lemma DollarBrace(t: string, u: string)
    requires '{' !in u && forall i :: 0 <= i < |t| ==> t[i] !in "{}()[]\\"
    ensures Expand("$" + ("{" + t + "}" + u), Find) == ["$" + ("{" + t + "}" + u)]
  {
    var g := "{" + t + "}" + u;
    var s := "$" + g;
    PairsFound(t, u);
    assert s[1..] == g && s[1] == '{' && s[|t| + 3..] == u;
    hide Find;
    forall i | |t| + 3 <= i < |s| ensures s[i] != '{' { assert s[i] == u[i - |t| - 3]; }
    SeekTurn(s, 0, Find);
    NothingFound(s, |t| + 3, Find);
    ExpandStep(s, Find);
    hide Seek;
  }

  // A word without an opening brace stands for itself.
  lemma {:induction false} BracelessWords(words: seq<string>, find: Finder)
    requires forall i :: 0 <= i < |words| ==> '{' !in words[i]
    ensures Each(words, find) == words
  {
    hide Expand;
    if words != [] {
      NothingFound(words[0], 0, find);
      ExpandStep(words[0], find);
      BracelessWords(words[1..], find);
      assert words == [words[0]] + words[1..];
    }
  }

  // Texts with commas between them.
  function Commas(texts: seq<string>): string
    requires texts != []
  {
    if |texts| == 1 then texts[0] else texts[0] + "," + Commas(texts[1..])
  }

  lemma {:induction false} CommasJoin(texts: seq<string>)
    requires texts != []
    ensures Commas(texts) == Join(texts)
  {
    if |texts| > 1 { CommasJoin(texts[1..]); }
  }

  /** `pre{t0,t1,...}post` is as many words as there are texts, and the i-th is pre, the i-th text
      and post: `a{b,c}d` is `abd acd`. */
  lemma CommaText(pre: string, texts: seq<string>, post: string)
    requires AllPassed(pre) && '{' !in post && texts != [] && forall i :: 0 <= i < |texts| ==> EasyText(texts[i])
    ensures var words := Expand(pre + ("{" + Commas(texts) + "}") + post, Find);
            |words| == |texts| && forall i :: 0 <= i < |texts| ==> words[i] == pre + texts[i] + post
  {
    var pieces := TextPieces(texts);
    var words := TextsAround(pre, texts, post);
    CommasJoin(texts);
    CommaExpands(pre, pieces, post, words);
    hide Expand, Each, Find, Texts, Join, Piece, EasyText, AllPassed, Commas;
  }

  lemma CommaExpands(pre: string, pieces: seq<Items>, post: string, words: seq<string>)
    requires AllPassed(pre) && Pieces(pieces) && pieces != [] && Around(words, pre, Texts(pieces), post)
    requires forall i :: 0 <= i < |words| ==> '{' !in words[i]
    ensures Expand(pre + ("{" + Join(Texts(pieces)) + "}") + post, Find) == words
  {
    hide *;
    CommaWord(pre, pieces, post, words);
    BracelessWords(words, Find);
  }

  lemma TextPieces(texts: seq<string>) returns (pieces: seq<Items>)
    requires texts != [] && forall i :: 0 <= i < |texts| ==> EasyText(texts[i])
    ensures Pieces(pieces) && pieces != [] && Texts(pieces) == texts
  {
    pieces := seq(|texts|, i requires 0 <= i < |texts| => Ordinaries(texts[i]));
    forall i | 0 <= i < |texts| ensures Piece(pieces[i]) && Text(pieces[i]) == texts[i] && pieces[i] != End {
      EasyPiece(texts[i]);
    }
  }

  lemma TextsAround(pre: string, texts: seq<string>, post: string) returns (words: seq<string>)
    requires AllPassed(pre) && '{' !in post && forall i :: 0 <= i < |texts| ==> EasyText(texts[i])
    ensures Around(words, pre, texts, post) && forall i :: 0 <= i < |words| ==> '{' !in words[i]
  {
    words := seq(|texts|, i requires 0 <= i < |texts| => pre + texts[i] + post);
    forall i | 0 <= i < |texts| ensures '{' !in words[i] {
      assert EasyText(texts[i]);
      Braceless(pre, texts[i], post);
    }
  }

  lemma Braceless(pre: string, t: string, post: string)
    requires AllPassed(pre) && '{' !in t && '{' !in post
    ensures '{' !in pre + t + post
  {}

  /** Quoted text is never expanded. */
  lemma QuotedWhole(q: char, t: string, find: Finder)
    requires q in "'\"`" && q !in t
    ensures Expand([q] + t + [q], find) == [[q] + t + [q]]
  {
    var s := [q] + t + [q];
    NextOver(s, 1, |s| - 1, q);
    SeekTurn(s, 0, find);
    SeekEnd(s, |s|, find);
    ExpandStep(s, find);
  }

  lemma {:induction false} NextOver(s: string, p: nat, q: nat, c: char)
    requires p <= q < |s| && s[q] == c && forall i :: p <= i < q ==> s[i] != c
    ensures NextAt(s, p, c) == q
    decreases q - p
  {
    if p < q { NextOver(s, p + 1, q, c); }
  }

  /* ----- ranges ----- */

  predicate NumChar(c: char) { IsDigit(c) || c == '-' }

  // What the bounds and the step of a range are made of.
  predicate BoundChar(c: char) { NumChar(c) || IsLetter(c) }

  predicate AllBound(s: string) { forall i :: 0 <= i < |s| ==> BoundChar(s[i]) }

  lemma DecimalChars(n: int)
    ensures AllBound(Decimal(n)) && Decimal(n) != [] && (|Decimal(n)| == 1 ==> !IsLetter(Decimal(n)[0]))
  {
    var d := Digits(if n < 0 then -n else n);
    forall i | 0 <= i < |Decimal(n)| ensures NumChar(Decimal(n)[i]) {
      if n < 0 { assert i > 0 ==> Decimal(n)[i] == d[i - 1]; } else { assert IsDigit(d[i]); }
    }
  }

  lemma {:induction false} ListPasses(s: string, end: nat, p0: nat, p: nat, q: nat, find: Finder)
    requires p0 <= p <= q <= end < |s| && forall i :: p <= i < q ==> BoundChar(s[i])
    ensures ListFrom(s, end, p0, p, [], find) == ListFrom(s, end, p0, q, [], find)
    decreases q - p
  {
    if p < q {
      ListTurn(s, end, p0, p, [], find);
      hide ListFrom;
      ListPasses(s, end, p0, p + 1, q, find);
    }
  }

  lemma {:induction false} BoundPasses(s: string, end: nat, p: nat, q: nat, find: Finder)
    requires p <= q <= end < |s| && (forall i :: p <= i < q ==> BoundChar(s[i])) && (q == end || s[q] == '.')
    ensures BoundEnd(s, end, p, find) == q
    decreases q - p
  {
    if p < q { BoundPasses(s, end, p + 1, q, find); }
  }

  // An absent step is 1.
  function Step(z: int, stepped: bool): int { if stepped then z else 1 }

  // {dx..dy} or {dx..dy..dz}
  function RangeText(dx: string, dy: string, dz: string, stepped: bool): string {
    ['{'] + dx + ['.', '.'] + dy + (if stepped then ['.', '.'] + dz else []) + ['}']
  }

  predicate BoundBetween(s: string, p: nat, q: nat) { p <= q <= |s| && forall i :: p <= i < q ==> BoundChar(s[i]) }

  // The text from p on starts with a, which is made of the characters of bounds.
  lemma BoundAhead(s: string, p: nat, a: string, b: string)
    requires Ahead(s, p, a + b) && AllBound(a)
    ensures Ahead(s, p + |a|, b) && s[p..p + |a|] == a && |s| == p + |a| + |b|
    ensures BoundBetween(s, p, p + |a|)
  {
    AheadSplit(s, p, a, b);
    forall i | p <= i < p + |a| ensures BoundChar(s[i]) { assert s[i] == s[p..p + |a|][i - p]; }
  }

  predicate DotsAt(s: string, p: nat) { p + 1 < |s| && s[p] == '.' && s[p + 1] == '.' }

  // The bounds are s[1..p] and s[p + 2..end].
  predicate TwoLaid(s: string, p: nat, end: nat) {
    && 1 <= p && p + 2 <= end < |s| && DotsAt(s, p) && s[end] == '}'
    && BoundBetween(s, 1, p) && BoundBetween(s, p + 2, end)
  }

  // A bound and two dots, with rest behind them; a bound and a brace.
  lemma LayDots(s: string, p: nat, d: string, rest: string)
    requires Ahead(s, p, d + (['.', '.'] + rest)) && AllBound(d)
    ensures var q := p + |d|;
            BoundBetween(s, p, q) && s[p..q] == d && DotsAt(s, q) && Ahead(s, q + 2, rest) && |s| == q + 2 + |rest|
  {
    hide Ahead, BoundBetween, AllBound;
    BoundAhead(s, p, d, ['.', '.'] + rest);
    AheadSplit(s, p + |d|, ['.', '.'], rest);
  }

  lemma LayBrace(s: string, p: nat, d: string, rest: string)
    requires Ahead(s, p, d + (['}'] + rest)) && AllBound(d)
    ensures var q := p + |d|;
            BoundBetween(s, p, q) && s[p..q] == d && q < |s| && s[q] == '}'
  {
    hide Ahead, BoundBetween, AllBound;
    BoundAhead(s, p, d, ['}'] + rest);
    AheadSplit(s, p + |d|, ['}'], rest);
  }

  lemma LayTwo(s: string, dx: string, dy: string, rest: string)
    requires AllBound(dx) && AllBound(dy)
    requires Ahead(s, 1, dx + (['.', '.'] + (dy + (['}'] + rest))))
    ensures var p := 1 + |dx|;
            var end := p + 2 + |dy|;
            TwoLaid(s, p, end) && s[1..p] == dx && s[p + 2..end] == dy
  {
    hide Ahead, BoundBetween, AllBound;
    LayDots(s, 1, dx, dy + (['}'] + rest));
    LayBrace(s, 3 + |dx|, dy, rest);
  }

  lemma TwoBounds(s: string, p: nat, end: nat)
    requires TwoLaid(s, p, end)
    ensures RangeAt(s, end, 1, p, Find) == MakeRange(s[1..p], s[p + 2..end], [], false, end)
  {
    hide Find, MakeRange;
    BoundPasses(s, end, p + 2, end, Find);
    hide BoundEnd;
  }

  // The bounds are s[1..p] and s[p + 2..q], the step is s[q + 2..end].
  predicate ThreeLaid(s: string, p: nat, q: nat, end: nat) {
    && 1 <= p && p + 2 <= q && q + 2 <= end < |s| && DotsAt(s, p) && DotsAt(s, q) && s[end] == '}'
    && BoundBetween(s, 1, p) && BoundBetween(s, p + 2, q)
  }

  lemma LayThree(s: string, dx: string, dy: string, dz: string, rest: string)
    requires AllBound(dx) && AllBound(dy) && AllBound(dz)
    requires Ahead(s, 1, dx + (['.', '.'] + (dy + (['.', '.'] + (dz + (['}'] + rest))))))
    ensures var p := 1 + |dx|;
            var q := p + 2 + |dy|;
            var end := q + 2 + |dz|;
            ThreeLaid(s, p, q, end) && s[1..p] == dx && s[p + 2..q] == dy && s[q + 2..end] == dz
  {
    hide Ahead, BoundBetween, AllBound;
    LayDots(s, 1, dx, dy + (['.', '.'] + (dz + (['}'] + rest))));
    LayDots(s, 3 + |dx|, dy, dz + (['}'] + rest));
    LayBrace(s, 5 + |dx| + |dy|, dz, rest);
  }

  lemma ThreeBounds(s: string, p: nat, q: nat, end: nat)
    requires ThreeLaid(s, p, q, end)
    ensures RangeAt(s, end, 1, p, Find) == MakeRange(s[1..p], s[p + 2..q], s[q + 2..end], true, end)
  {
    hide MakeRange, Find;
    BoundPasses(s, end, p + 2, q, Find);
    ThreeAt(s, p, q, end);
  }

  lemma ThreeAt(s: string, p: nat, q: nat, end: nat)
    requires 1 <= p && p + 2 <= q && q + 2 <= end < |s| && DotsAt(s, p) && DotsAt(s, q)
    requires BoundEnd(s, end, p + 2, Find) == q
    ensures RangeAt(s, end, 1, p, Find) == MakeRange(s[1..p], s[p + 2..q], s[q + 2..end], true, end)
  {
    hide MakeRange, Find, BoundEnd;
  }

  // A list that is one range.
  lemma ListOfRange(s: string, p: nat, end: nat, items: seq<string>)
    requires 1 <= p < end < |s| && DotsAt(s, p) && BoundBetween(s, 1, p)
    requires RangeAt(s, end, 1, p, Find) == Ranged(items, end) && items != []
    ensures BraceItems(s, end, Find) == Listed(items)
  {
    ListPasses(s, end, 1, 1, p, Find);
    ListTurn(s, end, 1, p, [], Find);
    assert [] + items == items;
    ListEnd(s, end, end + 1, end + 1, items, Find);
    hide ListFrom, RangeAt, Find;
  }

  // The first bound ends at the dots, and the parts of the range behind it are read whole.
  predicate ReadAs(s: string, p: nat, end: nat, dx: string, dy: string, dz: string, stepped: bool) {
    && 1 <= p < end < |s| && DotsAt(s, p) && BoundBetween(s, 1, p)
    && RangeAt(s, end, 1, p, Find) == MakeRange(dx, dy, dz, stepped, end)
  }

  lemma RangeParts(dx: string, dy: string, dz: string, stepped: bool, rest: string)
    requires AllBound(dx) && AllBound(dy) && AllBound(dz)
    ensures var t := RangeText(dx, dy, dz, stepped);
            ReadAs(t + rest, 1 + |dx|, |t| - 1, dx, dy, if stepped then dz else [], stepped)
  {
    RangeLength(dx, dy, dz, stepped);
    hide *;
    if stepped {
      ThreeAhead(dx, dy, dz, rest);
      ThreeParts(RangeText(dx, dy, dz, stepped) + rest, dx, dy, dz, rest);
    } else {
      TwoAhead(dx, dy, dz, rest);
      TwoParts(RangeText(dx, dy, dz, stepped) + rest, dx, dy, rest);
    }
  }

  lemma RangeLength(dx: string, dy: string, dz: string, stepped: bool)
    ensures |RangeText(dx, dy, dz, stepped)| == 4 + |dx| + |dy| + if stepped then 2 + |dz| else 0
    ensures RangeText(dx, dy, dz, stepped)[0] == '{'
  {}

  lemma TwoParts(s: string, dx: string, dy: string, rest: string)
    requires AllBound(dx) && AllBound(dy)
    requires Ahead(s, 1, dx + (['.', '.'] + (dy + (['}'] + rest))))
    ensures ReadAs(s, 1 + |dx|, 3 + |dx| + |dy|, dx, dy, [], false)
  {
    hide RangeAt, MakeRange, AllBound, Ahead, Find;
    LayTwo(s, dx, dy, rest);
    TwoBounds(s, 1 + |dx|, 3 + |dx| + |dy|);
  }

  lemma ThreeParts(s: string, dx: string, dy: string, dz: string, rest: string)
    requires AllBound(dx) && AllBound(dy) && AllBound(dz)
    requires Ahead(s, 1, dx + (['.', '.'] + (dy + (['.', '.'] + (dz + (['}'] + rest))))))
    ensures ReadAs(s, 1 + |dx|, 5 + |dx| + |dy| + |dz|, dx, dy, dz, true)
  {
    hide RangeAt, MakeRange, AllBound, Ahead, Find;
    LayThree(s, dx, dy, dz, rest);
    ThreeBounds(s, 1 + |dx|, 3 + |dx| + |dy|, 5 + |dx| + |dy| + |dz|);
  }

  lemma TwoAhead(dx: string, dy: string, dz: string, rest: string)
    ensures Ahead(RangeText(dx, dy, dz, false) + rest, 1, dx + (['.', '.'] + (dy + (['}'] + rest))))
  {}

  lemma ThreeAhead(dx: string, dy: string, dz: string, rest: string)
    ensures Ahead(RangeText(dx, dy, dz, true) + rest, 1,
                  dx + (['.', '.'] + (dy + (['.', '.'] + (dz + (['}'] + rest))))))
  {}

  lemma {:induction false} OrdinariesGood(s: string)
    requires forall i :: 0 <= i < |s| ==> BoundChar(s[i]) || s[i] == '.'
    ensures Good(Ordinaries(s), '}') && Text(Ordinaries(s)) == s
  {
    if s != [] {
      OrdinariesGood(s[1..]);
      assert s == [s[0]] + s[1..];
    }
  }

  lemma RangeCloses(dx: string, dy: string, dz: string, stepped: bool, rest: string)
    requires AllBound(dx) && AllBound(dy) && AllBound(dz)
    ensures var t := RangeText(dx, dy, dz, stepped);
            t[0] == '{' && |t| > 1 && Find(t + rest) == |t| - 1
  {
    hide Find;
    var t := RangeText(dx, dy, dz, stepped);
    var body := t[1..|t| - 1];
    assert body == dx + ['.', '.'] + dy + (if stepped then ['.', '.'] + dz else []);
    forall i | 0 <= i < |body| ensures BoundChar(body[i]) || body[i] == '.' {
      InBody(dx, dy, if stepped then ['.', '.'] + dz else [], i);
    }
    OrdinariesGood(body);
    BalancedFound('{', Ordinaries(body), rest);
    assert t == ['{'] + body + ['}'];
  }

  lemma InBody(a: string, b: string, c: string, i: nat)
    requires AllBound(a) && AllBound(b) && (forall k :: 0 <= k < |c| ==> BoundChar(c[k]) || c[k] == '.')
    requires i < |a| + 2 + |b| + |c|
    ensures var s := a + ['.', '.'] + b + c; BoundChar(s[i]) || s[i] == '.'
  {}

  // What the bounds and the step make.
  ghost predicate Makes(dx: string, dy: string, dz: string, stepped: bool, items: seq<string>) {
    items != [] && forall next :: MakeRange(dx, dy, dz, stepped, next) == Ranged(items, next)
  }

  lemma ReadItems(s: string, p: nat, end: nat, dx: string, dy: string, dz: string, stepped: bool, items: seq<string>)
    requires ReadAs(s, p, end, dx, dy, dz, stepped) && Makes(dx, dy, dz, stepped, items)
    ensures 0 < end < |s| && BraceItems(s, end, Find) == Listed(items)
  {
    hide MakeRange, BraceItems, BoundBetween, RangeAt, Find;
    ListOfRange(s, p, end, items);
  }

  // A word with a range: the items that the bounds and the step make, each in its place.
  lemma RangeWord(pre: string, dx: string, dy: string, dz: string, stepped: bool, post: string, items: seq<string>,
                  words: seq<string>)
    requires AllPassed(pre) && AllBound(dx) && AllBound(dy) && AllBound(dz)
    requires Makes(dx, dy, if stepped then dz else [], stepped, items) && Around(words, pre, items, post)
    ensures Expand(pre + RangeText(dx, dy, dz, stepped) + post, Find) == Each(words, Find)
  {
    hide *;
    var t := RangeText(dx, dy, dz, stepped);
    RangeParts(dx, dy, dz, stepped, post);
    RangeCloses(dx, dy, dz, stepped, post);
    ReadItems(t + post, 1 + |dx|, |t| - 1, dx, dy, if stepped then dz else [], stepped, items);
    SomeItems(dx, dy, if stepped then dz else [], stepped, items);
    FirstExpression(pre, t, post, items, Find, words);
  }

  lemma SomeItems(dx: string, dy: string, dz: string, stepped: bool, items: seq<string>)
    requires Makes(dx, dy, dz, stepped, items)
    ensures items != []
  {}

  /** {x..y} and {x..y..z} hold the values of the range, printed in decimal. */
  lemma RangeItems(x: int, y: int, z: int, stepped: bool, rest: string)
    ensures var t := RangeText(Decimal(x), Decimal(y), Decimal(z), stepped);
            BraceItems(t + rest, |t| - 1, Find) == Listed(NumberItems(x, y, Step(z, stepped)))
  {
    NumberRange(x, y, z, stepped);
    DecimalChars(x); DecimalChars(y); DecimalChars(z);
    hide *;
    var dx, dy, dz := Decimal(x), Decimal(y), Decimal(z);
    RangeParts(dx, dy, dz, stepped, rest);
    RangeCloses(dx, dy, dz, stepped, rest);
    ReadItems(RangeText(dx, dy, dz, stepped) + rest, 1 + |dx|, |RangeText(dx, dy, dz, stepped)| - 1, dx, dy,
              if stepped then dz else [], stepped, NumberItems(x, y, Step(z, stepped)));
  }

  /* ----- the values of a range, written out ----- */

  // From x towards y by |z|, or by 1 when z is 0, none of them beyond y, and one more would be.
  predicate RangeOf(v: seq<int>, x: int, y: int, z: int) {
    var step := if z < 0 then -z else if z == 0 then 1 else z;
    && v != [] && v[0] == x
    && (forall i :: 0 < i < |v| ==> v[i] == if x <= y then v[i - 1] + step else v[i - 1] - step)
    && (forall i :: 0 <= i < |v| ==> if x <= y then x <= v[i] <= y else y <= v[i] <= x)
    && (if x <= y then v[|v| - 1] + step > y else v[|v| - 1] - step < y)
  }

  lemma ValuesRange(x: int, y: int, z: int)
    ensures RangeOf(Values(x, y, z), x, y, z)
  {
    ValuesExact(x, y, z);
    var v := Values(x, y, z);
    hide Values;
    forall i | 0 < i < |v|
      ensures v[i] == if x <= y then v[i - 1] + Stride(z) else v[i - 1] - Stride(z)
    {
      assert v[i - 1 + 1] == if x <= y then v[i - 1] + Stride(z) else v[i - 1] - Stride(z);
    }
  }

  // A range whose words have no braces.
  lemma RangeExpands(pre: string, dx: string, dy: string, dz: string, stepped: bool, post: string, items: seq<string>,
                     words: seq<string>)
    requires AllPassed(pre) && AllBound(dx) && AllBound(dy) && AllBound(dz)
    requires Makes(dx, dy, if stepped then dz else [], stepped, items) && Around(words, pre, items, post)
    requires forall i :: 0 <= i < |words| ==> '{' !in words[i]
    ensures Expand(pre + RangeText(dx, dy, dz, stepped) + post, Find) == words
  {
    hide *;
    RangeWord(pre, dx, dy, dz, stepped, post, items, words);
    BracelessWords(words, Find);
  }

  predicate DecimalsIn(words: seq<string>, pre: string, v: seq<int>, post: string) {
    |words| == |v| && forall i :: 0 <= i < |v| ==> words[i] == pre + Decimal(v[i]) + post
  }

  /** `pre{x..y..z}post`, with numbers, is one word for each value of the range: pre, the value in
      decimal, post; without z the step is 1. */
  lemma NumberWords(pre: string, x: int, y: int, z: int, stepped: bool, post: string)
    requires AllPassed(pre) && '{' !in post
    ensures var words := Expand(pre + RangeText(Decimal(x), Decimal(y), Decimal(z), stepped) + post, Find);
            exists v :: RangeOf(v, x, y, Step(z, stepped)) && DecimalsIn(words, pre, v, post)
  {
    var step := Step(z, stepped);
    ValuesRange(x, y, step);
    NumberRange(x, y, z, stepped);
    DecimalChars(x); DecimalChars(y); DecimalChars(z);
    var words := NumbersAround(pre, x, y, step, post);
    hide *;
    RangeExpands(pre, Decimal(x), Decimal(y), Decimal(z), stepped, post, NumberItems(x, y, step), words);
  }

  lemma NumbersAround(pre: string, x: int, y: int, z: int, post: string) returns (words: seq<string>)
    requires AllPassed(pre) && '{' !in post
    ensures DecimalsIn(words, pre, Values(x, y, z), post) && forall i :: 0 <= i < |words| ==> '{' !in words[i]
    ensures Around(words, pre, NumberItems(x, y, z), post)
  {
    var v := Values(x, y, z);
    hide Decimal, Values, AllPassed;
    words := seq(|v|, i requires 0 <= i < |v| => pre + Decimal(v[i]) + post);
    forall i | 0 <= i < |v| ensures '{' !in words[i] {
      DecimalChars(v[i]);
      Braceless(pre, Decimal(v[i]), post);
    }
  }

  lemma NumberRange(x: int, y: int, z: int, stepped: bool)
    ensures Makes(Decimal(x), Decimal(y), if stepped then Decimal(z) else [], stepped,
                  NumberItems(x, y, Step(z, stepped)))
  {
    DecimalChars(x);
    DecimalReadsBack(x); DecimalReadsBack(y); DecimalReadsBack(z);
    hide Decimal, Atol, IsNum;
  }

  predicate LettersIn(words: seq<string>, pre: string, v: seq<int>, post: string) {
    |words| == |v| && forall i :: 0 <= i < |v| ==> 65 <= v[i] <= 122 && words[i] == pre + [v[i] as char] + post
  }

  /** `pre{x..y..z}post`, with letters, is one word for each character from x towards y: `{a..e..2}`
      is `a c e`. */
  lemma LetterWords(pre: string, x: char, y: char, z: int, stepped: bool, post: string)
    requires AllPassed(pre) && '{' !in post && IsLetter(x) && IsLetter(y)
    ensures var words := Expand(pre + RangeText([x], [y], Decimal(z), stepped) + post, Find);
            exists v :: RangeOf(v, x as int, y as int, Step(z, stepped)) && LettersIn(words, pre, v, post)
  {
    var step := Step(z, stepped);
    ValuesRange(x as int, y as int, step);
    LetterRange(x, y, z, stepped);
    DecimalChars(z);
    LettersBound(x, y);
    var words := LettersAround(pre, Values(x as int, y as int, step), post);
    LettersAre(words, pre, x, y, step, post);
    hide *;
    RangeExpands(pre, [x], [y], Decimal(z), stepped, post, LetterItems(x, y, step), words);
  }

  lemma LettersAround(pre: string, v: seq<int>, post: string) returns (words: seq<string>)
    requires AllPassed(pre) && '{' !in post && forall i :: 0 <= i < |v| ==> 65 <= v[i] <= 122
    ensures LettersIn(words, pre, v, post) && forall i :: 0 <= i < |words| ==> '{' !in words[i]
  {
    words := seq(|v|, i requires 0 <= i < |v| => pre + [v[i] as char] + post);
    forall i | 0 <= i < |v| ensures '{' !in words[i] { Braceless(pre, [v[i] as char], post); }
  }

  lemma LettersBound(x: char, y: char)
    requires IsLetter(x) && IsLetter(y)
    ensures AllBound([x]) && AllBound([y])
  {}

  lemma LettersAre(words: seq<string>, pre: string, x: char, y: char, z: int, post: string)
    requires IsLetter(x) && IsLetter(y) && |words| == |Values(x as int, y as int, z)|
    requires LettersIn(words, pre, Values(x as int, y as int, z), post)
    ensures Around(words, pre, LetterItems(x, y, z), post)
  {
    hide Values;
  }

  lemma LetterRange(x: char, y: char, z: int, stepped: bool)
    requires IsLetter(x) && IsLetter(y)
    ensures Makes([x], [y], if stepped then Decimal(z) else [], stepped, LetterItems(x, y, Step(z, stepped)))
    ensures var v := Values(x as int, y as int, Step(z, stepped));
            forall i :: 0 <= i < |v| ==> 65 <= v[i] <= 122
  {
    DecimalReadsBack(z);
    ValuesExact(x as int, y as int, Step(z, stepped));
    hide Decimal, Atol, IsNum;
  }

  /* ----- what is no range, and an empty item ----- */

  // More than one character, and a letter among them: neither a letter nor a number.
  predicate Mixed(s: string) { |s| > 2 && exists i :: 1 <= i < |s| && IsLetter(s[i]) }

  lemma MixedIs(s: string)
    requires Mixed(s)
    ensures !LetterWord(s) && !IsNum(s)
  {
    var i :| 1 <= i < |s| && IsLetter(s[i]);
    if Sign(s[0]) { assert s[1..][i - 1] == s[i]; }
  }

  /** Bounds that are neither both letters nor both numbers make no range, and neither does a step
      that is no number after numbers: the word stands for itself. */
  lemma NoRange(pre: string, dx: string, dy: string, dz: string, stepped: bool, post: string)
    requires AllPassed(pre) && '{' !in post && AllBound(dx) && AllBound(dy) && AllBound(dz)
    requires Mixed(dx) || Mixed(dy) || (stepped && Mixed(dz) && IsNum(dx) && IsNum(dy) && !LetterWord(dx))
    ensures var s := pre + RangeText(dx, dy, dz, stepped) + post; Expand(s, Find) == [s]
  {
    hide *;
    var t := RangeText(dx, dy, dz, stepped);
    NoItems(dx, dy, dz, stepped, post);
    NoBraceBehind(pre, dx, dy, dz, stepped, post);
    ThreeTexts(pre, t, post);
    PassedIs(pre);
    RangeCloses(dx, dy, dz, stepped, post);
    assert (pre + t + post)[|pre|] == (t + post)[0];
    StaysWhole(pre + t + post, |pre|, |t| - 1);
  }

  lemma PassedIs(s: string)
    requires AllPassed(s)
    ensures forall i :: 0 <= i < |s| ==> Passed(s[i])
  {}

  lemma NoItems(dx: string, dy: string, dz: string, stepped: bool, post: string)
    requires AllBound(dx) && AllBound(dy) && AllBound(dz)
    requires Mixed(dx) || Mixed(dy) || (stepped && Mixed(dz) && IsNum(dx) && IsNum(dy) && !LetterWord(dx))
    ensures var t := RangeText(dx, dy, dz, stepped);
            0 < |t| - 1 < |t + post| && BraceItems(t + post, |t| - 1, Find) == Failed
  {
    hide *;
    var t := RangeText(dx, dy, dz, stepped);
    RangeParts(dx, dy, dz, stepped, post);
    RangeCloses(dx, dy, dz, stepped, post);
    NothingMade(dx, dy, dz, stepped, |t| - 1);
    EmptyOrBad(t + post, 1 + |dx|, |t| - 1, dx, dy, if stepped then dz else [], stepped);
  }

  lemma NothingMade(dx: string, dy: string, dz: string, stepped: bool, next: nat)
    requires Mixed(dx) || Mixed(dy) || (stepped && Mixed(dz) && IsNum(dx) && IsNum(dy) && !LetterWord(dx))
    ensures MakeRange(dx, dy, if stepped then dz else [], stepped, next) in {Bad, Ranged([], next)}
  {
    if Mixed(dx) { MixedIs(dx); }
    if Mixed(dy) { MixedIs(dy); }
    if Mixed(dz) { MixedIs(dz); }
    hide IsNum, LetterWord, Mixed, NumberItems, LetterItems, Atol;
  }

  lemma EmptyOrBad(s: string, p: nat, end: nat, dx: string, dy: string, dz: string, stepped: bool)
    requires ReadAs(s, p, end, dx, dy, dz, stepped)
    requires MakeRange(dx, dy, dz, stepped, end) in {Bad, Ranged([], end)}
    ensures 0 < end < |s| && BraceItems(s, end, Find) == Failed
  {
    hide RangeAt, MakeRange, Find;
    ListPasses(s, end, 1, 1, p, Find);
    ListTurn(s, end, 1, p, [], Find);
    if RangeAt(s, end, 1, p, Find) == Ranged([], end) { ListEnd(s, end, end + 1, end + 1, [], Find); }
    hide ListFrom;
  }

  lemma NoBraceBehind(pre: string, dx: string, dy: string, dz: string, stepped: bool, post: string)
    requires AllBound(dx) && AllBound(dy) && AllBound(dz) && '{' !in post
    ensures var s := pre + RangeText(dx, dy, dz, stepped) + post;
            forall i :: |pre| < i < |s| ==> s[i] != '{'
  {
    var t := RangeText(dx, dy, dz, stepped);
    var u := dx + ['.', '.'] + dy + (if stepped then ['.', '.'] + dz else []) + ['}'];
    assert t == ['{'] + u;
    assert forall i :: 0 <= i < |u| ==> u[i] != '{';
    var s := pre + t + post;
    forall i | |pre| < i < |s| ensures s[i] != '{' {
      assert s[i] == if i < |pre| + |t| then u[i - |pre| - 1] else post[i - |pre| - |t|];
    }
  }

  // A brace whose list is none, with no other brace behind it.
  lemma StaysWhole(s: string, p: nat, end: nat)
    requires p < |s| && s[p] == '{' && forall i :: 0 <= i < p ==> Passed(s[i])
    requires forall i :: p < i < |s| ==> s[i] != '{'
    requires 0 < end < |s[p..]| && Find(s[p..]) == end && BraceItems(s[p..], end, Find) == Failed
    ensures Expand(s, Find) == [s]
  {
    hide BraceItems, Find;
    SeekPasses(s, 0, p, Find);
    SeekTurn(s, p, Find);
    NothingFound(s, p + 1, Find);
    ExpandStep(s, Find);
    hide Seek;
  }

  /** An empty item is none: its comma belongs to the item behind it, so that `{,a}` is `,a`. */
  lemma EmptyItem(t: string)
    requires EasyText(t)
    ensures Expand("{," + t + "}", Find) == ["," + t]
  {
    hide *;
    var s, item := "{," + t + "}", "," + t;
    EmptyLaid(t);
    EmptyScan(s, |t| + 2, t);
    PairsFound(item, []);
    OneItem(s, item, |t| + 2);
  }

  lemma EmptyLaid(t: string)
    requires EasyText(t)
    ensures var s, item, end := "{," + t + "}", "," + t, |t| + 2;
            && s == "{" + item + "}" && s == "{" + item + "}" + [] && |s| == end + 1
            && s[1] == ',' && s[end] == '}' && s[end - 1] != '\\' && s[1..end] == item && Ahead(s, 2, t + "}")
            && (forall i :: 0 <= i < |item| ==> item[i] !in "{}()[]\\") && '{' !in item && |item| == |t| + 1
  {
    var s, item := "{," + t + "}", "," + t;
    forall i | 0 <= i < |item| ensures item[i] !in "{}()[]\\" {
      if i > 0 { assert item[i] == t[i - 1] && Easy(t[i - 1]); }
    }
    assert s[|t| + 1] == t[|t| - 1] && Easy(t[|t| - 1]);
  }

  lemma EmptyScan(s: string, end: nat, t: string)
    requires EasyText(t) && end == |t| + 2 < |s| && Ahead(s, 2, t + "}")
    requires s[1] == ',' && s[end] == '}' && s[end - 1] != '\\'
    ensures ListFrom(s, end, 1, 1, [], Find) == Listed([s[1..end]])
  {
    hide *;
    EasyIs(t);
    EasyPiece(t);
    PassComma(s, end);
    PassPiece(s, end, 1, 2, [], Ordinaries(t), "}");
    TurnItem(s, end, 1, end, []);
    assert [] + [s[1..end]] == [s[1..end]];
    ListEnd(s, end, end + 1, end + 1, [s[1..end]], Find);
  }

  lemma EasyIs(t: string)
    requires EasyText(t)
    ensures t != [] && forall i :: 0 <= i < |t| ==> Easy(t[i])
  {}

  lemma PassComma(s: string, end: nat)
    requires 1 <= end < |s| && s[1] == ','
    ensures ListFrom(s, end, 1, 1, [], Find) == ListFrom(s, end, 1, 2, [], Find)
  {
    hide Find, RangeAt;
  }

  lemma OneItem(s: string, item: string, end: nat)
    requires s == "{" + item + "}" && end == |item| + 1 && '{' !in item
    requires Find(s) == end && ListFrom(s, end, 1, 1, [], Find) == Listed([item])
    ensures Expand(s, Find) == [item]
  {
    hide Find, ListFrom;
    assert BraceItems(s, end, Find) == Listed([item]);
    hide *;
    WholeBraces(s, [item]);
  }

  /** A quotation is passed over whole: a comma in it separates nothing. `{'a,b',c}` is `'a,b'`
      and `c`. */
  lemma QuotedItem(q: char, t: string, u: string)
    requires q in "'\"" && q !in t && EasyText(u) && forall i :: 0 <= i < |t| ==> t[i] !in "{}()[]\\"
    ensures Expand("{" + ([q] + t + [q]) + "," + u + "}", Find) == [[q] + t + [q], u]
  {
    hide *;
    var a := [q] + t + [q];
    var s, p := "{" + a + "," + u + "}", |a| + 1;
    QuotedLaid(q, t, u);
    QuotedBody(q, t, u);
    QuotedScan(s, p, q, u);
    PairsFound(a + "," + u, []);
    TwoItems(s, a, u);
  }

  lemma QuotedLaid(q: char, t: string, u: string)
    requires q in "'\"" && q !in t && EasyText(u)
    ensures var a := [q] + t + [q];
            var s, p, body := "{" + a + "," + u + "}", |a| + 1, a + "," + u;
            && s == "{" + body + "}" && s == "{" + body + "}" + [] && |s| == p + |u| + 2 && |body| == p + |u|
            && s[1] == q && s[p - 1] == q && p >= 3 && (forall i :: 2 <= i < p - 1 ==> s[i] != q)
            && s[p] == ',' && s[1..p] == a && Ahead(s, p + 1, u + "}") && s[|s| - 1] == '}'
            && s[|s| - 2] != '\\' && s[p + 1..|s| - 1] == u
  {
    var a := [q] + t + [q];
    var s, p := "{" + a + "," + u + "}", |a| + 1;
    forall i | 2 <= i < p - 1 ensures s[i] != q { assert s[i] == t[i - 2]; }
    assert s[|s| - 2] == u[|u| - 1] && Easy(u[|u| - 1]);
  }

  lemma QuotedBody(q: char, t: string, u: string)
    requires q in "'\"" && EasyText(u) && forall i :: 0 <= i < |t| ==> t[i] !in "{}()[]\\"
    ensures var a := [q] + t + [q];
            var body := a + "," + u;
            (forall i :: 0 <= i < |body| ==> body[i] !in "{}()[]\\") && '{' !in a && '{' !in u
  {
    var a := [q] + t + [q];
    var body := a + "," + u;
    forall i | 0 <= i < |u| ensures u[i] !in "{}()[]\\" { assert Easy(u[i]); }
    forall i | 0 <= i < |a| ensures a[i] !in "{}()[]\\" { if 0 < i < |a| - 1 { assert a[i] == t[i - 1]; } }
    forall i | 0 <= i < |body| ensures body[i] !in "{}()[]\\" {
      assert body[i] == if i < |a| then a[i] else if i == |a| then ',' else u[i - |a| - 1];
    }
  }

  lemma QuotedScan(s: string, p: nat, q: char, u: string)
    requires q in "'\"" && EasyText(u) && 3 <= p && |s| == p + |u| + 2 && s[1] == q && s[p - 1] == q && s[p] == ','
    requires (forall i :: 2 <= i < p - 1 ==> s[i] != q) && Ahead(s, p + 1, u + "}")
    requires s[|s| - 1] == '}' && s[|s| - 2] != '\\'
    ensures ListFrom(s, |s| - 1, 1, 1, [], Find) == Listed([s[1..p], s[p + 1..|s| - 1]])
  {
    hide *;
    var end := |s| - 1;
    EasyIs(u);
    EasyPiece(u);
    PassQuote(s, end, p, q);
    TurnItem(s, end, 1, p, []);
    PassPiece(s, end, p + 1, p + 1, [] + [s[1..p]], Ordinaries(u), "}");
    TurnItem(s, end, p + 1, end, [] + [s[1..p]]);
    assert [] + [s[1..p]] + [s[p + 1..end]] == [s[1..p], s[p + 1..end]];
    ListEnd(s, end, end + 1, end + 1, [s[1..p], s[p + 1..end]], Find);
  }

  lemma PassQuote(s: string, end: nat, p: nat, q: char)
    requires q in "'\"" && 3 <= p <= end < |s| && s[1] == q && s[p - 1] == q && forall i :: 2 <= i < p - 1 ==> s[i] != q
    ensures ListFrom(s, end, 1, 1, [], Find) == ListFrom(s, end, 1, p, [], Find)
  {
    NextOver(s, 2, p - 1, q);
    hide Find, RangeAt;
  }

  lemma TwoItems(s: string, a: string, b: string)
    requires s == "{" + (a + "," + b) + "}" && '{' !in a && '{' !in b
    requires Find(s) == |s| - 1 && ListFrom(s, |s| - 1, 1, 1, [], Find) == Listed([a, b])
    ensures Expand(s, Find) == [a, b]
  {
    hide Find, ListFrom;
    assert BraceItems(s, |s| - 1, Find) == Listed([a, b]);
    hide *;
    WholeBraces(s, [a, b]);
  }

  // A word that is one pair of braces.
  lemma WholeBraces(s: string, items: seq<string>)
    requires |s| > 1 && s[0] == '{' && Find(s) == |s| - 1 && BraceItems(s, |s| - 1, Find) == Listed(items)
    requires items != [] && forall i :: 0 <= i < |items| ==> '{' !in items[i]
    ensures Expand(s, Find) == items
  {
    AroundNothing(items);
    assert [] + s + [] == s && s + [] == s;
    PassedNothing();
    hide *;
    FirstExpression([], s, [], items, Find, items);
    BracelessWords(items, Find);
  }

  lemma AroundNothing(items: seq<string>)
    ensures Around(items, [], items, [])
  {
    forall i | 0 <= i < |items| ensures items[i] == [] + items[i] + [] {}
  }

  lemma PassedNothing()
    ensures AllPassed([])
  {}
}
