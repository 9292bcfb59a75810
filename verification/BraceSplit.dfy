/** A comma list between braces: the items are what stands between the top-level commas. */
module BraceSplit {
  import opened ClosingBrace
  import opened BraceList

  // Neither a brace, nor what get_brace_list or find_closing_brace gives a meaning to.
  predicate PlainChar(c: char) { c !in "'\"\\.,{}([`<#" }

  predicate PlainItem(g: Item) {
    match g
    case Escaped(c) => c != '\\'
    case Ordinary(c) => PlainChar(c)
    case Group(open, body) => open == '{' && Good(body, '}')
  }

  // An item of a comma list: plain characters, characters behind a backslash, which may be commas
  // and braces, and nested braces with anything inside.
  predicate Piece(g: Items) {
    match g
    case End => true
    case More(head, tail) =>
      PlainItem(head) && Piece(tail)
  }

  predicate Pieces(list: seq<Items>) { forall i :: 0 <= i < |list| ==> Piece(list[i]) && list[i] != End }

  function Texts(list: seq<Items>): seq<string> { seq(|list|, i requires 0 <= i < |list| => Text(list[i])) }

  function Join(texts: seq<string>): string {
    if texts == [] then []
    else if |texts| == 1 then texts[0]
    else texts[0] + [','] + Join(texts[1..])
  }

  /* ----- the closing brace is the one after the list ----- */

  function Chain(g: Items, h: Items): Items {
    match g
    case End => h
    case More(head, tail) => More(head, Chain(tail, h))
  }

  lemma {:induction false} ChainGood(g: Items, h: Items)
    requires Piece(g) && Good(h, '}')
    ensures Good(Chain(g, h), '}') && Text(Chain(g, h)) == Text(g) + Text(h)
  {
    match g
    case End => assert [] + Text(h) == Text(h);
    case More(head, tail) =>
      hide ItemText;
      ChainGood(tail, h);
      Assoc(ItemText(head), Text(tail), Text(h));
  }

  function Whole(list: seq<Items>): Items {
    if list == [] then End
    else if |list| == 1 then Chain(list[0], End)
    else Chain(list[0], More(Ordinary(','), Whole(list[1..])))
  }

  lemma {:induction false} WholeGood(list: seq<Items>)
    requires Pieces(list)
    ensures Good(Whole(list), '}') && Text(Whole(list)) == Join(Texts(list))
  {
    if |list| == 1 {
      ChainGood(list[0], End);
    } else if list != [] {
      var more := Whole(list[1..]);
      WholeGood(list[1..]);
      ChainGood(list[0], More(Ordinary(','), more));
      assert Texts(list)[1..] == Texts(list[1..]);
      assert Text(More(Ordinary(','), more)) == [','] + Text(more);
    }
  }

  /* ----- the list itself ----- */

  lemma {:induction false} LastChar(g: Items)
    requires Piece(g) && g != End
    ensures Text(g) != [] && Text(g)[|Text(g)| - 1] != '\\'
  {
    var text := ItemText(g.head);
    if g.tail == End {
      assert Text(g) == text;
    } else {
      LastChar(g.tail);
    }
  }

  // t is what s holds from p on.
  predicate Ahead(s: string, p: nat, t: string) { p <= |s| && s[p..] == t }

  lemma AheadSplit(s: string, p: nat, a: string, b: string)
    requires Ahead(s, p, a + b)
    ensures Ahead(s, p + |a|, b) && s[p..p + |a|] == a && |s| == p + |a| + |b|
    ensures a != [] ==> s[p] == a[0] && s[p + |a| - 1] == a[|a| - 1]
  {
    assert s == s[..p] + a + b;
  }

  // The turns of the list that a comma list takes.
  lemma TurnPlain(s: string, end: nat, p0: nat, p: nat, list: seq<string>)
    requires p0 <= p <= end < |s| && PlainChar(s[p])
    ensures ListFrom(s, end, p0, p, list, Find) == ListFrom(s, end, p0, p + 1, list, Find)
  {
    hide Find, RangeAt;
  }

  lemma TurnEscaped(s: string, end: nat, p0: nat, p: nat, list: seq<string>)
    requires p0 <= p <= end < |s| && s[p] == '\\'
    ensures ListFrom(s, end, p0, p, list, Find) == ListFrom(s, end, p0, p + 2, list, Find)
  {
    hide Find, RangeAt;
  }

  lemma TurnNested(s: string, end: nat, p0: nat, p: nat, list: seq<string>, t: string)
    requires p0 <= p <= end < |s| && Ahead(s, p, t) && t[0] == '{'
    ensures ListFrom(s, end, p0, p, list, Find) == ListFrom(s, end, p0, p + Find(t) + 1, list, Find)
  {
    hide Find, RangeAt;
  }

  lemma TurnItem(s: string, end: nat, p0: nat, p: nat, list: seq<string>)
    requires p0 < p <= end < |s| && s[p] in ",}" && s[p - 1] != '\\'
    ensures ListFrom(s, end, p0, p, list, Find) == ListFrom(s, end, p + 1, p + 1, list + [s[p0..p]], Find)
  {
    hide Find, RangeAt;
  }

  lemma PassItem(s: string, end: nat, p0: nat, p: nat, list: seq<string>, g: Item, right: string)
    requires PlainItem(g) && p0 <= p && Ahead(s, p, ItemText(g) + right) && p + |ItemText(g)| <= end < |s|
    ensures ListFrom(s, end, p0, p, list, Find) == ListFrom(s, end, p0, p + |ItemText(g)|, list, Find)
  {
    hide ListFrom, Find, Ahead;
    if g.Ordinary? {
      AheadSplit(s, p, ItemText(g), right);
      TurnPlain(s, end, p0, p, list);
    } else if g.Escaped? {
      AheadSplit(s, p, ItemText(g), right);
      TurnEscaped(s, end, p0, p, list);
    } else {
      var text := ItemText(g);
      assert text[0] == '{';
      BalancedFound('{', g.body, right);
      assert Find(text + right) == |text| - 1;
      hide ItemText;
      PassNested(s, end, p0, p, list, text, right);
    }
  }

  lemma PassNested(s: string, end: nat, p0: nat, p: nat, list: seq<string>, text: string, right: string)
    requires p0 <= p && Ahead(s, p, text + right) && p + |text| <= end < |s|
    requires text != [] && text[0] == '{' && Find(text + right) == |text| - 1
    ensures ListFrom(s, end, p0, p, list, Find) == ListFrom(s, end, p0, p + |text|, list, Find)
  {
    hide ListFrom, Find, Ahead;
    assert (text + right)[0] == '{';
    TurnNested(s, end, p0, p, list, text + right);
  }

  // An item of the list is passed over as a whole.
  lemma {:induction false} PassPiece(s: string, end: nat, p0: nat, p: nat, list: seq<string>, g: Items, right: string)
    requires Piece(g) && p0 <= p && Ahead(s, p, Text(g) + right) && p + |Text(g)| <= end < |s|
    ensures ListFrom(s, end, p0, p, list, Find) == ListFrom(s, end, p0, p + |Text(g)|, list, Find)
    decreases g
  {
    hide ListFrom, Find, Ahead;
    match g
    case End =>
    case More(head, tail) =>
      var text, more := ItemText(head), Text(tail) + right;
      Assoc(text, Text(tail), right);
      AheadSplit(s, p, text, more);
      PassItem(s, end, p0, p, list, head, more);
      PassPiece(s, end, p0, p + |text|, list, tail, right);
  }

  // An item that has been passed over, and the comma or brace after it.
  lemma TakeText(s: string, end: nat, p: nat, list: seq<string>, text: string, c: char, right: string)
    requires text != [] && text[|text| - 1] != '\\' && c in ",}" && Ahead(s, p, text + ([c] + right))
    requires p + |text| <= end < |s|
    ensures var q := p + |text|;
            && Ahead(s, q + 1, right)
            && ListFrom(s, end, p, q, list, Find) == ListFrom(s, end, q + 1, q + 1, list + [text], Find)
  {
    hide ListFrom, Find, Ahead;
    var q := p + |text|;
    AheadSplit(s, p, text, [c] + right);
    AheadSplit(s, q, [c], right);
    TurnItem(s, end, p, q, list);
  }

  lemma TakePiece(s: string, end: nat, p: nat, list: seq<string>, g: Items, c: char, right: string)
    requires Piece(g) && g != End && c in ",}" && Ahead(s, p, Text(g) + ([c] + right))
    requires p + |Text(g)| <= end < |s|
    ensures var q := p + |Text(g)| + 1;
            && Ahead(s, q, right)
            && ListFrom(s, end, p, p, list, Find) == ListFrom(s, end, q, q, list + [Text(g)], Find)
  {
    hide ListFrom, Find, Ahead, Text, Piece;
    LastChar(g);
    PassPiece(s, end, p, p, list, g, [c] + right);
    TakeText(s, end, p, list, Text(g), c, right);
  }

  lemma JoinFirst(text: string, texts: seq<string>)
    ensures Join([text] + texts) == if texts == [] then text else text + ([','] + Join(texts))
  {
    assert ([text] + texts)[1..] == texts;
  }

  lemma TextsFirst(pieces: seq<Items>)
    requires pieces != []
    ensures Texts(pieces) == [Text(pieces[0])] + Texts(pieces[1..])
    ensures |pieces| == 1 ==> Texts(pieces) == [Text(pieces[0])] && Texts(pieces[1..]) == []
  {
    hide Text;
  }

  // The items, the brace behind them and rest.
  function Joined(pieces: seq<Items>, rest: string): string { Join(Texts(pieces)) + (['}'] + rest) }

  // From p on, s holds the items, the brace at end and rest.
  predicate Ready(s: string, end: nat, p: nat, pieces: seq<Items>, rest: string) {
    Pieces(pieces) && pieces != [] && Ahead(s, p, Joined(pieces, rest)) && end == p + |Join(Texts(pieces))| < |s|
  }

  // list and the items make whole.
  predicate Makes(list: seq<string>, pieces: seq<Items>, whole: seq<string>) { whole == list + Texts(pieces) }

  lemma ReadyBounds(s: string, end: nat, p: nat, pieces: seq<Items>, rest: string)
    requires Ready(s, end, p, pieces, rest)
    ensures p <= end < |s|
  {}

  // The first of several items and what follows it.
  lemma ReadyParts(s: string, end: nat, p: nat, pieces: seq<Items>, rest: string)
    requires Ready(s, end, p, pieces, rest) && |pieces| > 1
    ensures var g, more := pieces[0], pieces[1..];
            && Piece(g) && g != End && Pieces(more) && more != []
            && Ahead(s, p, Text(g) + ([','] + Joined(more, rest)))
            && end == p + |Text(g)| + 1 + |Join(Texts(more))| < |s|
  {
    PiecesRest(pieces);
    JoinedMore(pieces, rest);
    hide Pieces, Piece, Ahead, Text, Join, Texts, Joined;
  }

  lemma ReadyNext(s: string, end: nat, p: nat, list: seq<string>, pieces: seq<Items>, rest: string)
    requires Ready(s, end, p, pieces, rest) && |pieces| > 1
    ensures var g, q := pieces[0], p + |Text(pieces[0])| + 1;
            && Ready(s, end, q, pieces[1..], rest)
            && ListFrom(s, end, p, p, list, Find) == ListFrom(s, end, q, q, list + [Text(g)], Find)
  {
    hide Ready, Pieces, Piece, ListFrom, Ahead, Text, Join, Texts, Find, Joined;
    var g, more := pieces[0], pieces[1..];
    ReadyParts(s, end, p, pieces, rest);
    TakePiece(s, end, p, list, g, ',', Joined(more, rest));
    ReadyAgain(s, end, p + |Text(g)| + 1, more, rest);
  }

  lemma ReadyAgain(s: string, end: nat, p: nat, pieces: seq<Items>, rest: string)
    requires Pieces(pieces) && pieces != [] && Ahead(s, p, Joined(pieces, rest))
    requires end == p + |Join(Texts(pieces))| < |s|
    ensures Ready(s, end, p, pieces, rest)
  {}

  lemma MakesNext(list: seq<string>, pieces: seq<Items>, whole: seq<string>)
    requires Makes(list, pieces, whole) && pieces != []
    ensures Makes(list + [Text(pieces[0])], pieces[1..], whole)
  {
    TextsFirst(pieces);
    hide Texts, Text;
    MoreOf(list, Text(pieces[0]), Texts(pieces[1..]), Texts(pieces));
  }

  lemma ReadyLast(s: string, end: nat, p: nat, list: seq<string>, pieces: seq<Items>, rest: string, whole: seq<string>)
    requires Ready(s, end, p, pieces, rest) && Makes(list, pieces, whole) && |pieces| == 1
    ensures p <= end < |s| && ListFrom(s, end, p, p, list, Find) == Listed(whole)
  {
    PiecesRest(pieces);
    JoinOne(pieces);
    hide Pieces, Piece, ListFrom, Ahead, Text, Join, Texts, Find;
    TakeLast(s, end, p, list, pieces[0], rest);
  }

  lemma {:induction false} TakeAll(s: string, end: nat, p: nat, list: seq<string>, pieces: seq<Items>, rest: string,
                                   whole: seq<string>)
    requires Ready(s, end, p, pieces, rest) && Makes(list, pieces, whole) && pieces != []
    ensures p <= end < |s| && ListFrom(s, end, p, p, list, Find) == Listed(whole)
    decreases |pieces|
  {
    hide Ready, Makes, ListFrom, Text, Find;
    if |pieces| == 1 {
      ReadyLast(s, end, p, list, pieces, rest, whole);
    } else {
      ReadyBounds(s, end, p, pieces, rest);
      ReadyNext(s, end, p, list, pieces, rest);
      MakesNext(list, pieces, whole);
      TakeAll(s, end, p + |Text(pieces[0])| + 1, list + [Text(pieces[0])], pieces[1..], rest, whole);
    }
  }

  lemma MoreOf(list: seq<string>, text: string, texts: seq<string>, all: seq<string>)
    requires all == [text] + texts
    ensures list + all == list + [text] + texts
  {}

  lemma PiecesRest(pieces: seq<Items>)
    requires Pieces(pieces) && pieces != []
    ensures Piece(pieces[0]) && pieces[0] != End && Pieces(pieces[1..])
  {
    hide Piece;
  }

  lemma JoinedMore(pieces: seq<Items>, rest: string)
    requires |pieces| > 1
    ensures var g, more := pieces[0], pieces[1..];
            && |Join(Texts(pieces))| == |Text(g)| + 1 + |Join(Texts(more))|
            && Joined(pieces, rest) == Text(g) + ([','] + Joined(more, rest))
  {
    var g, texts := pieces[0], Texts(pieces[1..]);
    TextsFirst(pieces);
    JoinFirst(Text(g), texts);
    hide Text, Join, Texts;
    JoinAhead(Text(g), Join(texts), ['}'] + rest);
  }

  lemma TakeLast(s: string, end: nat, p: nat, list: seq<string>, g: Items, rest: string)
    requires Piece(g) && g != End && Ahead(s, p, Text(g) + (['}'] + rest)) && end == p + |Text(g)| < |s|
    ensures ListFrom(s, end, p, p, list, Find) == Listed(list + [Text(g)])
  {
    hide ListFrom, Ahead, Text, Find, Piece;
    TakePiece(s, end, p, list, g, '}', rest);
    ListEnd(s, end, end + 1, end + 1, list + [Text(g)], Find);
  }

  lemma JoinOne(pieces: seq<Items>)
    requires |pieces| == 1
    ensures Texts(pieces) == [Text(pieces[0])] && Join(Texts(pieces)) == Text(pieces[0])
  {
    TextsFirst(pieces);
  }

  lemma JoinAhead(text: string, joined: string, tail: string)
    ensures (text + ([','] + joined)) + tail == text + ([','] + (joined + tail))
  {}

  lemma Assoc<T>(a: seq<T>, b: seq<T>, c: seq<T>)
    ensures a + (b + c) == (a + b) + c
  {}

  /** For any non-empty items between braces, whatever follows, find_closing_brace gives the brace
      after them and get_brace_list gives back exactly the items, nested braces intact. */
  lemma CommaSplit(pieces: seq<Items>, rest: string)
    requires Pieces(pieces) && pieces != []
    ensures var body := Join(Texts(pieces));
            var s := ['{'] + body + ['}'] + rest;
            && Find(s) == |body| + 1
            && BraceItems(s, |body| + 1, Find) == Listed(Texts(pieces))
  {
    var body := Join(Texts(pieces));
    var s := ['{'] + body + ['}'] + rest;
    WholeGood(pieces);
    BalancedFound('{', Whole(pieces), rest);
    assert s == ItemText(Group('{', Whole(pieces))) + rest;
    assert Ahead(s, 1, body + (['}'] + rest));
    assert [] + Texts(pieces) == Texts(pieces);
    TakeAll(s, |body| + 1, 1, [], pieces, rest, Texts(pieces));
  }
}
