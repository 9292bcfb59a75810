/** brace_expand: a list of words that is worked through in place, each time replacing the word at
    hand by what its first brace expression makes of it. */
module BraceExpansion {
  import opened Basics
  import opened BraceList
  import opened StringLists

  datatype Hit = NoBrace | Brace(at: nat, end: nat, items: seq<string>)

  // The first expandable brace expression from p on.
  function Seek(s: string, p: nat, find: Finder): Hit
    decreases |s| - p
  {
    if p >= |s| then NoBrace
    else if s[p] == '\'' || s[p] == '"' || s[p] == '`' then Seek(s, NextAt(s, p + 1, s[p]) + 1, find)
    else if s[p] == '$' then
      if Opener(CharAt(s, p + 1)) then Seek(s, p + 1 + find(s[p + 1..]) + 1, find) else Seek(s, p + 1, find)
    else if s[p] == '{' && !(p > 0 && (s[p - 1] == '\\' || s[p - 1] == '$')) then
      var end := find(s[p..]);
      if end == 0 then Seek(s, p + 1, find)
      else
        var r := BraceItems(s[p..], end, find);
        if r.Listed? then Brace(p, end, r.items) else Seek(s, p + 1, find)
    else Seek(s, p + 1, find)
  }

  ghost predicate Expression(s: string, h: Hit, find: Finder) {
    && h.Brace? && h.at < |s| && s[h.at] == '{' && 0 < h.end < |s| - h.at && h.items != []
    && BraceItems(s[h.at..], h.end, find) == Listed(h.items)
  }

  lemma {:induction false} SeekFinds(s: string, p: nat, find: Finder)
    ensures Seek(s, p, find).Brace? ==> Expression(s, Seek(s, p, find), find)
    decreases |s| - p
  {
    if p < |s| {
      if s[p] == '\'' || s[p] == '"' || s[p] == '`' {
        SeekFinds(s, NextAt(s, p + 1, s[p]) + 1, find);
      } else if s[p] == '$' && Opener(CharAt(s, p + 1)) {
        SeekFinds(s, p + 1 + find(s[p + 1..]) + 1, find);
      } else {
        SeekFinds(s, p + 1, find);
      }
    }
  }

  // The word with its first brace expression replaced by each of the items.
  function Children(s: string, find: Finder): (c: seq<string>)
    requires Seek(s, 0, find).Brace?
    ensures c != [] && Braces(s) > 0
    ensures forall i :: 0 <= i < |c| ==> Braces(c[i]) < Braces(s)
  {
    SeekFinds(s, 0, find);
    var h := Seek(s, 0, find);
    var c := Affixed(s[..h.at], h.items, s[h.at + h.end + 1..]);
    AffixedFewer(s, h, find);
    c
  }

  // add_pre_post on every item
  function Affixed(pre: string, items: seq<string>, post: string): (c: seq<string>)
    ensures |c| == |items|
  {
    seq(|items|, i requires 0 <= i < |items| => pre + items[i] + post)
  }

  lemma AffixedFewer(s: string, h: Hit, find: Finder)
    requires Expression(s, h, find)
    ensures Braces(s) > 0
    ensures var c := Affixed(s[..h.at], h.items, s[h.at + h.end + 1..]);
            forall i :: 0 <= i < |c| ==> Braces(c[i]) < Braces(s)
  {
    hide Braces, BraceItems;
    var c := Affixed(s[..h.at], h.items, s[h.at + h.end + 1..]);
    forall i | 0 <= i < |c| ensures Braces(c[i]) < Braces(s) {
      FewerBraces(s, h.at, h.end, i, find);
    }
    assert Braces(c[0]) < Braces(s);
  }

  /** All the words a word stands for: those of its children, in order, or itself. */
  function Expand(s: string, find: Finder): seq<string>
    decreases Braces(s), 0
  {
    if Seek(s, 0, find).NoBrace? then [s] else ExpandAll(Children(s, find), Braces(s) - 1, find)
  }

  function ExpandAll(list: seq<string>, most: nat, find: Finder): seq<string>
    requires forall i :: 0 <= i < |list| ==> Braces(list[i]) <= most
    decreases most, |list|
  {
    if list == [] then [] else Expand(list[0], find) + ExpandAll(list[1..], most, find)
  }

  // The words of a list, and the number of steps it takes to find them all.
  function Each(list: seq<string>, find: Finder): seq<string> {
    if list == [] then [] else Expand(list[0], find) + Each(list[1..], find)
  }

  function Steps(s: string, find: Finder): nat
    decreases Braces(s), 0
  {
    if Seek(s, 0, find).NoBrace? then 1 else 1 + StepsAll(Children(s, find), Braces(s) - 1, find)
  }

  function StepsAll(list: seq<string>, most: nat, find: Finder): nat
    requires forall i :: 0 <= i < |list| ==> Braces(list[i]) <= most
    decreases most, |list|
  {
    if list == [] then 0 else Steps(list[0], find) + StepsAll(list[1..], most, find)
  }

  function StepsEach(list: seq<string>, find: Finder): nat {
    if list == [] then 0 else Steps(list[0], find) + StepsEach(list[1..], find)
  }

  lemma {:induction false} AllIsEach(list: seq<string>, most: nat, find: Finder)
    requires forall i :: 0 <= i < |list| ==> Braces(list[i]) <= most
    ensures ExpandAll(list, most, find) == Each(list, find)
    ensures StepsAll(list, most, find) == StepsEach(list, find)
    decreases |list|
  {
    if list != [] { AllIsEach(list[1..], most, find); }
  }

  lemma EachFirst(s: string, list: seq<string>, find: Finder)
    ensures Each([s] + list, find) == Expand(s, find) + Each(list, find)
    ensures StepsEach([s] + list, find) == Steps(s, find) + StepsEach(list, find)
  {
    hide Expand, Steps;
    assert ([s] + list)[1..] == list;
  }

  lemma Regrouped(a: seq<string>, b: seq<string>, c: seq<string>)
    ensures a + (b + c) == (a + b) + c
  {}

  lemma HeadTail(a: seq<string>)
    requires a != []
    ensures a == [a[0]] + a[1..]
  {}

  lemma {:induction false} EachJoin(a: seq<string>, b: seq<string>, find: Finder)
    ensures Each(a + b, find) == Each(a, find) + Each(b, find)
    ensures StepsEach(a + b, find) == StepsEach(a, find) + StepsEach(b, find)
    decreases |a|
  {
    if a == [] {
      assert a + b == b;
    } else {
      var s, rest := a[0], a[1..];
      EachJoin(rest, b, find);
      HeadTail(a);
      EachFirst(s, rest, find);
      EachFirst(s, rest + b, find);
      hide Each, StepsEach, Expand, Steps;
      Regrouped([s], rest, b);
      Regrouped(Expand(s, find), Each(rest, find), Each(b, find));
    }
  }

  /** Leftmost first: a word with an expandable brace stands for the words of its children, one
      without for itself. */
  lemma ExpandStep(s: string, find: Finder)
    ensures Expand(s, find)
            == if Seek(s, 0, find).NoBrace? then [s] else Each(Children(s, find), find)
    ensures Steps(s, find)
            == if Seek(s, 0, find).NoBrace? then 1 else 1 + StepsEach(Children(s, find), find)
  {
    if Seek(s, 0, find).Brace? { AllIsEach(Children(s, find), Braces(s) - 1, find); }
  }

  /** Expansion ends: no word that comes out has an expandable brace left. */
  lemma {:induction false} ExpandDone(s: string, find: Finder)
    ensures Expand(s, find) != []
    ensures forall i :: 0 <= i < |Expand(s, find)| ==> Seek(Expand(s, find)[i], 0, find).NoBrace?
    decreases Braces(s), 0
  {
    if Seek(s, 0, find).Brace? {
      AllDone(Children(s, find), Braces(s) - 1, find);
    }
  }

  lemma {:induction false} AllDone(list: seq<string>, most: nat, find: Finder)
    requires forall i :: 0 <= i < |list| ==> Braces(list[i]) <= most
    ensures list != [] ==> ExpandAll(list, most, find) != []
    ensures var all := ExpandAll(list, most, find);
            forall i :: 0 <= i < |all| ==> Seek(all[i], 0, find).NoBrace?
    decreases most, |list|
  {
    if list != [] {
      ExpandDone(list[0], find);
      AllDone(list[1..], most, find);
    }
  }

  /* ----- the worklist ----- */

  // One turn of the scan, by what is at p.
  lemma SeekTurn(s: string, p: nat, find: Finder)
    requires p < |s|
    ensures var quoted, opens := s[p] in "'\"`", s[p] == '{' && !(p > 0 && s[p - 1] in "\\$");
            Seek(s, p, find) ==
            if quoted then Seek(s, NextAt(s, p + 1, s[p]) + 1, find)
            else if s[p] == '$' && Opener(CharAt(s, p + 1)) then Seek(s, p + 1 + find(s[p + 1..]) + 1, find)
            else if opens && find(s[p..]) != 0 && BraceItems(s[p..], find(s[p..]), find).Listed? then
              Brace(p, find(s[p..]), BraceItems(s[p..], find(s[p..]), find).items)
            else Seek(s, p + 1, find)
  {}

  lemma SeekEnd(s: string, p: nat, find: Finder)
    requires p >= |s|
    ensures Seek(s, p, find) == NoBrace
  {}

  // The scan of one word for its first brace expression.
  method SeekBrace(str: string, find: Finder) returns (h: Hit)
    ensures h == Seek(str, 0, find)
  {
    hide Seek, BraceItems;
    var p := 0;
    while p < |str|
      invariant 0 <= p
      invariant Seek(str, p, find) == Seek(str, 0, find)
      decreases |str| - p
    {
      SeekTurn(str, p, find);
      var c := str[p];
      if c in "'\"`" {
        p := SkipTo(str, p + 1, c);
      } else if c == '$' {
        if Opener(CharAt(str, p + 1)) {
          p := p + 1;
          p := p + find(str[p..]);
        }
      } else if c == '{' && !(p > 0 && str[p - 1] in "\\$") {
        var i := find(str[p..]);
        if i != 0 {
          var list2 := GetBraceList(str[p..], i, find);
          if list2.Listed? { return Brace(p, i, list2.items); }
        }
      }
      p := p + 1;
    }
    SeekEnd(str, p, find);
    return NoBrace;
  }

  // The word at j replaced by its children.
  function Spliced(words: seq<string>, j: nat, c: seq<string>): seq<string>
    requires j < |words|
  {
    words[..j] + c + words[j + 1..]
  }

  // The words still to be looked at stand for the same words, with one step less to go.
  lemma SpliceStep(words: seq<string>, j: nat, find: Finder)
    requires j < |words| && Seek(words[j], 0, find).Brace?
    ensures var next := Spliced(words, j, Children(words[j], find));
            && j < |next| && next[..j] == words[..j]
            && Each(next[j..], find) == Each(words[j..], find)
            && StepsEach(next[j..], find) < StepsEach(words[j..], find)
  {
    var c, rest := Children(words[j], find), words[j + 1..];
    var next := Spliced(words, j, c);
    ExpandStep(words[j], find);
    EachJoin(c, rest, find);
    EachFirst(words[j], rest, find);
    hide Expand, Steps, Seek, Children, Each, StepsEach;
    SplicedTail(words, j, c);
    assert words[j..] == [words[j]] + rest;
  }

  lemma SplicedTail(words: seq<string>, j: nat, c: seq<string>)
    requires j < |words|
    ensures var next := Spliced(words, j, c);
            j <= |next| && next[j..] == c + words[j + 1..] && next[..j] == words[..j]
  {}

  // The words before j are done; with what the rest stand for they are the words wanted.
  ghost predicate Progress(words: seq<string>, j: nat, word: string, find: Finder) {
    j < |words| && words[..j] + Each(words[j..], find) == Expand(word, find)
  }

  lemma SpliceProgress(words: seq<string>, j: nat, word: string, find: Finder)
    requires Progress(words, j, word, find) && Seek(words[j], 0, find).Brace?
    ensures var next := Spliced(words, j, Children(words[j], find));
            Progress(next, j, word, find) && StepsEach(next[j..], find) < StepsEach(words[j..], find)
  {
    SpliceStep(words, j, find);
  }

  // A word without braces to expand is done with.
  lemma KeepProgress(words: seq<string>, j: nat, word: string, find: Finder)
    requires Progress(words, j, word, find) && Seek(words[j], 0, find).NoBrace?
    ensures if j + 1 < |words| then Progress(words, j + 1, word, find) else words == Expand(word, find)
    ensures StepsEach(words[j + 1..], find) < StepsEach(words[j..], find)
  {
    ExpandStep(words[j], find);
    var rest := Each(words[j + 1..], find);
    assert words[j..][0] == words[j] && words[j..][1..] == words[j + 1..];
    assert Each(words[j..], find) == [words[j]] + rest;
    hide Expand, Steps, Seek;
    assert words[..j + 1] == words[..j] + [words[j]];
    assert words[..j] + ([words[j]] + rest) == words[..j + 1] + rest;
    if j + 1 == |words| { assert rest == [] && words[..j + 1] == words; }
  }

  lemma FirstProgress(word: string, find: Finder)
    ensures Progress([word], 0, word, find)
  {
    hide Expand;
    assert [word][0..] == [word] && [word][1..] == [] && [word][..0] == [];
    assert Each([], find) == [];
  }

  // The removal of the word at j and the insertion of what it makes.
  method Replace(list: StringList?, j: nat, c: seq<string>) returns (l: StringList)
    requires if list == null then j == 0 else list.Valid() && j < list.count
    modifies list, if list == null then null else list.items
    ensures l.Valid() && l.Contents() == if list == null then c else Spliced(old(list.Contents()), j, c)
    ensures if list == null then fresh(l) && fresh(l.items)
            else l == list && (l.items == old(list.items) || fresh(l.items))
  {
    if list == null {
      l := new StringList();
    } else {
      l := list;
      l.Remove(j);
    }
    ghost var left := l.Contents();
    Fill(l, j, c);
    if list == null { assert left[..j] + c + left[j..] == c; }
  }

  method Fill(l: StringList, j: nat, c: seq<string>)
    requires l.Valid() && j <= l.count
    modifies l, l.items
    ensures l.Valid() && (l.items == old(l.items) || fresh(l.items))
    ensures l.Contents() == old(l.Contents()[..j]) + c + old(l.Contents()[j..])
  {
    ghost var left := l.Contents();
    var i := 0;
    while i < |c|
      invariant 0 <= i <= |c| && l.Valid() && (l.items == old(l.items) || fresh(l.items))
      invariant l.Contents() == left[..j] + c[..i] + left[j..]
    {
      l.Add(c[i], j + i);
      Inserting(left, c, i, j);
      i := i + 1;
    }
    assert c[..i] == c;
  }

  lemma Inserting(left: seq<string>, c: seq<string>, i: nat, j: nat)
    requires j <= |left| && i < |c|
    ensures var was := left[..j] + c[..i] + left[j..];
            was[..j + i] + [c[i]] + was[j + i..] == left[..j] + c[..i + 1] + left[j..]
  {
    var was := left[..j] + c[..i] + left[j..];
    assert was[..j + i] == left[..j] + c[..i];
    assert was[j + i..] == left[j..];
    assert c[..i + 1] == c[..i] + [c[i]];
  }

  /** The list is null when there is nothing to expand; otherwise it ends up with exactly the
      words the recursive definition gives, in order. */
  method BraceExpand(word: string, find: Finder) returns (list: StringList?)
    ensures list == null <==> Seek(word, 0, find).NoBrace?
    ensures list != null ==> fresh(list) && fresh(list.items) && list.Valid() && list.Contents() == Expand(word, find)
  {
    list := null;
    var str, j := word, 0;
    ghost var words := [word];
    FirstProgress(word, find);
    hide Progress, Seek, Children, StepsEach, Expand;
    while true
      invariant j < |words| && words[j] == str && Progress(words, j, word, find)
      invariant list == null ==> words == [word]
      invariant list != null ==> fresh(list) && fresh(list.items) && list.Valid() && list.Contents() == words
      invariant list != null ==> Seek(word, 0, find).Brace?
      decreases StepsEach(words[j..], find)
    {
      var h := SeekBrace(str, find);
      if h.Brace? {
        SpliceProgress(words, j, word, find);
        var c := Children(str, find);
        list := Replace(list, j, c);
        words := Spliced(words, j, c);
        str := list.items[j];
      } else {
        KeepProgress(words, j, word, find);
        if list == null || j >= list.count - 1 { return; }
        j := j + 1;
        str := list.items[j];
      }
    }
  }
}
