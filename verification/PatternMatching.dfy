/** The translation as the shell performs it, and the removal of a matching prefix or suffix. */
module PatternMatching {
  import opened Basics
  import opened Patterns

  /** Single quotes are balanced, and there are no double quotes and no brackets outside them. */
  predicate Covered(p: string)
    decreases |p|
  {
    if p == [] then true
    else if p[0] == '\'' then Closed(p) && Covered(Behind(p))
    else p[0] !in "\"[" && Covered(p[1..])
  }

  lemma {:induction false} SimpleCovered(p: string)
    requires Simple(p)
    ensures Covered(p)
    decreases |p|
  {
    hide Behind, Closed;
    if p == [] {
    } else if p[0] == '\'' {
      SimpleCovered(Behind(p));
    } else if p[0] == '\\' {
      Escape(p);
      SimpleCovered(p[2..]);
      assert p[1..][1..] == p[2..];
      assert Covered(p[1..]);
    } else {
      SimpleCovered(p[1..]);
    }
  }

  function Before(p: string, i: nat): char
    requires i <= |p|
  {
    if i == 0 then '\0' else p[i - 1]
  }

  // What is still to be translated from i on.
  function Tail(p: string, i: nat): string
    requires i <= |p|
  {
    Translate(p[i..], Before(p, i))
  }

  // One turn of the translation.
  lemma TurnQuoted(p: string, i: nat)
    requires i < |p| && Covered(p[i..]) && p[i] == '\''
    ensures var n := NextSingle(p[i + 1..]);
            && i + n + 2 <= |p| && p[i + n + 1] == '\'' && Covered(p[i + n + 2..])
            && Tail(p, i) == Escaped(p[i + 1..i + n + 1]) + Tail(p, i + n + 2)
  {
    hide Escaped;
    var t := p[i..];
    assert Covered(t) && Translate(t, Before(p, i)) == Escaped(Inside(t)) + Translate(Behind(t), '\'');
    assert Closed(t) && Covered(Behind(t));
    hide Covered, Translate;
    QuoteAt(p, i);
  }

  lemma QuoteAt(p: string, i: nat)
    requires i < |p| && Closed(p[i..])
    ensures var n := NextSingle(p[i + 1..]);
            && i + n + 2 <= |p| && p[i + n + 1] == '\''
            && Inside(p[i..]) == p[i + 1..i + n + 1] && Behind(p[i..]) == p[i + n + 2..]
  {
    assert p[i..][1..] == p[i + 1..];
    var n := NextSingle(p[i + 1..]);
    assert p[i + 1..][n] == p[i + n + 1];
  }

  // The position behind a run of stars.
  function StarEnd(p: string, i: nat): (j: nat)
    requires i <= |p|
    ensures i <= j <= |p|
    decreases |p| - i
  {
    if i < |p| && p[i] == '*' then StarEnd(p, i + 1) else i
  }

  lemma {:induction false} StarEndAfter(p: string, i: nat)
    requires i <= |p|
    ensures AfterStars(p[i..]) == p[StarEnd(p, i)..]
    ensures StarEnd(p, i) > i ==> p[StarEnd(p, i) - 1] == '*'
    decreases |p| - i
  {
    if i < |p| && p[i] == '*' {
      assert p[i..][1..] == p[i + 1..];
      StarEndAfter(p, i + 1);
    }
  }

  lemma TurnStars(p: string, i: nat)
    requires i < |p| && Covered(p[i..]) && p[i] == '*'
    ensures var j := StarEnd(p, i + 1);
            && Covered(p[j..])
            && Tail(p, i) == (if Before(p, i) in "])*" then ['*'] else ['.', '*']) + Tail(p, j)
  {
    assert p[i..][1..] == p[i + 1..];
    StarEndAfter(p, i + 1);
    CoveredAfterStars(p[i + 1..]);
    hide Covered;
  }

  lemma {:induction false} CoveredAfterStars(p: string)
    requires Covered(p)
    ensures Covered(AfterStars(p))
  {
    if p != [] && p[0] == '*' { CoveredAfterStars(p[1..]); }
  }

  lemma TurnOne(p: string, i: nat)
    requires i < |p| && Covered(p[i..]) && p[i] != '\'' && p[i] != '*'
    ensures Covered(p[i + 1..]) && Tail(p, i) == [if p[i] == '?' then '.' else p[i]] + Tail(p, i + 1)
  {
    assert p[i..][1..] == p[i + 1..];
  }

  method EscapeQuoted(pat: string, from: nat, to: nat) returns (out: string)
    requires from <= to <= |pat|
    ensures out == Escaped(pat[from..to])
  {
    out := "";
    var p := from;
    hide Escaped;
    EscapedEnd(pat, to);
    while p < to
      invariant from <= p <= to
      invariant Escaped(pat[from..to]) == out + Escaped(pat[p..to])
    {
      EscapedTurn(pat, p, to);
      if Escapable(pat[p]) {
        out := out + ['\\', pat[p]];
      } else {
        out := out + [pat[p]];
      }
      p := p + 1;
    }
  }

  lemma EscapedTurn(pat: string, p: nat, to: nat)
    requires p < to <= |pat|
    ensures Escaped(pat[p..to]) == (if Escapable(pat[p]) then ['\\', pat[p]] else [pat[p]]) + Escaped(pat[p + 1..to])
  {
    assert pat[p..to][1..] == pat[p + 1..to];
  }

  lemma EscapedEnd(pat: string, to: nat)
    requires to <= |pat|
    ensures Escaped(pat[to..to]) == []
  {}

  // What the translation appends at p, and where it goes on.
  method NextPart(pat: string, p: nat) returns (part: string, q: nat)
    requires p < |pat| && Covered(pat[p..])
    ensures p < q <= |pat| && Covered(pat[q..]) && Tail(pat, p) == part + Tail(pat, q)
  {
    hide Tail, Covered, Escaped;
    if pat[p] == '\'' {
      TurnQuoted(pat, p);
      var close := CloseQuote(pat, p + 1);
      part := EscapeQuoted(pat, p + 1, close);
      q := close + 1;
    } else if pat[p] == '?' {
      TurnOne(pat, p);
      part, q := ['.'], p + 1;
    } else if pat[p] == '*' {
      TurnStars(pat, p);
      part := if p == 0 || pat[p - 1] !in "])*" then ['.', '*'] else ['*'];
      q := SkipStars(pat, p + 1);
    } else {
      TurnOne(pat, p);
      part, q := [pat[p]], p + 1;
    }
  }

  method ShellPatternToRegex(pat: string) returns (out: string)
    requires Covered(pat)
    ensures out == Translate(pat, '\0')
  {
    out := "";
    var p := 0;
    TailStart(pat);
    TailEnd(pat);
    assert pat[0..] == pat;
    hide Tail, Covered;
    while p < |pat|
      invariant 0 <= p <= |pat| && Covered(pat[p..])
      invariant Translate(pat, '\0') == out + Tail(pat, p)
      decreases |pat| - p
    {
      var part, q := NextPart(pat, p);
      assert out + (part + Tail(pat, q)) == (out + part) + Tail(pat, q);
      out := out + part;
      p := q;
    }
  }

  lemma TailStart(p: string)
    ensures Tail(p, 0) == Translate(p, '\0')
  {
    assert p[0..] == p;
  }

  lemma TailEnd(p: string)
    ensures Tail(p, |p|) == []
  {}

  method CloseQuote(pat: string, from: nat) returns (i: nat)
    requires from <= |pat|
    ensures i == from + NextSingle(pat[from..])
  {
    i := from;
    while i < |pat| && pat[i] != '\''
      invariant from <= i <= |pat|
      invariant from + NextSingle(pat[from..]) == i + NextSingle(pat[i..])
    {
      assert pat[i..][1..] == pat[i + 1..];
      i := i + 1;
    }
  }

  method SkipStars(pat: string, from: nat) returns (i: nat)
    requires from <= |pat|
    ensures i == StarEnd(pat, from)
  {
    i := from;
    while i < |pat| && pat[i] == '*'
      invariant from <= i <= |pat| && StarEnd(pat, from) == StarEnd(pat, i)
    {
      i := i + 1;
    }
  }

  /* ----- removing a prefix or a suffix ----- */

  // match_pattern, by what regexec accepts
  predicate Matches(pat: string, s: string) { Accepts(Translate(pat, '\0'), s) }

  function Side(text: string, i: int, prefix: bool): string
    requires 0 <= i <= |text|
  {
    if prefix then text[..i] else text[i..]
  }

  // Cutting text at i removes a matching part.
  predicate CutAt(pat: string, text: string, i: int, prefix: bool) {
    0 <= i <= |text| && Matches(pat, Side(text, i, prefix))
  }

  // Of two cuts, whether i removes at least as much as k.
  predicate Beyond(i: int, k: int, prefix: bool) { if prefix then i >= k else i <= k }

  /** What the two searches return: the best cut that leaves something on both sides, or 0. */
  ghost predicate Found(pat: string, text: string, longest: bool, prefix: bool, k: int) {
    && (k == 0 <==> forall i :: 1 <= i < |text| ==> !CutAt(pat, text, i, prefix))
    && (k != 0 ==>
          && 1 <= k < |text| && CutAt(pat, text, k, prefix)
          && forall i :: 1 <= i < |text| && CutAt(pat, text, i, prefix) ==>
               if longest then Beyond(k, i, prefix) else Beyond(i, k, prefix))
  }

  /** The text is a terminated string in the array str, which gets terminators for a while. */
  method MatchPrefix(pat: string, str: array<char>, longest: bool) returns (k: nat)
    requires str.Length > 1 && str[str.Length - 1] == '\0' && '\0' !in str[..str.Length - 1]
    requires Simple(pat)
    modifies str
    ensures str[..] == old(str[..])
    ensures Found(pat, old(str[..str.Length - 1]), longest, true, k)
  {
    ghost var text := str[..str.Length - 1];
    ghost var all := str[..];
    var s, shortest, last: nat := 1, 0, 0;
    var c := str[1];
    hide Matches, Simple;
    while c != '\0'
      invariant 1 <= s <= |text| && str[..] == all && c == str[s]
      invariant shortest == 0 <==> last == 0
      invariant shortest == 0 ==> forall i :: 1 <= i < s ==> !CutAt(pat, text, i, true)
      invariant shortest != 0 ==>
                  && longest && 1 <= shortest <= last < s && CutAt(pat, text, last, true)
                  && forall i :: last < i < s ==> !CutAt(pat, text, i, true)
      decreases |text| - s
    {
      var m := TryPrefix(pat, str, s);
      assert all[..s] == text[..s];
      assert m == CutAt(pat, text, s, true);
      if m {
        if shortest == 0 {
          if !longest { return s; }
          shortest := s;
        }
        last := s;
      }
      s := s + 1;
      c := str[s];
    }
    assert s == |text|;
    return if last != 0 then last else shortest;
  }

  // The match of the first s characters, with a terminator behind them for the time.
  method TryPrefix(pat: string, str: array<char>, s: nat) returns (m: bool)
    requires s < str.Length && Simple(pat)
    modifies str
    ensures str[..] == old(str[..]) && m == Matches(pat, str[..][..s])
  {
    ghost var all := str[..];
    var c := str[s];
    str[s] := '\0';
    assert str[..s] == all[..s];
    m := MatchPattern(pat, str[..s]);
    str[s] := c;
    assert str[..] == all;
  }

  method MatchSuffix(pat: string, str: string, longest: bool) returns (k: nat)
    requires Simple(pat)
    ensures Found(pat, str, longest, false, k)
  {
    var s, shortest, last: nat := if |str| == 0 then 0 else |str| - 1, 0, 0;
    hide Matches, Simple;
    while s > 0
      invariant 0 <= s <= |str|
      invariant shortest == 0 <==> last == 0
      invariant shortest == 0 ==> forall i :: s < i < |str| ==> !CutAt(pat, str, i, false)
      invariant shortest != 0 ==>
                  && longest && s < last <= shortest < |str| && CutAt(pat, str, last, false)
                  && forall i :: s < i < last ==> !CutAt(pat, str, i, false)
    {
      var m := MatchPattern(pat, str[s..]);
      assert m == CutAt(pat, str, s, false);
      if m {
        if shortest == 0 {
          if !longest { return s; }
          shortest := s;
        }
        last := s;
      }
      s := s - 1;
    }
    return if last != 0 then last else shortest;
  }

  method MatchPattern(pat: string, str: string) returns (m: bool)
    requires Simple(pat)
    ensures m == Matches(pat, str)
  {
    SimpleCovered(pat);
    var r := ShellPatternToRegex(pat);
    m := Accepts(r, str);
  }

  // What is left after a cut.
  function Left(text: string, i: int, prefix: bool): string
    requires 0 <= i <= |text|
  {
    if prefix then text[i..] else text[..i]
  }

  // The part that a cut at i removes is one the pattern stands for.
  predicate StandsAt(pat: string, text: string, i: int, prefix: bool) {
    0 <= i <= |text| && Denotes(pat, Side(text, i, prefix))
  }

  // The cut that XCU section 2.6.2 asks for: of all of them the one that removes least or most.
  ghost predicate Asked(pat: string, text: string, longest: bool, prefix: bool, i: int) {
    && StandsAt(pat, text, i, prefix)
    && forall j :: StandsAt(pat, text, j, prefix) ==> if longest then Beyond(i, j, prefix) else Beyond(j, i, prefix)
  }

  ghost predicate Right(pat: string, text: string, longest: bool, prefix: bool, rest: string) {
    (exists i :: 0 <= i <= |text| && Asked(pat, text, longest, prefix, i) && rest == Left(text, i, prefix))
    || ((forall i :: !StandsAt(pat, text, i, prefix)) && rest == text)
  }

  ghost predicate StandsInside(pat: string, text: string, prefix: bool) {
    exists i :: 1 <= i < |text| && StandsAt(pat, text, i, prefix)
  }

  // The cut that removes nothing, and the one that removes everything.
  function Nothing(text: string, prefix: bool): nat { if prefix then 0 else |text| }

  function Everything(text: string, prefix: bool): nat { if prefix then |text| else 0 }

  lemma Ends(pat: string, text: string, prefix: bool)
    ensures StandsAt(pat, text, Nothing(text, prefix), prefix) <==> Denotes(pat, [])
    ensures StandsAt(pat, text, Everything(text, prefix), prefix) <==> Denotes(pat, text)
  {
    assert text[..0] == [] && text[|text|..] == [] && text[..|text|] == text && text[0..] == text;
  }

  lemma LeftAt(text: string, i: int, prefix: bool)
    requires 0 <= i <= |text|
    ensures |Left(text, i, prefix)| == if prefix then |text| - i else i
    ensures Left(text, Nothing(text, prefix), prefix) == text
  {}

  // The code's matching is the pattern's meaning.
  lemma SameCuts(pat: string, text: string, prefix: bool)
    requires Simple(pat) && Keeps(pat)
    ensures forall i :: CutAt(pat, text, i, prefix) <==> StandsAt(pat, text, i, prefix)
  {
    hide Translate, Denotes, Accepts, Simple, Keeps;
    forall i ensures CutAt(pat, text, i, prefix) <==> StandsAt(pat, text, i, prefix) {
      if 0 <= i <= |text| { TranslateMeans(pat, '\0', Side(text, i, prefix)); }
    }
  }

  // What a search found, in terms of the pattern's meaning.
  ghost predicate FoundRight(pat: string, text: string, longest: bool, prefix: bool, k: int) {
    && (k == 0 <==> !StandsInside(pat, text, prefix))
    && (k != 0 ==>
          && 1 <= k < |text| && StandsAt(pat, text, k, prefix)
          && forall i :: 1 <= i < |text| && StandsAt(pat, text, i, prefix) ==>
               if longest then Beyond(k, i, prefix) else Beyond(i, k, prefix))
  }

  lemma FoundStands(pat: string, text: string, longest: bool, prefix: bool, k: int)
    requires Simple(pat) && Keeps(pat) && Found(pat, text, longest, prefix, k)
    ensures FoundRight(pat, text, longest, prefix, k)
  {
    SameCuts(pat, text, prefix);
    hide CutAt, StandsAt, Simple, Keeps, Beyond;
  }

  // Only the cut itself leaves what it leaves.
  lemma RightAt(pat: string, text: string, longest: bool, prefix: bool, k: int)
    requires 0 <= k <= |text|
    ensures Right(pat, text, longest, prefix, Left(text, k, prefix)) <==>
            || Asked(pat, text, longest, prefix, k)
            || (k == Nothing(text, prefix) && forall i :: !StandsAt(pat, text, i, prefix))
  {
    hide StandsAt, Left, Beyond, Asked;
    LeftAt(text, k, prefix);
    LeftAt(text, Nothing(text, prefix), prefix);
    forall i | 0 <= i <= |text| ensures Left(text, i, prefix) == Left(text, k, prefix) <==> i == k {
      LeftAt(text, i, prefix);
      LeftAt(text, k, prefix);
    }
  }

  lemma LongestExact(pat: string, text: string, prefix: bool, k: int)
    requires text != [] && FoundRight(pat, text, true, prefix, k)
    ensures Right(pat, text, true, prefix, Left(text, if k == 0 then Nothing(text, prefix) else k, prefix))
            <==> !Denotes(pat, text)
  {
    var n := if k == 0 then Nothing(text, prefix) else k;
    Ends(pat, text, prefix);
    RightAt(pat, text, true, prefix, n);
    hide StandsAt, Left, Right, Denotes;
  }

  lemma ShortestExact(pat: string, text: string, prefix: bool, k: int)
    requires text != [] && FoundRight(pat, text, false, prefix, k)
    ensures Right(pat, text, false, prefix, Left(text, if k == 0 then Nothing(text, prefix) else k, prefix)) <==>
            if Denotes(pat, []) then !StandsInside(pat, text, prefix)
            else Denotes(pat, text) ==> StandsInside(pat, text, prefix)
  {
    var n := if k == 0 then Nothing(text, prefix) else k;
    Ends(pat, text, prefix);
    RightAt(pat, text, false, prefix, n);
    hide StandsAt, Left, Right, Denotes;
  }

  /** For a pattern whose meaning is kept. Nothing and the whole text are never tried: removing
      the longest match is right exactly when the pattern does not stand for the whole text;
      removing the shortest is right exactly when, if it stands for the empty string, it stands
      for no inner part, and if not, the whole text is not the only match. */
  lemma RemovalExact(pat: string, text: string, longest: bool, prefix: bool, k: int)
    requires Simple(pat) && Keeps(pat) && text != [] && Found(pat, text, longest, prefix, k)
    ensures var rest := if k == 0 then text else Left(text, k, prefix);
            Right(pat, text, longest, prefix, rest) <==>
            if longest then !Denotes(pat, text)
            else if Denotes(pat, []) then !StandsInside(pat, text, prefix)
            else Denotes(pat, text) ==> StandsInside(pat, text, prefix)
  {
    FoundStands(pat, text, longest, prefix, k);
    LeftAt(text, Nothing(text, prefix), prefix);
    hide Found, StandsInside, Right, Left, Denotes, Simple, Keeps;
    if longest { LongestExact(pat, text, prefix, k); } else { ShortestExact(pat, text, prefix, k); }
  }

  lemma {:induction false} StarDenotes(s: string)
    ensures Denotes(['*'], s)
    decreases |s|
  {
    assert ['*'][1..] == [];
    if s != [] { StarDenotes(s[1..]); }
  }

  /** The longest prefix that `*` matches is the whole text, but one character is left. */
  lemma StarLeavesOne(text: string, k: int)
    requires |text| > 1 && Found(['*'], text, true, true, k)
    ensures k == |text| - 1 && !Right(['*'], text, true, true, text[k..]) && Right(['*'], text, true, true, [])
  {
    var p := ['*'];
    assert p[1..] == [] && Simple(p) && Keeps(p);
    forall s ensures Denotes(p, s) { StarDenotes(s); }
    RemovalExact(p, text, true, true, k);
    FoundStands(p, text, true, true, k);
    hide Denotes, Found;
    assert StandsAt(p, text, |text| - 1, true) && StandsAt(p, text, |text|, true);
    assert Asked(p, text, true, true, |text|) && Left(text, |text|, true) == [];
  }
}
