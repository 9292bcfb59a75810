/** shell_pattern_to_regex: the shell pattern and the extended regular expression made of it stand
    for the same strings. */
module Patterns {
  import opened Basics

  /* ----- what a pattern stands for (XCU section 2.13), one character at a time ----- */

  // The text in the quotes that p begins with, whether they are closed, and what follows.
  function Inside(p: string): (t: string)
    requires p != []
    ensures |t| < |p|
  {
    p[1..1 + NextSingle(p[1..])]
  }

  predicate Closed(p: string)
    requires p != []
  {
    1 + NextSingle(p[1..]) < |p|
  }

  function Behind(p: string): (r: string)
    requires p != []
    ensures |r| < |p|
  {
    if Closed(p) then p[NextSingle(p[1..]) + 2..] else []
  }

  predicate Denotes(p: string, s: string)
    decreases |p| + |s|
  {
    if p == [] then s == []
    else if p[0] == '\'' then Inside(p) <= s && Denotes(Behind(p), s[|Inside(p)|..])
    else if p[0] == '\\' && |p| > 1 then s != [] && s[0] == p[1] && Denotes(p[2..], s[1..])
    else if p[0] == '?' then s != [] && Denotes(p[1..], s[1..])
    else if p[0] == '*' then Denotes(p[1..], s) || (s != [] && Denotes(p, s[1..]))
    else s != [] && s[0] == p[0] && Denotes(p[1..], s[1..])
  }

  /* ----- what an extended regular expression stands for (XBD section 9.4), for the ones made of
     characters, escaped characters, dots and stars ----- */

  datatype Atom = Any | Literal(c: char)

  predicate Takes(a: Atom, c: char) { a.Any? || a.c == c }

  function AtomLength(r: string): nat
    requires r != []
  {
    if r[0] == '\\' && |r| > 1 then 2 else 1
  }

  function FirstAtom(r: string): Atom
    requires r != []
  {
    if r[0] == '\\' && |r| > 1 then Literal(r[1]) else if r[0] == '.' then Any else Literal(r[0])
  }

  predicate Starred(r: string)
    requires r != []
  {
    |r| > AtomLength(r) && r[AtomLength(r)] == '*'
  }

  predicate Accepts(r: string, s: string)
    decreases |r| + |s|
  {
    if r == [] then s == []
    else if Starred(r) then
      Accepts(r[AtomLength(r) + 1..], s) || (s != [] && Takes(FirstAtom(r), s[0]) && Accepts(r, s[1..]))
    else s != [] && Takes(FirstAtom(r), s[0]) && Accepts(r[AtomLength(r)..], s[1..])
  }

  /* ----- the translation ----- */

  predicate Escapable(c: char) { c in "*?(|&)[]\\" }

  // Text in single quotes.
  function Escaped(t: string): string {
    if t == [] then [] else (if Escapable(t[0]) then ['\\', t[0]] else [t[0]]) + Escaped(t[1..])
  }

  /** A backslash is put before nine characters of quoted text, and only these. */
  lemma EscapedOne(c: char)
    ensures Escaped([c]) == if c in ['*', '?', '(', '|', '&', ')', '[', ']', '\\'] then ['\\', c] else [c]
  {
    assert [c][1..] == [];
    assert Escaped([]) == [];
  }

  function AfterStars(p: string): (r: string)
    ensures |r| <= |p| && (r != [] ==> r[0] != '*')
  {
    if p == [] || p[0] != '*' then p else AfterStars(p[1..])
  }

  // The rest of a pattern, given the character before it; '\0' at the start.
  function Translate(p: string, prev: char): string
    decreases |p|
  {
    if p == [] then []
    else if p[0] == '\'' then Escaped(Inside(p)) + Translate(Behind(p), '\'')
    else if p[0] == '?' then ['.'] + Translate(p[1..], '?')
    else if p[0] == '*' then
      (if prev in "])*" then ['*'] else ['.', '*']) + Translate(AfterStars(p[1..]), '*')
    else [p[0]] + Translate(p[1..], p[0])
  }

  // Characters with a meaning of their own in regular expressions; no escape is added to those in
  // the second list.
  predicate Special(c: char) { c in "()[]|\\" }

  predicate Unescaped(c: char) { c in "^$+{}" }

  // The characters that may follow a backslash in a regular expression, and the question mark.
  predicate Escapes(c: char) { c in "*?.+^$()|{\\" }

  /** Balanced single quotes; outside them ordinary characters, dots, ?, * and backslashes with
      what section 9.4 lets them escape, and inside them nothing that the translation forgets to
      escape, except dots. */
  predicate Simple(p: string)
    decreases |p|
  {
    if p == [] then true
    else if p[0] == '\'' then Closed(p) && (forall c :: c in Inside(p) ==> !Unescaped(c)) && Simple(Behind(p))
    else if p[0] == '\\' then |p| > 1 && Escapes(p[1]) && Simple(p[2..])
    else p[0] != '"' && !Special(p[0]) && !Unescaped(p[0]) && Simple(p[1..])
  }

  // A star after an escaped closing parenthesis is taken for one after a group.
  predicate StarredParen(p: string) { |p| > 2 && p[1] == ')' && p[2] == '*' }

  /** No dot without a backslash, quoted or not; no backslash before a star or a question mark;
      and no star right after an escaped closing parenthesis. */
  predicate Keeps(p: string)
    decreases |p|
  {
    if p == [] then true
    else if p[0] == '\'' then '.' !in Inside(p) && Keeps(Behind(p))
    else if p[0] == '\\' && |p| > 1 then p[1] !in "*?" && !StarredParen(p) && Keeps(p[2..])
    else p[0] != '.' && Keeps(p[1..])
  }

  /* ----- the translation keeps the meaning of what it can ----- */

  // A literal in front of an expression that does not start with a star.
  lemma AcceptsLiteral(c: char, r: string, s: string)
    requires r == [] || r[0] != '*'
    requires c != '\\' && c != '.'
    ensures Accepts([c] + r, s) <==> s != [] && s[0] == c && Accepts(r, s[1..])
  {
    assert ([c] + r)[1..] == r;
  }

  lemma AcceptsEscape(c: char, r: string, s: string)
    requires r == [] || r[0] != '*'
    ensures Accepts(['\\', c] + r, s) <==> s != [] && s[0] == c && Accepts(r, s[1..])
  {
    assert (['\\', c] + r)[2..] == r;
  }

  lemma AcceptsDot(r: string, s: string)
    requires r == [] || r[0] != '*'
    ensures Accepts(['.'] + r, s) <==> s != [] && Accepts(r, s[1..])
  {
    assert (['.'] + r)[1..] == r;
  }

  lemma AcceptsDotStar(r: string, s: string)
    ensures Accepts(['.', '*'] + r, s) <==> Accepts(r, s) || (s != [] && Accepts(['.', '*'] + r, s[1..]))
  {
    assert (['.', '*'] + r)[2..] == r;
  }

  lemma AcceptsEscapeStar(c: char, r: string, s: string)
    ensures Accepts(r, s) ==> Accepts(['\\', c, '*'] + r, s)
  {
    assert (['\\', c, '*'] + r)[3..] == r;
  }

  // What the translation makes of a character behind a backslash, and so of the two.
  lemma AfterBackslash(c: char, rest: string)
    requires Escapes(c)
    ensures Translate([c] + rest, '\\') ==
            if c == '*' then ['.', '*'] + Translate(AfterStars(rest), '*')
            else [if c == '?' then '.' else c] + Translate(rest, c)
  {
    assert ([c] + rest)[1..] == rest;
  }

  lemma EscapeParts(c: char, rest: string, prev: char)
    requires Escapes(c)
    ensures Translate(['\\', c] + rest, prev) ==
            if c == '*' then ['\\', '.', '*'] + Translate(AfterStars(rest), '*')
            else ['\\', if c == '?' then '.' else c] + Translate(rest, c)
  {
    var p := ['\\', c] + rest;
    assert p[1..] == [c] + rest;
    assert Translate(p, prev) == ['\\'] + Translate([c] + rest, '\\');
    AfterBackslash(c, rest);
    hide Translate;
    BackslashFirst('.', Translate(AfterStars(rest), '*'));
    BackslashFirst(if c == '?' then '.' else c, Translate(rest, c));
  }

  lemma BackslashFirst(d: char, more: string)
    ensures ['\\'] + ([d] + more) == ['\\', d] + more
    ensures ['\\'] + ([d, '*'] + more) == ['\\', d, '*'] + more
  {}

  lemma Escape(p: string)
    requires Simple(p) && p != [] && p[0] == '\\'
    ensures |p| > 1 && p == ['\\', p[1]] + p[2..] && Escapes(p[1]) && Simple(p[2..])
  {}

  // No star is left over at the front.
  lemma TranslateStart(p: string, prev: char)
    requires Simple(p) && (prev in "])*" ==> p == [] || p[0] != '*')
    ensures Translate(p, prev) == [] || Translate(p, prev)[0] != '*'
    decreases |p|
  {
    if p != [] && p[0] == '\'' {
      var t := Inside(p);
      TranslateStart(Behind(p), '\'');
      if t != [] {
        InsideNoQuote(p);
        assert Escaped(t)[0] == if Escapable(t[0]) then '\\' else t[0];
      }
    }
  }

  lemma InsideNoQuote(p: string)
    requires p != []
    ensures '\'' !in Inside(p)
  {
    assert Inside(p) == p[1..][..NextSingle(p[1..])];
  }

  lemma {:induction false} EscapedAccepts(t: string, r: string, s: string)
    requires r == [] || r[0] != '*'
    requires '.' !in t
    ensures Accepts(Escaped(t) + r, s) <==> t <= s && Accepts(r, s[|t|..])
    decreases |t|
  {
    if t == [] {
      assert Escaped(t) + r == r && s[0..] == s;
    } else {
      var rest := Escaped(t[1..]) + r;
      assert rest == [] || rest[0] != '*' by {
        if |t| > 1 { assert Escaped(t[1..])[0] != '*'; }
      }
      if Escapable(t[0]) {
        AcceptsEscape(t[0], rest, s);
        assert Escaped(t) + r == ['\\', t[0]] + rest;
      } else {
        AcceptsLiteral(t[0], rest, s);
        assert Escaped(t) + r == [t[0]] + rest;
      }
      if s != [] {
        EscapedAccepts(t[1..], r, s[1..]);
        assert t <= s <==> t[0] == s[0] && t[1..] <= s[1..];
        if t <= s { assert s[1..][|t| - 1..] == s[|t|..]; }
      }
    }
  }

  // A run of stars stands for what one star stands for.
  lemma {:induction false} OneStar(rest: string, s: string)
    ensures Denotes(['*'] + rest, s) <==> Denotes(['*'] + AfterStars(rest), s)
    decreases |rest| + |s|
  {
    var a := AfterStars(rest);
    StarFirst(rest, s);
    StarFirst(a, s);
    if rest != [] && rest[0] == '*' {
      hide Denotes;
      assert rest == ['*'] + rest[1..];
      OneStar(rest[1..], s);
      if s != [] { OneStar(rest, s[1..]); }
    }
  }

  lemma StarFirst(rest: string, s: string)
    ensures Denotes(['*'] + rest, s) <==> Denotes(rest, s) || (s != [] && Denotes(['*'] + rest, s[1..]))
  {
    assert (['*'] + rest)[1..] == rest;
  }

  lemma {:induction false} StarMeans(r: string, rest: string, s: string)
    requires forall k :: 0 <= k <= |s| ==> (Accepts(r, s[k..]) <==> Denotes(rest, s[k..]))
    ensures Accepts(['.', '*'] + r, s) <==> Denotes(['*'] + rest, s)
    decreases |s|
  {
    AcceptsDotStar(r, s);
    StarFirst(rest, s);
    hide Accepts, Denotes;
    assert s[0..] == s;
    if s != [] {
      forall k | 0 <= k <= |s[1..]| ensures Accepts(r, s[1..][k..]) <==> Denotes(rest, s[1..][k..]) {
        assert s[1..][k..] == s[k + 1..];
      }
      StarMeans(r, rest, s[1..]);
    }
  }

  /** The expression accepts exactly the strings the pattern stands for. */
  lemma {:induction false} TranslateMeans(p: string, prev: char, s: string)
    requires Simple(p) && Keeps(p) && (prev in "])*" ==> p == [] || p[0] != '*')
    ensures Accepts(Translate(p, prev), s) <==> Denotes(p, s)
    decreases |p|, 1
  {
    if p == [] {
    } else if p[0] == '\'' {
      MeansQuoted(p, prev, s);
    } else if p[0] == '\\' {
      MeansEscape(p, prev, s);
    } else if p[0] == '?' {
      TranslateStart(p[1..], '?');
      AcceptsDot(Translate(p[1..], '?'), s);
      if s != [] { TranslateMeans(p[1..], '?', s[1..]); }
    } else if p[0] == '*' {
      MeansStars(p, prev, s);
    } else {
      TranslateStart(p[1..], p[0]);
      AcceptsLiteral(p[0], Translate(p[1..], p[0]), s);
      if s != [] { TranslateMeans(p[1..], p[0], s[1..]); }
    }
  }

  lemma {:induction false} MeansEscape(p: string, prev: char, s: string)
    requires Simple(p) && Keeps(p) && p != [] && p[0] == '\\'
    ensures Accepts(Translate(p, prev), s) <==> Denotes(p, s)
    decreases |p|, 0
  {
    Escape(p);
    var c, rest := p[1], p[2..];
    EscapeParts(c, rest, prev);
    TranslateStart(rest, c);
    AcceptsEscape(c, Translate(rest, c), s);
    hide Accepts, Translate;
    if s != [] { TranslateMeans(rest, c, s[1..]); }
  }

  lemma {:induction false} MeansQuoted(p: string, prev: char, s: string)
    requires Simple(p) && Keeps(p) && p != [] && p[0] == '\''
    ensures Accepts(Translate(p, prev), s) <==> Denotes(p, s)
    decreases |p|, 0
  {
    hide Inside, Behind, Closed, Accepts;
    var t, rest := Inside(p), Behind(p);
    TranslateStart(rest, '\'');
    EscapedAccepts(t, Translate(rest, '\''), s);
    if t <= s { TranslateMeans(rest, '\'', s[|t|..]); }
  }

  lemma {:induction false} MeansStars(p: string, prev: char, s: string)
    requires Simple(p) && Keeps(p) && p != [] && p[0] == '*' && prev !in "])*"
    ensures Accepts(Translate(p, prev), s) <==> Denotes(p, s)
    decreases |p|, 0
  {
    assert p == ['*'] + p[1..];
    assert Simple(p[1..]) && Keeps(p[1..]);
    var rest := AfterStars(p[1..]);
    SimpleAfterStars(p[1..]);
    KeepsAfterStars(p[1..]);
    assert Translate(p, prev) == ['.', '*'] + Translate(rest, '*');
    hide Accepts, Denotes, Translate, Simple, Keeps;
    forall k | 0 <= k <= |s| ensures Accepts(Translate(rest, '*'), s[k..]) <==> Denotes(rest, s[k..]) {
      TranslateMeans(rest, '*', s[k..]);
    }
    StarMeans(Translate(rest, '*'), rest, s);
    OneStar(p[1..], s);
  }

  lemma {:induction false} SimpleAfterStars(p: string)
    requires Simple(p)
    ensures Simple(AfterStars(p))
  {
    if p != [] && p[0] == '*' { SimpleAfterStars(p[1..]); }
  }

  lemma {:induction false} KeepsAfterStars(p: string)
    requires Keeps(p)
    ensures Keeps(AfterStars(p))
  {
    if p != [] && p[0] == '*' { KeepsAfterStars(p[1..]); }
  }

  /* ----- exactly when ----- */

  // A shortest string that the expression accepts, with an underscore wherever it takes anything.
  function Blurred(t: string): string {
    if t == [] then [] else [if t[0] == '.' then '_' else t[0]] + Blurred(t[1..])
  }

  function Sample(p: string): string
    decreases |p|
  {
    if p == [] then []
    else if p[0] == '\'' then Blurred(Inside(p)) + Sample(Behind(p))
    else if p[0] == '\\' && |p| > 1 then
      (if p[1] == '*' || StarredParen(p) then [] else if p[1] == '?' then ['.'] else [p[1]]) + Sample(p[2..])
    else if p[0] == '?' then ['_'] + Sample(p[1..])
    else if p[0] == '*' then Sample(p[1..])
    else [if p[0] == '.' then '_' else p[0]] + Sample(p[1..])
  }

  lemma {:induction false} BlurredLength(t: string)
    ensures |Blurred(t)| == |t|
    ensures t == Blurred(t) <==> '.' !in t
  {
    if t != [] {
      BlurredLength(t[1..]);
      assert t == [t[0]] + t[1..];
      assert Blurred(t)[0] == (if t[0] == '.' then '_' else t[0]) && Blurred(t)[1..] == Blurred(t[1..]);
    }
  }

  lemma {:induction false} SampleStars(p: string)
    ensures Sample(p) == Sample(AfterStars(p))
  {
    if p != [] && p[0] == '*' { SampleStars(p[1..]); }
  }

  lemma {:induction false} EscapedTakes(t: string, r: string, s: string)
    requires (r == [] || r[0] != '*') && Accepts(r, s)
    ensures Accepts(Escaped(t) + r, Blurred(t) + s)
    decreases |t|
  {
    if t == [] {
      assert Escaped(t) + r == r && Blurred(t) + s == s;
    } else {
      var rest, more := Escaped(t[1..]) + r, Blurred(t[1..]) + s;
      EscapedTakes(t[1..], r, s);
      EscapedStart(t[1..], r);
      EscapedFirst(t, r);
      BlurredFirst(t, s);
      hide Escaped, Blurred;
      EscapedTakesOne(t[0], rest, more);
    }
  }

  lemma EscapedStart(t: string, r: string)
    requires r == [] || r[0] != '*'
    ensures Escaped(t) + r == [] || (Escaped(t) + r)[0] != '*'
  {
    if t != [] { assert Escaped(t)[0] == if Escapable(t[0]) then '\\' else t[0]; }
  }

  lemma BlurredFirst(t: string, s: string)
    requires t != []
    ensures Blurred(t) + s == [if t[0] == '.' then '_' else t[0]] + (Blurred(t[1..]) + s)
  {}

  lemma EscapedFirst(t: string, r: string)
    requires t != []
    ensures Escaped(t) + r == (if Escapable(t[0]) then ['\\', t[0]] else [t[0]]) + (Escaped(t[1..]) + r)
  {}

  lemma EscapedTakesOne(c: char, rest: string, more: string)
    requires (rest == [] || rest[0] != '*') && Accepts(rest, more)
    ensures Accepts((if Escapable(c) then ['\\', c] else [c]) + rest, [if c == '.' then '_' else c] + more)
  {
    var s := [if c == '.' then '_' else c] + more;
    assert s[1..] == more;
    hide Accepts;
    if Escapable(c) {
      AcceptsEscape(c, rest, s);
    } else if c == '.' {
      AcceptsDot(rest, s);
    } else {
      AcceptsLiteral(c, rest, s);
    }
  }

  lemma {:induction false} SampleAccepted(p: string, prev: char)
    requires Simple(p) && (prev in "])*" ==> p == [] || p[0] != '*')
    ensures Accepts(Translate(p, prev), Sample(p))
    decreases |p|, 2
  {
    if p == [] {
    } else if p[0] == '\'' {
      SampleQuoted(p, prev);
    } else if p[0] == '*' {
      var rest := p[1..];
      assert Simple(rest) && Sample(p) == Sample(rest);
      assert Translate(p, prev) == ['.', '*'] + Translate(AfterStars(rest), '*');
      hide Accepts, Simple, Translate, Sample;
      SampleBehindStars(rest);
      AcceptsDotStar(Translate(AfterStars(rest), '*'), Sample(p));
    } else if p[0] == '\\' {
      Escape(p);
      SampleParts(p[1], p[2..]);
      hide Accepts, Simple, Translate, Sample;
      SampleEscape(p[1], p[2..], prev);
    } else {
      SampleOne(p, prev);
    }
  }

  lemma {:induction false} SampleQuoted(p: string, prev: char)
    requires Simple(p) && p != [] && p[0] == '\''
    ensures Accepts(Translate(p, prev), Sample(p))
    decreases |p|, 1
  {
    hide Inside, Behind, Closed, Accepts;
    var rest := Behind(p);
    TranslateStart(rest, '\'');
    SampleAccepted(rest, '\'');
    EscapedTakes(Inside(p), Translate(rest, '\''), Sample(rest));
  }

  lemma {:induction false} SampleOne(p: string, prev: char)
    requires Simple(p) && p != [] && p[0] !in "'*\\"
    ensures Accepts(Translate(p, prev), Sample(p))
    decreases |p|, 1
  {
    var c, rest := p[0], p[1..];
    var d := if c in "?." then '_' else c;
    TranslateStart(rest, c);
    SampleAccepted(rest, c);
    assert Sample(p) == [d] + Sample(rest) && Translate(p, prev) == [if c == '?' then '.' else c] + Translate(rest, c);
    assert Simple(rest);
    hide Accepts, Translate, Sample, Simple;
    assert ([d] + Sample(rest))[1..] == Sample(rest);
    if c in "?." {
      AcceptsDot(Translate(rest, c), [d] + Sample(rest));
    } else {
      AcceptsLiteral(c, Translate(rest, c), [d] + Sample(rest));
    }
  }

  // The stars themselves add nothing to the sample.
  lemma {:induction false} SampleBehindStars(rest: string)
    requires Simple(rest)
    ensures Accepts(Translate(AfterStars(rest), '*'), Sample(rest))
    decreases |rest|, 3
  {
    SimpleAfterStars(rest);
    SampleStars(rest);
    SampleAccepted(AfterStars(rest), '*');
  }

  // What is left of the sample behind an escaped character.
  lemma SampleParts(c: char, rest: string)
    requires Escapes(c)
    ensures Sample(['\\', c] + rest) ==
            (if c == '*' || (c == ')' && rest != [] && rest[0] == '*') then []
             else [if c == '?' then '.' else c]) + Sample(rest)
  {
    assert (['\\', c] + rest)[2..] == rest;
  }

  lemma {:induction false} SampleEscape(c: char, rest: string, prev: char)
    requires Escapes(c) && Simple(rest)
    ensures Accepts(Translate(['\\', c] + rest, prev), Sample(['\\', c] + rest))
    decreases |rest|, 4
  {
    EscapeParts(c, rest, prev);
    SampleParts(c, rest);
    assert [] + Sample(rest) == Sample(rest);
    if c == '*' {
      hide Accepts, Simple, Translate, Sample;
      SampleBehindStars(rest);
      AcceptsEscapeStar('.', Translate(AfterStars(rest), '*'), Sample(rest));
    } else if c == ')' && rest != [] && rest[0] == '*' {
      StarAfterParen(rest);
      hide Accepts, Translate;
      SampleBehindStars(rest[1..]);
      AcceptsEscapeStar(')', Translate(AfterStars(rest[1..]), '*'), Sample(rest[1..]));
    } else {
      var d := if c == '?' then '.' else c;
      hide Accepts, Simple, Translate, Sample;
      TranslateStart(rest, c);
      SampleAccepted(rest, c);
      assert ([d] + Sample(rest))[1..] == Sample(rest);
      AcceptsEscape(d, Translate(rest, c), [d] + Sample(rest));
    }
  }

  lemma StarAfterParen(rest: string)
    requires rest != [] && rest[0] == '*'
    ensures var more := Translate(AfterStars(rest[1..]), '*');
            ['\\', ')'] + Translate(rest, ')') == ['\\', ')', '*'] + more
  {
    var more := Translate(AfterStars(rest[1..]), '*');
    assert Translate(rest, ')') == ['*'] + more;
    assert ['\\', ')'] + (['*'] + more) == ['\\', ')', '*'] + more;
  }

  // The length of the shortest strings the pattern stands for.
  function Least(p: string): nat
    decreases |p|
  {
    if p == [] then 0
    else if p[0] == '\'' then |Inside(p)| + Least(Behind(p))
    else if p[0] == '\\' && |p| > 1 then 1 + Least(p[2..])
    else if p[0] == '*' then Least(p[1..])
    else 1 + Least(p[1..])
  }

  lemma {:induction false} LeastDenoted(p: string, s: string)
    requires Denotes(p, s)
    ensures |s| >= Least(p)
    decreases |p| + |s|
  {
    if p == [] {
    } else if p[0] == '\'' {
      LeastDenoted(Behind(p), s[|Inside(p)|..]);
    } else if p[0] == '\\' && |p| > 1 {
      LeastDenoted(p[2..], s[1..]);
    } else if p[0] == '*' {
      if Denotes(p[1..], s) { LeastDenoted(p[1..], s); } else { LeastDenoted(p, s[1..]); }
    } else {
      LeastDenoted(p[1..], s[1..]);
    }
  }

  lemma {:induction false} SampleSmall(p: string)
    ensures |Sample(p)| <= Least(p)
    decreases |p|
  {
    if p == [] {
    } else if p[0] == '\'' {
      BlurredLength(Inside(p));
      SampleSmall(Behind(p));
    } else if p[0] == '\\' && |p| > 1 {
      SampleSmall(p[2..]);
    } else {
      SampleSmall(p[1..]);
    }
  }

  lemma {:induction false} SampleRefused(p: string)
    requires Simple(p) && !Keeps(p)
    ensures !Denotes(p, Sample(p))
    decreases |p|, 1
  {
    hide Inside, Behind, Closed;
    if p[0] == '\'' {
      var t, rest := Inside(p), Behind(p);
      if '.' !in t { SampleRefused(rest); }
      RefusedQuoted(t, rest, Sample(rest));
    } else if p[0] == '\\' {
      RefusedEscape(p);
    } else if p[0] == '*' {
      var s := Sample(p);
      SampleRefused(p[1..]);
      SampleSmall(p[1..]);
      if s != [] && Denotes(p, s[1..]) { LeastDenoted(p, s[1..]); }
    } else if p[0] != '.' {
      assert Sample(p)[1..] == Sample(p[1..]);
      SampleRefused(p[1..]);
    }
  }

  lemma {:induction false} RefusedEscape(p: string)
    requires Simple(p) && !Keeps(p) && p[0] == '\\'
    ensures !Denotes(p, Sample(p))
    decreases |p|, 0
  {
    Escape(p);
    var s, rest := Sample(p), p[2..];
    if p[1] == '*' || StarredParen(p) {
      assert s == [] + Sample(rest) == Sample(rest);
      SampleSmall(rest);
      if s != [] && Denotes(rest, s[1..]) { LeastDenoted(rest, s[1..]); }
    } else if p[1] != '?' {
      assert s[1..] == Sample(rest);
      SampleRefused(rest);
    }
  }

  lemma RefusedQuoted(t: string, rest: string, more: string)
    requires '.' in t || !Denotes(rest, more)
    ensures var s := Blurred(t) + more; !(t <= s && Denotes(rest, s[|t|..]))
  {
    hide Denotes;
    BlurredLength(t);
    hide Blurred;
    var s := Blurred(t) + more;
    assert s[..|t|] == Blurred(t) && s[|t|..] == more;
  }

  ghost predicate SameMeaning(p: string) { forall s :: Accepts(Translate(p, '\0'), s) <==> Denotes(p, s) }

  /** The translation keeps the meaning of such a pattern exactly when it has no dot without a
      backslash, quoted or not, no backslash before a star or a question mark, and no star right
      after an escaped closing parenthesis. */
  lemma MeaningKept(p: string)
    requires Simple(p)
    ensures SameMeaning(p) <==> Keeps(p)
  {
    if Keeps(p) {
      forall s ensures Accepts(Translate(p, '\0'), s) <==> Denotes(p, s) {
        TranslateMeans(p, '\0', s);
      }
    } else {
      SampleAccepted(p, '\0');
      SampleRefused(p);
    }
  }

  lemma TwoAtoms(a: char, c: char)
    ensures Accepts([], []) && !Accepts([], [a])
    ensures Denotes([], []) && !Denotes([], [a])
    ensures [a, c][1..] == [c] && [c][1..] == [] && [a, c][2..] == []
  {}

  /** A dot takes any character: `a.` accepts `ab`, which the pattern does not stand for. */
  lemma DotTakesAny()
    ensures Accepts(Translate("a.", '\0'), "ab") && !Denotes("a.", "ab")
  {
    TwoAtoms('a', '.');
    TwoAtoms('a', 'b');
    assert Translate(['.'], 'a') == ['.'] + Translate([], '.') == ['.'];
    assert Translate(['a', '.'], '\0') == ['a'] + ['.'] == ['a', '.'];
    assert Accepts(['.'], ['b']);
    assert Accepts(['a', '.'], ['a', 'b']);
    assert !Denotes(['.'], ['b']);
  }

  /** A backslash before a star is lost: the expression is one for runs of dots, and does not
      accept the star. */
  lemma EscapedStar()
    ensures Translate("\\*", '\0') == "\\.*"
    ensures Accepts("\\.*", []) && !Denotes("\\*", []) && Denotes("\\*", "*") && !Accepts("\\.*", "*")
  {
    TwoAtoms('\\', '*');
    assert Translate(['*'], '\\') == ['.', '*'] + Translate([], '*') == ['.', '*'];
    assert ['\\', '*'][1..] == ['*'];
    assert Translate(['\\', '*'], '\0') == ['\\'] + ['.', '*'];
    assert ['\\', '.', '*'][3..] == [];
    assert ['*'][1..] == [];
  }

  /* ----- the whole-string test ----- */

  // The expression accepts the part of str from so to eo.
  predicate AcceptsPart(r: string, str: string, so: int, eo: int) {
    0 <= so <= eo <= |str| && Accepts(r, str[so..eo])
  }

  // What regexec reports: the leftmost part it accepts, and the longest of those.
  ghost predicate Reported(r: string, str: string, so: int, eo: int) {
    && AcceptsPart(r, str, so, eo)
    && forall a, b :: AcceptsPart(r, str, a, b) ==> so < a || (so == a && b <= eo)
  }

  /** The string as a whole is accepted exactly when the part that is reported begins and ends
      with it; and when nothing is reported it is not. */
  lemma WholeMatch(r: string, str: string)
    ensures forall so, eo :: Reported(r, str, so, eo) ==> (Accepts(r, str) <==> so == 0 && eo == |str|)
    ensures (forall so, eo :: !AcceptsPart(r, str, so, eo)) ==> !Accepts(r, str)
  {
    assert str[0..|str|] == str;
    assert AcceptsPart(r, str, 0, |str|) <==> Accepts(r, str);
  }

  /** match_pattern: for a pattern whose meaning is kept, the test on the part that regexec
      reports says exactly whether the pattern stands for the string; and a string it stands for
      is never reported as no match. */
  lemma ReportedMeans(p: string, s: string)
    requires Simple(p) && Keeps(p)
    ensures forall so, eo :: Reported(Translate(p, '\0'), s, so, eo) ==> (so == 0 && eo == |s| <==> Denotes(p, s))
    ensures (forall so, eo :: !AcceptsPart(Translate(p, '\0'), s, so, eo)) ==> !Denotes(p, s)
  {
    WholeMatch(Translate(p, '\0'), s);
    TranslateMeans(p, '\0', s);
  }
}
