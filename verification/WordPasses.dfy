/** The passes over an expanded word together: quote_val, field_split and remove_quotes against
    field splitting of the raw text. */
module WordPasses {
  import opened Basics
  import opened FieldSplitting
  import opened Quoting
  import opened QuoteRemoval

  function EscapeAll(fs: seq<string>, sq: bool): seq<string> {
    if fs == [] then [] else [Escape(fs[0], sq)] + EscapeAll(fs[1..], sq)
  }

  /** An IFS without the characters that quote_val escapes: an escaped character splits nothing. */
  function Effective(f: Ifs, sq: bool): Ifs { f.(delim := Unescaped(f.delim, sq)) }

  function Unescaped(s: string, sq: bool): (r: string)
    ensures forall c :: c in r <==> c in s && !Special(c, sq)
  {
    if s == [] then [] else (if Special(s[0], sq) then [] else [s[0]]) + Unescaped(s[1..], sq)
  }

  // The white space of an IFS is white space.
  predicate Proper(f: Ifs) { forall c :: c in f.space ==> IsSpace(c) }

  /* ----- escaping and the splitting helpers ----- */

  lemma EscapeHead(v: string, sq: bool)
    requires v != []
    ensures Escape(v, sq) == EscapeChar(v[0], sq) + Escape(v[1..], sq)
    ensures Escape(v, sq) != []
    ensures !Special(v[0], sq) ==> Escape(v, sq)[0] == v[0] && Escape(v, sq)[1..] == Escape(v[1..], sq)
    ensures Special(v[0], sq) ==> Escape(v, sq)[0] == '\\' && Escape(v, sq)[..2] == ['\\', v[0]]
                                  && Escape(v, sq)[2..] == Escape(v[1..], sq)
  {
  }

  /** IFS has no backslash: a delimiter scan would otherwise take the escapes apart. */
  predicate Usable(f: Ifs) { Proper(f) && '\\' !in f.delim }

  lemma {:induction false} SkipSpacesEscaped(v: string, f: Ifs, sq: bool)
    requires Usable(f)
    ensures SkipSpaces(Escape(v, sq), f) == Escape(SkipSpaces(v, f), sq)
  {
    if v == [] {
    } else {
      EscapeHead(v, sq);
      hide Escape;
      assert Escape(v, sq)[0] in f.space <==> v[0] in f.space;
      if v[0] in f.space { SkipSpacesEscaped(v[1..], f, sq); }
    }
  }

  lemma {:induction false} SkipSpacesEffective(v: string, f: Ifs, sq: bool)
    ensures SkipSpaces(v, Effective(f, sq)) == SkipSpaces(v, f)
  {
    if v != [] { SkipSpacesEffective(v[1..], f, sq); }
  }

  // The part of skip_IFS_delim after the first run of white space.
  function SkipOne(a: string, f: Ifs): string { if a != [] && a[0] in f.delim then a[1..] else a }

  lemma SkipOneEscaped(a: string, f: Ifs, sq: bool)
    requires Usable(f)
    ensures SkipOne(Escape(a, sq), f) == Escape(SkipOne(a, Effective(f, sq)), sq)
  {
    if a != [] { EscapeHead(a, sq); }
  }

  lemma SkipDelimEscaped(v: string, f: Ifs, sq: bool)
    requires Usable(f)
    ensures SkipDelim(Escape(v, sq), f) == Escape(SkipDelim(v, Effective(f, sq)), sq)
  {
    hide Escape, SkipSpaces;
    var g := Effective(f, sq);
    SkipSpacesEscaped(v, f, sq);
    SkipSpacesEffective(v, f, sq);
    var a := SkipSpaces(v, f);
    SkipOneEscaped(a, f, sq);
    SkipSpacesEscaped(SkipOne(a, g), f, sq);
    SkipSpacesEffective(SkipOne(a, g), f, sq);
  }

  /* ----- escaped text is split like plain text ----- */

  lemma EscapeSnoc(cur: string, c: char, sq: bool)
    ensures Escape(cur + [c], sq) == Escape(cur, sq) + EscapeChar(c, sq)
  {
    EscapeAppend(cur, [c], sq);
    assert Escape([c], sq) == EscapeChar(c, sq) + Escape([], sq);
  }

  /** What the loop of field_split does with the next character of escaped text. */
  lemma EscapedStep(cur: string, rest: string, f: Ifs, sq: bool)
    requires Usable(f) && rest != [] && (sq || rest[0] != '\'')
    requires Special(rest[0], sq) || !f.Has(rest[0])
    ensures QuotedFields(Escape(cur, sq), Escape(rest, sq), NONE, f) ==
            QuotedFields(Escape(cur + [rest[0]], sq), Escape(rest[1..], sq), NONE, f)
  {
    EscapeHead(rest, sq);
    EscapeSnoc(cur, rest[0], sq);
    hide Escape;
    var e := Escape(rest, sq);
    if Special(rest[0], sq) { assert |e| > 1; }
  }

  lemma EscapedDelim(cur: string, rest: string, f: Ifs, sq: bool)
    requires Usable(f) && rest != [] && (sq || rest[0] != '\'')
    requires !Special(rest[0], sq) && f.Has(rest[0])
    ensures var next := SkipDelim(rest, Effective(f, sq));
            QuotedFields(Escape(cur, sq), Escape(rest, sq), NONE, f) ==
            [Escape(cur, sq)] + if next == [] then [] else QuotedFields(Escape([], sq), Escape(next, sq), NONE, f)
  {
    EscapeHead(rest, sq);
    SkipDelimEscaped(rest, f, sq);
    var next := SkipDelim(rest, Effective(f, sq));
    if next != [] { EscapeHead(next, sq); }
    assert Escape([], sq) == [];
  }

  lemma {:induction false} FieldsEscaped(cur: string, rest: string, f: Ifs, sq: bool)
    requires Usable(f) && (sq || '\'' !in rest)
    ensures QuotedFields(Escape(cur, sq), Escape(rest, sq), NONE, f) ==
            EscapeAll(PlainFields(cur, rest, Effective(f, sq)), sq)
    decreases |rest|
  {
    var g := Effective(f, sq);
    if rest == [] {
    } else if g.Has(rest[0]) {
      EscapedDelim(cur, rest, f, sq);
      var next := SkipDelim(rest, g);
      if next != [] {
        assert '\'' in next ==> '\'' in rest;
        FieldsEscaped([], next, f, sq);
      }
    } else {
      EscapedStep(cur, rest, f, sq);
      FieldsEscaped(cur + [rest[0]], rest[1..], f, sq);
    }
  }

  /* ----- quote removal undoes escaping ----- */

  lemma {:induction false} UnquoteEscaped(v: string, sq: bool)
    requires sq || '\'' !in v
    ensures Unquote(Escape(v, sq), false).text == v && !Unquote(Escape(v, sq), false).inDouble
  {
    if v != [] {
      EscapeHead(v, sq);
      UnquoteEscaped(v[1..], sq);
      var e := Escape(v[1..], sq);
      if Special(v[0], sq) {
        UnquoteBackslash(v[0], e, false);
        assert Escape(v, sq) == ['\\', v[0]] + e;
      } else {
        assert Escape(v, sq) == [v[0]] + e;
      }
    }
  }

  lemma {:induction false} UnquoteAllEscaped(fs: seq<string>, sq: bool)
    requires sq || forall f :: f in fs ==> '\'' !in f
    ensures UnquoteAll(EscapeAll(fs, sq), false) == fs
  {
    if fs != [] {
      UnquoteEscaped(fs[0], sq);
      UnquoteAllEscaped(fs[1..], sq);
    }
  }

  /* ----- unquoted expansions ----- */

  /** A word that is just an unquoted expansion with value v: quoted by substitute_word (with
      single quotes escaped for a command substitution), split, and rid of its quotes. */
  function Pipeline(v: string, ifs: Option<string>, sq: bool): seq<string> {
    var q := Quoted(v, false, sq);
    UnquoteAll(Words(q, ifs), false)
  }

  // The word itself where field_split returns NULL.
  function Words(q: string, ifs: Option<string>): seq<string> {
    var r := FieldSplit(q, ifs);
    if r.None? then [q] else r.value
  }

  predicate Blank(v: string, f: Ifs) { SkipSpaces(v, f) == [] }

  lemma ClassifyUsable(ifs: string)
    requires '\\' !in ifs
    ensures Usable(Classify(ifs))
  {
    forall c | c in Classify(ifs).space ensures IsSpace(c) { ClassifyHas(ifs, c); }
    ClassifyHas(ifs, '\\');
  }

  lemma {:induction false} PlainFieldsFrom(cur: string, rest: string, f: Ifs, c: char)
    requires c !in cur && c !in rest
    ensures forall w :: w in PlainFields(cur, rest, f) ==> c !in w
    decreases |rest|
  {
    if rest != [] {
      if f.Has(rest[0]) {
        if SkipDelim(rest, f) != [] { PlainFieldsFrom([], SkipDelim(rest, f), f, c); }
      } else {
        PlainFieldsFrom(cur + [rest[0]], rest[1..], f, c);
      }
    }
  }

  lemma WordsEscaped(v: string, ifs: Option<string>, sq: bool)
    requires IfsOf(ifs) != "" && '\\' !in IfsOf(ifs) && (sq || '\'' !in v)
    ensures var f := Classify(IfsOf(ifs));
            Words(Escape(v, sq), ifs) == EscapeAll(PlainFields([], SkipSpaces(v, f), Effective(f, sq)), sq)
  {
    hide QuotedFields, PlainFields, SkipSpaces, Classify, Escape, EscapeAll, Effective;
    var f := Classify(IfsOf(ifs));
    ClassifyUsable(IfsOf(ifs));
    SkipSpacesEscaped(v, f, sq);
    var t := SkipSpaces(v, f);
    assert '\'' in t ==> '\'' in v;
    FieldsEscaped([], t, f, sq);
    EscapeNone(sq);
    EscapeAllSome(PlainFields([], t, Effective(f, sq)), sq);
  }

  lemma EscapeNone(sq: bool)
    ensures Escape([], sq) == []
  {
  }

  lemma EscapeAllSome(fs: seq<string>, sq: bool)
    requires fs != []
    ensures EscapeAll(fs, sq) != []
  {
  }

  /** For every value and every IFS without a backslash, the passes give the fields of section
      2.6.5 of the raw value, in order and unaltered, where only the characters of IFS that
      quote_val does not escape split. A value of nothing but IFS white space gives one empty
      field instead of none. */
  lemma UnquotedSplit(v: string, ifs: Option<string>, sq: bool)
    requires IfsOf(ifs) != "" && '\\' !in IfsOf(ifs)
    requires sq || '\'' !in v
    ensures var f := Classify(IfsOf(ifs));
            Pipeline(v, ifs, sq) == if Blank(v, f) then [""] else PlainSplit(v, Effective(f, sq))
  {
    hide QuotedFields, PlainFields, Escape, Unquote, UnquoteAll, SkipSpaces;
    var f := Classify(IfsOf(ifs));
    var g := Effective(f, sq);
    WordsEscaped(v, ifs, sq);
    SkipSpacesEffective(v, f, sq);
    var t := SkipSpaces(v, f);
    var fields := PlainFields([], t, g);
    if !sq {
      assert '\'' !in t;
      PlainFieldsFrom([], t, g, '\'');
    }
    UnquoteAllEscaped(fields, sq);
    if t == [] { PlainEmpty(g); }
  }

  lemma PlainEmpty(f: Ifs)
    ensures PlainFields([], [], f) == [""]
  {
  }

  /* ----- when that is the splitting of section 2.6.5 itself ----- */

  // The text without its IFS characters: what the fields must add up to.
  function Without(v: string, f: Ifs): string {
    if v == [] then [] else (if f.Has(v[0]) then [] else [v[0]]) + Without(v[1..], f)
  }

  function Concat(ws: seq<string>): string { if ws == [] then [] else ws[0] + Concat(ws[1..]) }

  lemma {:induction false} WithoutSpaces(v: string, f: Ifs)
    ensures Without(SkipSpaces(v, f), f) == Without(v, f)
  {
    if v != [] && v[0] in f.space { WithoutSpaces(v[1..], f); }
  }

  lemma WithoutDelim(v: string, f: Ifs)
    ensures Without(SkipDelim(v, f), f) == Without(v, f)
  {
    hide SkipSpaces;
    WithoutSpaces(v, f);
    var a := SkipSpaces(v, f);
    assert Without(SkipOne(a, f), f) == Without(a, f);
    WithoutSpaces(SkipOne(a, f), f);
  }

  lemma ConcatCons(w: string, ws: seq<string>)
    ensures Concat([w] + ws) == w + Concat(ws)
  {
    assert ([w] + ws)[1..] == ws;
  }

  lemma {:induction false} ConcatFields(cur: string, rest: string, f: Ifs)
    ensures Concat(PlainFields(cur, rest, f)) == cur + Without(rest, f)
    decreases |rest|
  {
    hide Concat, SkipDelim;
    assert Concat([]) == [] by { ConcatNone(); }
    ConcatCons(cur, []);
    assert [cur] + [] == [cur];
    if rest != [] {
      if f.Has(rest[0]) {
        WithoutDelim(rest, f);
        var next := SkipDelim(rest, f);
        if next != [] {
          ConcatFields([], next, f);
          ConcatCons(cur, PlainFields([], next, f));
        }
      } else {
        ConcatFields(cur + [rest[0]], rest[1..], f);
      }
    }
  }

  lemma ConcatNone()
    ensures Concat([]) == []
  {
  }

  /** Splitting loses and reorders nothing but the IFS characters. */
  lemma ConcatSplit(v: string, f: Ifs)
    ensures Concat(PlainSplit(v, f)) == Without(v, f)
  {
    WithoutSpaces(v, f);
    ConcatFields([], SkipSpaces(v, f), f);
  }

  // No character of v is both in IFS and escaped by quote_val.
  predicate Clear(v: string, f: Ifs, sq: bool) {
    forall c :: c in v ==> !(c in f.delim && (c in "\\$`\"" || (sq && c == '\'')))
  }

  lemma {:induction false} ClearFields(cur: string, rest: string, f: Ifs, sq: bool)
    requires Clear(rest, f, sq)
    ensures PlainFields(cur, rest, Effective(f, sq)) == PlainFields(cur, rest, f)
    decreases |rest|
  {
    var g := Effective(f, sq);
    if rest != [] {
      assert rest[0] in rest;
      if f.Has(rest[0]) {
        ClearDelim(rest, f, sq);
        if SkipDelim(rest, f) != [] { ClearFields([], SkipDelim(rest, f), f, sq); }
      } else {
        ClearFields(cur + [rest[0]], rest[1..], f, sq);
      }
    }
  }

  lemma ClearDelim(v: string, f: Ifs, sq: bool)
    requires Clear(v, f, sq)
    ensures SkipDelim(v, Effective(f, sq)) == SkipDelim(v, f)
  {
    hide *;
    var a := SkipSpaces(v, f);
    ClearHead(v, a, f, sq);
    SkipDelimIs(v, f);
    SkipDelimIs(v, Effective(f, sq));
    SkipSpacesEffective(v, f, sq);
    SkipSpacesEffective(SkipOne(a, f), f, sq);
  }

  lemma SkipDelimIs(v: string, f: Ifs)
    ensures SkipDelim(v, f) == SkipSpaces(SkipOne(SkipSpaces(v, f), f), f)
  {
    hide SkipSpaces;
  }

  lemma ClearHead(v: string, a: string, f: Ifs, sq: bool)
    requires Clear(v, f, sq) && |a| <= |v| && a == v[|v| - |a|..]
    ensures SkipOne(a, Effective(f, sq)) == SkipOne(a, f)
  {
    if a != [] { assert a[0] in v; }
  }

  lemma {:induction false} WithoutLess(v: string, f: Ifs, sq: bool)
    requires Proper(f)
    ensures |Without(v, f)| <= |Without(v, Effective(f, sq))|
    ensures !Clear(v, f, sq) ==> |Without(v, f)| < |Without(v, Effective(f, sq))|
  {
    if v != [] {
      WithoutLess(v[1..], f, sq);
      assert Clear(v[1..], f, sq) && !(v[0] in f.delim && Special(v[0], sq)) ==> Clear(v, f, sq);
    }
  }

  /** When no single quote can start a quotation, the passes give what section 2.6.5 asks for if
      and only if the value is not blank and none of its characters is an IFS character that
      quote_val escapes. */
  lemma EscapedExact(v: string, ifs: Option<string>, sq: bool)
    requires IfsOf(ifs) != "" && '\\' !in IfsOf(ifs) && (sq || '\'' !in v)
    ensures var f := Classify(IfsOf(ifs));
            Pipeline(v, ifs, sq) == PlainSplit(v, f) <==> !Blank(v, f) && Clear(v, f, sq)
  {
    hide Pipeline, PlainFields, SkipSpaces, Classify, Clear, Effective, Concat, Without;
    var f := Classify(IfsOf(ifs));
    UnquotedSplit(v, ifs, sq);
    var t := SkipSpaces(v, f);
    SkipSpacesEffective(v, f, sq);
    if t == [] {
      assert [""] != [];
    } else if Clear(v, f, sq) {
      ClearSuffix(v, t, f, sq);
      ClearFields([], t, f, sq);
    } else {
      ClassifyUsable(IfsOf(ifs));
      ConcatSplit(v, f);
      ConcatSplit(v, Effective(f, sq));
      WithoutLess(v, f, sq);
    }
  }

  /** A command substitution outside double quotes is split exactly as section 2.6.5 splits its
      output if and only if the output is not blank and none of its characters is an IFS
      character that quote_val escapes. */
  lemma SubstitutionExact(v: string, ifs: Option<string>)
    requires IfsOf(ifs) != "" && '\\' !in IfsOf(ifs)
    ensures var f := Classify(IfsOf(ifs));
            Pipeline(v, ifs, true) == PlainSplit(v, f) <==> !Blank(v, f) && Clear(v, f, true)
  {
    hide Pipeline, PlainSplit, Blank, Clear, Classify;
    EscapedExact(v, ifs, true);
  }

  lemma ClearSuffix(v: string, t: string, f: Ifs, sq: bool)
    requires Clear(v, f, sq) && |t| <= |v| && t == v[|v| - |t|..]
    ensures Clear(t, f, sq)
  {
  }

  /* ----- where the passes go wrong ----- */

  lemma PlainWord(v: string, f: Ifs)
    requires v != [] && forall c :: c in v ==> !f.Has(c)
    ensures PlainSplit(v, f) == [v]
  {
    assert v[0] in v;
    assert SkipSpaces(v, f) == v;
    PlainWordFrom([], v, f);
    assert [] + v == v;
  }

  lemma {:induction false} PlainWordFrom(cur: string, rest: string, f: Ifs)
    requires forall c :: c in rest ==> !f.Has(c)
    ensures PlainFields(cur, rest, f) == [cur + rest]
    decreases |rest|
  {
    if rest != [] {
      assert rest[0] in rest;
      PlainWordFrom(cur + [rest[0]], rest[1..], f);
      assert cur + [rest[0]] + rest[1..] == cur + rest;
    } else {
      assert cur + rest == cur;
    }
  }

  lemma SplitLosesApostrophe(f: Ifs)
    requires !f.Has('x') && 'x' !in f.space
    ensures QuotedFields([], SkipSpaces("x'y", f), NONE, f) == []
  {
    var v := "x'y";
    assert SkipSpaces(v, f) == v;
    assert v[1..] == "'y" && "'y"[1..] == "y" && "y"[1..] == "";
    assert NextSingle("y") == 1;
    assert QuotedFields("x", "'y", NONE, f) == [];
    assert QuotedFields([], v, NONE, f) == QuotedFields([] + ['x'], "'y", NONE, f);
  }

  lemma UnquoteApostrophe()
    ensures Unquote("x'y", false).text == "xy"
  {
    assert "x'y"[1..] == "'y" && "'y"[1..] == "y" && "y"[1..] == "";
    assert NextSingle("y") == 1 && AfterSingle("y") == "";
    assert Unquote("", false).text == "";
    assert Unquote("'y", false).text == "y"[..1] + "";
  }

  lemma {:induction false} EscapeOrdinary(v: string, sq: bool)
    requires forall c :: c in v ==> !Special(c, sq)
    ensures Escape(v, sq) == v
  {
    if v != [] {
      assert v[0] in v;
      EscapeOrdinary(v[1..], sq);
    }
  }

  /** A substitution that gives one blank makes one empty field, not none. */
  lemma BlankSubstitution()
    ensures Pipeline(" ", None, true) == [""]
    ensures PlainSplit(" ", Classify(" \t\n")) == []
  {
    StandardIfs();
    var f := Ifs(" \t\n", "");
    assert " "[1..] == [];
    assert SkipSpaces(" ", f) == SkipSpaces([], f) == [];
    UnquotedSplit(" ", None, true);
    hide Pipeline, SkipSpaces, Classify;
  }

  // An IFS without white space: there is none to skip.
  lemma SkipNothing(v: string, d: string)
    ensures SkipSpaces(v, Ifs("", d)) == v
    ensures SkipDelim(v, Ifs("", d)) == SkipOne(v, Ifs("", d))
  {}

  lemma OneDelim(d: char)
    requires !IsSpace(d)
    ensures Classify([d]) == Ifs("", [d])
    ensures Special(d, true) ==> Effective(Ifs("", [d]), true) == Ifs("", "")
  {
    assert [d][1..] == [];
    assert Spaces([]) == [] && Delims([]) == [];
    assert Delims([d]) == [d] + [] == [d];
    if Special(d, true) { assert Unescaped([d], true) == Unescaped([], true) == []; }
  }

  lemma NeverSplit(v: string)
    requires v != []
    ensures PlainSplit(v, Ifs("", "")) == [v]
  {
    var f := Ifs("", "");
    assert forall c :: !f.Has(c);
    hide PlainSplit, SkipSpaces;
    PlainWord(v, f);
  }

  /** A delimiter that quote_val escapes splits no output, although IFS is nothing else. */
  lemma EscapedDelimiter(v: string, d: char)
    requires d in v && d in "`$\"'"
    ensures Pipeline(v, Some([d]), true) == [v]
    ensures PlainSplit(v, Classify([d])) != [v]
  {
    SpecialDelim(v, d);
    OneDelim(d);
    NeverSplit(v);
    SkipNothing(v, [d]);
    hide *;
    UnquotedSplit(v, Some([d]), true);
    SubstitutionExact(v, Some([d]));
    BlankIs(v, Ifs("", [d]));
    BlankIs(v, Ifs("", ""));
  }

  lemma BlankIs(v: string, f: Ifs)
    ensures Blank(v, f) <==> SkipSpaces(v, f) == []
  {}

  lemma SpecialDelim(v: string, d: char)
    requires d in v && d in "`$\"'"
    ensures !IsSpace(d) && Special(d, true) && d != '\\' && v != [] && !Clear(v, Ifs("", [d]), true)
    ensures IfsOf(Some([d])) == [d] && '\\' !in [d]
  {}

  /** So `a$b` is one field with the dollar sign as IFS. */
  lemma DollarSubstitution()
    ensures Pipeline("a$b", Some(['$']), true) == ["a$b"]
    ensures PlainSplit("a$b", Classify(['$'])) != ["a$b"]
  {
    var v := "a$b";
    assert v[1] == '$';
    hide Pipeline, PlainSplit, Classify;
    EscapedDelimiter(v, '$');
  }

  /** A variable expanded without quotes keeps its single quotes unescaped, and quote removal
      takes them away. */
  lemma VariableLosesSingleQuotes()
    ensures Pipeline("x'y", None, false) == ["xy"]
    ensures PlainSplit("x'y", Classify(" \t\n")) == ["x'y"]
  {
    var v := "x'y";
    EscapeOrdinary(v, false);
    UnquoteApostrophe();
    PlainWord(v, Ifs(" \t\n", ""));
    hide *;
    StandardIfs();
    ApostropheWord();
    OneWord(v, None);
  }

  // A word that is not changed by quoting and not split.
  lemma OneWord(v: string, ifs: Option<string>)
    requires Escape(v, false) == v && Words(v, ifs) == [v]
    ensures Pipeline(v, ifs, false) == [Unquote(v, false).text]
  {
    hide Unquote, Escape, Words;
    assert Quoted(v, false, false) == v;
    var t := Unquote(v, false);
    assert [v][1..] == [] && UnquoteAll([], t.inDouble) == [];
    assert UnquoteAll([v], false) == [t.text] + UnquoteAll([], t.inDouble);
  }

  lemma ApostropheWord()
    ensures Words("x'y", None) == ["x'y"]
  {
    StandardIfs();
    SplitLosesApostrophe(Ifs(" \t\n", ""));
    NotSplit("x'y", None, Ifs(" \t\n", ""));
  }

  // Where the loop makes no field the word stays as it is.
  lemma NotSplit(q: string, ifs: Option<string>, f: Ifs)
    requires IfsOf(ifs) != "" && Classify(IfsOf(ifs)) == f && QuotedFields([], SkipSpaces(q, f), NONE, f) == []
    ensures Words(q, ifs) == [q]
  {
    hide QuotedFields, SkipSpaces, Classify, IfsOf;
  }
}
