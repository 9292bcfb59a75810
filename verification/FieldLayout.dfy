/** Field splitting against a description of the text: fields and the separators between them, as
    section 2.6.5 of the Shell Command Language of POSIX.1-2017 words them; and quotations, which
    are taken whole. */
module FieldLayout {
  import opened Basics
  import opened FieldSplitting

  /* ----- what the text is made of ----- */

  // IFS white space.
  predicate White(ifs: string, s: string) { forall i :: 0 <= i < |s| ==> s[i] in ifs && IsSpace(s[i]) }

  // Any other character of IFS, with IFS white space on either side.
  predicate Marked(ifs: string, s: string) {
    exists i :: 0 <= i < |s| && s[i] in ifs && !IsSpace(s[i]) && White(ifs, s[..i]) && White(ifs, s[i + 1..])
  }

  predicate Separator(ifs: string, s: string) { (s != [] && White(ifs, s)) || Marked(ifs, s) }

  predicate Plain(ifs: string, s: string) { forall i :: 0 <= i < |s| ==> s[i] !in ifs }

  // The fields, each followed by its separator.
  function Joined(fields: seq<string>, seps: seq<string>): string
    requires |fields| == |seps|
  {
    if fields == [] then [] else fields[0] + seps[0] + Joined(fields[1..], seps[1..])
  }

  /** Fields without IFS characters; after each but the last a separator, after the last one or
      none; an empty field only between two separators with a character that is no white space,
      or before the first. open tells that such a separator, or the start, stands in front. */
  predicate Laid(ifs: string, fields: seq<string>, seps: seq<string>, open: bool)
    requires |fields| == |seps|
  {
    fields == [] ||
    (&& Plain(ifs, fields[0])
     && (Separator(ifs, seps[0]) || (|fields| == 1 && seps[0] == []))
     && (fields[0] == [] ==> open && Marked(ifs, seps[0]))
     && Laid(ifs, fields[1..], seps[1..], Marked(ifs, seps[0])))
  }

  /* ----- the scan passes them ----- */

  lemma ClassifySplit(ifs: string, c: char)
    ensures var f := Classify(ifs);
            && (c in f.space <==> c in ifs && IsSpace(c)) && (c in f.delim <==> c in ifs && !IsSpace(c))
            && (f.Has(c) <==> c in ifs)
  {
    ClassifyHas(ifs, c);
  }

  lemma {:induction false} SkipWhite(ifs: string, a: string, b: string)
    requires White(ifs, a)
    ensures SkipSpaces(a + b, Classify(ifs)) == SkipSpaces(b, Classify(ifs))
  {
    if a == [] {
      assert a + b == b;
    } else {
      hide Classify;
      ClassifySplit(ifs, a[0]);
      assert (a + b)[1..] == a[1..] + b;
      SkipWhite(ifs, a[1..], b);
    }
  }

  lemma SkipAt(ifs: string, b: string)
    requires b == [] || !(b[0] in ifs && IsSpace(b[0]))
    ensures SkipSpaces(b, Classify(ifs)) == b
  {
    if b != [] { ClassifySplit(ifs, b[0]); }
  }

  lemma MarkedParts(ifs: string, s: string) returns (u: string, d: char, v: string)
    requires Marked(ifs, s)
    ensures s == u + ([d] + v) && White(ifs, u) && White(ifs, v) && d in ifs && !IsSpace(d)
  {
    var i :| 0 <= i < |s| && s[i] in ifs && !IsSpace(s[i]) && White(ifs, s[..i]) && White(ifs, s[i + 1..]);
    u, d, v := s[..i], s[i], s[i + 1..];
  }

  // The white space in front of the other character is passed first, and then that behind it.
  lemma SkipParts(ifs: string, u: string, d: char, v: string, b: string)
    requires White(ifs, u) && White(ifs, v) && d in ifs && !IsSpace(d)
    ensures SkipSpaces(u + ([d] + (v + b)), Classify(ifs)) == [d] + (v + b)
    ensures SkipDelim(u + ([d] + (v + b)), Classify(ifs)) == SkipSpaces(b, Classify(ifs))
  {
    var m := [d] + (v + b);
    assert m[1..] == v + b;
    ClassifySplit(ifs, d);
    hide Classify, SkipSpaces;
    SkipWhite(ifs, u, m);
    SkipAt(ifs, m);
    SkipWhite(ifs, v, b);
  }

  lemma PartsOf(u: string, d: char, v: string, b: string)
    ensures u + ([d] + v) + b == u + ([d] + (v + b))
  {}

  // A separator with a character that is no white space takes the white space behind it as well.
  lemma SkipMarked(ifs: string, s: string, b: string)
    requires Marked(ifs, s)
    ensures SkipDelim(s + b, Classify(ifs)) == SkipSpaces(b, Classify(ifs))
  {
    hide SkipDelim, SkipSpaces, Classify;
    var u, d, v := MarkedParts(ifs, s);
    PartsOf(u, d, v, b);
    SkipParts(ifs, u, d, v, b);
  }

  // White space alone ends at the next field.
  lemma SkipUnmarked(ifs: string, s: string, b: string)
    requires White(ifs, s) && (b == [] || b[0] !in ifs)
    ensures SkipDelim(s + b, Classify(ifs)) == b == SkipSpaces(b, Classify(ifs))
  {
    var f := Classify(ifs);
    if b != [] { ClassifySplit(ifs, b[0]); }
    hide Classify;
    SkipWhite(ifs, s, b);
    SkipAt(ifs, b);
  }

  lemma {:induction false} WalkPlain(ifs: string, cur: string, a: string, rest: string)
    requires Plain(ifs, a)
    ensures PlainFields(cur, a + rest, Classify(ifs)) == PlainFields(cur + a, rest, Classify(ifs))
    decreases |a|
  {
    if a == [] {
      assert a + rest == rest && cur + a == cur;
    } else {
      ClassifySplit(ifs, a[0]);
      hide Classify;
      assert (a + rest)[1..] == a[1..] + rest && (cur + [a[0]]) + a[1..] == cur + a;
      WalkPlain(ifs, cur + [a[0]], a[1..], rest);
    }
  }

  lemma SeparatorHead(ifs: string, s: string)
    requires Separator(ifs, s)
    ensures s != [] && s[0] in ifs
  {
    if Marked(ifs, s) {
      var i :| 0 <= i < |s| && s[i] in ifs && !IsSpace(s[i]) && White(ifs, s[..i]) && White(ifs, s[i + 1..]);
      if i > 0 { assert s[0] == s[..i][0]; }
    }
  }

  // Behind a separator the scan is at the next field, or at the white space that leads to it.
  lemma NextIs(ifs: string, s: string, b: string)
    requires Separator(ifs, s) && (Marked(ifs, s) || b == [] || b[0] !in ifs)
    ensures SkipDelim(s + b, Classify(ifs)) == SkipSpaces(b, Classify(ifs))
  {
    hide SkipDelim, SkipSpaces, Classify;
    if Marked(ifs, s) { SkipMarked(ifs, s, b); } else { SkipUnmarked(ifs, s, b); }
  }

  // An empty field: the scan passes the white space in front of the separator's other character.
  lemma EmptyField(ifs: string, s: string, b: string)
    requires Marked(ifs, s)
    ensures var f := Classify(ifs);
            var t, next := SkipSpaces(s + b, f), SkipSpaces(b, f);
            t != [] && PlainFields([], t, f) == [[]] + if next == [] then [] else PlainFields([], next, f)
  {
    hide SkipDelim, SkipSpaces, Classify, Marked;
    var u, d, v := MarkedParts(ifs, s);
    PartsOf(u, d, v, b);
    SkipParts(ifs, u, d, v, b);
    var m := [d] + (v + b);
    assert [] + m == m;
    SkipParts(ifs, [], d, v, b);
    ClassifySplit(ifs, d);
  }

  // A field that is not empty, and the separator behind it.
  lemma FieldThen(ifs: string, a: string, s: string, b: string)
    requires a != [] && Plain(ifs, a) && Separator(ifs, s) && (Marked(ifs, s) || b == [] || b[0] !in ifs)
    ensures var f := Classify(ifs);
            var t, next := SkipSpaces(a + (s + b), f), SkipSpaces(b, f);
            t != [] && PlainFields([], t, f) == [a] + if next == [] then [] else PlainFields([], next, f)
  {
    SeparatorHead(ifs, s);
    ClassifySplit(ifs, s[0]);
    hide Classify, SkipSpaces, SkipDelim, Separator, Marked;
    SkipAt(ifs, a + (s + b));
    WalkPlain(ifs, [], a, s + b);
    assert [] + a == a;
    NextIs(ifs, s, b);
  }

  lemma LastField(ifs: string, a: string)
    requires a != [] && Plain(ifs, a)
    ensures SkipSpaces(a, Classify(ifs)) == a && PlainFields([], a, Classify(ifs)) == [a]
  {
    hide Classify, SkipSpaces;
    SkipAt(ifs, a);
    WalkPlain(ifs, [], a, []);
    assert a + [] == a && [] + a == a;
  }

  lemma JoinedHead(fields: seq<string>, seps: seq<string>)
    requires |fields| == |seps| && fields != []
    ensures Joined(fields, seps) == fields[0] + (seps[0] + Joined(fields[1..], seps[1..]))
  {}

  lemma {:induction false} LaidFields(ifs: string, fields: seq<string>, seps: seq<string>, open: bool)
    requires |fields| == |seps| && fields != [] && Laid(ifs, fields, seps, open)
    ensures var t := SkipSpaces(Joined(fields, seps), Classify(ifs));
            t != [] && PlainFields([], t, Classify(ifs)) == fields
    decreases |fields|
  {
    var f := Classify(ifs);
    var a, s, rest := fields[0], seps[0], Joined(fields[1..], seps[1..]);
    JoinedHead(fields, seps);
    assert fields == [a] + fields[1..];
    if s == [] {
      NoSeparator(ifs);
      assert rest == [] && a + (s + rest) == a && fields == [a];
      LastField(ifs, a);
    } else {
      if fields[1..] != [] { LaidFields(ifs, fields[1..], seps[1..], Marked(ifs, s)); }
      RestHead(ifs, fields[1..], seps[1..], Marked(ifs, s));
      SkipAt(ifs, []);
      hide Classify, SkipSpaces, Joined, PlainFields, Marked, Separator;
      if a == [] {
        assert a + (s + rest) == s + rest;
        EmptyField(ifs, s, rest);
      } else {
        FieldThen(ifs, a, s, rest);
      }
    }
  }

  lemma NoSeparator(ifs: string)
    ensures !Separator(ifs, [])
  {}

  lemma RestHead(ifs: string, fields: seq<string>, seps: seq<string>, open: bool)
    requires |fields| == |seps| && Laid(ifs, fields, seps, open)
    ensures fields == [] ==> Joined(fields, seps) == []
    ensures fields != [] && !open ==> Joined(fields, seps) != [] && Joined(fields, seps)[0] !in ifs
  {}

  /** Field splitting gives back the fields that a text is made of, whatever IFS white space it
      begins with. */
  lemma FieldsBack(ifs: string, lead: string, fields: seq<string>, seps: seq<string>)
    requires White(ifs, lead) && |fields| == |seps| && Laid(ifs, fields, seps, true)
    ensures PlainSplit(lead + Joined(fields, seps), Classify(ifs)) == fields
  {
    hide *;
    RestHead(ifs, fields, seps, true);
    SkipWhite(ifs, lead, Joined(fields, seps));
    SkipAt(ifs, []);
    SplitFrom(lead + Joined(fields, seps), Classify(ifs));
    if fields != [] { LaidFields(ifs, fields, seps, true); }
  }

  lemma SplitFrom(v: string, f: Ifs)
    ensures var t := SkipSpaces(v, f); PlainSplit(v, f) == if t == [] then [] else PlainFields([], t, f)
  {}

  /* ----- every text has a layout ----- */

  predicate WhiteHead(ifs: string, s: string) { s != [] && s[0] in ifs && IsSpace(s[0]) }

  lemma {:induction false} LeadingWhite(ifs: string, s: string) returns (u: string, rest: string)
    ensures s == u + rest && White(ifs, u) && !WhiteHead(ifs, rest)
    ensures WhiteHead(ifs, s) ==> u != []
  {
    if WhiteHead(ifs, s) {
      u, rest := LeadingWhite(ifs, s[1..]);
      u := [s[0]] + u;
    } else {
      u, rest := [], s;
    }
  }

  lemma {:induction false} LeadingPlain(ifs: string, s: string) returns (u: string, rest: string)
    ensures s == u + rest && Plain(ifs, u) && (rest == [] || rest[0] in ifs)
    ensures s != [] && s[0] !in ifs ==> u != []
  {
    if s != [] && s[0] !in ifs {
      u, rest := LeadingPlain(ifs, s[1..]);
      u := [s[0]] + u;
    } else {
      u, rest := [], s;
    }
  }

  // A separator, as long as it can be, and what follows it.
  lemma LeadingSeparator(ifs: string, s: string) returns (sep: string, rest: string)
    requires s != [] && s[0] in ifs
    ensures s == sep + rest && Separator(ifs, sep) && sep != [] && !WhiteHead(ifs, rest)
    ensures !IsSpace(s[0]) ==> Marked(ifs, sep)
    ensures Marked(ifs, sep) || rest == [] || rest[0] !in ifs
  {
    var u, m := LeadingWhite(ifs, s);
    if m != [] && m[0] in ifs {
      var v, r := LeadingWhite(ifs, m[1..]);
      sep, rest := u + [m[0]] + v, r;
      assert sep[|u|] == m[0] && sep[..|u|] == u && sep[|u| + 1..] == v;
    } else {
      sep, rest := u, m;
    }
  }

  lemma {:induction false} LayoutFrom(ifs: string, v: string, open: bool)
    returns (fields: seq<string>, seps: seq<string>)
    requires !WhiteHead(ifs, v) && (open || v == [] || v[0] !in ifs)
    ensures |fields| == |seps| && Laid(ifs, fields, seps, open) && Joined(fields, seps) == v
    decreases |v|
  {
    if v == [] {
      fields, seps := [], [];
    } else {
      var a, r := LeadingPlain(ifs, v);
      if r == [] {
        fields, seps := [a], [[]];
        assert fields[1..] == [] && seps[1..] == [];
      } else {
        var s, rest := LeadingSeparator(ifs, r);
        if a == [] { assert r == v; }
        var fs, ss := LayoutFrom(ifs, rest, Marked(ifs, s));
        fields, seps := [a] + fs, [s] + ss;
        assert fields[1..] == fs && seps[1..] == ss;
        assert a + s + rest == v;
      }
    }
  }

  /** Every text is made of fields and separators in this way, so that splitting it gives the
      fields of any such reading of it, and there is only one sequence of them. */
  lemma EveryText(ifs: string, v: string)
    ensures exists lead, fields, seps ::
              && |fields| == |seps| && White(ifs, lead) && Laid(ifs, fields, seps, true)
              && v == lead + Joined(fields, seps) && PlainSplit(v, Classify(ifs)) == fields
  {
    var lead, t := LeadingWhite(ifs, v);
    var fields, seps := LayoutFrom(ifs, t, true);
    hide Laid, Joined, Classify, PlainSplit, White;
    FieldsBack(ifs, lead, fields, seps);
    assert v == lead + Joined(fields, seps);
  }

  /* ----- quoted text, and an unset IFS ----- */

  /** Quoted text is taken whole, IFS characters and all: within single quotes any text, within
      double and back quotes text without quotes and backslashes. */
  lemma QuotationWhole(cur: string, q: char, t: string, rest: string, f: Ifs)
    requires q in "'\"`" && q !in t && (q != '\'' ==> forall i :: 0 <= i < |t| ==> t[i] !in "'\"`\\")
    ensures QuotedFields(cur, [q] + (t + ([q] + rest)), NONE, f) == QuotedFields(cur + ([q] + t + [q]), rest, NONE, f)
  {
    var s := [q] + (t + ([q] + rest));
    assert s[1..] == t + ([q] + rest);
    if q == '\'' {
      NextQuote(t, rest);
      assert s[..|t| + 2] == [q] + t + [q] && s[|t| + 2..] == rest;
    } else {
      WithinQuotes(cur + [q], q, t, rest, f);
      assert cur + [q] + t + [q] == cur + ([q] + t + [q]);
      assert ([q] + rest)[1..] == rest;
    }
  }

  /** A quotation that is not closed, or a backslash at the end, makes no field of the text before
      it; if that is all, the word is not split. */
  lemma OpenQuotation(cur: string, q: char, t: string, f: Ifs)
    requires q in "'\"`" && q !in t && (q != '\'' ==> forall i :: 0 <= i < |t| ==> t[i] !in "'\"`\\")
    ensures QuotedFields(cur, [q] + t, NONE, f) == [] && QuotedFields(cur, ['\\'], NONE, f) == []
  {
    var s := [q] + t;
    assert s[1..] == t;
    if q == '\'' {
      NoQuote(t);
    } else {
      WithinOpen(cur + [q], q, t, f);
    }
  }

  lemma {:induction false} NoQuote(t: string)
    requires '\'' !in t
    ensures NextSingle(t) == |t|
  {
    if t != [] { NoQuote(t[1..]); }
  }

  lemma {:induction false} WithinOpen(cur: string, q: char, t: string, f: Ifs)
    requires q in "\"`" && forall i :: 0 <= i < |t| ==> t[i] !in "'\"`\\"
    ensures QuotedFields(cur, t, q, f) == []
    decreases |t|
  {
    if t != [] {
      assert t[0] !in "'\"`\\";
      WithinOpen(cur + [t[0]], q, t[1..], f);
    }
  }

  lemma {:induction false} NextQuote(t: string, rest: string)
    requires '\'' !in t
    ensures NextSingle(t + (['\''] + rest)) == |t|
  {
    if t != [] {
      assert (t + (['\''] + rest))[1..] == t[1..] + (['\''] + rest);
      NextQuote(t[1..], rest);
    } else {
      assert t + (['\''] + rest) == ['\''] + rest;
    }
  }

  lemma {:induction false} WithinQuotes(cur: string, q: char, t: string, rest: string, f: Ifs)
    requires q in "\"`" && forall i :: 0 <= i < |t| ==> t[i] !in "'\"`\\"
    ensures QuotedFields(cur, t + ([q] + rest), q, f) == QuotedFields(cur + t, [q] + rest, q, f)
    decreases |t|
  {
    if t == [] {
      assert t + ([q] + rest) == [q] + rest && cur + t == cur;
    } else {
      var s := t + ([q] + rest);
      assert s[0] == t[0] && s[1..] == t[1..] + ([q] + rest) && cur + [t[0]] + t[1..] == cur + t;
      assert t[0] !in "'\"`\\";
      WithinQuotes(cur + [t[0]], q, t[1..], rest, f);
    }
  }

  /** An unset IFS splits like one of space, tab and newline; an empty one does not split. */
  lemma UnsetIfs(s: string)
    ensures FieldSplit(s, None) == FieldSplit(s, Some([' ', '\t', '\n']))
    ensures FieldSplit(s, Some([])) == None
    ensures forall c :: Classify(IfsOf(None)).Has(c) <==> c == ' ' || c == '\t' || c == '\n'
  {
    forall c ensures Classify(IfsOf(None)).Has(c) <==> c == ' ' || c == '\t' || c == '\n' {
      ClassifySplit(" \t\n", c);
    }
  }
}
