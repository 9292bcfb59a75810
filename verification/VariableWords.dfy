/** Variables expanded outside double quotes: their single quotes are not escaped, so that the
    later passes take them for quotes. */
module VariableWords {
  import opened Basics
  import opened FieldSplitting
  import opened Quoting
  import opened QuoteRemoval
  import opened WordPasses

  // Text as quote_val leaves it, with single quotes as they are.
  ghost predicate Plainly(w: string) { exists u :: w == Escape(u, false) }

  /** The next single quote of escaped text is that of the text itself. */
  lemma {:induction false} NextSingleEscaped(v: string)
    ensures var k, e := NextSingle(v), Escape(v, false);
            && NextSingle(e) == |Escape(v[..k], false)| && e[..NextSingle(e)] == Escape(v[..k], false)
            && (k < |v| <==> NextSingle(e) < |e|)
            && (k < |v| ==> e[NextSingle(e) + 1..] == Escape(v[k + 1..], false))
  {
    hide Escape;
    var k := NextSingle(v);
    var a := Escape(v[..k], false);
    assert v == v[..k] + v[k..];
    EscapeAppend(v[..k], v[k..], false);
    NoSingleEscaped(v[..k]);
    if k < |v| {
      EscapeHead(v[k..], false);
      assert v[k..][1..] == v[k + 1..];
      SplitAtSingle(a, Escape(v[k..], false));
    } else {
      assert v[k..] == [] && v[..k] == v;
      NextNone(a);
    }
  }

  lemma SplitAtSingle(a: string, b: string)
    requires '\'' !in a && b != [] && b[0] == '\''
    ensures NextSingle(a + b) == |a| && (a + b)[..|a|] == a && (a + b)[|a| + 1..] == b[1..]
  {
    NextAfter(a, b);
    hide NextSingle;
  }

  lemma {:induction false} NoSingleEscaped(v: string)
    requires '\'' !in v
    ensures '\'' !in Escape(v, false)
  {
    if v != [] { NoSingleEscaped(v[1..]); }
  }

  lemma {:induction false} NextAfter(a: string, b: string)
    requires '\'' !in a && b != [] && b[0] == '\''
    ensures NextSingle(a + b) == |a|
  {
    if a == [] {
      assert a + b == b;
    } else {
      assert (a + b)[1..] == a[1..] + b;
      NextAfter(a[1..], b);
    }
  }

  lemma NextNone(e: string)
    requires '\'' !in e
    ensures NextSingle(e) == |e|
  {}

  /** Quote removal leaves no single quote of such text, and no open double quote. */
  lemma {:induction false} UnquoteLosesSingles(v: string)
    ensures var r := Unquote(Escape(v, false), false); '\'' !in r.text && !r.inDouble
    decreases |v|
  {
    if v != [] {
      EscapeHead(v, false);
      var e := Escape(v[1..], false);
      if Special(v[0], false) {
        UnquoteLosesSingles(v[1..]);
        UnquoteBackslash(v[0], e, false);
        assert Escape(v, false) == ['\\', v[0]] + e;
      } else if v[0] == '\'' {
        NextSingleEscaped(v[1..]);
        var rest := if NextSingle(v[1..]) < |v[1..]| then v[1..][NextSingle(v[1..]) + 1..] else [];
        UnquoteLosesSingles(rest);
        assert AfterSingle(e) == Escape(rest, false);
      } else {
        UnquoteLosesSingles(v[1..]);
      }
    }
  }

  // A quotation with both its quotes is taken whole, one without the second makes no field.
  lemma FieldsAtPair(cur: string, body: string, tail: string, f: Ifs)
    requires '\'' !in body
    ensures var q := ['\''] + body + ['\''];
            QuotedFields(cur, q + tail, NONE, f) == QuotedFields(cur + q, tail, NONE, f)
  {
    var t := ['\''] + body + ['\''] + tail;
    var n := |body| + 1;
    assert t[1..] == body + (['\''] + tail);
    NextAfter(body, ['\''] + tail);
    assert t[..n + 1] == ['\''] + body + ['\''] && t[n + 1..] == tail;
  }

  lemma FieldsAtLone(cur: string, body: string, f: Ifs)
    requires '\'' !in body
    ensures QuotedFields(cur, ['\''] + body, NONE, f) == []
  {
    assert (['\''] + body)[1..] == body;
    NextNone(body);
  }

  lemma EscapeSingle(v: string)
    ensures Escape(['\''] + v, false) == ['\''] + Escape(v, false)
  {
    assert (['\''] + v)[1..] == v;
  }

  // A quotation within escaped text.
  lemma PairEscaped(body: string)
    requires '\'' !in body
    ensures '\'' !in Escape(body, false)
    ensures Escape(['\''] + body + ['\''], false) == ['\''] + Escape(body, false) + ['\'']
  {
    assert ['\''] + body + ['\''] == ['\''] + (body + ['\'']);
    EscapeSingle(body + ['\'']);
    EscapeAppend(body, ['\''], false);
    EscapeSingle([]);
    assert ['\''] + [] == ['\''];
    NoSingleEscaped(body);
    hide Escape;
  }

  lemma SinglePair(cur: string, body: string, tail: string, f: Ifs)
    requires '\'' !in body
    ensures var q := ['\''] + body + ['\''];
            QuotedFields(Escape(cur, false), Escape(q + tail, false), NONE, f) ==
            QuotedFields(Escape(cur + q, false), Escape(tail, false), NONE, f)
  {
    var q := ['\''] + body + ['\''];
    hide Escape, QuotedFields;
    EscapeAppend(q, tail, false);
    EscapeAppend(cur, q, false);
    PairEscaped(body);
    FieldsAtPair(Escape(cur, false), Escape(body, false), Escape(tail, false), f);
  }

  lemma SingleLone(cur: string, body: string, f: Ifs)
    requires '\'' !in body
    ensures QuotedFields(Escape(cur, false), Escape(['\''] + body, false), NONE, f) == []
  {
    hide Escape, QuotedFields;
    EscapeSingle(body);
    NoSingleEscaped(body);
    FieldsAtLone(Escape(cur, false), Escape(body, false), f);
  }

  /** Every field of escaped text is escaped text. */
  lemma {:induction false} FieldsPlainly(cur: string, rest: string, f: Ifs)
    requires Usable(f)
    ensures forall w :: w in QuotedFields(Escape(cur, false), Escape(rest, false), NONE, f) ==> Plainly(w)
    decreases |rest|
  {
    hide Escape, SkipDelim;
    if rest == [] {
      assert QuotedFields(Escape(cur, false), [], NONE, f) == [Escape(cur, false)];
      EscapeNone(false);
      assert Plainly(Escape(cur, false));
    } else if rest[0] == '\'' {
      var k := NextSingle(rest[1..]);
      var body := rest[1..][..k];
      if k < |rest| - 1 {
        var q, tail := ['\''] + body + ['\''], rest[k + 2..];
        assert rest == q + tail;
        SinglePair(cur, body, tail, f);
        FieldsPlainly(cur + q, tail, f);
      } else {
        assert rest == ['\''] + body;
        SingleLone(cur, body, f);
      }
    } else if Effective(f, false).Has(rest[0]) {
      EscapedDelim(cur, rest, f, false);
      assert Plainly(Escape(cur, false));
      var next := SkipDelim(rest, Effective(f, false));
      if next != [] { FieldsPlainly([], next, f); }
    } else {
      EscapedStep(cur, rest, f, false);
      FieldsPlainly(cur + [rest[0]], rest[1..], f);
    }
  }

  lemma {:induction false} AllLoseSingles(ws: seq<string>)
    requires forall w :: w in ws ==> Plainly(w)
    ensures forall t :: t in UnquoteAll(ws, false) ==> '\'' !in t
  {
    if ws != [] {
      assert Plainly(ws[0]);
      var u :| ws[0] == Escape(u, false);
      UnquoteLosesSingles(u);
      AllLoseSingles(ws[1..]);
    }
  }

  lemma WordsAre(q: string, ifs: Option<string>)
    requires IfsOf(ifs) != ""
    ensures var f := Classify(IfsOf(ifs));
            var fields := QuotedFields([], SkipSpaces(q, f), NONE, f);
            Words(q, ifs) == if fields == [] then [q] else fields
  {
    hide QuotedFields, SkipSpaces, Classify, IfsOf;
  }

  lemma WordsPlainly(v: string, ifs: Option<string>)
    requires IfsOf(ifs) != "" && '\\' !in IfsOf(ifs)
    ensures forall w :: w in Words(Escape(v, false), ifs) ==> Plainly(w)
  {
    hide QuotedFields, Escape, SkipSpaces, Classify, Words, IfsOf, Usable;
    var f, q := Classify(IfsOf(ifs)), Escape(v, false);
    ClassifyUsable(IfsOf(ifs));
    SkipSpacesEscaped(v, f, false);
    EscapeNone(false);
    FieldsPlainly([], SkipSpaces(v, f), f);
    assert Plainly(q);
    hide Plainly;
    WordsAre(q, ifs);
  }

  // No single quote is left of an unquoted variable.
  lemma PipelineLoses(v: string, ifs: Option<string>)
    requires IfsOf(ifs) != "" && '\\' !in IfsOf(ifs)
    ensures forall t :: t in Pipeline(v, ifs, false) ==> '\'' !in t
  {
    assert Quoted(v, false, false) == Escape(v, false);
    hide Words, Escape, Plainly, IfsOf, UnquoteAll, Quoted;
    WordsPlainly(v, ifs);
    AllLoseSingles(Words(Escape(v, false), ifs));
  }

  lemma {:induction false} ConcatHas(ws: seq<string>, c: char)
    requires c in Concat(ws)
    ensures exists w :: w in ws && c in w
  {
    if ws != [] && c !in ws[0] {
      ConcatHas(ws[1..], c);
    } else {
      assert ws[0] in ws;
    }
  }

  lemma {:induction false} WithoutHas(v: string, f: Ifs, c: char)
    requires c in v && !f.Has(c)
    ensures c in Without(v, f)
  {
    if v[0] != c {
      assert v == [v[0]] + v[1..];
      WithoutHas(v[1..], f, c);
    }
  }

  /** A variable expanded outside double quotes comes out as section 2.6.5 asks for if and only if
      its value has no single quote, is not blank and has no IFS character that quote_val
      escapes. */
  lemma VariableExact(v: string, ifs: Option<string>)
    requires IfsOf(ifs) != "" && '\\' !in IfsOf(ifs) && '\'' !in IfsOf(ifs)
    ensures var f := Classify(IfsOf(ifs));
            Pipeline(v, ifs, false) == PlainSplit(v, f) <==> '\'' !in v && !Blank(v, f) && Clear(v, f, false)
  {
    var f := Classify(IfsOf(ifs));
    hide Pipeline, PlainSplit, Blank, Clear, Concat, Without;
    if '\'' !in v {
      EscapedExact(v, ifs, false);
    } else {
      ClassifyUsable(IfsOf(ifs));
      ClassifyHas(IfsOf(ifs), '\'');
      WithoutHas(v, f, '\'');
      ConcatSplit(v, f);
      ConcatHas(PlainSplit(v, f), '\'');
      PipelineLoses(v, ifs);
    }
  }
}
