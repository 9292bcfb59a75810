/** Expansions that substitute_word puts in double quotes: no later pass changes them. */
module QuotedWords {
  import opened Basics
  import opened FieldSplitting
  import opened Quoting
  import opened QuoteRemoval
  import opened WordPasses

  function Singles(v: string): nat {
    if v == [] then 0 else Singles(v[1..]) + if v[0] == '\'' then 1 else 0
  }

  // The rest of a quoted value, from somewhere inside it up to the closing quote.
  function Tail(v: string): (t: string)
    ensures t != []
  {
    Escape(v, false) + ['"']
  }

  lemma TailHead(v: string)
    requires v != []
    ensures Special(v[0], false) ==> |Tail(v)| > 1 && Tail(v)[..2] == ['\\', v[0]] && Tail(v)[2..] == Tail(v[1..])
    ensures !Special(v[0], false) ==> Tail(v)[0] == v[0] && Tail(v)[1..] == Tail(v[1..])
  {
    EscapeHead(v, false);
    var e := Escape(v, false);
    if Special(v[0], false) {
      assert e[2..] + ['"'] == (e + ['"'])[2..];
    } else {
      assert e[1..] + ['"'] == (e + ['"'])[1..];
    }
  }

  /** Escaping moves the next single quote but neither hides nor makes one. */
  lemma {:induction false} NextSingleTail(v: string)
    ensures var k := NextSingle(v);
            var n := NextSingle(Tail(v));
            if k < |v| then n < |Tail(v)| && Tail(v)[n + 1..] == Tail(v[k + 1..])
              && Singles(v) == 1 + Singles(v[k + 1..])
            else n == |Tail(v)| && Singles(v) == 0
  {
    if v == [] {
      assert Tail(v) == ['"'];
      assert NextSingle(['"'][1..]) == 0;
    } else if v[0] != '\'' {
      TailHead(v);
      NextSingleTail(v[1..]);
      NextSingleHead(v);
    } else {
      TailHead(v);
    }
  }

  lemma NextSingleHead(v: string)
    requires v != [] && v[0] != '\''
    ensures NextSingle(v) == 1 + NextSingle(v[1..])
    ensures NextSingle(v) < |v| ==> v[NextSingle(v) + 1..] == v[1..][NextSingle(v[1..]) + 1..]
    ensures NextSingle(Tail(v)) == (if Special(v[0], false) then 2 else 1) + NextSingle(Tail(v[1..]))
    ensures var n := NextSingle(Tail(v));
            n < |Tail(v)| ==> Tail(v)[n + 1..] == Tail(v[1..])[NextSingle(Tail(v[1..])) + 1..]
  {
    TailHead(v);
    var t := Tail(v);
    if Special(v[0], false) {
      assert t[1..][1..] == t[2..];
      assert t[0] == t[..2][0] && t[1] == t[..2][1];
      assert t[1..][0] == v[0];
    }
  }

  /** Inside double quotes the loop of field_split takes the rest of the value whole, unless a
      single quote has no partner: then it runs off the end and makes no field. */
  lemma {:induction false} FieldsQuoted(cur: string, v: string, f: Ifs)
    ensures QuotedFields(cur, Tail(v), '"', f) == if Singles(v) % 2 == 0 then [cur + Tail(v)] else []
    decreases |v|
  {
    hide QuotedFields, NextSingle, Escape, Tail;
    var t := Tail(v);
    if v == [] {
      FieldsAtEnd(cur, f);
    } else {
      TailHead(v);
      if Special(v[0], false) {
        FieldsAtEscape(cur, v, f);
        FieldsQuoted(cur + t[..2], v[1..], f);
        Rejoin(cur, t, 2);
      } else if v[0] == '\'' {
        SinglesAt(v);
        var k := NextSingle(v[1..]);
        if k < |v[1..]| {
          var n := FieldsPair(cur, v, f);
          FieldsQuoted(cur + t[..n + 1], v[1..][k + 1..], f);
          Rejoin(cur, t, n + 1);
        } else {
          FieldsAtSingle(cur, v, f);
        }
      } else {
        FieldsAtOther(cur, v, f);
        FieldsQuoted(cur + t[..1], v[1..], f);
        Rejoin(cur, t, 1);
      }
    }
  }

  // How the number of single quotes changes from one to the one after its partner.
  lemma SinglesAt(v: string)
    requires v != [] && v[0] == '\''
    ensures var k := NextSingle(v[1..]);
            if k < |v[1..]| then Singles(v) == 2 + Singles(v[1..][k + 1..]) else Singles(v) == 1
  {
    NextSingleTail(v[1..]);
  }

  // A single quote with a partner is taken together with what is between them.
  lemma FieldsPair(cur: string, v: string, f: Ifs) returns (n: nat)
    requires v != [] && v[0] == '\'' && NextSingle(v[1..]) < |v[1..]|
    ensures var t, more := Tail(v), v[1..][NextSingle(v[1..]) + 1..];
            && n < |t| && t[n + 1..] == Tail(more)
            && QuotedFields(cur, t, '"', f) == QuotedFields(cur + t[..n + 1], Tail(more), '"', f)
  {
    FieldsAtSingle(cur, v, f);
    n := NextSingle(Tail(v)[1..]) + 1;
  }

  lemma Rejoin(cur: string, t: string, n: nat)
    requires n <= |t|
    ensures cur + t[..n] + t[n..] == cur + t
  {
  }

  lemma FieldsAtEnd(cur: string, f: Ifs)
    ensures QuotedFields(cur, Tail([]), '"', f) == [cur + Tail([])]
  {
    assert Tail([]) == ['"'];
    assert QuotedFields(cur + ['"'], ['"'][1..], NONE, f) == [cur + ['"']];
  }

  lemma FieldsAtOther(cur: string, v: string, f: Ifs)
    requires v != [] && !Special(v[0], false) && v[0] != '\''
    ensures QuotedFields(cur, Tail(v), '"', f) == QuotedFields(cur + Tail(v)[..1], Tail(v[1..]), '"', f)
  {
    TailHead(v);
    assert Tail(v)[..1] == [v[0]];
  }

  lemma FieldsAtEscape(cur: string, v: string, f: Ifs)
    requires v != [] && Special(v[0], false)
    ensures QuotedFields(cur, Tail(v), '"', f) == QuotedFields(cur + Tail(v)[..2], Tail(v[1..]), '"', f)
  {
    TailHead(v);
  }

  lemma FieldsAtSingle(cur: string, v: string, f: Ifs)
    requires v != [] && v[0] == '\''
    ensures var t := Tail(v);
            var k := NextSingle(v[1..]);
            var n := NextSingle(t[1..]) + 1;
            if k < |v[1..]| then
              n < |t| && t[n + 1..] == Tail(v[1..][k + 1..])
              && QuotedFields(cur, t, '"', f) == QuotedFields(cur + t[..n + 1], Tail(v[1..][k + 1..]), '"', f)
            else QuotedFields(cur, t, '"', f) == []
  {
    TailHead(v);
    NextSingleTail(v[1..]);
    hide NextSingle, Escape, Tail;
    var t := Tail(v);
    var n := NextSingle(t[1..]) + 1;
    if n < |t| { assert t[1..][n..] == t[n + 1..]; }
  }

  lemma {:induction false} UnquoteTail(v: string)
    ensures Unquote(Tail(v), true).text == v && !Unquote(Tail(v), true).inDouble
  {
    var t := Tail(v);
    if v == [] {
      assert t == ['"'] && t[1..] == [];
    } else {
      TailHead(v);
      UnquoteTail(v[1..]);
      if Special(v[0], false) {
        assert t == ['\\', v[0]] + Tail(v[1..]);
        UnquoteBackslash(v[0], Tail(v[1..]), true);
      }
    }
  }

  lemma FieldsOfQuoted(v: string, f: Ifs)
    requires Proper(f)
    ensures var q := ['"'] + Tail(v);
            SkipSpaces(q, f) == q
            && QuotedFields([], q, NONE, f) == if Singles(v) % 2 == 0 then [q] else []
  {
    FieldsQuoted(['"'], v, f);
    FieldsOpen(Tail(v), f);
    hide Tail, QuotedFields;
  }

  lemma FieldsOpen(t: string, f: Ifs)
    ensures QuotedFields([], ['"'] + t, NONE, f) == QuotedFields(['"'], t, '"', f)
  {
    assert (['"'] + t)[1..] == t;
    assert [] + ['"'] == ['"'];
  }

  lemma UnquoteQuoted(v: string)
    ensures Unquote(['"'] + Tail(v), false).text == v
  {
    assert (['"'] + Tail(v))[1..] == Tail(v);
    UnquoteTail(v);
  }

  /** For every value and every non-empty IFS, a double-quoted expansion is one field equal to
      itself, or is not split at all, the latter exactly when it has an odd number of single
      quotes; either way quote removal then yields the value. */
  lemma QuotedSurvives(v: string, ifs: Option<string>, sq: bool)
    requires IfsOf(ifs) != ""
    ensures var q := Quoted(v, true, sq);
            && FieldSplit(q, ifs) == (if Singles(v) % 2 == 0 then Some([q]) else None)
            && UnquoteAll(Words(q, ifs), false) == [v]
  {
    var f := Classify(IfsOf(ifs));
    var q := Quoted(v, true, sq);
    assert q == ['"'] + Tail(v);
    forall c | c in f.space ensures IsSpace(c) { ClassifyHas(IfsOf(ifs), c); }
    FieldsOfQuoted(v, f);
    UnquoteQuoted(v);
    hide QuotedFields, Tail, Escape, SkipSpaces, Classify, Unquote;
    assert Words(q, ifs) == [q];
    assert UnquoteAll([q], false) == [Unquote(q, false).text] + UnquoteAll([], Unquote(q, false).inDouble);
  }
}
