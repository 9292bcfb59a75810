/** `remove_quotes`: quote removal in place, and what it leaves of a word. */
module QuoteRemoval {
  import opened Basics

  /** What is left of a word, whether it ends inside double quotes, and the flags it sets. */
  datatype Removal = Removal(text: string, inDouble: bool, hadQuotes: bool, hadDouble: bool)

  // The characters a backslash quotes inside double quotes.
  predicate QuotableInDouble(c: char) { c == '$' || c == '`' || c == '"' || c == '\\' || c == '\n' }

  function Keep(c: char, r: Removal): Removal { r.(text := [c] + r.text) }

  // What follows the next single quote.
  function AfterSingle(s: string): (r: string)
    ensures |r| <= |s|
  {
    if NextSingle(s) < |s| then s[NextSingle(s) + 1..] else []
  }

  function Unquote(s: string, dq: bool): Removal
    decreases |s|
  {
    if s == [] then Removal([], dq, false, false)
    else if s[0] == '"' then Unquote(s[1..], !dq).(hadDouble := true)
    else if s[0] == '\'' && !dq then
      var rest := s[1..];
      var r := Unquote(AfterSingle(rest), dq);
      r.(text := rest[..NextSingle(rest)] + r.text, hadQuotes := true)
    else if s[0] == '`' then Unquote(s[1..], dq).(hadQuotes := true)
    else if s[0] == '\\' && dq then
      if |s| > 1 && QuotableInDouble(s[1]) then Keep(s[1], Unquote(s[2..], dq)).(hadQuotes := true)
      else Keep('\\', Unquote(s[1..], dq))
    else if s[0] == '\\' then
      if |s| == 1 then Removal([], dq, true, false)
      else Keep(s[1], Unquote(s[2..], dq)).(hadQuotes := true)
    else Keep(s[0], Unquote(s[1..], dq))
  }

  /** remove_quotes over a list of words: the double-quote state runs on from word to word. */
  function UnquoteAll(ws: seq<string>, dq: bool): seq<string> {
    if ws == [] then []
    else [Unquote(ws[0], dq).text] + UnquoteAll(ws[1..], Unquote(ws[0], dq).inDouble)
  }

  /* ----- quotes and backslashes ----- */

  /** Quote removal takes away the quotes of a quotation and nothing in it: within single quotes
      any text, within double and back quotes text that means nothing there. */
  lemma Quotations(t: string)
    ensures '\'' !in t ==> Unquote("'" + t + "'", false) == Removal(t, false, true, false)
    ensures Bare(t) ==> Unquote("\"" + t + "\"", false).text == t
    ensures Bare(t) && '\'' !in t ==> Unquote("`" + t + "`", false).text == t
    ensures Unquote("\"\"", false) == Removal([], false, false, true)
            && Unquote("``", false) == Removal([], false, true, false)
    ensures Unquote("\\", false) == Removal([], false, true, false)
  {
    NoText();
    if '\'' !in t { SingleText(t); }
    if Bare(t) {
      hide Unquote, Bare;
      OpenQuote(t + "\"");
      assert "\"" + t + "\"" == "\"" + (t + "\"");
      BareKept(t, "\"");
      CloseQuote();
      assert t + [] == t;
      if '\'' !in t { BackText(t); }
    }
  }

  // Quotes with nothing in them, and a backslash with nothing behind it.
  lemma NoText()
    ensures Unquote("\"\"", false) == Removal([], false, false, true)
            && Unquote("``", false) == Removal([], false, true, false)
    ensures Unquote("\\", false) == Removal([], false, true, false)
  {
    assert "\"\""[1..] == "\"" && "\""[1..] == [] && "``"[1..] == "`" && "`"[1..] == [];
    assert Unquote([], false) == Removal([], false, false, false);
    assert Unquote("\"", true) == Removal([], false, false, true);
    assert Unquote("`", false) == Removal([], false, true, false);
  }

  lemma SingleText(t: string)
    requires '\'' !in t
    ensures Unquote("'" + t + "'", false) == Removal(t, false, true, false)
  {
    var s := "'" + t + "'";
    assert s[1..] == t + "'";
    SingleEnd(t);
    assert (t + "'")[..|t|] == t && (t + "'")[|t| + 1..] == [];
    assert t + [] == t;
  }

  lemma {:induction false} SingleEnd(t: string)
    requires '\'' !in t
    ensures NextSingle(t + "'") == |t|
  {
    if t != [] {
      assert (t + "'")[1..] == t[1..] + "'";
      SingleEnd(t[1..]);
    } else {
      assert t + "'" == "'";
    }
  }

  lemma BackText(t: string)
    requires Bare(t) && '\'' !in t
    ensures Unquote("`" + t + "`", false).text == t
  {
    var s := "`" + t + "`";
    assert s[1..] == t + "`";
    PlainKept(t, "`");
    assert "`"[1..] == [];
    assert t + [] == t;
  }

  lemma {:induction false} PlainKept(t: string, s: string)
    requires Bare(t) && '\'' !in t
    ensures Unquote(t + s, false).text == t + Unquote(s, false).text
    decreases |t|
  {
    if t == [] {
      assert t + s == s;
    } else {
      assert t[0] !in "\"`\\" && (t + s)[0] == t[0] && (t + s)[1..] == t[1..] + s;
      PlainKept(t[1..], s);
      assert t == [t[0]] + t[1..];
    }
  }

  // Text that means nothing to quote removal, within double quotes.
  predicate Bare(t: string) { forall i :: 0 <= i < |t| ==> t[i] !in "\"`\\" }

  lemma {:induction false} BareKept(t: string, s: string)
    requires Bare(t)
    ensures Unquote(t + s, true).text == t + Unquote(s, true).text
    ensures Unquote(t + s, true).inDouble == Unquote(s, true).inDouble
    decreases |t|
  {
    if t == [] {
      assert t + s == s;
    } else {
      assert t[0] !in "\"`\\" && (t + s)[0] == t[0] && (t + s)[1..] == t[1..] + s;
      BareKept(t[1..], s);
      assert t == [t[0]] + t[1..];
    }
  }

  /** Within double quotes a backslash quotes `$`, a back quote, a double quote, another backslash
      and a newline, and stays before anything else; without quotes it quotes every character. */
  lemma Backslashes(t: string, c: char, u: string)
    requires Bare(t) && Bare(u)
    ensures Unquote("\"" + (t + (['\\', c] + (u + "\""))), false).text
            == if c in "$`\"\\\n" then t + [c] + u else t + ['\\', c] + u
    ensures Unquote(['\\', c] + u, false).text == [c] + Unquote(u, false).text
  {
    hide Unquote, Bare;
    var v := u + "\"";
    OneBackslash(c, u);
    OpenQuote(t + (['\\', c] + v));
    BareKept(t, ['\\', c] + v);
    OneBackslash(c, v);
    BareKept(u, "\"");
    CloseQuote();
    if c !in "$`\"\\\n" {
      BareOne(c);
      BareKept([c], v);
    }
    Together(t, c, u);
  }

  lemma BareOne(c: char)
    requires c !in "$`\"\\\n"
    ensures Bare([c])
  {}

  lemma Together(t: string, c: char, u: string)
    ensures u + [] == u && t + ([c] + u) == t + [c] + u && t + (['\\'] + ([c] + u)) == t + ['\\', c] + u
  {}

  lemma OpenQuote(s: string)
    ensures Unquote("\"" + s, false).text == Unquote(s, true).text
  {
    assert ("\"" + s)[1..] == s;
  }

  lemma CloseQuote()
    ensures Unquote("\"", true).text == []
  {
    assert "\""[1..] == [];
  }

  lemma OneBackslash(c: char, s: string)
    ensures Unquote(['\\', c] + s, true).text
            == if c in "$`\"\\\n" then [c] + Unquote(s, true).text else ['\\'] + Unquote([c] + s, true).text
    ensures Unquote(['\\', c] + s, false).text == [c] + Unquote(s, false).text
  {
    var b := ['\\', c] + s;
    assert b[1..] == [c] + s && b[2..] == s;
  }

  /* ----- the code ----- */

  // A C string of length n.
  ghost predicate IsString(a: array<char>, n: nat)
    reads a
  {
    n < a.Length && a[n] == '\0' && '\0' !in a[..n]
  }

  lemma NoNul(s: string)
    requires '\0' !in s
    ensures forall k :: 0 <= k < |s| ==> s[k] != '\0'
  {
  }

  method DeleteCharAt(a: array<char>, p: nat, ghost n: nat)
    requires IsString(a, n) && p < n
    modifies a
    ensures IsString(a, n - 1) && a[n] == '\0'
    ensures a[..p] == old(a[..p]) && a[p..n - 1] == old(a[p + 1..n])
  {
    ghost var s := a[..n];
    NoNul(s);
    var p1 := p;
    while a[p1 + 1] != '\0'
      invariant p <= p1 < n
      invariant a[..p] == s[..p] && a[p..p1] == s[p + 1..p1 + 1]
      invariant forall k :: p1 < k < n ==> a[k] == s[k]
      invariant a[n] == '\0'
      decreases n - p1
    {
      if p1 + 1 < n { assert a[p1 + 1] == s[p1 + 1]; }
      a[p1] := a[p1 + 1];
      p1 := p1 + 1;
      assert a[p..p1] == a[p..p1 - 1] + [s[p1]];
    }
    a[p1] := '\0';
    assert '\0' !in a[..n - 1] by {
      assert a[..n - 1] == s[..p] + s[p + 1..n];
    }
  }

  // word_s: its text, its length and the flags that say which quotes it had.
  class Word {
    var data: array<char>
    var len: nat
    var hadQuotes: bool
    var hadDouble: bool

    ghost predicate Valid()
      reads this, data
    {
      IsString(data, len)
    }

    ghost function Text(): string
      reads this, data
      requires Valid()
    {
      data[..len]
    }

    constructor (text: string)
      requires '\0' !in text
      ensures Valid() && Text() == text && !hadQuotes && !hadDouble
      ensures fresh(data)
    {
      data := new char[|text| + 1](i => if 0 <= i < |text| then text[i] else '\0');
      len, hadQuotes, hadDouble := |text|, false, false;
      new;
      assert data[..len] == text;
    }
  }

  /** What one turn of the loop must keep: the text before p is finished, and the rest, under
      the current quote mode, still has to give the rest of the result. */
  ghost predicate Continues(before: string, was: Removal, after: string, now: Removal, hq: bool, hd: bool) {
    && before + was.text == after + now.text
    && was.inDouble == now.inDouble
    && was.hadQuotes == (hq || now.hadQuotes)
    && was.hadDouble == (hd || now.hadDouble)
  }

  lemma Unfold(s: string, p: nat)
    requires p < |s|
    ensures s[p..] == [s[p]] + s[p + 1..]
  {
  }

  /** A character that stays: p moves over it. */
  lemma KeepTurn(s: string, p: nat, dq: bool)
    requires p < |s| && Unquote(s[p..], dq) == Keep(s[p], Unquote(s[p + 1..], dq))
    ensures Continues(s[..p], Unquote(s[p..], dq), s[..p + 1], Unquote(s[p + 1..], dq), false, false)
  {
    assert s[..p + 1] == s[..p] + [s[p]];
  }

  lemma UnquoteSingle(rest: string)
    ensures var r := Unquote(AfterSingle(rest), false);
            Unquote(['\''] + rest, false) == r.(text := rest[..NextSingle(rest)] + r.text, hadQuotes := true)
  {
    hide NextSingle;
    assert (['\''] + rest)[1..] == rest;
  }

  /** A backslash and the character it quotes. */
  lemma UnquoteBackslash(c: char, rest: string, dq: bool)
    requires !dq || QuotableInDouble(c)
    ensures Unquote(['\\', c] + rest, dq) == Keep(c, Unquote(rest, dq)).(hadQuotes := true)
  {
    var s := ['\\', c] + rest;
    assert s[2..] == rest;
  }

  lemma UnquoteLone()
    ensures Unquote(['\\'], false) == Removal([], false, true, false)
    ensures Unquote([], false) == Removal([], false, false, false)
  {
  }

  lemma BeforeSingle(s: string)
    ensures forall i :: 0 <= i < NextSingle(s) ==> s[i] != '\''
  {
    assert forall i :: 0 <= i < NextSingle(s) ==> s[i] == s[..NextSingle(s)][i];
  }

  method SkipToSingle(a: array<char>, p: nat, n: nat) returns (q: nat)
    requires IsString(a, n) && p <= n
    ensures p <= q <= n && q == p + NextSingle(a[p..n])
    ensures a[q] == '\'' <==> q < n
  {
    ghost var rest := a[p..n];
    NoNul(rest);
    BeforeSingle(rest);
    hide NextSingle;
    q := p;
    while a[q] != '\0' && a[q] != '\''
      invariant p <= q <= n && q <= p + NextSingle(rest)
      invariant q < n ==> a[q] == rest[q - p]
      decreases n - q
    {
      q := q + 1;
      assert q < n ==> a[q] == rest[q - p];
    }
  }

  // A single quote outside double quotes, and the text up to its partner.
  method SingleQuoted(a: array<char>, p: nat, n: nat) returns (q: nat, n': nat)
    requires IsString(a, n) && p < n && a[p] == '\''
    modifies a
    ensures IsString(a, n') && q <= n' && n' - q < n - p
    ensures Continues(old(a[..p]), Unquote(old(a[p..n]), false), a[..q], Unquote(a[q..n'], false), true, false)
  {
    hide Unquote, NextSingle;
    ghost var rest := a[p + 1..n];
    ghost var before := a[..p];
    assert a[p..n] == ['\''] + rest;
    UnquoteSingle(rest);
    DeleteCharAt(a, p, n);
    n' := n - 1;
    q := SkipToSingle(a, p, n');
    assert a[..q] == before + rest[..q - p];
    if a[q] == '\'' {
      assert a[q + 1..n'] == rest[q - p + 1..];
      DeleteCharAt(a, q, n');
      n' := n' - 1;
    } else {
      assert a[q..n'] == [];
    }
  }

  // Deletes a character and goes on after the one that follows it.
  method DeleteBefore(a: array<char>, p: nat, ghost n: nat)
    requires IsString(a, n) && p + 1 < n
    modifies a
    ensures IsString(a, n - 1)
    ensures a[..p + 1] == old(a[..p]) + [old(a[p + 1])] && a[p + 1..n - 1] == old(a[p + 2..n])
  {
    ghost var rest := a[p + 1..n];
    DeleteCharAt(a, p, n);
    assert a[p] == rest[0];
    assert a[p + 1..n - 1] == a[p..n - 1][1..];
  }

  // A backslash that quotes the next character goes; alone at the end it just goes, and the
  // code then stops at the old terminator, one place further on.
  method DropBackslash(a: array<char>, p: nat, n: nat, dq: bool) returns (q: nat)
    requires IsString(a, n) && p < n && a[p] == '\\'
    requires !dq || QuotableInDouble(a[p + 1])
    modifies a
    ensures IsString(a, n - 1) && q <= n - 1 && n - 1 - q < n - p
    ensures Continues(old(a[..p]), Unquote(old(a[p..n]), dq), a[..q], Unquote(a[q..n - 1], dq), true, false)
  {
    hide Unquote;
    if p == n - 1 {
      assert a[p..n] == ['\\'];
      UnquoteLone();
      DeleteCharAt(a, p, n);
      assert a[p..n - 1] == [];
      return p;
    }
    ghost var c, rest := a[p + 1], a[p + 2..n];
    assert a[p..n] == ['\\', c] + rest;
    UnquoteBackslash(c, rest, dq);
    DeleteBefore(a, p, n);
    q := p + 1;
  }

  method Backslash(a: array<char>, p: nat, n: nat, dq: bool) returns (q: nat, n': nat, hq: bool)
    requires IsString(a, n) && p < n && a[p] == '\\'
    modifies a
    ensures IsString(a, n') && q <= n' && n' - q < n - p
    ensures Continues(old(a[..p]), Unquote(old(a[p..n]), dq), a[..q], Unquote(a[q..n'], dq), hq, false)
  {
    if dq && !QuotableInDouble(a[p + 1]) {
      ghost var s := a[..n];
      Unfold(s, p);
      KeepTurn(s, p, dq);
      q, n', hq := p + 1, n, false;
      assert s[..p] == a[..p] && s[p..] == a[p..n] && s[..q] == a[..q] && s[q..] == a[q..n'];
    } else {
      q := DropBackslash(a, p, n, dq);
      n', hq := n - 1, true;
    }
  }

  /** One turn of the loop of remove_quotes at position p of a string of length n. */
  method Turn(a: array<char>, p: nat, n: nat, dq: bool) returns (p': nat, n': nat, dq': bool, hq: bool, hd: bool)
    requires IsString(a, n) && p < n
    modifies a
    ensures IsString(a, n') && p' <= n' && n' - p' < n - p
    ensures Continues(old(a[..p]), Unquote(old(a[p..n]), dq), a[..p'], Unquote(a[p'..n'], dq'), hq, hd)
  {
    ghost var s := a[..n];
    assert s[..p] == a[..p] && s[p..] == a[p..n];
    Unfold(s, p);
    dq' := dq;
    match a[p]
    case '"' =>
      DeleteCharAt(a, p, n);
      p', n', dq', hq, hd := p, n - 1, !dq, false, true;
    case '\'' =>
      if dq {
        KeepTurn(s, p, dq);
        p', n', hq, hd := p + 1, n, false, false;
        assert a[..p'] == s[..p'] && a[p'..n'] == s[p'..];
      } else {
        p', n' := SingleQuoted(a, p, n);
        hq, hd := true, false;
      }
    case '`' =>
      DeleteCharAt(a, p, n);
      p', n', hq, hd := p, n - 1, true, false;
    case '\\' =>
      p', n', hq := Backslash(a, p, n, dq);
      hd := false;
    case _ =>
      KeepTurn(s, p, dq);
      p', n', hq, hd := p + 1, n, false, false;
      assert a[..p'] == s[..p'] && a[p'..n'] == s[p'..];
  }

  /** remove_quotes on one word, in place. */
  method RemoveQuotes(w: Word, dq: bool) returns (dq': bool)
    requires w.Valid()
    modifies w, w.data
    ensures w.Valid() && w.data == old(w.data)
    ensures var r := Unquote(old(w.Text()), dq);
            && w.Text() == r.text && dq' == r.inDouble
            && w.hadQuotes == (old(w.hadQuotes) || r.hadQuotes)
            && w.hadDouble == (old(w.hadDouble) || r.hadDouble)
  {
    hide Unquote;
    ghost var all := Unquote(w.Text(), dq);
    var a, p: nat, n, hq, hd := w.data, 0, w.len, w.hadQuotes, w.hadDouble;
    dq' := dq;
    assert a[..0] == [] && a[0..n] == a[..n];
    while p < n
      invariant p <= n && IsString(a, n) && a == w.data
      invariant a[..p] + Unquote(a[p..n], dq').text == all.text
      invariant Unquote(a[p..n], dq').inDouble == all.inDouble
      invariant (hq || Unquote(a[p..n], dq').hadQuotes) == (old(w.hadQuotes) || all.hadQuotes)
      invariant (hd || Unquote(a[p..n], dq').hadDouble) == (old(w.hadDouble) || all.hadDouble)
      decreases n - p
    {
      var q, d;
      p, n, dq', q, d := Turn(a, p, n, dq');
      hq, hd := hq || q, hd || d;
    }
    assert Unquote(a[p..n], dq') == Removal([], dq', false, false) by { UnquoteEmpty(dq'); assert a[p..n] == []; }
    w.len, w.hadQuotes, w.hadDouble := n, hq, hd;
  }

  lemma UnquoteEmpty(dq: bool)
    ensures Unquote([], dq) == Removal([], dq, false, false)
  {
  }
}
