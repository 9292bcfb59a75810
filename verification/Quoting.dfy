/** `quote_val`: text made safe for the later passes over a word. */
module Quoting {

  // The characters quote_val puts a backslash before; single quotes only on request.
  predicate Special(c: char, sq: bool) {
    c == '\\' || c == '`' || c == '$' || c == '"' || (sq && c == '\'')
  }

  function EscapeChar(c: char, sq: bool): string { if Special(c, sq) then ['\\', c] else [c] }

  function Escape(v: string, sq: bool): string {
    if v == [] then [] else EscapeChar(v[0], sq) + Escape(v[1..], sq)
  }

  /** What quote_val returns. Single quotes are escaped only outside double quotes. */
  function Quoted(v: string, addQuotes: bool, escapeSq: bool): string {
    if addQuotes then ['"'] + Escape(v, false) + ['"'] else Escape(v, escapeSq)
  }

  lemma {:induction false} EscapeAppend(a: string, b: string, sq: bool)
    ensures Escape(a + b, sq) == Escape(a, sq) + Escape(b, sq)
  {
    if a == [] {
      assert a + b == b;
    } else {
      assert (a + b)[1..] == a[1..] + b;
      EscapeAppend(a[1..], b, sq);
    }
  }

  /** A backslash is put before `\\`, `$`, a back quote and a double quote, and before a single
      quote on request; nothing else changes. */
  lemma EscapeOne(c: char, sq: bool)
    ensures Escape([c], sq) == if c in "\\$`\"" || (sq && c == '\'') then ['\\', c] else [c]
  {
    assert [c][1..] == [];
    assert Escape([], sq) == [];
  }

  lemma EscapeNext(v: string, i: nat, sq: bool)
    requires i < |v|
    ensures Escape(v[..i + 1], sq) == Escape(v[..i], sq) + EscapeChar(v[i], sq)
  {
    assert v[..i + 1] == v[..i] + [v[i]];
    EscapeAppend(v[..i], [v[i]], sq);
    assert Escape([v[i]], sq) == EscapeChar(v[i], sq) + Escape([], sq);
  }

  lemma EscapePrefix(v: string, i: nat, sq: bool)
    requires i <= |v|
    ensures |Escape(v[..i], sq)| <= |Escape(v, sq)|
  {
    assert v == v[..i] + v[i..];
    EscapeAppend(v[..i], v[i..], sq);
  }

  // The counting pass.
  method QuotedLength(val: string, addQuotes: bool, sq: bool) returns (len: nat)
    ensures len == |Escape(val, sq)| + if addQuotes then 2 else 0
  {
    len := 0;
    for i := 0 to |val|
      invariant len + i == |Escape(val[..i], sq)|
    {
      EscapeNext(val, i, sq);
      if Special(val[i], sq) { len := len + 1; }
    }
    assert val[..|val|] == val;
    len := len + |val|;
    if addQuotes { len := len + 2; }
  }

  // *p++ = c
  method Put(res: array<char>, p: nat, c: char) returns (next: nat)
    requires p < res.Length
    modifies res
    ensures next == p + 1 && res[..next] == old(res[..p]) + [c]
  {
    res[p] := c;
    next := p + 1;
  }

  // The copying loop.
  method CopyEscaped(res: array<char>, start: nat, val: string, sq: bool) returns (p: nat)
    requires start + |Escape(val, sq)| <= res.Length
    modifies res
    ensures p == start + |Escape(val, sq)|
    ensures res[..p] == old(res[..start]) + Escape(val, sq)
  {
    hide Escape;
    p := start;
    assert Escape(val[..0], sq) == [] by { EscapeEmpty(val, sq); }
    for i := 0 to |val|
      invariant p == start + |Escape(val[..i], sq)| <= res.Length
      invariant res[..p] == old(res[..start]) + Escape(val[..i], sq)
    {
      EscapeNext(val, i, sq);
      EscapePrefix(val, i + 1, sq);
      if Special(val[i], sq) { p := Put(res, p, '\\'); }
      p := Put(res, p, val[i]);
    }
    assert val[..|val|] == val;
  }

  lemma EscapeEmpty(val: string, sq: bool)
    ensures Escape(val[..0], sq) == []
  {
  }

  /** The copying pass fills the buffer that the counting pass sized, to the last character. */
  method QuoteVal(val: string, addQuotes: bool, escapeSq: bool) returns (res: array<char>)
    ensures res[..] == Quoted(val, addQuotes, escapeSq) + ['\0']
  {
    var sq := escapeSq && !addQuotes;
    if val == "" {
      res := new char[if addQuotes then 3 else 1](_ => '\0');
      if addQuotes { res[0], res[1] := '"', '"'; }
      return;
    }
    hide Escape;
    var len := QuotedLength(val, addQuotes, sq);
    res := new char[len + 1](_ => '\0');
    var p := 0;
    ghost var q := if addQuotes then ['"'] else [];
    if addQuotes { p := Put(res, p, '"'); }
    assert res[..p] == q;
    p := CopyEscaped(res, p, val, sq);
    if addQuotes { p := Put(res, p, '"'); }
    assert res[..p] == q + Escape(val, sq) + q;
    p := Put(res, p, '\0');
    assert res[..] == res[..p];
  }
}
