/** Laws of the operators, and the fact that every value the evaluator meets is a `long`. */
module ArithLaws {
  import opened Basics
  import opened ArithOps
  import opened ArithMachine

  /* ----- wrapping ----- */

  // Two numbers that wrap to the same `long`.
  predicate Congruent(v: int, w: int) { ToLong(v) == ToLong(w) }

  lemma CongruentBy(v: int, k: int)
    ensures Congruent(v + k * TWO64, v)
  {
    var u := v + TWO63;
    assert u + k * TWO64 == v + k * TWO64 + TWO63;
    ModShift(u, k, TWO64);
  }

  lemma ModShift(u: int, k: int, m: int)
    requires m > 0
    ensures (u + k * m) % m == u % m
  {
    var q, r := u / m, u % m;
    assert u + k * m == (q + k) * m + r;
    ModOf(q + k, r, m);
  }

  lemma Multiple(d: int, m: int)
    requires m > 0
    ensures d >= 1 ==> d * m >= m
    ensures d <= -1 ==> d * m <= -m
    ensures d >= 0 ==> d * m >= d
  {
    if d >= 0 { assert d * (m - 1) >= 0; }
    if d >= 1 { assert (d - 1) * m >= 0; }
    if d <= -1 { assert (-d - 1) * m >= 0; }
  }

  // The floor of a division, between two multiples.
  lemma FloorDiv(a: int, p: int)
    requires p > 0
    ensures a / p * p <= a < (a / p + 1) * p && (a / p + 1) * p == a / p * p + p
  {}

  lemma ModOf(q: int, r: int, m: int)
    requires m > 0 && 0 <= r < m
    ensures (q * m + r) % m == r && (q * m + r) / m == q
  {
    var v := q * m + r;
    var w := v / m;
    FloorDiv(v, m);
    Multiple(w - q, m);
    assert (w - q) * m == w * m - q * m;
    assert v == w * m + v % m;
  }

  lemma WrapInner(a: int, b: int)
    ensures Congruent(ToLong(a) + b, a + b)
    ensures Congruent(ToLong(a) * b, a * b)
  {
    ToLongCongruent(a);
    var k :| a == ToLong(a) + k * TWO64;
    CongruentBy(a + b, -k);
    CongruentBy(a * b, -(k * b));
    assert a * b + -(k * b) * TWO64 == (a - k * TWO64) * b;
  }

  /** Subtraction undoes addition and addition subtraction, overflow or not. */
  lemma AddSubUndo(a: int, b: int)
    requires InLong(a)
    ensures var s := Compute(Add, a, b); s.Some? && Compute(Sub, s.value, b) == Some(a)
    ensures var d := Compute(Sub, a, b); d.Some? && Compute(Add, d.value, b) == Some(a)
  {
    WrapInner(a + b, -b);
    WrapInner(a - b, b);
  }

  /** A power of a sum of exponents is the product of the powers; a negative exponent gives 0. */
  lemma {:induction false} PowerLaw(a: int, m: nat, n: nat)
    requires InLong(a)
    ensures Compute(Exp, a, 0) == Some(1) && Compute(Exp, a, 1) == Some(a) && Compute(Exp, a, -1) == Some(0)
    ensures Power(a, m + n) == ToLong(Power(a, m) * Power(a, n))
    decreases m
  {
    PowerNext(a, 0);
    PowerInLong(a, n);
    if m > 0 {
      PowerLaw(a, m - 1, n);
      PowerNext(a, m - 1);
      PowerNext(a, m - 1 + n);
      PowerStep(a, Power(a, m - 1), Power(a, n));
    }
  }

  lemma PowerNext(a: int, n: nat)
    ensures Power(a, n + 1) == ToLong(a * Power(a, n)) && Power(a, 0) == 1
  {}

  lemma PowerStep(a: int, p: int, q: int)
    ensures ToLong(a * ToLong(p * q)) == ToLong(ToLong(a * p) * q)
  {
    WrapTimes(p * q, a);
    WrapTimes(a * p, q);
    hide ToLong;
    assert a * ToLong(p * q) == ToLong(p * q) * a;
    assert p * q * a == a * p * q;
  }

  lemma WrapTimes(a: int, b: int)
    ensures ToLong(ToLong(a) * b) == ToLong(a * b)
  {
    WrapInner(a, b);
    hide ToLong;
  }

  lemma {:induction false} PowerInLong(a: int, n: int)
    ensures InLong(Power(a, n))
    decreases n
  {
  }

  /** A right shift is the floor of the division by the power of two, for negative numbers too,
      and undoes a left shift that did not overflow. */
  lemma ShiftLaw(a: int, n: int)
    requires InLong(a) && 0 <= n < 64
    ensures var r := Compute(Rsh, a, n); r.Some? && r.value * Pow2(n) <= a < (r.value + 1) * Pow2(n)
    ensures InLong(a * Pow2(n)) ==> Compute(Lsh, a, n) == Some(a * Pow2(n)) && Compute(Rsh, a * Pow2(n), n) == Some(a)
  {
    var p := Pow2(n);
    hide Pow2;
    assert n % 64 == n;
    FloorDiv(a, p);
    ModOf(a, 0, p);
  }

  /** Of two numbers exactly one of `<`, `==` and `>` holds; the other three are their negations. */
  lemma CompareLaw(a: int, b: int)
    ensures forall op :: op in {Lt, Le, Gt, Ge, Eq, Ne} ==> Compute(op, a, b).Some? && Compute(op, a, b).value in {0, 1}
    ensures Compute(Lt, a, b).value + Compute(Eq, a, b).value + Compute(Gt, a, b).value == 1
    ensures Compute(Le, a, b).value == 1 - Compute(Gt, a, b).value
    ensures Compute(Ge, a, b).value == 1 - Compute(Lt, a, b).value
    ensures Compute(Ne, a, b).value == 1 - Compute(Eq, a, b).value
    ensures Compute(Lt, a, b) == Compute(Gt, b, a)
    ensures Compute(Sub, a, b).Some?
            && (InLong(a - b) ==> (Compute(Lt, a, b).value == 1 <==> Compute(Sub, a, b).value < 0))
  {
  }

  /** On a variable that may be written, the prefix and the postfix form leave the same
      variables; one yields the new value and the other the old; and the opposite step brings
      the old value back. */
  lemma StepLaw(inc: IncDec, x: string, s: Store)
    requires x !in s.readonly && InLong(Read(Ref(x), s))
    ensures var pre, post := ApplyPrefix(Step(inc), Ref(x), s), ApplyPostfix(inc, Ref(x), s);
            && pre.Good? && post.Good? && pre.store == post.store
            && post.v == Read(Ref(x), s) && pre.v == Read(Ref(x), pre.store)
            && (var back := ApplyPrefix(Step(if inc.Inc? then Dec else Inc), Ref(x), pre.store);
                back.Good? && Read(Ref(x), back.store) == Read(Ref(x), s)
                && forall y :: y != x ==> Read(Ref(y), back.store) == Read(Ref(y), s))
  {
    var v := Read(Ref(x), s);
    WrapInner(v + 1, -1);
    WrapInner(v - 1, 1);
  }

  /* ----- every value is a long ----- */

  predicate LongItem(i: Item) { i.Lit? ==> InLong(i.v) }

  ghost predicate LongStore(s: Store) { forall x :: x in s.vals ==> InLong(s.vals[x]) }

  predicate Width(k: nat, v: int) { 0 <= v + Pow2(k) < 2 * Pow2(k) }

  // The bits above the sign take no part.
  lemma {:induction false} BitwiseWidth(op: CalcOp, k: nat, a: int, b: int)
    requires Width(k, a) && Width(k, b)
    ensures Width(k, Bitwise(op, a, b))
    decreases k
  {
    if Magnitude(a) == 0 && Magnitude(b) == 0 {
    } else {
      assert k > 0;
      BitwiseWidth(op, k - 1, a / 2, b / 2);
    }
  }

  lemma Pow16()
    ensures Pow2(15) == 0x8000 && Pow2(16) == 0x1_0000
  {
    assert Pow2(8) == 256;
    PowSum(8, 7);
    PowSum(8, 8);
  }

  lemma Pow32()
    ensures Pow2(32) == 0x1_0000_0000
  {
    hide Pow2;
    Pow16();
    PowSum(16, 16);
  }

  lemma Pow63()
    ensures Pow2(63) == TWO63
  {
    hide Pow2;
    Pow16();
    Pow32();
    PowSum(32, 16);
    PowSum(48, 15);
  }

  lemma Width63(v: int)
    ensures Width(63, v) <==> InLong(v)
  {
    hide Pow2;
    Pow63();
  }

  lemma {:induction false} PowSum(m: nat, n: nat)
    ensures Pow2(m + n) == Pow2(m) * Pow2(n)
  {
    if n > 0 {
      PowSum(m, n - 1);
      assert Pow2(m + n) == 2 * Pow2(m + (n - 1));
    }
  }

  lemma ComputeLong(op: CalcOp, a: int, b: int)
    requires InLong(a) && InLong(b)
    ensures Compute(op, a, b).Some? ==> InLong(Compute(op, a, b).value)
  {
    match op
    case Exp => PowerInLong(a, b);
    case Mod => if b != 0 { DivModLaw(a, b); }
    case Rsh => FloorSmaller(a, Pow2(b % 64));
    case BitAnd | BitXor | BitOr =>
      Width63(a);
      Width63(b);
      BitwiseWidth(op, 63, a, b);
      Width63(Bitwise(op, a, b));
    case _ =>
  }

  lemma FloorSmaller(a: int, p: int)
    requires p > 0 && InLong(a)
    ensures InLong(a / p)
  {
    var q := a / p;
    FloorDiv(a, p);
    Multiple(q, p);
    Multiple(q + 1, p);
    if q < 0 { FloorBelow(a, p); }
  }

  lemma FloorBelow(a: int, p: int)
    requires p > 0 && a / p < 0
    ensures a <= a / p
  {
    var n := -(a / p);
    FloorDiv(a, p);
    AtLeast(n, p);
    assert a / p * p == -(n * p);
  }

  lemma AtLeast(n: int, p: int)
    requires n >= 1 && p >= 1
    ensures n * p >= n + p - 1
  {
    assert (n - 1) * (p - 1) >= 0;
  }

  ghost predicate LongEffect(e: Effect) { LongStore(e.store) && (e.Good? ==> InLong(e.v)) }

  lemma WriteLong(i: Item, v: int, s: Store)
    requires LongStore(s) && InLong(v)
    ensures LongEffect(Write(i, v, s))
  {}

  lemma ReadLong(i: Item, s: Store)
    requires LongStore(s) && LongItem(i)
    ensures InLong(Read(i, s))
  {}

  lemma InfixLong(op: BinOp, a: Item, b: Item, s: Store)
    requires LongStore(s) && LongItem(a) && LongItem(b)
    ensures LongEffect(ApplyInfix(op, a, b, s))
  {
    ReadLong(a, s);
    ReadLong(b, s);
    match op
    case Assign => WriteLong(a, Read(b, s), s);
    case Calc(c) => ComputeLong(c, Read(a, s), Read(b, s));
    case AssignBy(c) =>
      ComputeLong(c, Read(a, s), Read(b, s));
      var r := Compute(c, Read(a, s), Read(b, s));
      WriteLong(a, if r.Some? then r.value else 0, s);
  }

  lemma UnaryLong(op: Op, a: Item, s: Store)
    requires LongStore(s) && LongItem(a) && Unary(op)
    ensures LongEffect(if op.Postfix? then ApplyPostfix(op.inc, a, s) else ApplyPrefix(op.pre, a, s))
  {
    ReadLong(a, s);
    var v := Read(a, s);
    WriteLong(a, ToLong(v + 1), s);
    WriteLong(a, ToLong(v - 1), s);
    hide LongStore;
  }

  ghost predicate LongMachine(m: Machine) {
    LongStore(m.store) && forall i :: 0 <= i < |m.nums| ==> LongItem(m.nums[i])
  }

  ghost predicate LongOutcome(r: Outcome) { if r.Run? then LongMachine(r.m) else LongStore(r.store) }

  lemma FireLong(m: Machine)
    requires m.ops != [] && LongMachine(m)
    ensures LongOutcome(Fire(m))
  {
    var op, k := m.ops[|m.ops| - 1], |m.nums|;
    if k > 0 && Unary(op) {
      UnaryLong(op, m.nums[k - 1], m.store);
    } else if k > 1 && op.Infix? {
      InfixLong(op.bin, m.nums[k - 2], m.nums[k - 1], m.store);
    }
    hide ApplyInfix, ApplyPrefix, ApplyPostfix, LongStore, LongItem;
  }

  lemma {:induction false} YieldLong(m: Machine, op: Op)
    requires LongMachine(m)
    ensures LongOutcome(FireYielding(m, op))
    decreases |m.ops|
  {
    hide LongMachine, Yields, Fire, FireYielding;
    YieldTurn(m, op);
    if m.ops != [] && Yields(op, m.ops[|m.ops| - 1]) {
      FireLong(m);
      if Fire(m).Run? { YieldLong(Fire(m).m, op); }
    }
  }

  lemma {:induction false} ParenLong(m: Machine)
    requires LongMachine(m)
    ensures LongOutcome(FireToParen(m))
    decreases |m.ops|
  {
    if m.ops != [] && m.ops[|m.ops| - 1] != LParen {
      FireLong(m);
      hide LongMachine;
      if Fire(m).Run? { ParenLong(Fire(m).m); }
    }
  }

  lemma {:induction false} DrainLong(m: Machine, h: nat)
    requires LongMachine(m)
    ensures LongOutcome(DrainTo(m, h))
    decreases |m.ops|
  {
    if |m.ops| > h {
      FireLong(m);
      hide LongMachine;
      if Fire(m).Run? { DrainLong(Fire(m).m, h); }
    }
  }

  lemma ShuntLong(m: Machine, op: Op)
    requires LongMachine(m)
    ensures LongOutcome(Shunt(m, op))
  {
    YieldLong(m, op);
    ParenLong(m);
    hide LongStore, LongItem, FireYielding, FireToParen;
  }

  predicate LongTok(t: Tok) { t.Num? ==> InLong(t.n) }

  lemma StepLong(m: Machine, t: Tok)
    requires LongMachine(m) && LongTok(t)
    ensures LongOutcome(StepTok(m, t))
  {
    match t
    case Num(n) =>
      hide LongStore;
    case Name(x) =>
      hide LongStore;
    case Sym(raw) =>
      var op := Resolve(m.last, raw);
      if op.Some? { ShuntLong(m, op.value); }
      hide LongStore, LongItem, Shunt, Resolve;
  }

  lemma {:induction false} RunLong(m: Machine, ts: seq<Tok>)
    requires LongMachine(m) && forall i :: 0 <= i < |ts| ==> LongTok(ts[i])
    ensures LongOutcome(RunToks(m, ts))
    decreases |ts|
  {
    if ts != [] {
      StepLong(m, ts[0]);
      hide LongMachine, StepTok;
      var r := StepTok(m, ts[0]);
      if r.Run? { RunLong(r.m, ts[1..]); }
    }
  }

  /** Whatever the tokens: when the constants and the variables are `long`s, so are the value of
      the expression and all variables afterwards, even if it fails half-way. */
  lemma ExpandLong(ts: seq<Tok>, s: Store)
    requires LongStore(s) && forall i :: 0 <= i < |ts| ==> LongTok(ts[i])
    ensures var a := Expand(ts, s); LongStore(a.store) && (a.Value? ==> InLong(a.v))
  {
    RunLong(Start(s), ts);
    var r := RunToks(Start(s), ts);
    if r.Run? {
      DrainLong(r.m, 0);
      var d := DrainTo(r.m, 0);
      if d.Run? && |d.m.nums| == 1 { ReadLong(d.m.nums[0], d.m.store); }
    }
    hide RunToks, DrainTo;
  }

  /* ----- what each operator computes, written out ----- */

  // r is the `long` that v wraps to.
  predicate WrapsTo(v: int, r: int) { InLong(r) && (v - r) % TWO64 == 0 }

  lemma Wrapped(v: int)
    ensures WrapsTo(v, ToLong(v))
  {
    ToLongCongruent(v);
    var k :| v == ToLong(v) + k * TWO64;
    ModOf(k, 0, TWO64);
  }

  /** Addition, subtraction and multiplication are those of the integers, wrapped. */
  lemma RingMeans(a: int, b: int)
    ensures exists r :: Compute(Add, a, b) == Some(r) && WrapsTo(a + b, r)
    ensures exists r :: Compute(Sub, a, b) == Some(r) && WrapsTo(a - b, r)
    ensures exists r :: Compute(Mul, a, b) == Some(r) && WrapsTo(a * b, r)
    ensures ApplyPrefix(Minus, Lit(a), NOTHING).Good? && WrapsTo(-a, ApplyPrefix(Minus, Lit(a), NOTHING).v)
  {
    Wrapped(a + b);
    Wrapped(a - b);
    Wrapped(a * b);
    Wrapped(-a);
    hide WrapsTo, ToLong;
    assert Compute(Add, a, b) == Some(ToLong(a + b)) && Compute(Sub, a, b) == Some(ToLong(a - b));
    assert Compute(Mul, a, b) == Some(ToLong(a * b));
  }

  const NOTHING := Store(map[], {})

  predicate Truncated(a: int, b: int, q: int, r: int) {
    a == b * q + r && (if b < 0 then b < r < -b else -b < r < b) && (r == 0 || (r < 0 <==> a < 0))
  }

  /** A division by 0 is none; otherwise the quotient q and the remainder r make up the dividend,
      r is smaller than the divisor and has the sign of the dividend, unless it is 0. The only
      quotient that has to be wrapped is that of the smallest `long` and -1. */
  lemma DivisionMeans(a: int, b: int)
    requires InLong(a) && InLong(b)
    ensures b == 0 ==> Compute(Div, a, b).None? && Compute(Mod, a, b).None?
    ensures b != 0 ==>
              exists q, r :: Truncated(a, b, q, r) && Compute(Mod, a, b) == Some(r)
                             && (if a == -TWO63 && b == -1 then Compute(Div, a, b) == Some(-TWO63) && q == TWO63
                                 else Compute(Div, a, b) == Some(q))
  {
    if b != 0 {
      DivModLaw(a, b);
      QuotientInLong(a, b);
      var q, r := CDiv(a, b), CMod(a, b);
      hide CDiv, CMod;
      assert if a == -TWO63 && b == -1 then Compute(Div, a, b) == Some(-TWO63) && q == TWO63
             else Compute(Div, a, b) == Some(q);
      assert if b < 0 then b < r < -b else -b < r < b;
      assert Truncated(a, b, q, r) && Compute(Mod, a, b) == Some(r);
    }
  }

  lemma QuotientInLong(a: int, b: int)
    requires InLong(a) && InLong(b) && b != 0
    ensures a == -TWO63 && b == -1 ==> CDiv(a, b) == TWO63 && ToLong(CDiv(a, b)) == -TWO63
    ensures !(a == -TWO63 && b == -1) ==> InLong(CDiv(a, b))
  {
    var x, y := Magnitude2(a), Magnitude2(b);
    SmallerQuotient(x, y);
    if y >= 2 { HalfQuotient(x, y); }
  }

  lemma SmallerQuotient(x: nat, y: nat)
    requires y > 0
    ensures 0 <= x / y <= x && (y == 1 ==> x / y == x)
  {
    FloorDiv(x, y);
    if y > 1 { Multiple(x / y, y); }
  }

  lemma HalfQuotient(x: nat, y: nat)
    requires y >= 2
    ensures 2 * (x / y) <= x
  {
    FloorDiv(x, y);
    var q := x / y;
    assert q * (y - 2) >= 0;
  }

  // Bit i of a two's complement number.
  function Bit(a: int, i: nat): bool { a / Pow2(i) % 2 == 1 }

  lemma {:induction false} BitIs(a: int, i: nat)
    ensures BitAt(a, i) == a / Pow2(i) % 2
    decreases i
  {
    if i > 0 {
      BitIs(a / 2, i - 1);
      Halved(a, Pow2(i - 1));
    }
  }

  lemma Halved(a: int, p: int)
    requires p > 0
    ensures a / (2 * p) == a / 2 / p
  {
    var h := a / 2;
    var q := h / p;
    FloorDiv(h, p);
    assert a == 2 * h + a % 2;
    assert a == q * (2 * p) + (a - q * (2 * p));
    assert 0 <= a - q * (2 * p) < 2 * p;
    ModOf(q, a - q * (2 * p), 2 * p);
  }

  /** Bit by bit, & is and, | is or, ^ is exclusive or, and ~ is not. */
  lemma BitwiseMeans(a: int, b: int, i: nat)
    ensures exists r :: Compute(BitAnd, a, b) == Some(r) && (Bit(r, i) <==> Bit(a, i) && Bit(b, i))
    ensures exists r :: Compute(BitOr, a, b) == Some(r) && (Bit(r, i) <==> Bit(a, i) || Bit(b, i))
    ensures exists r :: Compute(BitXor, a, b) == Some(r) && (Bit(r, i) <==> Bit(a, i) != Bit(b, i))
    ensures ApplyPrefix(BitNot, Lit(a), NOTHING).Good?
            && (Bit(ApplyPrefix(BitNot, Lit(a), NOTHING).v, i) <==> !Bit(a, i))
  {
    BitwiseBit(BitAnd, a, b, i);
    BitwiseBit(BitOr, a, b, i);
    BitwiseBit(BitXor, a, b, i);
    NotBit(a, i);
    hide Bit, Bitwise;
    assert Compute(BitAnd, a, b) == Some(Bitwise(BitAnd, a, b)) && Compute(BitOr, a, b) == Some(Bitwise(BitOr, a, b));
    assert Compute(BitXor, a, b) == Some(Bitwise(BitXor, a, b));
  }

  lemma BitwiseBit(op: CalcOp, a: int, b: int, i: nat)
    requires op in {BitAnd, BitOr, BitXor}
    ensures Bit(Bitwise(op, a, b), i) <==>
            match op
            case BitAnd => Bit(a, i) && Bit(b, i)
            case BitOr => Bit(a, i) || Bit(b, i)
            case _ => Bit(a, i) != Bit(b, i)
  {
    BitwisePointwise(op, a, b, i);
    BitIs(a, i);
    BitIs(b, i);
    BitIs(Bitwise(op, a, b), i);
    hide Bitwise, Pow2, BitAt;
  }

  lemma NotBit(a: int, i: nat)
    ensures Bit(-a - 1, i) <==> !Bit(a, i)
  {
    var p := Pow2(i);
    var q, r := a / p, a % p;
    assert -a - 1 == (-q - 1) * p + (p - 1 - r);
    ModOf(-q - 1, p - 1 - r, p);
    hide Pow2;
  }

  /** Left shift multiplies by the power of two, wrapped; !, && and || look at zero only. */
  lemma OthersMean(a: int, b: int, n: nat)
    requires n < 64
    ensures exists r :: Compute(Lsh, a, n) == Some(r) && WrapsTo(a * Pow2(n), r)
    ensures Compute(LogAnd, a, b) == Some(if a != 0 && b != 0 then 1 else 0)
    ensures Compute(LogOr, a, b) == Some(if a != 0 || b != 0 then 1 else 0)
    ensures ApplyPrefix(LogNot, Lit(a), NOTHING) == Good(if a == 0 then 1 else 0, NOTHING)
    ensures ApplyPrefix(Plus, Lit(a), NOTHING) == Good(a, NOTHING)
  {
    Wrapped(a * Pow2(n));
    hide WrapsTo, ToLong, Pow2;
    assert n % 64 == n;
    assert Compute(Lsh, a, n) == Some(ToLong(a * Pow2(n)));
  }

  /** `x = v` and `x op= v` leave the value in x, other variables alone, and yield it. */
  lemma AssignMeans(x: string, op: CalcOp, b: int, s: Store)
    requires x !in s.readonly
    ensures var e := ApplyInfix(Assign, Ref(x), Lit(b), s);
            e.Good? && e.v == b && Read(Ref(x), e.store) == b && Others(x, s, e.store)
    ensures var e, r := ApplyInfix(AssignBy(op), Ref(x), Lit(b), s), Compute(op, Read(Ref(x), s), b);
            if r.Some? then e.Good? && e.v == r.value && Read(Ref(x), e.store) == r.value && Others(x, s, e.store)
            else e.Bad? && Read(Ref(x), e.store) == 0 && Others(x, s, e.store)
  {
    hide Compute;
  }

  /** A number cannot be assigned to, incremented or decremented, and neither can a read-only
      variable: the store stays as it is. */
  lemma NoAssignment(x: string, n: int, inc: IncDec, b: int, s: Store)
    requires x in s.readonly
    ensures ApplyInfix(Assign, Lit(n), Lit(b), s) == Bad(s) == ApplyInfix(Assign, Ref(x), Lit(b), s)
    ensures ApplyPrefix(Step(inc), Lit(n), s) == Bad(s) == ApplyPrefix(Step(inc), Ref(x), s)
    ensures ApplyPostfix(inc, Lit(n), s) == Bad(s) == ApplyPostfix(inc, Ref(x), s)
  {}

  ghost predicate Others(x: string, s: Store, s1: Store) {
    s1.readonly == s.readonly && forall y :: y != x ==> Read(Ref(y), s1) == Read(Ref(y), s)
  }
}
