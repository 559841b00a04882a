/** Assembler expressions and their value under a symbol table. */
module AsmExpr {
  import opened Basics

  datatype BinOp = Add | Sub | Mul | Div

  datatype Expr =
    | Number(value: int)
    | CharConst(value: int)
    | Ident(name: string)
    | Pc
    | Neg(inner: Expr)
    | Lo(inner: Expr)
    | Hi(inner: Expr)
    | Binary(op: BinOp, left: Expr, right: Expr)

  datatype Eval = Ok(value: int) | Unresolved | DivZero

  /** Declared names; None until a value is known. */
  type Symbols = map<string, Option<int>>

  /** C's division: the quotient is rounded toward zero. */
  function Quotient(a: int, b: int): int
    requires b != 0
  {
    if (a < 0) == (b < 0) then (if a < 0 then -a else a) / (if b < 0 then -b else b)
    else -((if a < 0 then -a else a) / (if b < 0 then -b else b))
  }

  function EvalExpr(e: Expr, symbols: Symbols, pc: int): Eval {
    match e
    case Number(v) => Ok(v)
    case CharConst(v) => Ok(v)
    case Ident(name) => if name in symbols && symbols[name].Some? then Ok(symbols[name].value) else Unresolved
    case Pc => Ok(pc)
    case Neg(inner) => (match EvalExpr(inner, symbols, pc) case Ok(v) => Ok(-v) case other => other)
    case Lo(inner) => (match EvalExpr(inner, symbols, pc) case Ok(v) => Ok(v % 256) case other => other)
    case Hi(inner) => (match EvalExpr(inner, symbols, pc) case Ok(v) => Ok(v / 256 % 256) case other => other)
    case Binary(op, l, r) =>
      match EvalExpr(l, symbols, pc)
      case Ok(a) =>
        (match EvalExpr(r, symbols, pc)
         case Ok(b) =>
           (match op
            case Add => Ok(a + b)
            case Sub => Ok(a - b)
            case Mul => Ok(a * b)
            case Div => if b == 0 then DivZero else Ok(Quotient(a, b)))
         case other => other)
      case other => other
  }

  /** The names an expression mentions. */
  function Idents(e: Expr): set<string> {
    match e
    case Ident(name) => {name}
    case Neg(inner) => Idents(inner)
    case Lo(inner) => Idents(inner)
    case Hi(inner) => Idents(inner)
    case Binary(_, l, r) => Idents(l) + Idents(r)
    case _ => {}
  }

  predicate Defined(symbols: Symbols, name: string) {
    name in symbols && symbols[name].Some?
  }

  /** Defining more names never changes a value an expression already has. */
  lemma {:induction false} EvalMonotone(e: Expr, s: Symbols, t: Symbols, pc: int)
    requires forall x :: x in Idents(e) && Defined(s, x) ==> Defined(t, x) && t[x] == s[x]
    requires EvalExpr(e, s, pc).Ok?
    ensures EvalExpr(e, t, pc) == EvalExpr(e, s, pc)
  {
    match e
    case Neg(inner) => EvalMonotone(inner, s, t, pc);
    case Lo(inner) => EvalMonotone(inner, s, t, pc);
    case Hi(inner) => EvalMonotone(inner, s, t, pc);
    case Binary(_, l, r) => EvalMonotone(l, s, t, pc); EvalMonotone(r, s, t, pc);
    case _ =>
  }

  /** An expression is unresolved unless every name it needs is defined; with all names defined it
      has a value or divides by zero. */
  lemma {:induction false} EvalDefined(e: Expr, s: Symbols, pc: int)
    ensures EvalExpr(e, s, pc).Ok? ==> forall x :: x in Idents(e) ==> Defined(s, x)
    ensures (forall x :: x in Idents(e) ==> Defined(s, x)) ==> !EvalExpr(e, s, pc).Unresolved?
  {
    match e
    case Ident(name) => assert name in Idents(e);
    case Neg(inner) => EvalDefined(inner, s, pc);
    case Lo(inner) => EvalDefined(inner, s, pc);
    case Hi(inner) => EvalDefined(inner, s, pc);
    case Binary(_, l, r) => EvalDefined(l, s, pc); EvalDefined(r, s, pc);
    case _ =>
  }

  /** What is left of a after taking the divisor as often as the quotient says. */
  function Rest(a: int, q: int, b: int): int {
    a - q * b
  }

  lemma MinusBoth(q: int, b: int)
    ensures (-q) * b == -(q * b) && q * (-b) == -(q * b) && (-q) * (-b) == q * b
  {
  }

  lemma DivRest(m: nat, n: nat)
    requires n > 0
    ensures 0 <= Rest(m, m / n, n) < n
  {
    assert m == (m / n) * n + m % n;
  }

  /** C rounds toward zero: what is left is smaller than the divisor and on the side of the dividend. */
  ghost predicate Truncates(a: int, q: int, b: int)
    requires b != 0
  {
    var r := Rest(a, q, b);
    && (if b > 0 then -b < r < b else b < r < -b)
    && (a >= 0 ==> r >= 0) && (a <= 0 ==> r <= 0)
  }

  lemma QuotientTruncates(a: int, b: int)
    requires b != 0
    ensures Truncates(a, Quotient(a, b), b)
  {
    var m: nat, n: nat := if a < 0 then -a else a, if b < 0 then -b else b;
    DivRest(m, n);
    MinusBoth(m / n, n);
    var q := m / n;
    assert Quotient(a, b) == if (a < 0) == (b < 0) then q else -q;
    RestSigns(a, b, q, m, n);
  }

  lemma RestIs(a: int, b: int, q: int, m: nat, n: nat)
    requires b != 0 && m == (if a < 0 then -a else a) && n == (if b < 0 then -b else b)
    ensures Rest(a, if (a < 0) == (b < 0) then q else -q, b) == if a < 0 then -Rest(m, q, n) else Rest(m, q, n)
  {
    MinusBoth(q, n);
  }

  lemma RestSigns(a: int, b: int, q: int, m: nat, n: nat)
    requires b != 0 && m == (if a < 0 then -a else a) && n == (if b < 0 then -b else b) && 0 <= Rest(m, q, n) < n
    ensures Truncates(a, if (a < 0) == (b < 0) then q else -q, b)
  {
    RestIs(a, b, q, m, n);
    hide Rest;
    if a == 0 { assert m == 0; ZeroRest(q, n); }
  }

  lemma AtLeastOnce(k: int, n: nat)
    ensures k >= 1 ==> k * n >= n
  {
    if k >= 1 { assert k * n == (k - 1) * n + n; }
  }

  lemma ZeroRest(q: int, n: nat)
    requires 0 <= Rest(0, q, n) < n
    ensures Rest(0, q, n) == 0
  {
    AtLeastOnce(q, n);
    AtLeastOnce(-q, n);
    MinusBoth(q, n);
  }

  /** What - and < and > are worth: the last two are the bytes of the operand's lower half. */
  lemma UnaryMeans(e: Expr, symbols: Symbols, pc: int)
    requires (e.Neg? || e.Lo? || e.Hi?) && EvalExpr(e.inner, symbols, pc).Ok?
    ensures EvalExpr(e, symbols, pc).Ok?
    ensures var v, w := EvalExpr(e.inner, symbols, pc).value, EvalExpr(e, symbols, pc).value;
      && (e.Neg? ==> v + w == 0)
      && (e.Lo? || e.Hi? ==> 0 <= w < 256)
      && (e.Lo? ==> (v - w) % 256 == 0)
      && (e.Hi? ==> (v - 256 * w) % 65536 < 256)
  {
    var v := EvalExpr(e.inner, symbols, pc).value;
    if e.Hi? {
      var h := v / 256;
      assert v - 256 * (h % 256) == 65536 * (h / 256) + v % 256;
    }
  }

  /** What the binary operators are worth. */
  lemma BinaryMeans(e: Expr, symbols: Symbols, pc: int)
    requires e.Binary? && EvalExpr(e.left, symbols, pc).Ok? && EvalExpr(e.right, symbols, pc).Ok?
    ensures var a, b, v := EvalExpr(e.left, symbols, pc).value, EvalExpr(e.right, symbols, pc).value, EvalExpr(e, symbols, pc);
      match e.op
      case Add => v == Ok(a + b)
      case Sub => v.Ok? && v.value + b == a
      case Mul => v == Ok(b * a)
      case Div => if b == 0 then v == DivZero else v.Ok? && Truncates(a, v.value, b)
  {
    var a, b := EvalExpr(e.left, symbols, pc).value, EvalExpr(e.right, symbols, pc).value;
    if b != 0 { QuotientTruncates(a, b); }
    hide Quotient, Truncates;
  }
}
