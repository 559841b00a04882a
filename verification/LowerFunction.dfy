/** Whole function bodies: they end exactly when the source does, with the same effects. */
module LowerFunction {
  import opened Basics
  import opened LowerMachine
  import opened TwosComplement
  import opened LowerStatement
  import opened LowerContext
  import opened LowerDispatch
  import opened LowerSimulation
  import opened LowerLabels
  import opened LowerLeak

  const NO_LOOPS := Loops([], [])
  const NO_SCOPE := Scope([], false, false)

  function FunctionCode(body: Stmts, n: nat, locals: nat): seq<Instr> {
    AllCode(body, NO_LOOPS, n, locals) + [Mark(Fini)]
  }

  /** Where a function's code ends. */
  function Exit(body: Stmts, n: nat, locals: nat): nat {
    |AllCode(body, NO_LOOPS, n, locals)|
  }

  lemma FunctionMarks(body: Stmts, n: nat, locals: nat)
    ensures var code := FunctionCode(body, n, locals);
      UniqueMarks(code) && Placed(code, Fini) && FindMark(code, Fini, 0) == Exit(body, n, locals)
  {
    AllOwn(body, NO_LOOPS, n, locals);
    var f := AllCode(body, NO_LOOPS, n, locals);
    hide AllCode;
    FiniLast(f, Numbers(n, n + AllLabels(body)));
  }

  lemma FiniLast(f: seq<Instr>, s: set<nat>)
    requires Own(f, s)
    ensures UniqueMarks(f + [Mark(Fini)]) && Placed(f + [Mark(Fini)], Fini) && FindMark(f + [Mark(Fini)], Fini, 0) == |f|
  {
    var h := f + [Mark(Fini)];
    forall i, j | 0 <= i < j < |h| && h[i].Mark? && !h[i].label_.User?
      ensures h[j] != h[i]
    {
      assert h[i] == f[i];
      if j < |f| { assert h[j] == f[j]; }
    }
    assert h[|f|] == Mark(Fini);
    MarkFound(h, Fini, |f|);
  }

  lemma FunctionSits(body: Stmts, n: nat, locals: nat)
    requires AllPlain(body) && AllAccepted(body, NO_SCOPE)
    ensures AllSits(FunctionCode(body, n, locals), 0, body, NO_LOOPS, n, locals) && ScopeOf(NO_LOOPS) == NO_SCOPE
  {
    FunctionMarks(body, n, locals);
    var f := AllCode(body, NO_LOOPS, n, locals);
    assert ScopeOf(NO_LOOPS) == NO_SCOPE by { assert KnownNames([]) == []; }
    hide AllCode, UniqueMarks, Placed, AllPlain, AllAccepted;
    assert (f + [Mark(Fini)])[0..|f|] == f;
  }

  /** A body that finishes brings the machine to the end of its code with the same trace, the stack higher by
      the leak; one that has not finished within `fuel` iterations keeps it inside for as many steps. */
  lemma FunctionRuns(env: Env, body: Stmts, n: nat, locals: nat, r: Regs, fuel: nat) returns (k: nat, t: State)
    requires AllPlain(body) && AllAccepted(body, NO_SCOPE) && locals <= |r.stack|
    ensures Run(env, FunctionCode(body, n, locals), State(0, r), k) == t
    ensures match ExecAll(env, body, NO_SCOPE, r.trace, fuel)
      case Timeout => fuel <= k && t.pc < Exit(body, n, locals)
      case Finished(o, trace, leak) =>
        (o == Next || o == Returned) && t.pc == Exit(body, n, locals) && t.r.trace == trace && Grown(r.stack, t.r.stack, locals, leak)
  {
    FunctionMarks(body, n, locals);
    FunctionSits(body, n, locals);
    hide AllCode, ExecAll, AllSits, FindMark, Run, UniqueMarks, Placed, AllPlain, AllAccepted, Grown;
    k, t := AllRuns(env, FunctionCode(body, n, locals), 0, body, NO_LOOPS, n, locals, r, fuel);
    var result := ExecAll(env, body, NO_SCOPE, r.trace, fuel);
    if result.Finished? && result.outcome != Next {
      OnlyReturns(result.outcome);
    }
  }

  lemma OnlyReturns(o: Outcome)
    requires o != Next && TargetOf(NO_LOOPS, o).Some?
    ensures o == Returned
  {
  }

  /** The stack is as high as before exactly when nothing leaked, that is when no jump was executed that is not
      contained where it stands. */
  lemma RestoredWithoutLeak(env: Env, body: Stmts, n: nat, locals: nat, r: Regs, fuel: nat) returns (k: nat, t: State)
    requires AllPlain(body) && AllAccepted(body, NO_SCOPE) && locals <= |r.stack| && ExecAll(env, body, NO_SCOPE, r.trace, fuel).Finished?
    ensures Run(env, FunctionCode(body, n, locals), State(0, r), k) == t && t.pc == Exit(body, n, locals)
    ensures |t.r.stack| == |r.stack| <==> ExecAll(env, body, NO_SCOPE, r.trace, fuel).leak == 0
    ensures AllSized(body) ==> (|t.r.stack| == |r.stack| <==> !AllEscapes(env, body, NO_SCOPE, None, r.trace, fuel))
  {
    hide AllCode, ExecAll, Run, AllPlain, AllAccepted, AllSized, AllEscapes;
    k, t := FunctionRuns(env, body, n, locals, r, fuel);
    if AllSized(body) {
      AllLeakIff(env, body, NO_SCOPE, None, r.trace, fuel);
    }
  }

  /** A body in which no jump leaves a non-empty switch but by breaking out of it restores the stack in every run. */
  lemma RestoredIfContained(env: Env, body: Stmts, n: nat, locals: nat, r: Regs, fuel: nat) returns (k: nat, t: State)
    requires AllContained(body, NO_SCOPE, None)
    requires AllPlain(body) && AllAccepted(body, NO_SCOPE) && locals <= |r.stack| && ExecAll(env, body, NO_SCOPE, r.trace, fuel).Finished?
    ensures Run(env, FunctionCode(body, n, locals), State(0, r), k) == t && t.pc == Exit(body, n, locals)
    ensures |t.r.stack| == |r.stack| && t.r.stack[..locals] == r.stack[..locals]
  {
    hide AllCode, ExecAll, Run, AllPlain, AllAccepted, AllContained;
    AllTidy(env, body, NO_SCOPE, None, r.trace, fuel);
    k, t := FunctionRuns(env, body, n, locals, r, fuel);
  }

  lemma {:induction false} EndIsFinal(env: Env, code: seq<Instr>, s: State, end: nat, j: nat)
    requires s.pc >= end && end + 1 == |code| && code[end] == Mark(Fini)
    ensures Run(env, code, s, j).pc >= end
    decreases j
  {
    if j > 0 {
      EndIsFinal(env, code, Step(env, code, s), end, j - 1);
    }
  }

  /** The machine reaches the end of the code only if the source finishes. */
  lemma EndsOnlyIfFinished(env: Env, body: Stmts, n: nat, locals: nat, r: Regs, k: nat)
    requires AllPlain(body) && AllAccepted(body, NO_SCOPE) && locals <= |r.stack|
    requires Run(env, FunctionCode(body, n, locals), State(0, r), k).pc >= Exit(body, n, locals)
    ensures ExecAll(env, body, NO_SCOPE, r.trace, k + 1).Finished?
  {
    hide AllCode, ExecAll, Run, Step, AllPlain, AllAccepted;
    var code := FunctionCode(body, n, locals);
    var j, t := FunctionRuns(env, body, n, locals, r, k + 1);
    if ExecAll(env, body, NO_SCOPE, r.trace, k + 1).Timeout? {
      RunPlus(env, code, State(0, r), k, j - k);
      EndIsFinal(env, code, Run(env, code, State(0, r), k), Exit(body, n, locals), j - k);
    }
  }

  // ----- switches over constants -----

  predicate ConstantLabel(l: CaseLabel, kind: Kind, size: nat) {
    match l
    case Default => true
    case One(v) => v.Constant? && InRange(size, kind.signed, v.value)
    case Range(a, b) => a.Constant? && b.Constant? && InRange(size, kind.signed, a.value) && InRange(size, kind.signed, b.value)
  }

  function LabelAt(ss: Sections, i: nat): CaseLabel
    requires i < Count(ss)
  {
    if i == 0 then ss.label_ else LabelAt(ss.rest, i - 1)
  }

  /** The label lists d, in either order of a range's bounds. */
  predicate Lists(l: CaseLabel, d: int) {
    match l
    case Default => false
    case One(v) => v.Constant? && v.value == d
    case Range(a, b) => a.Constant? && b.Constant? && (a.value <= d <= b.value || b.value <= d <= a.value)
  }

  lemma {:induction false} DigitsValue(v: int, n: nat)
    ensures Unsigned(Digits(v, n)) == v % Pow256(n)
    ensures n > 0 ==> (Digits(v, n)[n - 1] >= 128 <==> 2 * (v % Pow256(n)) >= Pow256(n))
    decreases n
  {
    if n > 0 {
      DigitsValue(v / 256, n - 1);
      var p := Pow256(n - 1);
      ModSplit(v, p);
      assert Digits(v, n)[1..] == Digits(v / 256, n - 1);
      if n > 1 {
        assert Digits(v, n)[n - 1] == Digits(v / 256, n - 1)[n - 2];
        TopBit(v, p, n);
      }
    }
  }

  lemma ModSplit(v: int, p: nat)
    requires p > 0
    ensures v % (256 * p) == v % 256 + 256 * (v / 256 % p)
  {
    var q, b := v / 256, v % 256;
    var m, k := q % p, q / p;
    assert q == k * p + m;
    assert v == 256 * (k * p + m) + b == k * (256 * p) + (256 * m + b);
    ModIs(v, 256 * p, k, 256 * m + b);
  }

  lemma ModIs(v: int, d: int, k: int, r: int)
    requires d > 0 && v == k * d + r && 0 <= r < d
    ensures v % d == r
  {
    ModUnique(v / d, v % d, k, r, d);
  }

  lemma ModUnique(a: int, x: int, b: int, y: int, d: int)
    requires 0 <= x < d && 0 <= y < d && a * d + x == b * d + y
    ensures x == y
  {
    assert a * d - b * d == (a - b) * d == y - x;
    assert b * d - a * d == (b - a) * d;
    if a > b {
      MulBounds(a - b, d);
    } else if b > a {
      MulBounds(b - a, d);
    }
  }

  lemma TopBit(v: int, p: nat, n: nat)
    requires p > 0 && n > 1 && p == Pow256(n - 1)
    ensures 2 * (v / 256 % p) >= p <==> 2 * (v % (256 * p)) >= 256 * p
  {
    ModSplit(v, p);
    assert p == 256 * Pow256(n - 2);
  }

  lemma {:induction false} DigitAt(v: int, n: nat, i: nat)
    requires i < n
    ensures Digits(v, n)[i] == v / Pow256(i) % 256
    decreases n
  {
    if i > 0 {
      DigitAt(v / 256, n - 1, i - 1);
      assert Digits(v, n)[i] == Digits(v / 256, n - 1)[i - 1];
      DivTwice(v, Pow256(i - 1));
    }
  }

  lemma DivTwice(v: int, p: nat)
    requires p > 0
    ensures v / 256 / p == v / (256 * p)
  {
    var q, b, k, m := v / 256, v % 256, v / 256 / p, v / 256 % p;
    assert q == k * p + m;
    assert v == 256 * (k * p + m) + b == k * (256 * p) + (256 * m + b);
    QuotientIs(v, 256 * p, k, 256 * m + b);
  }

  lemma QuotientIs(v: int, d: int, k: int, r: int)
    requires d > 0 && v == k * d + r && 0 <= r < d
    ensures v / d == k
  {
    ModIs(v, d, k, r);
    assert (v / d) * d == k * d;
    TimesGrows(v / d, k, d);
    TimesGrows(k, v / d, d);
  }

  lemma TimesGrows(a: int, b: int, d: int)
    requires d > 0
    ensures a < b ==> a * d < b * d
  {
    if a < b {
      MulBounds(b - a, d);
      assert b * d == a * d + (b - a) * d;
    }
  }

  /** The byte of weight 256^i stands i bytes from the start, in big-endian types i bytes from the end. */
  lemma EncodedByte(kind: Kind, v: int, n: nat, i: nat)
    requires i < n
    ensures Encode(kind, v, n)[if kind.big then n - 1 - i else i] == v / Pow256(i) % 256
  {
    DigitAt(v, n, i);
    hide Digits;
  }

  lemma ReverseTwice(bs: seq<Byte>)
    ensures Reverse(Reverse(bs)) == bs
  {
  }

  /** A representable constant survives encoding. */
  lemma DecodeEncode(kind: Kind, c: int, size: nat)
    requires InRange(size, kind.signed, c)
    ensures Decode(kind, Encode(kind, c, size)) == c
  {
    DigitsValue(c, size);
    ReverseTwice(Digits(c, size));
    hide Unsigned, Digits, Reverse;
    var p := Pow256(size);
    if c >= 0 {
      ModIs(c, p, 0, c);
    } else {
      ModIs(c, p, -1, c + p);
    }
    if size == 0 {
      assert p == 1;
    }
    hide Pow256;
  }

  lemma ListsMatches(env: Env, l: CaseLabel, kind: Kind, size: nat, v: seq<Byte>, t: Trace)
    requires ConstantLabel(l, kind, size)
    ensures Matches(env, l, kind, size, v, t) == (Lists(l, Decode(kind, v)), t)
  {
    match l {
      case Default =>
      case One(c) => DecodeEncode(kind, c.value, size);
      case Range(a, b) =>
        DecodeEncode(kind, a.value, size);
        DecodeEncode(kind, b.value, size);
    }
    hide Decode, Encode, InRange;
  }

  /** With constant labels the section entered is the first one, in source order, that lists the value, and
      choosing it evaluates nothing. */
  lemma {:induction false} PickIsFirst(env: Env, ss: Sections, i: nat, kind: Kind, size: nat, v: seq<Byte>, t: Trace)
    requires forall j :: 0 <= j < Count(ss) ==> ConstantLabel(LabelAt(ss, j), kind, size)
    ensures var p := Pick(env, ss, i, kind, size, v, t); var d := Decode(kind, v);
      && p.1 == t
      && (p.0.Some? ==> i <= p.0.value < i + Count(ss) && Lists(LabelAt(ss, p.0.value - i), d)
                        && forall j :: 0 <= j < p.0.value - i ==> !Lists(LabelAt(ss, j), d))
      && (p.0.None? ==> forall j :: 0 <= j < Count(ss) ==> !Lists(LabelAt(ss, j), d))
    decreases ss
  {
    if ss.Section? {
      assert ConstantLabel(LabelAt(ss, 0), kind, size);
      ListsMatches(env, ss.label_, kind, size, v, t);
      forall j | 0 <= j < Count(ss.rest)
        ensures LabelAt(ss, j + 1) == LabelAt(ss.rest, j) && ConstantLabel(LabelAt(ss.rest, j), kind, size)
      {
        assert ConstantLabel(LabelAt(ss, j + 1), kind, size);
      }
      PickIsFirst(env, ss.rest, i + 1, kind, size, v, t);
      hide Matches, Decode, ConstantLabel, Lists;
      PickNext(env, ss, i, kind, size, v, t);
      PickShift(env, ss, i, kind, size, v, t);
    }
  }

  lemma PickShift(env: Env, ss: Sections, i: nat, kind: Kind, size: nat, v: seq<Byte>, t: Trace)
    requires ss.Section?
    ensures Count(ss) == 1 + Count(ss.rest)
    ensures forall j :: 0 < j < Count(ss) ==> LabelAt(ss, j) == LabelAt(ss.rest, j - 1)
  {
  }

  // ----- label texts -----

  function Digit(n: nat): char
    requires n < 10
  {
    (n + 48) as char
  }

  function Decimal(n: nat): (s: string)
    ensures s != ""
  {
    if n < 10 then [Digit(n)] else Decimal(n / 10) + [Digit(n % 10)]
  }

  /** The text of a generated label, such as @while_end_17. */
  function LabelText(prefix: string, n: nat): string {
    "@" + prefix + "_" + Decimal(n)
  }

  lemma {:induction false} CounterReadsBack(a: string, b: string, m: nat, n: nat)
    requires a + "_" + Decimal(m) == b + "_" + Decimal(n)
    ensures m == n
    decreases m
  {
    var s, t := a + "_" + Decimal(m), b + "_" + Decimal(n);
    assert s[|s| - 1] == Digit(m % 10) && t[|t| - 1] == Digit(n % 10);
    assert m >= 10 ==> s[..|s| - 1] == a + "_" + Decimal(m / 10);
    assert n >= 10 ==> t[..|t| - 1] == b + "_" + Decimal(n / 10);
    BeforeLast(a, m);
    BeforeLast(b, n);
    if m >= 10 && n >= 10 {
      CounterReadsBack(a, b, m / 10, n / 10);
    } else if m >= 10 || n >= 10 {
      assert false;
    }
  }

  /** The character before the last one tells one-digit numbers from longer ones. */
  lemma BeforeLast(a: string, m: nat)
    ensures var s := a + "_" + Decimal(m); |s| >= 2 && (s[|s| - 2] == '_' <==> m < 10)
  {
    if m >= 10 {
      LastIsDigit(m / 10);
      var s := a + "_" + Decimal(m);
      assert s[|s| - 2] == Decimal(m / 10)[|Decimal(m / 10)| - 1];
    }
  }

  lemma LastIsDigit(n: nat)
    ensures Decimal(n)[|Decimal(n)| - 1] == Digit(n % 10) && Digit(n % 10) != '_'
  {
  }

  /** Labels made with different counter values are different texts, whatever their prefixes. */
  lemma LabelTextsDiffer(p: string, q: string, m: nat, n: nat)
    requires m != n
    ensures LabelText(p, m) != LabelText(q, n)
  {
    if LabelText(p, m) == LabelText(q, n) {
      CounterReadsBack("@" + p, "@" + q, m, n);
    }
  }
}
