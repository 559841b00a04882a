/** Resolution of name = expression constants by repeated sweeps in source order. */
module AsmConstants {
  import opened Basics
  import opened AsmExpr

  datatype Constant = Constant(name: string, expr: Expr, pc: int)

  /** The table after constant c has been looked at once. */
  function Visit(c: Constant, s: Symbols): Symbols {
    var v := EvalExpr(c.expr, s, c.pc);
    if v.Ok? && c.name in s then s[c.name := Some(v.value)] else s
  }

  function SweepTo(cs: seq<Constant>, s: Symbols, i: nat): Symbols
    requires i <= |cs|
  {
    if i == 0 then s else Visit(cs[i - 1], SweepTo(cs, s, i - 1))
  }

  function Sweep(cs: seq<Constant>, s: Symbols): Symbols {
    SweepTo(cs, s, |cs|)
  }

  function Sweeps(cs: seq<Constant>, s: Symbols, n: nat): Symbols {
    if n == 0 then s else Sweep(cs, Sweeps(cs, s, n - 1))
  }

  /** Names are distinct, declared, and not yet defined. */
  ghost predicate Fresh(cs: seq<Constant>, s: Symbols) {
    && (forall i, j :: 0 <= i < j < |cs| ==> cs[i].name != cs[j].name)
    && (forall i :: 0 <= i < |cs| ==> cs[i].name in s && s[cs[i].name].None?)
  }

  ghost predicate KeptBy(s: Symbols, t: Symbols, x: string) {
    (x in s <==> x in t) && (Defined(s, x) ==> Defined(t, x) && t[x] == s[x])
  }

  /** t knows everything s knows. */
  ghost predicate Extends(s: Symbols, t: Symbols) {
    forall x :: KeptBy(s, t, x)
  }

  /** Every constant with a value has the value of its expression. */
  ghost predicate Consistent(cs: seq<Constant>, s: Symbols) {
    forall i :: 0 <= i < |cs| && Defined(s, cs[i].name) ==> EvalExpr(cs[i].expr, s, cs[i].pc) == Ok(s[cs[i].name].value)
  }

  ghost predicate Declared(cs: seq<Constant>, s: Symbols) {
    && (forall i, j :: 0 <= i < j < |cs| ==> cs[i].name != cs[j].name)
    && (forall i :: 0 <= i < |cs| ==> cs[i].name in s)
  }

  lemma EvalExtends(e: Expr, s: Symbols, t: Symbols, pc: int)
    requires Extends(s, t) && EvalExpr(e, s, pc).Ok?
    ensures EvalExpr(e, t, pc) == EvalExpr(e, s, pc)
  {
    forall x | x in Idents(e) && Defined(s, x)
      ensures Defined(t, x) && t[x] == s[x]
    {
      assert KeptBy(s, t, x);
    }
    EvalMonotone(e, s, t, pc);
  }

  lemma ExtendsTrans(a: Symbols, b: Symbols, c: Symbols)
    requires Extends(a, b) && Extends(b, c)
    ensures Extends(a, c)
  {
    forall x
      ensures KeptBy(a, c, x)
    {
      assert KeptBy(a, b, x) && KeptBy(b, c, x);
    }
  }

  /** A value, once given, is final: looking at a constant again changes nothing it knew. */
  lemma VisitExtends(cs: seq<Constant>, s: Symbols, i: nat)
    requires Declared(cs, s) && Consistent(cs, s) && i < |cs|
    ensures Extends(s, Visit(cs[i], s)) && Consistent(cs, Visit(cs[i], s)) && Declared(cs, Visit(cs[i], s))
    ensures EvalExpr(cs[i].expr, s, cs[i].pc).Ok? ==> Defined(Visit(cs[i], s), cs[i].name)
  {
    var t := Visit(cs[i], s);
    forall k | 0 <= k < |cs| && Defined(t, cs[k].name)
      ensures EvalExpr(cs[k].expr, t, cs[k].pc) == Ok(t[cs[k].name].value)
    {
      EvalExtends(cs[k].expr, s, t, cs[k].pc);
    }
  }

  lemma {:induction false} SweepToExtends(cs: seq<Constant>, s: Symbols, i: nat)
    requires Declared(cs, s) && Consistent(cs, s) && i <= |cs|
    ensures var t := SweepTo(cs, s, i); Extends(s, t) && Consistent(cs, t) && Declared(cs, t)
    ensures forall k :: 0 <= k < i && EvalExpr(cs[k].expr, s, cs[k].pc).Ok? ==> Defined(SweepTo(cs, s, i), cs[k].name)
  {
    if i > 0 {
      SweepToExtends(cs, s, i - 1);
      var t := SweepTo(cs, s, i - 1);
      VisitExtends(cs, t, i - 1);
      ExtendsTrans(s, t, SweepTo(cs, s, i));
      forall k | 0 <= k < i && EvalExpr(cs[k].expr, s, cs[k].pc).Ok?
        ensures Defined(SweepTo(cs, s, i), cs[k].name)
      {
        EvalExtends(cs[k].expr, s, t, cs[k].pc);
        assert KeptBy(t, SweepTo(cs, s, i), cs[k].name);
      }
    }
  }

  /** However many sweeps are made, no value ever changes and every value is its expression's. */
  lemma {:induction false} SweepsConsistent(cs: seq<Constant>, s: Symbols, m: nat, n: nat)
    requires Fresh(cs, s) && m <= n
    ensures Extends(Sweeps(cs, s, m), Sweeps(cs, s, n)) && Consistent(cs, Sweeps(cs, s, n)) && Declared(cs, Sweeps(cs, s, n))
  {
    if m < n {
      SweepsConsistent(cs, s, m, n - 1);
      SweepToExtends(cs, Sweeps(cs, s, n - 1), |cs|);
      ExtendsTrans(Sweeps(cs, s, m), Sweeps(cs, s, n - 1), Sweeps(cs, s, n));
    } else if n > 0 {
      SweepsConsistent(cs, s, n - 1, n);
    }
  }

  // ----- what the values are, without an order -----

  /** All constants replaced at once by what their expressions are worth under s. */
  function Together(cs: seq<Constant>, s: Symbols): (t: Symbols)
    ensures t.Keys == s.Keys
  {
    map x | x in s :: ValueOf(cs, s, x)
  }

  function ValueOf(cs: seq<Constant>, s: Symbols, x: string): Option<int>
    requires x in s
  {
    var i := IndexOf(cs, x);
    if i == |cs| then s[x]
    else match EvalExpr(cs[i].expr, s, cs[i].pc) case Ok(v) => Some(v) case _ => s[x]
  }

  function IndexOf(cs: seq<Constant>, x: string): (i: nat)
    ensures i <= |cs| && (i < |cs| ==> cs[i].name == x)
    ensures i == |cs| ==> forall k :: 0 <= k < |cs| ==> cs[k].name != x
  {
    if cs == [] then 0 else if cs[0].name == x then 0 else 1 + IndexOf(cs[1..], x)
  }

  /** Values with dependency depth at most k. */
  function Depth(cs: seq<Constant>, s: Symbols, k: nat): (t: Symbols)
    ensures t.Keys == s.Keys
  {
    if k == 0 then s else Together(cs, Depth(cs, s, k - 1))
  }

  /** What one simultaneous step defines under d, one sweep under a richer t defines alike. */
  lemma SweepCoversTogether(cs: seq<Constant>, d: Symbols, t: Symbols, x: string)
    requires Declared(cs, t) && Consistent(cs, t) && Extends(d, t)
    ensures KeptBy(Together(cs, d), Sweep(cs, t), x)
  {
    SweepToExtends(cs, t, |cs|);
    assert KeptBy(d, t, x) && KeptBy(t, Sweep(cs, t), x);
    if Defined(Together(cs, d), x) {
      var i := IndexOf(cs, x);
      if i < |cs| && EvalExpr(cs[i].expr, d, cs[i].pc).Ok? {
        EvalExtends(cs[i].expr, d, t, cs[i].pc);
        EvalExtends(cs[i].expr, t, Sweep(cs, t), cs[i].pc);
      }
    }
  }

  /** k sweeps give every constant of depth at most k its value, whatever the source order. */
  lemma {:induction false} SweepsReachDepth(cs: seq<Constant>, s: Symbols, k: nat)
    requires Fresh(cs, s)
    ensures Extends(Depth(cs, s, k), Sweeps(cs, s, k))
  {
    hide *;
    DepthZero(cs, s);
    SweepsNext(cs, s, k);
    if k == 0 {
      ExtendsRefl(s);
    } else {
      SweepsReachDepth(cs, s, k - 1);
      SweepsConsistent(cs, s, 0, k - 1);
      DepthNext(cs, s, k - 1);
      SweepCoversAll(cs, Depth(cs, s, k - 1), Sweeps(cs, s, k - 1));
    }
  }

  lemma SweepCoversAll(cs: seq<Constant>, d: Symbols, t: Symbols)
    requires Declared(cs, t) && Consistent(cs, t) && Extends(d, t)
    ensures Extends(Together(cs, d), SweepTo(cs, t, |cs|))
  {
    assert Sweep(cs, t) == SweepTo(cs, t, |cs|);
    hide SweepTo, Together, KeptBy;
    forall x
      ensures KeptBy(Together(cs, d), SweepTo(cs, t, |cs|), x)
    {
      SweepCoversTogether(cs, d, t, x);
    }
  }

  /** The values at any depth are final and are their expressions' values. */
  lemma {:induction false} DepthGrows(cs: seq<Constant>, s: Symbols, k: nat)
    requires Fresh(cs, s)
    ensures Extends(Depth(cs, s, k), Depth(cs, s, k + 1))
    ensures Consistent(cs, Depth(cs, s, k)) && Declared(cs, Depth(cs, s, k))
  {
    hide *;
    DepthZero(cs, s);
    DepthNext(cs, s, k);
    if k > 0 {
      DepthGrows(cs, s, k - 1);
      DepthNext(cs, s, k - 1);
      TogetherConsistent(cs, Depth(cs, s, k - 1));
    }
    TogetherExtends(cs, Depth(cs, s, k));
  }

  lemma DepthZero(cs: seq<Constant>, s: Symbols)
    requires Fresh(cs, s)
    ensures Depth(cs, s, 0) == s && Consistent(cs, s) && Declared(cs, s)
  {
  }

  lemma DepthNext(cs: seq<Constant>, s: Symbols, k: nat)
    ensures Depth(cs, s, k + 1) == Together(cs, Depth(cs, s, k))
  {
  }

  lemma TogetherExtends(cs: seq<Constant>, d: Symbols)
    requires Consistent(cs, d)
    ensures Extends(d, Together(cs, d))
  {
    forall x
      ensures KeptBy(d, Together(cs, d), x)
    {
      var i := IndexOf(cs, x);
    }
  }

  lemma TogetherConsistent(cs: seq<Constant>, d: Symbols)
    requires Consistent(cs, d) && Declared(cs, d)
    ensures Consistent(cs, Together(cs, d)) && Declared(cs, Together(cs, d))
  {
    var t := Together(cs, d);
    TogetherExtends(cs, d);
    forall i | 0 <= i < |cs| && Defined(t, cs[i].name)
      ensures EvalExpr(cs[i].expr, t, cs[i].pc) == Ok(t[cs[i].name].value)
    {
      var k := IndexOf(cs, cs[i].name);
      assert k == i;
      EvalExtends(cs[i].expr, d, t, cs[i].pc);
    }
  }

  lemma {:induction false} DepthExtends(cs: seq<Constant>, s: Symbols, j: nat, k: nat)
    requires Fresh(cs, s) && j <= k
    ensures Extends(Depth(cs, s, j), Depth(cs, s, k))
  {
    hide *;
    if j < k {
      DepthExtends(cs, s, j, k - 1);
      DepthGrows(cs, s, k - 1);
      ExtendsTrans(Depth(cs, s, j), Depth(cs, s, k - 1), Depth(cs, s, k));
    } else {
      ExtendsRefl(Depth(cs, s, j));
    }
  }

  lemma ExtendsRefl(s: Symbols)
    ensures Extends(s, s)
  {
  }

  /** Sweeping defines nothing that has no value at some depth. */
  lemma {:induction false} SweepToWithinDepth(cs: seq<Constant>, s: Symbols, t: Symbols, k: nat, i: nat)
    requires Fresh(cs, s) && Extends(t, Depth(cs, s, k)) && i <= |cs|
    ensures Extends(SweepTo(cs, t, i), Depth(cs, s, k + i))
  {
    hide *;
    SweepToNext(cs, t, i);
    if i > 0 {
      SweepToWithinDepth(cs, s, t, k, i - 1);
      DepthGrows(cs, s, k + i - 1);
      DepthNext(cs, s, k + i - 1);
      VisitWithinTogether(cs, SweepTo(cs, t, i - 1), Depth(cs, s, k + i - 1), i - 1);
    }
  }

  lemma SweepToNext(cs: seq<Constant>, t: Symbols, i: nat)
    requires i <= |cs|
    ensures SweepTo(cs, t, i) == if i == 0 then t else Visit(cs[i - 1], SweepTo(cs, t, i - 1))
  {
  }

  lemma SweepsNext(cs: seq<Constant>, s: Symbols, n: nat)
    ensures Sweeps(cs, s, n) == if n == 0 then s else SweepTo(cs, Sweeps(cs, s, n - 1), |cs|)
  {
  }

  lemma VisitWithinTogether(cs: seq<Constant>, u: Symbols, d: Symbols, i: nat)
    requires Consistent(cs, d) && Declared(cs, d) && Extends(u, d) && i < |cs|
    ensures Extends(Visit(cs[i], u), Together(cs, d))
  {
    TogetherExtends(cs, d);
    forall x
      ensures KeptBy(Visit(cs[i], u), Together(cs, d), x)
    {
      assert KeptBy(u, d, x) && KeptBy(d, Together(cs, d), x);
      if x == cs[i].name && EvalExpr(cs[i].expr, u, cs[i].pc).Ok? {
        assert IndexOf(cs, x) == i;
        EvalExtends(cs[i].expr, u, d, cs[i].pc);
      }
    }
  }

  lemma {:induction false} SweepsWithinDepth(cs: seq<Constant>, s: Symbols, n: nat)
    requires Fresh(cs, s)
    ensures Extends(Sweeps(cs, s, n), Depth(cs, s, n * |cs|))
  {
    hide *;
    SweepsNext(cs, s, n);
    DepthZero(cs, s);
    ExtendsRefl(s);
    if n > 0 {
      SweepsWithinDepth(cs, s, n - 1);
      SweepToWithinDepth(cs, s, Sweeps(cs, s, n - 1), (n - 1) * |cs|, |cs|);
      assert (n - 1) * |cs| + |cs| == n * |cs|;
    }
  }

  /** When a sweep changes nothing the table is the same for every order of the constants: it holds
      exactly the values found at some depth. */
  lemma StableIsDepth(cs: seq<Constant>, s: Symbols, n: nat, x: string, k: nat)
    requires Fresh(cs, s) && Sweep(cs, Sweeps(cs, s, n)) == Sweeps(cs, s, n)
    ensures Defined(Depth(cs, s, k), x) ==> Defined(Sweeps(cs, s, n), x) && Sweeps(cs, s, n)[x] == Depth(cs, s, k)[x]
    ensures Defined(Sweeps(cs, s, n), x) ==> exists j: nat :: Defined(Depth(cs, s, j), x)
  {
    hide *;
    SweepsWithinDepth(cs, s, n);
    KeptFact(Sweeps(cs, s, n), Depth(cs, s, n * |cs|), x);
    SweepsStay(cs, s, n, k);
    SweepsReachDepth(cs, s, n + k);
    DepthExtends(cs, s, k, n + k);
    KeptFact(Depth(cs, s, k), Depth(cs, s, n + k), x);
    KeptFact(Depth(cs, s, n + k), Sweeps(cs, s, n + k), x);
    DefinedSome(Sweeps(cs, s, n), x);
    DefinedSome(Depth(cs, s, k), x);
  }

  lemma KeptFact(s: Symbols, t: Symbols, x: string)
    requires Extends(s, t)
    ensures Defined(s, x) ==> x in s && Defined(t, x) && x in t && t[x] == s[x]
  {
    assert KeptBy(s, t, x);
  }

  lemma DefinedSome(s: Symbols, x: string)
    ensures Defined(s, x) ==> x in s
  {
  }

  lemma {:induction false} SweepsStay(cs: seq<Constant>, s: Symbols, n: nat, k: nat)
    requires Sweep(cs, Sweeps(cs, s, n)) == Sweeps(cs, s, n)
    ensures Sweeps(cs, s, n + k) == Sweeps(cs, s, n)
  {
    if k > 0 { SweepsStay(cs, s, n, k - 1); }
  }

  // ----- cycles -----

  /** Every constant in `cycle` needs another one in it. */
  ghost predicate Cyclic(cs: seq<Constant>, cycle: set<string>) {
    forall i :: 0 <= i < |cs| && cs[i].name in cycle ==> exists y :: y in Idents(cs[i].expr) && y in cycle
  }

  /** Constants that depend on one another in a circle never get a value. */
  lemma {:induction false} CycleStaysUndefined(cs: seq<Constant>, s: Symbols, cycle: set<string>, n: nat)
    requires Cyclic(cs, cycle) && forall x :: x in cycle ==> !Defined(s, x)
    ensures forall x :: x in cycle ==> !Defined(Sweeps(cs, s, n), x)
  {
    if n > 0 {
      CycleStaysUndefined(cs, s, cycle, n - 1);
      CycleThroughSweep(cs, Sweeps(cs, s, n - 1), cycle, |cs|);
    }
  }

  lemma {:induction false} CycleThroughSweep(cs: seq<Constant>, s: Symbols, cycle: set<string>, i: nat)
    requires Cyclic(cs, cycle) && i <= |cs| && forall x :: x in cycle ==> !Defined(s, x)
    ensures forall x :: x in cycle ==> !Defined(SweepTo(cs, s, i), x)
  {
    if i > 0 {
      CycleThroughSweep(cs, s, cycle, i - 1);
      CycleNotOk(cs, SweepTo(cs, s, i - 1), cycle, i - 1);
    }
  }

  lemma CycleNotOk(cs: seq<Constant>, s: Symbols, cycle: set<string>, i: nat)
    requires Cyclic(cs, cycle) && i < |cs| && forall x :: x in cycle ==> !Defined(s, x)
    ensures cs[i].name in cycle ==> !EvalExpr(cs[i].expr, s, cs[i].pc).Ok?
  {
    EvalDefined(cs[i].expr, s, cs[i].pc);
  }

  /** How the loop ends: at most 64 sweeps, the last of which changed something only if it was the 64th. */
  ghost predicate Finished(cs: seq<Constant>, s: Symbols, t: Symbols, sweeps: nat) {
    sweeps <= 64 && t == Sweeps(cs, s, sweeps) && (sweeps < 64 ==> Sweep(cs, t) == t)
  }

  /** Every constant of dependency depth at most 64 has its value in the end, in whatever order the
      constants are written, and no constant has a value that is not its expression's. */
  lemma FinishedIsDepth(cs: seq<Constant>, s: Symbols, t: Symbols, sweeps: nat, x: string)
    requires Fresh(cs, s) && Finished(cs, s, t, sweeps)
    ensures Consistent(cs, t)
    ensures Defined(Depth(cs, s, 64), x) ==> Defined(t, x) && t[x] == Depth(cs, s, 64)[x]
    ensures Defined(t, x) ==> exists j: nat :: Defined(Depth(cs, s, j), x) && Depth(cs, s, j)[x] == t[x]
  {
    hide Sweeps, Depth, Fresh, Consistent, Declared, Extends, KeptBy, Sweep;
    SweepsConsistent(cs, s, 0, sweeps);
    if sweeps == 64 {
      SweepsReachDepth(cs, s, 64);
      KeptFact(Depth(cs, s, 64), t, x);
    } else {
      StableIsDepth(cs, s, sweeps, x, 64);
    }
    SweepsWithinDepth(cs, s, sweeps);
    KeptFact(t, Depth(cs, s, sweeps * |cs|), x);
  }

  /** Constants on a dependency circle have no value in the end and cannot be evaluated, so each is reported. */
  lemma FinishedCycle(cs: seq<Constant>, s: Symbols, t: Symbols, sweeps: nat, cycle: set<string>, i: nat)
    requires Finished(cs, s, t, sweeps) && i < |cs| && cs[i].name in cycle
    requires Cyclic(cs, cycle) && forall x :: x in cycle ==> !Defined(s, x)
    ensures Stuck(cs[i], t)
  {
    CycleStaysUndefined(cs, s, cycle, sweeps);
    CycleNotOk(cs, t, cycle, i);
  }

  /** Stopping early makes no difference: the table is the one after 64 sweeps. */
  lemma FinishedIsSixtyFour(cs: seq<Constant>, s: Symbols, t: Symbols, sweeps: nat)
    requires Finished(cs, s, t, sweeps)
    ensures t == Sweeps(cs, s, 64)
  {
    if sweeps < 64 {
      SweepsStay(cs, s, sweeps, 64 - sweeps);
    }
  }

  // ----- the loop -----

  /** No value, and none to be had. */
  predicate Stuck(c: Constant, t: Symbols) {
    !Defined(t, c.name) && !EvalExpr(c.expr, t, c.pc).Ok?
  }

  function StuckCount(cs: seq<Constant>, t: Symbols, i: nat): nat
    requires i <= |cs|
  {
    if i == 0 then 0 else StuckCount(cs, t, i - 1) + (if Stuck(cs[i - 1], t) then 1 else 0)
  }

  /** At most 64 sweeps, stopping early once nothing changes; then every constant without a value
      whose expression has none is reported. */
  method Resolve(cs: seq<Constant>, s: Symbols) returns (t: Symbols, sweeps: nat, reported: nat)
    ensures Finished(cs, s, t, sweeps)
    ensures reported == StuckCount(cs, t, |cs|)
  {
    t, sweeps := s, 0;
    var changed := true;
    while changed && sweeps < 64
      invariant sweeps <= 64 && t == Sweeps(cs, s, sweeps)
      invariant !changed ==> Sweep(cs, t) == t
      decreases 64 - sweeps, changed
    {
      changed := false;
      ghost var before := t;
      var i := 0;
      while i < |cs|
        invariant 0 <= i <= |cs| && t == SweepTo(cs, before, i)
        invariant !changed ==> t == before
      {
        var v := EvalExpr(cs[i].expr, t, cs[i].pc);
        if v.Ok? && cs[i].name in t && t[cs[i].name] != Some(v.value) {
          t := t[cs[i].name := Some(v.value)];
          changed := true;
        }
        i := i + 1;
      }
      if changed {
        sweeps := sweeps + 1;
      }
    }
    reported := 0;
    var i := 0;
    while i < |cs|
      invariant 0 <= i <= |cs| && reported == StuckCount(cs, t, i)
    {
      if Stuck(cs[i], t) {
        reported := reported + 1;
      }
      i := i + 1;
    }
  }
}
