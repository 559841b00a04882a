/** Which ways of passing an argument are preferred to which, and what that means for the function chosen. */
module OverloadRank {
  import opened Basics
  import opened OverloadCost
  import opened Overload

  /** The argument has the parameter's type and shape, arrays by value counting as pointers, and can be referred to where
      it has to be. */
  ghost predicate Exact(p: Parameter, a: Argument)
    requires p.Fixed?
  {
    var shape := Adjusted(p.shape, p.byRef);
    && a.of.Some? && a.of.value.name == p.of.name
    && (match a.shape
        case None => shape.pointers == 0 && shape.arrays == []
        case Some(s) => s.pointers == shape.pointers && s.arrays == shape.arrays)
    && (p.byRef ==> a.isLvalue)
  }

  /** An array parameter by value is a pointer to what the array's elements are; every other parameter is as written. */
  lemma ArraysArePointers(s: Shape, byRef: bool)
    ensures var r := Adjusted(s, byRef);
      if !byRef && s.pointers == 0 && |s.arrays| > 0
      then r.pointers == 1 && [s.arrays[0]] + r.arrays == s.arrays && r.functionPointers == s.functionPointers
      else r == s
  {
  }

  ghost predicate PlainIntegers(p: Parameter, a: Argument)
    requires p.Fixed?
  {
    && !p.byRef && a.of.Some? && IsInteger(a.of.value) && IsInteger(p.of)
    && IsPlain(Adjusted(p.shape, false)) && (a.shape.Some? ==> IsPlain(a.shape.value))
  }

  /** An argument that is no literal can be passed exactly where its type and shape are the parameter's; as a pointer to
      void; or as an integer to one that holds its values, or has its size. */
  lemma PassableIff(p: Parameter, a: Argument)
    requires p.Fixed? && a.literal.None?
    ensures ArgumentCost(p, a).Some? <==>
      || Exact(p, a)
      || (a.of.Some? && !p.byRef && VoidPointerTakes(p.of, Adjusted(p.shape, false), a.shape))
      || (PlainIntegers(p, a) && (CanRepresent(p.of, a.of.value) || a.of.value.size == p.of.size))
  {
    if a.of.Some? && !p.byRef && !Exact(p, a) && !VoidPointerTakes(p.of, Adjusted(p.shape, false), a.shape) {
      PromotedIff(p, a);
    }
    hide CanRepresent, PromotionCost;
  }

  lemma PromotedIff(p: Parameter, a: Argument)
    requires p.Fixed? && a.of.Some? && !p.byRef
    ensures PromotionCost(a.of.value, a.shape, p.of, Adjusted(p.shape, false)).Some?
      <==> PlainIntegers(p, a) && CanRepresent(p.of, a.of.value)
  {
    var shape := Adjusted(p.shape, false);
    if a.shape.Some? && IsPlain(a.shape.value) && IsPlain(shape) { assert SameShape(a.shape.value, shape); }
  }

  /** One pointer to data is enough to pass to a parameter that is one pointer to void. */
  lemma VoidPointersTake(formal: Type, formalShape: Shape, actualShape: Option<Shape>)
    ensures VoidPointerTakes(formal, formalShape, actualShape) <==>
      exists n, m :: formal.name == "void" && formalShape == Shape(1, n, 0) && actualShape == Some(Shape(1, m, 0))
  {
    if VoidPointerTakes(formal, formalShape, actualShape) {
      assert formalShape == Shape(1, formalShape.arrays, 0) && actualShape == Some(Shape(1, actualShape.value.arrays, 0));
    }
  }

  /** What is passed as it is costs nothing by reference and 1 by value, anything else at least 12. */
  lemma ExactIsCheapest(p: Parameter, a: Argument)
    requires p.Fixed? && a.literal.None? && ArgumentCost(p, a).Some?
    ensures Exact(p, a) ==> ArgumentCost(p, a) == Some(if p.byRef then 0 else 1)
    ensures !Exact(p, a) ==> !p.byRef && ArgumentCost(p, a).value >= 12
  {
  }

  predicate IsPromotion(p: Parameter, a: Argument)
    requires p.Fixed?
  {
    a.of.Some? && a.of.value.name != p.of.name && !p.byRef && CanRepresent(p.of, a.of.value)
  }

  predicate IsReread(p: Parameter, a: Argument)
    requires p.Fixed?
  {
    a.of.Some? && a.of.value.name != p.of.name && !p.byRef && !CanRepresent(p.of, a.of.value)
    && IsInteger(a.of.value) && IsInteger(p.of) && p.of.size == a.of.value.size > 0
  }

  /** Of the conversions that to a pointer to void comes first, then promotions, and an integer type of the same size that
      does not hold the values comes after all promotions by up to three bytes, and before those by five or more. */
  lemma ConversionsInOrder(p: Parameter, q: Parameter, a: Argument)
    requires p.Fixed? && q.Fixed? && a.literal.None? && ArgumentCost(p, a).Some? && ArgumentCost(q, a).Some?
    requires a.of.Some? && IsPromotion(q, a)
    ensures !Exact(p, a) && VoidPointerTakes(p.of, Adjusted(p.shape, p.byRef), a.shape) && !VoidPointerTakes(q.of, Adjusted(q.shape, q.byRef), a.shape) ==>
      ArgumentCost(p, a).value < ArgumentCost(q, a).value
    ensures (IsReread(p, a) && !VoidPointerTakes(q.of, Adjusted(q.shape, q.byRef), a.shape)
             && !VoidPointerTakes(p.of, Adjusted(p.shape, p.byRef), a.shape)) ==>
        && (q.of.size <= a.of.value.size + 3 ==> ArgumentCost(q, a).value < ArgumentCost(p, a).value)
        && (q.of.size >= a.of.value.size + 5 ==> ArgumentCost(q, a).value > ArgumentCost(p, a).value)
  {
  }

  /** A literal goes to the smaller of two integer types that hold it, and of two of one size to the unsigned one; to a
      pointer of up to eight levels it goes, being zero, before any integer. */
  lemma LiteralsInOrder(p: Parameter, q: Parameter, a: Argument)
    requires p.Fixed? && q.Fixed? && a.of.Some? && a.literal.Some? && !p.byRef && !q.byRef
    requires LiteralFits(a.literal.value, q.of, Adjusted(q.shape, false))
    ensures LiteralFits(a.literal.value, p.of, Adjusted(p.shape, false)) && p.of.size < q.of.size ==>
      ArgumentCost(p, a).value < ArgumentCost(q, a).value
    ensures LiteralFits(a.literal.value, p.of, Adjusted(p.shape, false)) && p.of.size == q.of.size && !IsSigned(p.of) && IsSigned(q.of) ==>
      ArgumentCost(p, a).value < ArgumentCost(q, a).value
    ensures a.literal.value == 0 && 0 < Adjusted(p.shape, false).pointers <= 8 ==> ArgumentCost(p, a).value < ArgumentCost(q, a).value
  {
    hide LargestLiteral;
  }

  // ----- whole calls -----

  ghost predicate NoLiterals(args: seq<Argument>) {
    forall a :: a in args ==> a.literal.None?
  }

  /** Every argument is passed as it is, and there are as many as parameters. */
  ghost predicate AllExact(fn: Function, args: seq<Argument>) {
    var fixed := FixedOf(fn);
    !IsVariadic(fn) && Untyped !in fn.params && |fixed| == |args| && forall k :: 0 <= k < |fixed| ==> Exact(fixed[k], args[k])
  }

  /** Parameters among the first n that are passed by value. */
  function ByValue(fixed: seq<Parameter>, n: nat): (c: nat)
    requires n <= |fixed| && forall k :: 0 <= k < |fixed| ==> fixed[k].Fixed?
    ensures c <= n
  {
    if n == 0 then 0 else ByValue(fixed, n - 1) + (if fixed[n - 1].byRef then 0 else 1)
  }

  lemma {:induction false} ExactSum(fixed: seq<Parameter>, args: seq<Argument>, n: nat)
    requires n <= |fixed| && n <= |args| && NoLiterals(args) && forall k :: 0 <= k < |fixed| ==> fixed[k].Fixed?
    requires forall k :: 0 <= k < n ==> Exact(fixed[k], args[k])
    ensures Convertible(fixed, args, n) && Sum(fixed, args, n) == ByValue(fixed, n)
  {
    hide Exact, ArgumentCost;
    if n > 0 {
      ExactSum(fixed, args, n - 1);
      assert args[n - 1] in args;
      PassableIff(fixed[n - 1], args[n - 1]);
      ExactIsCheapest(fixed[n - 1], args[n - 1]);
    }
  }

  lemma {:induction false} ConvertedSum(fixed: seq<Parameter>, args: seq<Argument>, n: nat, k: nat)
    requires k < n <= |fixed| && n <= |args| && NoLiterals(args) && forall k :: 0 <= k < |fixed| ==> fixed[k].Fixed?
    requires Convertible(fixed, args, n) && !Exact(fixed[k], args[k])
    ensures Sum(fixed, args, n) >= 12
  {
    hide Exact, ArgumentCost;
    assert args[n - 1] in args;
    if k == n - 1 {
      ExactIsCheapest(fixed[k], args[k]);
    } else {
      ConvertedSum(fixed, args, n - 1, k);
    }
  }

  lemma ExactCost(fn: Function, args: seq<Argument>)
    requires AllExact(fn, args) && NoLiterals(args)
    ensures Viable(fn, args) && CallCost(fn, args) == ByValue(FixedOf(fn), |args|)
  {
    hide Exact, ArgumentCost, FixedParams;
    ExactSum(FixedOf(fn), args, |args|);
  }

  /** Any other function that can be called costs at least 12. */
  lemma OtherCost(fn: Function, args: seq<Argument>)
    requires Viable(fn, args) && !AllExact(fn, args) && NoLiterals(args)
    ensures CallCost(fn, args) >= if IsVariadic(fn) then 1024 else 12
  {
    hide Exact, ArgumentCost, FixedParams;
    if !IsVariadic(fn) {
      var fixed := FixedOf(fn);
      var k: nat :| k < |fixed| && !Exact(fixed[k], args[k]);
      ConvertedSum(fixed, args, |fixed|, k);
    }
  }

  /** So where some function takes all arguments as they are, at most twelve of them by value, and none is a literal, the
      function chosen does that too: never a conversion, never a variadic function. */
  lemma ExactWins(entries: seq<Entry>, name: string, args: seq<Argument>, f: Function, c: Choice)
    requires NoLiterals(args) && f in Named(entries, name) && AllExact(f, args)
    requires ByValue(FixedOf(f), |args|) <= 12
    requires Answers(c, Named(entries, name), args)
    ensures c.Chosen? || c.Ambiguous?
    ensures c.Chosen? ==> AllExact(c.fn, args)
  {
    hide AllExact, CallCost, Viable, NoLiterals, FixedOf, Named;
    ExactCost(f, args);
    if c.Chosen? {
      if !AllExact(c.fn, args) {
        OtherCost(c.fn, args);
        assert false;
      }
    } else {
      assert Callable(Named(entries, name), args);
    }
  }

  /** With fewer than twelve only such functions can be tied. */
  lemma OnlyExactTie(among: set<Function>, args: seq<Argument>, f: Function, g: Function)
    requires NoLiterals(args) && f in among && AllExact(f, args) && ByValue(FixedOf(f), |args|) < 12
    requires Cheapest(g, among, args)
    ensures AllExact(g, args)
  {
    hide AllExact, CallCost, Viable, NoLiterals, FixedOf;
    ExactCost(f, args);
    if !AllExact(g, args) { OtherCost(g, args); }
  }

  // ----- more than twelve are too many -----

  const INT := Type("int", SignedInt, 2, None)
  const CHAR := Type("char", UnsignedInt, 1, None)
  const VOID := Type("void", NotInteger, 0, None)
  const VALUE := Shape(0, [], 0)
  const ONE_STAR := Shape(1, [], 0)

  /** n variables and a pointer. */
  function ManyArgs(n: nat): (args: seq<Argument>)
    ensures |args| == n + 1
  {
    seq(n, _ => Argument(Some(INT), Some(VALUE), true, None)) + [Argument(Some(CHAR), Some(ONE_STAR), true, None)]
  }

  /** Takes the variables by value and the pointer as it is. */
  function Copying(n: nat): Function {
    Function(0, VOID, VALUE, false, seq(n, _ => Fixed(INT, VALUE, false)) + [Fixed(CHAR, ONE_STAR, false)], false)
  }

  /** Takes the variables by reference and the pointer as one to void. */
  function Referring(n: nat): Function {
    Function(1, VOID, VALUE, false, seq(n, _ => Fixed(INT, VALUE, true)) + [Fixed(VOID, ONE_STAR, false)], false)
  }

  lemma {:induction false} AllFixed(ps: seq<Parameter>, i: nat)
    requires i <= |ps| && forall k :: 0 <= k < |ps| ==> ps[k].Fixed?
    ensures FixedParams(ps, i) == ps[..i]
  {
    if i > 0 { AllFixed(ps, i - 1); }
  }

  lemma {:induction false} ByValueAll(fixed: seq<Parameter>, n: nat, byRef: bool)
    requires n <= |fixed| && (forall k :: 0 <= k < |fixed| ==> fixed[k].Fixed?) && forall k :: 0 <= k < n ==> fixed[k].byRef == byRef
    ensures ByValue(fixed, n) == if byRef then 0 else n
  {
    if n > 0 { ByValueAll(fixed, n - 1, byRef); }
  }

  lemma CopyingCost(n: nat)
    ensures AllExact(Copying(n), ManyArgs(n)) && Viable(Copying(n), ManyArgs(n))
    ensures CallCost(Copying(n), ManyArgs(n)) == n + 1
  {
    var f, args := Copying(n), ManyArgs(n);
    AllFixed(f.params, n + 1);
    assert FixedOf(f) == f.params;
    hide FixedParams;
    ExactCost(f, args);
    ByValueAll(FixedOf(f), n + 1, false);
  }

  lemma ReferringCost(n: nat)
    ensures Viable(Referring(n), ManyArgs(n)) && !AllExact(Referring(n), ManyArgs(n))
    ensures CallCost(Referring(n), ManyArgs(n)) == 12
  {
    var g, args := Referring(n), ManyArgs(n);
    AllFixed(g.params, n + 1);
    var fixed := FixedOf(g);
    assert fixed == g.params;
    hide FixedParams;
    ExactSum(fixed, args, n);
    ByValueAll(fixed, n, true);
    assert ArgumentCost(fixed[n], args[n]) == Some(12) && !Exact(fixed[n], args[n]);
    hide ArgumentCost, Exact;
    assert Convertible(fixed, args, n + 1);
    assert Sum(fixed, args, n + 1) == Sum(fixed, args, n) + 12;
  }

  lemma ReferringIsBest(n: nat)
    ensures n == 11 ==> Tied({Copying(n), Referring(n)}, ManyArgs(n))
    ensures n >= 12 ==> Best(Referring(n), {Copying(n), Referring(n)}, ManyArgs(n))
  {
    var f, g, args := Copying(n), Referring(n), ManyArgs(n);
    assert f != g;
    CopyingCost(n);
    ReferringCost(n);
    hide Viable, CallCost, Copying, Referring, ManyArgs, AllExact;
    var among := {f, g};
    assert f in among && g in among;
    if n == 11 { assert Cheapest(f, among, args) && Cheapest(g, among, args); }
  }

  /** The function chosen for the arguments, where f takes n of them by value and all of them as they are. */
  ghost predicate Asked(n: nat, entries: seq<Entry>, name: string, args: seq<Argument>, f: Function, c: Choice) {
    && NoLiterals(args) && f in Named(entries, name) && AllExact(f, args) && ByValue(FixedOf(f), |args|) == n
    && Answers(c, Named(entries, name), args)
  }

  ghost predicate NeverConverts(n: nat) {
    forall entries, name, args, f, c :: Asked(n, entries, name, args, f, c) && c.Chosen? ==> AllExact(c.fn, args)
  }

  /** Twelve arguments by value is as many as this holds for: from thirteen on a function that refers to the variables and
      converts a single pointer is cheaper than one that takes everything as it is. */
  lemma TwelveAtMost(n: nat)
    ensures NeverConverts(n) <==> n <= 12
  {
    hide Asked, AllExact, Answers;
    if n <= 12 {
      forall entries, name, args, f, c | Asked(n, entries, name, args, f, c) && c.Chosen?
        ensures AllExact(c.fn, args)
      {
        AskedParts(n, entries, name, args, f, c);
        ExactWins(entries, name, args, f, c);
      }
    } else {
      var entries := ConversionWins(n - 1);
      ReferringCost(n - 1);
      assert !AllExact(Chosen(Referring(n - 1)).fn, ManyArgs(n - 1));
    }
  }

  lemma AskedParts(n: nat, entries: seq<Entry>, name: string, args: seq<Argument>, f: Function, c: Choice)
    requires Asked(n, entries, name, args, f, c)
    ensures NoLiterals(args) && f in Named(entries, name) && AllExact(f, args) && ByValue(FixedOf(f), |args|) == n
    ensures Answers(c, Named(entries, name), args)
  {
    hide AllExact, Answers, NoLiterals, FixedOf, ByValue, Named;
  }

  lemma ConversionWins(n: nat) returns (entries: seq<Entry>)
    requires n >= 12
    ensures Asked(n + 1, entries, "f", ManyArgs(n), Copying(n), Chosen(Referring(n)))
  {
    var f, g, args := Copying(n), Referring(n), ManyArgs(n);
    entries := [Entry("f", f), Entry("f", g)];
    assert Named(entries, "f") == {f, g} by {
      assert entries[0] in entries && entries[1] in entries;
    }
    AllFixed(f.params, n + 1);
    ByValueAll(FixedOf(f), n + 1, false);
    CopyingCost(n);
    ReferringIsBest(n);
    hide Named, AllExact, Best, FixedParams, ByValue;
  }
}
