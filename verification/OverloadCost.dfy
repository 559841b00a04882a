/** What it costs to pass an argument to a parameter, and arguments to a function. */
module OverloadCost {
  import opened Basics
  import opened TwosComplement

  datatype Style = SignedInt | UnsignedInt | NotInteger

  datatype Type = Type(name: string, style: Style, size: int, endian: Option<string>)

  /** The part of a declarator that signatures compare: pointer depth, array dimensions, and whether it points to a
      function. A missing declarator is a plain value. */
  datatype Shape = Shape(pointers: nat, arrays: seq<string>, functionPointers: nat)

  datatype Parameter = VoidMarker | Ellipsis | Untyped | Fixed(of: Type, shape: Shape, byRef: bool)

  /** An argument: its type when known, its declarator when it has one, whether it can be referred to, and its value
      when it is an integer literal of no stated type. */
  datatype Argument = Argument(of: Option<Type>, shape: Option<Shape>, isLvalue: bool, literal: Option<nat>)

  predicate IsInteger(t: Type) { !t.style.NotInteger? }

  predicate IsSigned(t: Type) { t.style.SignedInt? }

  predicate IsPlain(s: Shape) { s.pointers == 0 && s.arrays == [] }

  predicate SameShape(a: Shape, b: Shape) { a.pointers == b.pointers && a.arrays == b.arrays }

  predicate EndianDiffers(a: Type, b: Type) { a.endian.Some? && b.endian.Some? && a.endian != b.endian }

  /** Arrays are passed as pointers to their elements, unless by reference. */
  function Adjusted(s: Shape, byRef: bool): Shape {
    if !byRef && s.pointers == 0 && s.arrays != [] then s.(pointers := 1, arrays := s.arrays[1..]) else s
  }

  predicate CanRepresent(formal: Type, actual: Type) {
    && IsInteger(formal) && IsInteger(actual) && formal.size > 0 && actual.size > 0
    && if IsSigned(formal) == IsSigned(actual) then formal.size >= actual.size
       else IsSigned(formal) && formal.size >= actual.size + 1
  }

  function SignCost(a: Type, b: Type): nat { if IsSigned(a) != IsSigned(b) then 4 else 0 }

  function EndianCost(a: Type, b: Type): nat { if EndianDiffers(a, b) then 1 else 0 }

  function PromotionCost(actual: Type, actualShape: Option<Shape>, formal: Type, formalShape: Shape): Option<nat> {
    if actualShape.Some? && !(SameShape(actualShape.value, formalShape) && IsPlain(actualShape.value)) then None
    else if !IsPlain(formalShape) || !CanRepresent(formal, actual) then None
    else Some((formal.size - actual.size) * 16 + SignCost(formal, actual)
              + (if formal.size > 1 then EndianCost(actual, formal) else 0))
  }

  /** The largest literal a type is taken to hold; literals are 64-bit. */
  function LargestLiteral(t: Type): nat
    requires IsInteger(t) && t.size > 0
  {
    var size := if t.size < 8 then t.size else 8;
    if IsSigned(t) then Pow256(size) / 2 - 1 else Pow256(size) - 1
  }

  /** A literal's value as it is read: too large ones become the largest 64-bit number. */
  function Saturated(v: nat): nat {
    if v < WORD then v else WORD - 1
  }

  predicate LiteralFits(v: nat, t: Type, shape: Shape) {
    IsPlain(shape) && IsInteger(t) && t.size > 0 && Saturated(v) <= LargestLiteral(t)
  }

  predicate VoidPointerTakes(formal: Type, formalShape: Shape, actualShape: Option<Shape>) {
    && actualShape.Some? && formal.name == "void"
    && formalShape.pointers == 1 && actualShape.value.pointers == 1
    && formalShape.functionPointers == 0 && actualShape.value.functionPointers == 0
  }

  /** parameter_argument_conversion_cost; None where the argument cannot be passed. */
  function ArgumentCost(p: Parameter, a: Argument): Option<nat>
    requires p.Fixed?
  {
    var shape := Adjusted(p.shape, p.byRef);
    if a.of.None? then None
    else
      var of := a.of.value;
      if !p.byRef && a.literal.Some? && shape.pointers > 0 && a.literal.value == 0 then Some(8 + shape.pointers - 1)
      else if !p.byRef && a.literal.Some? && LiteralFits(a.literal.value, p.of, shape)
      then Some(16 + (p.of.size - 1) * 4 + (if IsSigned(p.of) then 1 else 0))
      else if p.of.name == of.name && (if a.shape.Some? then SameShape(a.shape.value, shape) else IsPlain(shape))
      then (if !p.byRef then Some(1) else if a.isLvalue then Some(0) else None)
      else if p.byRef then None
      else if VoidPointerTakes(p.of, shape, a.shape) then Some(12)
      else
        var promotion := PromotionCost(of, a.shape, p.of, shape);
        if promotion.Some? then Some(32 + promotion.value)
        else if IsInteger(of) && IsInteger(p.of) && of.size == p.of.size && IsPlain(shape)
                && (a.shape.Some? ==> IsPlain(a.shape.value))
        then Some(96 + SignCost(of, p.of) + EndianCost(of, p.of))
        else None
  }

  // ----- what the costs mean -----

  ghost predicate Holds(t: Type, v: int) {
    IsInteger(t) && t.size > 0 && InRange(t.size, IsSigned(t), v)
  }

  /** One integer type can represent another exactly when it holds every value the other holds. */
  lemma {:induction false} RepresentsAllValues(formal: Type, actual: Type)
    requires IsInteger(formal) && IsInteger(actual) && formal.size > 0 && actual.size > 0
    ensures CanRepresent(formal, actual) <==> forall v :: Holds(actual, v) ==> Holds(formal, v)
  {
    var f, a := Pow256(formal.size), Pow256(actual.size);
    PowIsEven(actual.size);
    PowIsEven(formal.size);
    if formal.size >= actual.size { PowGrows(actual.size, formal.size); } else { PowGrows(formal.size, actual.size); }
    if !CanRepresent(formal, actual) {
      var v := if IsSigned(actual) then (if IsSigned(formal) then a / 2 - 1 else -1) else a - 1;
      assert Holds(actual, v) && !Holds(formal, v);
    }
  }

  /** An accepted promotion loses no value. */
  lemma PromotionKeepsValues(actual: Type, actualShape: Option<Shape>, formal: Type, formalShape: Shape, v: int)
    requires PromotionCost(actual, actualShape, formal, formalShape).Some? && Holds(actual, v)
    ensures Holds(formal, v)
  {
    RepresentsAllValues(formal, actual);
  }

  /** Of two promotions of one argument, the one to the smaller type is cheaper, whatever else differs. */
  lemma NarrowerIsCheaper(actual: Type, shape: Option<Shape>, f: Type, g: Type, fShape: Shape, gShape: Shape)
    requires PromotionCost(actual, shape, f, fShape).Some? && PromotionCost(actual, shape, g, gShape).Some?
    requires f.size < g.size
    ensures PromotionCost(actual, shape, f, fShape).value < PromotionCost(actual, shape, g, gShape).value
  {
  }

  /** For types of up to 8 bytes a literal fits exactly when the type holds its value, or when it is too large for 64
      bits and the type is unsigned and has 8 bytes. */
  lemma LiteralFitsIfHeld(v: nat, t: Type, shape: Shape)
    requires IsInteger(t) && 0 < t.size <= 8 && IsPlain(shape)
    ensures LiteralFits(v, t, shape) <==> Holds(t, v) || (v >= WORD && t.size == 8 && !IsSigned(t))
  {
    PowIsEven(t.size);
    PowBelow(7, 8);
    if t.size < 8 { PowBelow(t.size, 8); }
  }

  // ----- functions -----

  /** A declared function: the identity of its declaration, its return type, and its parameters. */
  datatype Function = Function(id: nat, returns_: Type, returnShape: Shape, isStatic: bool, params: seq<Parameter>,
                               hasBody: bool)

  function FixedParams(ps: seq<Parameter>, i: nat): (fixed: seq<Parameter>)
    requires i <= |ps|
    ensures forall k :: 0 <= k < |fixed| ==> fixed[k].Fixed?
  {
    if i == 0 then [] else FixedParams(ps, i - 1) + (if ps[i - 1].Fixed? then [ps[i - 1]] else [])
  }

  function FixedOf(fn: Function): (fixed: seq<Parameter>)
    ensures forall k :: 0 <= k < |fixed| ==> fixed[k].Fixed?
  {
    FixedParams(fn.params, |fn.params|)
  }

  predicate IsVariadic(fn: Function) { Ellipsis in fn.params }

  ghost predicate Convertible(fixed: seq<Parameter>, args: seq<Argument>, n: nat)
    requires n <= |fixed| && n <= |args| && forall k :: 0 <= k < |fixed| ==> fixed[k].Fixed?
  {
    forall k :: 0 <= k < n ==> ArgumentCost(fixed[k], args[k]).Some?
  }

  /** The call can be made: the number of arguments is right and each can be passed to its parameter. */
  ghost predicate Viable(fn: Function, args: seq<Argument>) {
    var fixed := FixedOf(fn);
    && Untyped !in fn.params
    && (if IsVariadic(fn) then |fixed| <= |args| else |fixed| == |args|)
    && Convertible(fixed, args, |fixed|)
  }

  ghost function Sum(fixed: seq<Parameter>, args: seq<Argument>, n: nat): nat
    requires n <= |fixed| && n <= |args| && forall k :: 0 <= k < |fixed| ==> fixed[k].Fixed?
    requires Convertible(fixed, args, n)
  {
    if n == 0 then 0 else Sum(fixed, args, n - 1) + ArgumentCost(fixed[n - 1], args[n - 1]).value
  }

  /** The sum over the parameters; a variadic function costs 1024 more, and 1 for each argument beyond them. */
  ghost function CallCost(fn: Function, args: seq<Argument>): nat
    requires Viable(fn, args)
  {
    var fixed := FixedOf(fn);
    Sum(fixed, args, |fixed|) + (if IsVariadic(fn) then 1024 + (|args| - |fixed|) else 0)
  }

  method FixedCount(fn: Function) returns (count: nat)
    ensures count == |FixedOf(fn)|
  {
    count := 0;
    for i := 0 to |fn.params|
      invariant count == |FixedParams(fn.params, i)|
    {
      if fn.params[i].Fixed? {
        count := count + 1;
      }
    }
  }

  lemma {:induction false} PrefixFixed(ps: seq<Parameter>, i: nat, j: nat)
    requires i <= j <= |ps|
    ensures |FixedParams(ps, i)| <= |FixedParams(ps, j)|
    ensures FixedParams(ps, j)[..|FixedParams(ps, i)|] == FixedParams(ps, i)
  {
    if i < j { PrefixFixed(ps, i, j - 1); }
  }

  lemma EndsOfParams(fn: Function)
    ensures FixedParams(fn.params, 0) == [] && FixedParams(fn.params, |fn.params|) == FixedOf(fn)
  {
  }

  /** A parameter with a type is the next one of them. */
  lemma NextIs(fn: Function, i: nat)
    requires i < |fn.params|
    ensures |FixedParams(fn.params, i)| <= |FixedOf(fn)|
    ensures fn.params[i].Fixed? ==>
      && |FixedParams(fn.params, i)| < |FixedOf(fn)| && FixedOf(fn)[|FixedParams(fn.params, i)|] == fn.params[i]
      && |FixedParams(fn.params, i + 1)| == |FixedParams(fn.params, i)| + 1
    ensures !fn.params[i].Fixed? ==> |FixedParams(fn.params, i + 1)| == |FixedParams(fn.params, i)|
  {
    PrefixFixed(fn.params, i, |fn.params|);
    PrefixFixed(fn.params, i + 1, |fn.params|);
  }

  lemma NoTypeNoCost(p: Parameter, a: Argument)
    requires p.Fixed? && a.of.None?
    ensures ArgumentCost(p, a).None?
  {
  }

  /** function_signature_match_cost. */
  method MatchCost(fn: Function, args: seq<Argument>) returns (r: Option<nat>)
    ensures r.Some? <==> Viable(fn, args)
    ensures r.Some? ==> r.value == CallCost(fn, args)
  {
    hide ArgumentCost, FixedParams, FixedOf;
    var count := FixedCount(fn);
    var variadic := IsVariadic(fn);
    var fixed := FixedOf(fn);
    if (!variadic && count != |args|) || (variadic && |args| < count) {
      return None;
    }
    EndsOfParams(fn);
    var seen, cost := 0, 0;
    for i := 0 to |fn.params|
      invariant Untyped !in fn.params[..i]
      invariant seen == |FixedParams(fn.params, i)| && seen <= |fixed| <= |args|
      invariant Convertible(fixed, args, seen) && cost == Sum(fixed, args, seen)
    {
      NextIs(fn, i);
      var p := fn.params[i];
      if p.VoidMarker? || p.Ellipsis? {
        continue;
      }
      if p.Untyped? || seen >= |args| || args[seen].of.None? {
        if !p.Untyped? && seen < |args| { NoTypeNoCost(p, args[seen]); }
        return None;
      }
      var one := ArgumentCost(p, args[seen]);
      if one.None? {
        return None;
      }
      cost := cost + one.value;
      seen := seen + 1;
    }
    if variadic {
      cost := cost + 1024 + (|args| - seen);
    }
    return Some(cost);
  }
}
