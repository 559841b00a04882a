/** The tables of overloaded functions and operators as declarations are added to them. */
module OverloadRegistry {
  import opened Basics
  import opened OverloadCost
  import opened Overload

  datatype Slot = Slot(typeName: string, byRef: bool, pointers: nat, arrays: seq<string>)

  function SlotOf(p: Parameter): Slot
    requires p.Fixed?
  {
    Slot(p.of.name, p.byRef, p.shape.pointers, p.shape.arrays)
  }

  /** What makes two overloads different: whether they are variadic, and their parameters in order. */
  datatype Signature = Signature(variadic: bool, slots: seq<Slot>)

  function SignatureOf(fn: Function): Signature {
    var fixed := FixedOf(fn);
    Signature(IsVariadic(fn), seq(|fixed|, i requires 0 <= i < |fixed| => SlotOf(fixed[i])))
  }

  /** Overloads differ exactly in being variadic, in the number of their parameters, or in the type, the passing by
      reference, the pointer depth or the dimensions of one of them. */
  lemma SignatureMeans(a: Function, b: Function)
    ensures SignatureOf(a) == SignatureOf(b) <==>
      && (Ellipsis in a.params <==> Ellipsis in b.params)
      && |FixedOf(a)| == |FixedOf(b)|
      && forall k: nat :: k < |FixedOf(a)| ==>
           var p, q := FixedOf(a)[k], FixedOf(b)[k];
           p.of.name == q.of.name && p.byRef == q.byRef && p.shape.pointers == q.shape.pointers && p.shape.arrays == q.shape.arrays
  {
    hide FixedOf;
    var s, t := SignatureOf(a).slots, SignatureOf(b).slots;
    if |s| == |t| {
      assert s == t <==> forall k: nat :: k < |s| ==> s[k] == t[k];
      assert forall k: nat :: k < |s| ==> s[k] == SlotOf(FixedOf(a)[k]) && t[k] == SlotOf(FixedOf(b)[k]);
    }
  }

  /** Index of the first parameter with a type from i on, or the number of parameters. */
  method NextFixed(ps: seq<Parameter>, i: nat) returns (k: nat)
    requires i <= |ps|
    ensures i <= k <= |ps| && (k < |ps| ==> ps[k].Fixed?)
    ensures FixedParams(ps, k) == FixedParams(ps, i)
  {
    k := i;
    while k < |ps| && !ps[k].Fixed?
      invariant i <= k <= |ps| && FixedParams(ps, k) == FixedParams(ps, i)
    {
      k := k + 1;
    }
  }

  /** function_same_signature: two cursors over the parameter lists, each passing over what is not a parameter. */
  method SameSignature(a: Function, b: Function) returns (same: bool)
    ensures same <==> SignatureOf(a) == SignatureOf(b)
  {
    if IsVariadic(a) != IsVariadic(b) {
      return false;
    }
    var m := FixedCount(a);
    var n := FixedCount(b);
    if m != n {
      assert |SignatureOf(a).slots| != |SignatureOf(b).slots|;
      return false;
    }
    hide FixedParams, FixedOf, SignatureOf, SlotOf;
    EndsOfParams(a);
    EndsOfParams(b);
    var i, j := 0, 0;
    ghost var done := 0;
    while i < |a.params| || j < |b.params|
      invariant i <= |a.params| && j <= |b.params|
      invariant |FixedParams(a.params, i)| == |FixedParams(b.params, j)| == done
      invariant Alike(a, b, done)
      decreases |a.params| - i + |b.params| - j
    {
      var p := NextFixed(a.params, i);
      var q := NextFixed(b.params, j);
      if p < |a.params| { NextIs(a, p); }
      if q < |b.params| { NextIs(b, q); }
      if p == |a.params| && q == |b.params| {
        break;
      }
      // The lists are equally long, so neither ends before the other.
      if SlotOf(a.params[p]) != SlotOf(b.params[q]) {
        Unlike(a, b, done);
        return false;
      }
      i, j, done := p + 1, q + 1, done + 1;
    }
    AllAlike(a, b);
    return true;
  }

  ghost predicate Alike(a: Function, b: Function, n: nat) {
    && n <= |FixedOf(a)| == |FixedOf(b)|
    && forall k :: 0 <= k < n ==> SlotOf(FixedOf(a)[k]) == SlotOf(FixedOf(b)[k])
  }

  lemma Unlike(a: Function, b: Function, k: nat)
    requires k < |FixedOf(a)| == |FixedOf(b)| && SlotOf(FixedOf(a)[k]) != SlotOf(FixedOf(b)[k])
    ensures SignatureOf(a) != SignatureOf(b)
  {
    assert SignatureOf(a).slots[k] != SignatureOf(b).slots[k];
  }

  lemma AllAlike(a: Function, b: Function)
    requires IsVariadic(a) == IsVariadic(b) && Alike(a, b, |FixedOf(a)|)
    ensures SignatureOf(a) == SignatureOf(b)
  {
    assert SignatureOf(a).slots == SignatureOf(b).slots;
  }

  // ----- adding a declaration -----

  datatype Added = Kept(entries: seq<Entry>) | Conflict | Redefinition

  /** What declarations of one overload must agree on besides its signature. */
  datatype Result = Result(typeName: string, pointers: nat, arrays: seq<string>, isStatic: bool)

  function ResultOf(fn: Function): Result {
    Result(fn.returns_.name, fn.returnShape.pointers, fn.returnShape.arrays, fn.isStatic)
  }

  predicate SameOverload(a: Entry, b: Entry) {
    a.name == b.name && SignatureOf(a.node) == SignatureOf(b.node)
  }

  /** Index of the first entry for the same overload from i on, or the number of entries. */
  function Find(entries: seq<Entry>, d: Entry, i: nat): (k: nat)
    requires i <= |entries|
    ensures i <= k <= |entries|
    ensures k < |entries| ==> SameOverload(entries[k], d)
    ensures forall j :: i <= j < k ==> !SameOverload(entries[j], d)
    decreases |entries| - i
  {
    if i < |entries| && !SameOverload(entries[i], d) then Find(entries, d, i + 1) else i
  }

  function Remembered(entries: seq<Entry>, d: Entry): Added {
    var k := Find(entries, d, 0);
    if k == |entries| then Kept(entries + [d])
    else
      var value := entries[k].node;
      if value == d.node then Kept(entries)
      else if ResultOf(value) != ResultOf(d.node) then Conflict
      else if value.hasBody && d.node.hasBody then Redefinition
      else if d.node.hasBody then Kept(entries[k := d])
      else Kept(entries)
  }

  /** No two entries for one overload. */
  ghost predicate Unique(entries: seq<Entry>) {
    forall i, j :: 0 <= i < j < |entries| ==> !SameOverload(entries[i], entries[j])
  }

  /** Two declarations that one program may hold. */
  predicate Compatible(a: Entry, b: Entry) {
    SameOverload(a, b) ==> ResultOf(a.node) == ResultOf(b.node) && (a.node.hasBody && b.node.hasBody ==> a.node == b.node)
  }

  /** Declarations of one name and signature must agree on the result's type, pointer depth and dimensions and on being
      static, and only one may have a body. */
  lemma CompatibleMeans(a: Entry, b: Entry)
    ensures Compatible(a, b) <==>
      (a.name == b.name && SignatureOf(a.node) == SignatureOf(b.node) ==>
         && a.node.returns_.name == b.node.returns_.name && a.node.isStatic == b.node.isStatic
         && a.node.returnShape.pointers == b.node.returnShape.pointers && a.node.returnShape.arrays == b.node.returnShape.arrays
         && !(a.node.hasBody && b.node.hasBody && a.node != b.node))
  {
    hide SignatureOf;
  }

  ghost predicate CompatibleWithAll(ds: seq<Entry>, d: Entry) {
    forall b :: b in ds ==> Compatible(b, d)
  }

  /** e stands for declaration d: the same overload and result, and d itself if d has a body. */
  predicate StandsFor(e: Entry, d: Entry) {
    SameOverload(e, d) && ResultOf(e.node) == ResultOf(d.node) && (d.node.hasBody ==> e.node == d.node)
  }

  ghost predicate Stood(entries: seq<Entry>, d: Entry) {
    exists e :: e in entries && StandsFor(e, d)
  }

  /** The table after declarations ds: one entry for each overload, which stands for all its declarations. */
  ghost predicate Summarises(entries: seq<Entry>, ds: seq<Entry>) {
    && Unique(entries)
    && (forall e :: e in entries ==> e in ds)
    && (forall d :: d in ds ==> Stood(entries, d))
  }

  lemma UniqueAreDistinct(entries: seq<Entry>)
    requires Unique(entries)
    ensures DistinctNodes(entries)
  {
    forall i, j | 0 <= i < j < |entries| && entries[i].name == entries[j].name
      ensures entries[i].node != entries[j].node
    {
      assert !SameOverload(entries[i], entries[j]);
    }
  }

  /** Adding a declaration is accepted exactly when it is compatible with all before it. */
  lemma {:induction false} RememberedIff(entries: seq<Entry>, ds: seq<Entry>, d: Entry)
    requires Summarises(entries, ds)
    ensures Remembered(entries, d).Kept? <==> CompatibleWithAll(ds, d)
  {
    hide SignatureOf;
    var k := Find(entries, d, 0);
    forall b | b in ds && SameOverload(b, d)
      ensures k < |entries| && StandsFor(entries[k], b)
    {
      assert Stood(entries, b);
      var e :| e in entries && StandsFor(e, b);
      var i :| 0 <= i < |entries| && entries[i] == e;
      assert SameOverload(entries[i], d);
      assert !(i < k) && (k < i ==> !SameOverload(entries[k], entries[i]));
    }
    if k < |entries| {
      assert entries[k] in ds;
    }
  }

  lemma {:induction false} StillUnique(entries: seq<Entry>, d: Entry)
    requires Unique(entries) && Remembered(entries, d).Kept?
    ensures Unique(Remembered(entries, d).entries)
  {
    hide SignatureOf, Remembered;
    var k := Find(entries, d, 0);
    var after := Remembered(entries, d).entries;
    RememberedShape(entries, d);
    forall i, j | 0 <= i < j < |after|
      ensures !SameOverload(after[i], after[j])
    {
      if k < |entries| {
        assert !SameOverload(entries[i], entries[j]);
      }
    }
  }

  lemma {:induction false} RememberedSummarises(entries: seq<Entry>, ds: seq<Entry>, d: Entry)
    requires Summarises(entries, ds) && Remembered(entries, d).Kept?
    ensures Summarises(Remembered(entries, d).entries, ds + [d])
  {
    hide SignatureOf, Remembered, Unique, StandsFor;
    var k := Find(entries, d, 0);
    var after := Remembered(entries, d).entries;
    RememberedShape(entries, d);
    StillUnique(entries, d);
    forall b | b in ds
      ensures Stood(after, b)
    {
      assert Stood(entries, b);
      var e :| e in entries && StandsFor(e, b);
      var i :| 0 <= i < |entries| && entries[i] == e;
      if i == k { StandsForChain(after[k], entries[k], b); }
      assert after[i] in after;
    }
    assert after[k] in after;
    forall e | e in after
      ensures e in ds + [d]
    {
      var i :| 0 <= i < |after| && after[i] == e;
    }
  }

  lemma StandsForChain(a: Entry, b: Entry, c: Entry)
    requires StandsFor(a, b) && StandsFor(b, c)
    ensures StandsFor(a, c)
  {
  }

  /** What an accepted declaration does to the table. */
  lemma RememberedShape(entries: seq<Entry>, d: Entry)
    requires Remembered(entries, d).Kept?
    ensures var k, after := Find(entries, d, 0), Remembered(entries, d).entries;
      && k < |after| && StandsFor(after[k], d) && |after| == (if k == |entries| then k + 1 else |entries|)
      && (forall i :: 0 <= i < |entries| && i != k ==> after[i] == entries[i])
      && (k < |entries| ==> after[k] == d || after[k] == entries[k])
      && (k == |entries| ==> after[k] == d)
      && (k < |entries| ==> StandsFor(after[k], entries[k]))
  {
    hide SignatureOf;
  }

  /** The table after a whole program's declarations. */
  function RememberAll(ds: seq<Entry>, n: nat): Added
    requires n <= |ds|
  {
    if n == 0 then Kept([])
    else match RememberAll(ds, n - 1)
      case Kept(entries) => Remembered(entries, ds[n - 1])
      case Conflict => Conflict
      case Redefinition => Redefinition
  }

  /** A program's declarations are accepted exactly when any two of them are compatible, in whatever order they come;
      the table then holds one entry for each overload, standing for all its declarations. */
  lemma {:induction false} ProgramAccepted(ds: seq<Entry>, n: nat)
    requires n <= |ds|
    ensures RememberAll(ds, n).Kept? <==> forall i, j :: 0 <= i < j < n ==> Compatible(ds[i], ds[j])
    ensures RememberAll(ds, n).Kept? ==> Summarises(RememberAll(ds, n).entries, ds[..n])
  {
    hide SignatureOf, Remembered, Compatible, Summarises;
    if n == 0 {
      NothingToSummarise();
    } else {
      ProgramAccepted(ds, n - 1);
      var before := RememberAll(ds, n - 1);
      if before.Kept? {
        assert ds[..n] == ds[..n - 1] + [ds[n - 1]];
        RememberedIff(before.entries, ds[..n - 1], ds[n - 1]);
        if RememberAll(ds, n).Kept? {
          RememberedSummarises(before.entries, ds[..n - 1], ds[n - 1]);
        }
        assert forall i :: 0 <= i < n - 1 ==> ds[..n - 1][i] == ds[i];
        assert forall i :: 0 <= i < n - 1 ==> ds[i] in ds[..n - 1];
      }
    }
  }

  lemma NothingToSummarise()
    ensures Summarises([], [])
  {
  }

  // ----- the compiler's tables -----

  datatype Outcome = Accepted | ConflictError | RedefinitionError

  /** The outcome and the new table that adding d to entries must have. */
  ghost predicate Adds(entries: seq<Entry>, d: Entry, after: seq<Entry>, r: Outcome) {
    match Remembered(entries, d)
    case Kept(es) => after == es && r == Accepted
    case Conflict => after == entries && r == ConflictError
    case Redefinition => after == entries && r == RedefinitionError
  }

  predicate IsOperatorName(name: string) {
    |name| >= 8 && name[..8] == "operator"
  }

  /** Operators are the functions whose name begins so. */
  lemma OperatorsAreNamed(name: string)
    ensures IsOperatorName(name) <==> exists rest :: name == "operator" + rest
  {
    if IsOperatorName(name) { assert name == "operator" + name[8..]; }
  }

  /** The first entry's declaration under a name. */
  function First(entries: seq<Entry>, name: string): Option<Function> {
    if entries == [] then None
    else if entries[0].name == name then Some(entries[0].node)
    else First(entries[1..], name)
  }

  /** The set of functions by name holds the first declaration of each. */
  ghost predicate HoldsFirst(functions: map<string, Function>, entries: seq<Entry>) {
    forall name :: First(entries, name) == if name in functions then Some(functions[name]) else None
  }

  lemma {:induction false} FirstOfAppended(entries: seq<Entry>, d: Entry, name: string)
    ensures First(entries + [d], name) ==
      if First(entries, name).Some? then First(entries, name) else if d.name == name then Some(d.node) else None
  {
    if entries != [] {
      FirstOfAppended(entries[1..], d, name);
      assert (entries + [d])[1..] == entries[1..] + [d];
    }
  }

  /** Replacing an entry by another of its name changes the first one only if it is the first one. */
  lemma {:induction false} FirstOfReplaced(entries: seq<Entry>, k: nat, node: Function, name: string)
    requires k < |entries|
    requires DistinctNodes(entries)
    ensures First(entries[k := Entry(entries[k].name, node)], name) ==
      if name == entries[k].name && First(entries, name) == Some(entries[k].node) then Some(node) else First(entries, name)
  {
    var d := Entry(entries[k].name, node);
    if k == 0 {
      assert entries[0 := d][1..] == entries[1..];
    } else {
      assert DistinctNodes(entries[1..]) by {
        forall i, j | 0 <= i < j < |entries[1..]| && entries[1..][i].name == entries[1..][j].name
          ensures entries[1..][i].node != entries[1..][j].node
        {
          assert entries[i + 1].node != entries[j + 1].node;
        }
      }
      FirstOfReplaced(entries[1..], k - 1, node, name);
      assert entries[k := d][1..] == entries[1..][k - 1 := d];
      assert entries[0].name == entries[k].name ==> entries[0].node != entries[k].node;
    }
  }

  lemma {:induction false} FirstIsPresent(entries: seq<Entry>, name: string)
    ensures First(entries, name).Some? <==> exists i :: 0 <= i < |entries| && entries[i].name == name
  {
    if entries != [] {
      FirstIsPresent(entries[1..], name);
      if i :| 0 <= i < |entries| && entries[i].name == name {
        if i > 0 { assert entries[1..][i - 1] == entries[i]; }
      }
    }
  }

  class Overloads {
    var operators: seq<Entry>
    var ordinary: seq<Entry>
    var functions: map<string, Function>

    ghost predicate Valid()
      reads this
    {
      Unique(operators) && Unique(ordinary) && HoldsFirst(functions, ordinary)
    }

    constructor ()
      ensures Valid() && operators == [] && ordinary == []
    {
      operators, ordinary, functions := [], [], map[];
    }

    /** remember_operator_overload. */
    method RememberOperator(node: Function, name: string) returns (r: Outcome)
      requires Valid()
      modifies `operators
      ensures Valid() && Adds(old(operators), Entry(name, node), operators, r)
    {
      hide SignatureOf, Unique, HoldsFirst;
      var d := Entry(name, node);
      for i := 0 to |operators|
        invariant operators == old(operators) && Find(operators, d, 0) == Find(operators, d, i)
      {
        var value := operators[i].node;
        if operators[i].name != name {
          continue;
        }
        if value == node {
          return Accepted;
        }
        var same := SameSignature(value, node);
        if !same {
          continue;
        }
        if ResultOf(value) != ResultOf(node) {
          return ConflictError;
        }
        if value.hasBody && node.hasBody {
          return RedefinitionError;
        }
        if !value.hasBody && node.hasBody {
          StillUnique(operators, d);
          operators := operators[i := d];
        }
        return Accepted;
      }
      StillUnique(operators, d);
      operators := operators + [d];
      return Accepted;
    }

    /** remember_function. */
    method RememberFunction(node: Function, name: string) returns (r: Outcome)
      requires Valid()
      modifies this
      ensures Valid()
      ensures if IsOperatorName(name) then Adds(old(operators), Entry(name, node), operators, r) && ordinary == old(ordinary)
              else Adds(old(ordinary), Entry(name, node), ordinary, r) && operators == old(operators)
    {
      hide SignatureOf, Unique, HoldsFirst, First, DistinctNodes;
      if IsOperatorName(name) {
        r := RememberOperator(node, name);
        return;
      }
      var d := Entry(name, node);
      var namePresent := false;
      for i := 0 to |ordinary|
        invariant ordinary == old(ordinary) && functions == old(functions) && operators == old(operators)
        invariant Find(ordinary, d, 0) == Find(ordinary, d, i)
        invariant namePresent <==> exists j :: 0 <= j < i && ordinary[j].name == name
      {
        if ordinary[i].name != name {
          continue;
        }
        namePresent := true;
        var value := ordinary[i].node;
        if value == node {
          return Accepted;
        }
        var same := SameSignature(value, node);
        if same {
          if ResultOf(value) != ResultOf(node) {
            return ConflictError;
          }
          if value.hasBody && node.hasBody {
            return RedefinitionError;
          }
          if !value.hasBody && node.hasBody {
            StillUnique(ordinary, d);
            FirstAfterReplacing(functions, ordinary, i, node);
            ordinary := ordinary[i := d];
            if name in functions && functions[name] == value {
              functions := functions[name := node];
            }
          }
          return Accepted;
        }
      }
      StillUnique(ordinary, d);
      FirstAfterAppending(functions, ordinary, d);
      ordinary := ordinary + [d];
      if !namePresent && name !in functions {
        functions := functions[name := node];
      }
      return Accepted;
    }
  }

  lemma {:induction false} FirstAfterReplacing(functions: map<string, Function>, entries: seq<Entry>, k: nat,
                                               node: Function)
    requires HoldsFirst(functions, entries) && Unique(entries) && k < |entries|
    ensures var name := entries[k].name;
            HoldsFirst(if name in functions && functions[name] == entries[k].node then functions[name := node] else functions,
                       entries[k := Entry(name, node)])
  {
    hide First;
    UniqueAreDistinct(entries);
    var name := entries[k].name;
    var f := if name in functions && functions[name] == entries[k].node then functions[name := node] else functions;
    forall n ensures First(entries[k := Entry(name, node)], n) == if n in f then Some(f[n]) else None {
      FirstOfReplaced(entries, k, node, n);
    }
  }

  lemma {:induction false} FirstAfterAppending(functions: map<string, Function>, entries: seq<Entry>, d: Entry)
    requires HoldsFirst(functions, entries)
    ensures var present := exists j :: 0 <= j < |entries| && entries[j].name == d.name;
            HoldsFirst(if !present && d.name !in functions then functions[d.name := d.node] else functions, entries + [d])
  {
    hide First;
    var f := if d.name !in functions then functions[d.name := d.node] else functions;
    FirstIsPresent(entries, d.name);
    forall n ensures First(entries + [d], n) == if n in f then Some(f[n]) else None {
      FirstOfAppended(entries, d, n);
    }
  }
}
