/** Choosing among overloaded functions, and the tables that hold their declarations. */
module Overload {
  import opened Basics
  import opened OverloadCost

  datatype Entry = Entry(name: string, node: Function)

  datatype Choice = Chosen(fn: Function) | Ambiguous | NoneViable | Unknown

  /** The declarations under a name, as a set: their order is gone. */
  ghost function Named(entries: seq<Entry>, name: string): set<Function> {
    set e <- entries | e.name == name :: e.node
  }

  ghost predicate Cheapest(f: Function, among: set<Function>, args: seq<Argument>) {
    && f in among && Viable(f, args)
    && forall g :: g in among && Viable(g, args) ==> CallCost(f, args) <= CallCost(g, args)
  }

  /** f can be called, and at less cost than any other candidate that can. */
  ghost predicate Best(f: Function, among: set<Function>, args: seq<Argument>) {
    && f in among && Viable(f, args)
    && forall g :: g in among && g != f && Viable(g, args) ==> CallCost(f, args) < CallCost(g, args)
  }

  ghost predicate Tied(among: set<Function>, args: seq<Argument>) {
    exists f, g :: f != g && Cheapest(f, among, args) && Cheapest(g, among, args)
  }

  ghost predicate Callable(among: set<Function>, args: seq<Argument>) {
    exists f :: f in among && Viable(f, args)
  }

  /** What a lookup among these candidates must answer. */
  ghost predicate Answers(c: Choice, among: set<Function>, args: seq<Argument>) {
    match c
    case Chosen(f) => Best(f, among, args)
    case Ambiguous => Tied(among, args)
    case NoneViable => !Callable(among, args) && among != {}
    case Unknown => among == {}
  }

  /** No two entries hold the same declaration under a name. */
  ghost predicate DistinctNodes(entries: seq<Entry>) {
    forall i, j :: 0 <= i < j < |entries| && entries[i].name == entries[j].name ==> entries[i].node != entries[j].node
  }

  /** State of the scan: the cheapest candidate so far, and whether another one costs the same. */
  ghost predicate Scanned(best: Option<Function>, bestCost: nat, ambiguous: bool, among: set<Function>,
                          args: seq<Argument>) {
    match best
    case None => !ambiguous && !Callable(among, args)
    case Some(f) =>
      && Cheapest(f, among, args) && CallCost(f, args) == bestCost
      && (ambiguous <==> exists g :: g != f && Cheapest(g, among, args))
  }

  lemma {:induction false} ScanStep(best: Option<Function>, bestCost: nat, ambiguous: bool, among: set<Function>,
                                    args: seq<Argument>, f: Function)
    requires Scanned(best, bestCost, ambiguous, among, args) && f !in among
    ensures !Viable(f, args) ==> Scanned(best, bestCost, ambiguous, among + {f}, args)
    ensures Viable(f, args) && (best.None? || CallCost(f, args) < bestCost) ==>
      Scanned(Some(f), CallCost(f, args), false, among + {f}, args)
    ensures Viable(f, args) && best.Some? && CallCost(f, args) == bestCost ==> Scanned(best, bestCost, true, among + {f}, args)
    ensures Viable(f, args) && best.Some? && CallCost(f, args) > bestCost ==> Scanned(best, bestCost, ambiguous, among + {f}, args)
  {
    hide Viable, CallCost;
    if Viable(f, args) && best.Some? && CallCost(f, args) == bestCost {
      assert Cheapest(f, among + {f}, args);
    }
    if best.Some? && ambiguous {
      var g :| g != best.value && Cheapest(g, among, args);
      assert !Viable(f, args) || CallCost(f, args) > bestCost ==> Cheapest(g, among + {f}, args);
    }
    if best.Some? && !ambiguous {
      forall g | g != best.value && Cheapest(g, among + {f}, args) && g != f
        ensures Cheapest(g, among, args)
      {
      }
    }
  }

  lemma NamedNext(entries: seq<Entry>, i: nat, name: string)
    requires i < |entries|
    ensures Named(entries[..i + 1], name) ==
      if entries[i].name == name then Named(entries[..i], name) + {entries[i].node} else Named(entries[..i], name)
    ensures DistinctNodes(entries) && entries[i].name == name ==> entries[i].node !in Named(entries[..i], name)
  {
    assert entries[..i + 1] == entries[..i] + [entries[i]];
  }

  lemma ScanAnswers(best: Option<Function>, bestCost: nat, ambiguous: bool, among: set<Function>, args: seq<Argument>)
    requires Scanned(best, bestCost, ambiguous, among, args)
    ensures best.Some? && !ambiguous ==> Answers(Chosen(best.value), among, args)
    ensures ambiguous ==> Answers(Ambiguous, among, args)
    ensures best.None? && among != {} ==> Answers(NoneViable, among, args)
    ensures best.None? && among == {} ==> Answers(Unknown, among, args)
  {
    hide Viable, CallCost;
    if best.Some? && !ambiguous {
      var f := best.value;
      forall g | g in among && g != f && Viable(g, args)
        ensures CallCost(f, args) < CallCost(g, args)
      {
        assert !Cheapest(g, among, args);
      }
    }
  }

  /** lookup_ordinary_function_overload, and lookup_operator_overload but for what an answer of none leads to. */
  method LookUp(entries: seq<Entry>, name: string, args: seq<Argument>) returns (c: Choice)
    requires DistinctNodes(entries)
    ensures Answers(c, Named(entries, name), args)
  {
    hide Viable, CallCost, Scanned, Named, DistinctNodes, Answers;
    var best: Option<Function> := None;
    var bestCost := 0;
    var ambiguous, sawName := false, false;
    NothingScanned(entries, name, args);
    for i := 0 to |entries|
      invariant Scanned(best, bestCost, ambiguous, Named(entries[..i], name), args)
      invariant ambiguous ==> best.Some?
      invariant sawName <==> Named(entries[..i], name) != {}
    {
      NamedNext(entries, i, name);
      if entries[i].name != name {
        continue;
      }
      sawName := true;
      var f := entries[i].node;
      ScanStep(best, bestCost, ambiguous, Named(entries[..i], name), args, f);
      var cost := MatchCost(f, args);
      if cost.None? {
        continue;
      }
      if best.None? || cost.value < bestCost {
        best, bestCost, ambiguous := Some(f), cost.value, false;
      } else if cost.value == bestCost {
        ambiguous := true;
      }
    }
    assert entries[..|entries|] == entries;
    ScanAnswers(best, bestCost, ambiguous, Named(entries, name), args);
    if ambiguous && best.Some? {
      return Ambiguous;
    }
    return if best.Some? then Chosen(best.value) else if sawName then NoneViable else Unknown;
  }

  lemma NothingScanned(entries: seq<Entry>, name: string, args: seq<Argument>)
    ensures Named(entries[..0], name) == {} && Scanned(None, 0, false, {}, args)
  {
  }

  /** There is only one right answer. */
  lemma {:induction false} AnswerIsUnique(c: Choice, d: Choice, among: set<Function>, args: seq<Argument>)
    requires Answers(c, among, args) && Answers(d, among, args)
    ensures c == d
  {
    hide Viable, CallCost;
    if c.Ambiguous? || d.Ambiguous? {
      var f, g :| f != g && Cheapest(f, among, args) && Cheapest(g, among, args);
      assert CallCost(f, args) == CallCost(g, args);
    }
  }

  /** So the order of declarations does not matter. */
  lemma {:induction false} OrderDoesNotMatter(entries: seq<Entry>, others: seq<Entry>, name: string,
                                              args: seq<Argument>,
                                              c: Choice, d: Choice)
    requires multiset(entries) == multiset(others)
    requires Answers(c, Named(entries, name), args) && Answers(d, Named(others, name), args)
    ensures c == d
  {
    forall e ensures e in entries <==> e in others {
      assert e in multiset(entries) <==> e in multiset(others);
    }
    assert Named(entries, name) == Named(others, name);
    AnswerIsUnique(c, d, Named(entries, name), args);
  }
}
