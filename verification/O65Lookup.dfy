/** How the linker finds the segment a packed value belongs to. */
module O65Lookup {
  import opened Basics
  import opened O65Packing

  predicate Inside(l: Placed, g: nat, v: int) {
    l.segid == g && l.packedBase <= v < l.packedBase + l.size
  }

  predicate EndsAt(l: Placed, g: nat, v: int) {
    l.segid == g && v == l.packedBase + l.size
  }

  /** The first segment with the value inside from the i-th on; failing that the last one that ends there. */
  function Search(ls: seq<Placed>, g: nat, v: int, i: nat, fallback: Option<nat>): (r: Option<nat>)
    requires i <= |ls| && (fallback.Some? ==> fallback.value < i)
    ensures r.Some? ==> r.value < |ls|
    decreases |ls| - i
  {
    if i == |ls| then fallback
    else if Inside(ls[i], g, v) then Some(i)
    else Search(ls, g, v, i + 1, if EndsAt(ls[i], g, v) then Some(i) else fallback)
  }

  function LayoutFor(ls: seq<Placed>, g: nat, v: int): (r: Option<nat>)
    ensures r.Some? ==> r.value < |ls|
  {
    Search(ls, g, v, 0, None)
  }

  method FindLayoutForValue(ls: seq<Placed>, g: nat, v: int) returns (r: Option<nat>)
    ensures r == LayoutFor(ls, g, v)
  {
    r := None;
    var i := 0;
    while i < |ls|
      invariant 0 <= i <= |ls| && (r.Some? ==> r.value < i) && LayoutFor(ls, g, v) == Search(ls, g, v, i, r)
    {
      if ls[i].segid == g {
        if ls[i].packedBase <= v < ls[i].packedBase + ls[i].size {
          return Some(i);
        }
        if v == ls[i].packedBase + ls[i].size {
          r := Some(i);
        }
      }
      i := i + 1;
    }
  }

  /** What the search answers: the first segment with the value inside, or else the last one that ends there. */
  ghost predicate Answers(ls: seq<Placed>, g: nat, v: int, r: Option<nat>) {
    match r
    case None => forall i :: 0 <= i < |ls| ==> !Inside(ls[i], g, v) && !EndsAt(ls[i], g, v)
    case Some(j) =>
      && j < |ls|
      && (|| (Inside(ls[j], g, v) && forall i :: 0 <= i < j ==> !Inside(ls[i], g, v))
          || (EndsAt(ls[j], g, v) && (forall i :: 0 <= i < |ls| ==> !Inside(ls[i], g, v))
              && forall i :: j < i < |ls| ==> !EndsAt(ls[i], g, v)))
  }

  lemma {:induction false} SearchAnswers(ls: seq<Placed>, g: nat, v: int, i: nat, fallback: Option<nat>)
    requires i <= |ls| && (forall k :: 0 <= k < i ==> !Inside(ls[k], g, v))
    requires match fallback
      case None => forall k :: 0 <= k < i ==> !EndsAt(ls[k], g, v)
      case Some(j) => j < i && EndsAt(ls[j], g, v) && forall k :: j < k < i ==> !EndsAt(ls[k], g, v)
    ensures Answers(ls, g, v, Search(ls, g, v, i, fallback))
    decreases |ls| - i
  {
    hide Inside, EndsAt;
    if i < |ls| && !Inside(ls[i], g, v) {
      SearchAnswers(ls, g, v, i + 1, if EndsAt(ls[i], g, v) then Some(i) else fallback);
    }
  }

  lemma LookupAnswers(ls: seq<Placed>, g: nat, v: int)
    ensures Answers(ls, g, v, LayoutFor(ls, g, v))
  {
    SearchAnswers(ls, g, v, 0, None);
  }

  /** Packed one after another, the segments of an output segment begin in order. */
  lemma EndsBefore(ls: seq<Placed>, lengths: seq<nat>, g: nat, i: nat, j: nat)
    requires Packed(ls, lengths) && TEXT <= g <= ZP && i < j < |ls| && ls[i].segid == g && ls[j].segid == g
    ensures ls[i].packedBase + ls[i].size <= ls[j].packedBase
  {
    assert InPlace(ls, g);
    TotalGrows(ls, g, i + 1, j);
  }

  /** Some later segment starts where this one ends. */
  ghost predicate Followed(ls: seq<Placed>, g: nat, h: nat) {
    h < |ls| && exists i :: h < i < |ls| && ls[i].segid == g && ls[i].packedBase == ls[h].packedBase + ls[h].size
  }

  /** A value is taken to belong to the segment h exactly when it lies inside it, or at its end with no later segment
      starting there, not even one without bytes. */
  lemma FindsHome(ls: seq<Placed>, lengths: seq<nat>, g: nat, h: nat, v: int)
    requires Packed(ls, lengths) && TEXT <= g <= ZP && h < |ls| && ls[h].segid == g
    ensures LayoutFor(ls, g, v) == Some(h) <==> Inside(ls[h], g, v) || (EndsAt(ls[h], g, v) && !Followed(ls, g, h))
  {
    LookupAnswers(ls, g, v);
    hide Packed, Search;
    forall i, j | 0 <= i < j < |ls| && ls[i].segid == g && ls[j].segid == g
      ensures ls[i].packedBase + ls[i].size <= ls[j].packedBase
    {
      EndsBefore(ls, lengths, g, i, j);
    }
  }

  /** Outside DATA, where load images of the zero page may lie between, no value up to the end of the output segment is
      without a segment, and none beyond has one. */
  lemma StopsIff(ls: seq<Placed>, lengths: seq<nat>, g: nat, h: nat, v: nat)
    requires Packed(ls, lengths) && TEXT <= g <= ZP && g != DATA && h < |ls| && ls[h].segid == g
    ensures LayoutFor(ls, g, v).None? <==> v > lengths[g]
  {
    LookupAnswers(ls, g, v);
    hide Search, LayoutFor;
    if v < lengths[g] {
      var i := PackedTiles(ls, lengths, g, |ls|, v);
      assert Inside(ls[i], g, v);
    } else if v == lengths[g] {
      var i := LastOf(ls, g, |ls|);
      assert InPlace(ls, g);
      assert EndsAt(ls[i], g, v);
    } else {
      forall i | 0 <= i < |ls| && ls[i].segid == g
        ensures ls[i].packedBase + ls[i].size <= lengths[g]
      {
        RangesFit(ls, lengths, g, i);
      }
    }
  }

  lemma {:induction false} LastOf(ls: seq<Placed>, g: nat, n: nat) returns (i: nat)
    requires g != DATA && n <= |ls| && exists h :: 0 <= h < n && ls[h].segid == g
    ensures i < n && ls[i].segid == g && Total(ls, g, n) == Total(ls, g, i) + ls[i].size
  {
    if ls[n - 1].segid == g {
      i := n - 1;
    } else {
      i := LastOf(ls, g, n - 1);
    }
  }
}
