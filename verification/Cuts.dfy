/**
  Weighted cuts of the component graph, and the combinatorial heart of the min-cut
  algorithm of Stoer and Wagner: the last group a phase absorbs is a minimum cut between
  itself and the group absorbed just before it.
 */
module Cuts {

  /** An invocation edge between two components; `inv` is its invocation count. */
  datatype Edge = Edge(from: nat, to: nat, inv: nat)

  predicate Links(e: Edge, a: set<nat>, b: set<nat>) {
    (e.from in a && e.to in b) || (e.from in b && e.to in a)
  }

  /** The invocations on edges with one end in a and the other in b. */
  function Between(es: seq<Edge>, a: set<nat>, b: set<nat>): nat {
    if es == [] then 0
    else Between(es[..|es| - 1], a, b) + if Links(es[|es| - 1], a, b) then es[|es| - 1].inv else 0
  }

  /** The weight of the cut that the side c induces on the components u. */
  function CutIn(es: seq<Edge>, u: set<nat>, c: set<nat>): nat {
    Between(es, u * c, u - c)
  }

  lemma {:induction false} BetweenSymmetric(es: seq<Edge>, a: set<nat>, b: set<nat>)
    ensures Between(es, a, b) == Between(es, b, a)
  {
    if es != [] {
      BetweenSymmetric(es[..|es| - 1], a, b);
    }
  }

  lemma {:induction false} BetweenUnion(es: seq<Edge>, a: set<nat>, b: set<nat>, d: set<nat>)
    requires a !! b && a !! d && b !! d
    ensures Between(es, a + b, d) == Between(es, a, d) + Between(es, b, d)
  {
    if es != [] {
      BetweenUnion(es[..|es| - 1], a, b, d);
    }
  }

  lemma {:induction false} BetweenMonotone(es: seq<Edge>, a: set<nat>, b: set<nat>, a': set<nat>, b': set<nat>)
    requires a <= a' && b <= b'
    ensures Between(es, a, b) <= Between(es, a', b')
  {
    if es != [] {
      BetweenMonotone(es[..|es| - 1], a, b, a', b');
    }
  }

  /** The side c takes all of g or nothing of it. */
  ghost predicate Whole(g: set<nat>, c: set<nat>) {
    g <= c || g !! c
  }

  /** The side c holds one of the groups and leaves out the other. */
  ghost predicate Splits(g: set<nat>, h: set<nat>, c: set<nat>) {
    (g <= c && h !! c) || (g !! c && h <= c)
  }

  /** Adding a group u on the other side of v pays at least for the edges between them. */
  lemma {:induction false} CutGrows(es: seq<Edge>, a: set<nat>, v: set<nat>, u: set<nat>, c: set<nat>)
    requires a !! v && a !! u && v !! u && Splits(v, u, c)
    ensures CutIn(es, a + v + u, c) >= CutIn(es, a + v, c) + Between(es, v, u)
  {
    var w := a + v;
    if v <= c && u !! c {
      assert (w + u) * c == w * c && (w + u) - c == (w - c) + u;
      BetweenSymmetric(es, w * c, (w - c) + u);
      BetweenUnion(es, w - c, u, w * c);
      BetweenSymmetric(es, w - c, w * c);
      BetweenSymmetric(es, u, w * c);
      BetweenMonotone(es, v, u, w * c, u);
    } else {
      assert (w + u) * c == w * c + u && (w + u) - c == w - c;
      BetweenUnion(es, w * c, u, w - c);
      BetweenSymmetric(es, u, w - c);
      BetweenMonotone(es, v, u, w - c, u);
    }
  }

  /** The components of the first i groups. */
  ghost function Absorbed(order: seq<set<nat>>, i: nat): set<nat>
    requires i <= |order|
  {
    if i == 0 then {} else Absorbed(order, i - 1) + order[i - 1]
  }

  ghost predicate PairwiseDisjoint(order: seq<set<nat>>) {
    forall i, j :: 0 <= i < j < |order| ==> order[i] !! order[j]
  }

  /** Of groups i and j, the i-th is at least as connected to the groups before it. */
  ghost predicate NoTighter(es: seq<Edge>, order: seq<set<nat>>, i: nat, j: nat)
    requires i < |order| && j < |order|
  {
    Between(es, Absorbed(order, i), order[j]) <= Between(es, Absorbed(order, i), order[i])
  }

  /** Every group absorbed is at least as tightly connected to its predecessors as any later one. */
  ghost predicate MostConnectedFirst(es: seq<Edge>, order: seq<set<nat>>) {
    forall i, j :: 1 <= i <= j < |order| ==> NoTighter(es, order, i, j)
  }

  lemma {:induction false} AbsorbedDisjoint(order: seq<set<nat>>, i: nat, j: nat)
    requires PairwiseDisjoint(order) && i <= j < |order|
    ensures Absorbed(order, i) !! order[j]
  {
    if i > 0 {
      AbsorbedDisjoint(order, i - 1, j);
    }
  }

  /** One step of that induction: u lies across from v, and the connection of u to the set
      absorbed before v is covered by a cut that v or u completes. */
  lemma {:induction false} PhaseStep(es: seq<Edge>, a: set<nat>, v: set<nat>, u: set<nat>, c: set<nat>)
    requires a !! v && a !! u && v !! u && Splits(v, u, c)
    requires Between(es, a, u) <= CutIn(es, a + u, c) || Between(es, a, u) <= CutIn(es, a + v, c)
    ensures Between(es, a + v, u) <= CutIn(es, a + v + u, c)
  {
    BetweenUnion(es, a, v, u);
    CutGrows(es, a, v, u, c);
    CutGrows(es, a, u, v, c);
    assert a + u + v == a + v + u;
    BetweenSymmetric(es, u, v);
  }

  /** The induction behind the cut of the phase: a group on the other side of the one just
      absorbed is no more connected to the absorbed set than the cut so far is heavy. */
  lemma {:induction false} PhaseInvariant(es: seq<Edge>, order: seq<set<nat>>, c: set<nat>, i: nat, j: nat)
    requires PairwiseDisjoint(order) && MostConnectedFirst(es, order)
    requires 1 <= i <= j < |order|
    requires forall k :: 0 <= k < |order| ==> Whole(order[k], c)
    requires Splits(order[i - 1], order[j], c)
    ensures Between(es, Absorbed(order, i), order[j]) <= CutIn(es, Absorbed(order, i) + order[j], c)
  {
    AbsorbedDisjoint(order, i - 1, i - 1);
    AbsorbedDisjoint(order, i - 1, j);
    if i == 1 {
      NothingBetween(es, order[j]);
    } else if Splits(order[i - 2], order[j], c) {
      PhaseInvariant(es, order, c, i - 1, j);
    } else {
      assert Whole(order[i - 2], c) && Whole(order[i - 1], c);
      PhaseInvariant(es, order, c, i - 1, i - 1);
      assert NoTighter(es, order, i - 1, j);
    }
    PhaseStep(es, Absorbed(order, i - 1), order[i - 1], order[j], c);
  }

  lemma {:induction false} NothingBetween(es: seq<Edge>, u: set<nat>)
    ensures Between(es, {}, u) == 0
  {
    if es != [] {
      NothingBetween(es[..|es| - 1], u);
    }
  }

  /** Cut of the phase: separating the last group from all others is a cheapest way to
      separate it from the group absorbed before it. */
  lemma {:induction false} CutOfPhase(es: seq<Edge>, order: seq<set<nat>>, c: set<nat>)
    requires PairwiseDisjoint(order) && MostConnectedFirst(es, order) && |order| >= 2
    requires forall k :: 0 <= k < |order| ==> Whole(order[k], c)
    requires Splits(order[|order| - 2], order[|order| - 1], c)
    ensures CutIn(es, Absorbed(order, |order|), order[|order| - 1]) <= CutIn(es, Absorbed(order, |order|), c)
  {
    var n := |order| - 1;
    PhaseInvariant(es, order, c, n, n);
    AbsorbedDisjoint(order, n, n);
    var a, t := Absorbed(order, n), order[n];
    assert (a + t) * t == t && (a + t) - t == a;
    BetweenSymmetric(es, a, t);
  }
}
