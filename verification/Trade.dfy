/**
  The rounds in which the protection-domain policy gives up one boundary between domains for others, and
  how such rounds end.
 */
module Trades {
  import opened Cuts
  import opened MinCuts
  import opened Wrappers
  import opened Ledgers

  /** The books at one moment. */
  datatype Snapshot = Snapshot(
    master: seq<nat>,
    pdOf: seq<nat>,
    members: map<nat, seq<nat>>,
    pdes: map<nat, PdEdge>,
    cost: int,
    cuts: map<nat, Cut>)

  /** The books are in order, and every component has its domain. */
  ghost predicate Booked(es: seq<Edge>, s: Snapshot) {
    && Ledger(es, s.master, s.pdes, s.cost) && OnePerPair(s.pdes) && Occupied(s.pdes)
    && Membership(s.pdOf, s.members) && InRange(es, s.pdOf) && Assigned(es, s.master, s.pdOf, s.pdes)
    && (forall u :: 0 <= u < |s.pdOf| ==> s.pdOf[u] != 0)
    && (forall d :: d in s.members ==> s.members[d] != [])
  }

  /** ... and so are the saved cuts. */
  ghost predicate InOrder(es: seq<Edge>, s: Snapshot) {
    Booked(es, s) && CutsRight(es, s.members, s.cuts)
  }

  /** What the cheapest split costs. */
  ghost predicate Lightest(cuts: map<nat, Cut>, inc: int) {
    (exists d :: d in cuts && cuts[d].amnt == inc) && (forall d :: d in cuts ==> inc <= cuts[d].amnt)
  }

  /** What the merge that saves most saves. */
  ghost predicate Heaviest(pdes: map<nat, PdEdge>, dec: int) {
    (exists p :: p in pdes && pdes[p].weight == dec) && (forall p :: p in pdes ==> pdes[p].weight <= dec)
  }

  /** The two heaps offer the same before and after. */
  ghost predicate SameOffers(s: Snapshot, s': Snapshot) {
    exists inc, dec ::
      Lightest(s.cuts, inc) && Heaviest(s.pdes, dec) && Lightest(s'.cuts, inc) && Heaviest(s'.pdes, dec)
  }

  /** The two domains of the heaviest domain edge p become one, which keeps its first member. */
  ghost predicate MergesAlong(es: seq<Edge>, s: Snapshot, s': Snapshot, p: nat) {
    && p in s.pdes && Heaviest(s.pdes, s.pdes[p].weight)
    && var x, y := s.pdes[p].from, s.pdes[p].to;
    && x in s.members && y in s.members && x != y && x in s'.members
    && s'.members.Keys == s.members.Keys - {y} && Moved(s.pdOf, s'.pdOf, Elements(s.members[y]), x)
    && s'.cost == s.cost - s.pdes[p].weight
    && (s.members[x] != [] ==> s'.members[x] != [] && s'.members[x][0] == s.members[x][0])
    && (forall d :: d != y && Uncalled(es, s'.pdOf, d) && Outward(s.pdes, d) ==> Outward(s'.pdes, d))
  }

  ghost predicate MergeStep(es: seq<Edge>, limit: int, s: Snapshot, s': Snapshot) {
    s.cost > limit && exists p :: MergesAlong(es, s, s', p)
  }

  /** Merges above the limit, one after the other. */
  ghost predicate MergeRun(es: seq<Edge>, limit: int, run: seq<Snapshot>) {
    && run != [] && (forall k {:trigger Booked(es, run[k])} :: 0 <= k < |run| ==> Booked(es, run[k]))
    && forall k {:trigger MergesAt(es, limit, run, k)} :: 1 <= k < |run| ==> MergesAt(es, limit, run, k)
  }

  ghost predicate MergesAt(es: seq<Edge>, limit: int, run: seq<Snapshot>, k: nat)
    requires 1 <= k < |run|
  {
    MergeStep(es, limit, run[k - 1], run[k])
  }

  /** The domain x of the lightest cut is split along it into x and the new domain y. */
  ghost predicate SplitsAlong(es: seq<Edge>, s: Snapshot, s': Snapshot, x: nat, y: nat) {
    && x in s.cuts && x in s.members && Lightest(s.cuts, s.cuts[x].amnt)
    && y !in s.members && y != 0 && s'.members.Keys == s.members.Keys + {y}
    && Moved(s.pdOf, s'.pdOf, Elements(s.cuts[x].side), y)
    && s'.cost == s.cost + s.cuts[x].amnt
    && (Uncalled(es, s'.pdOf, y) ==> Outward(s'.pdes, y))
  }

  ghost predicate SplitStep(es: seq<Edge>, limit: int, s: Snapshot, s': Snapshot) {
    s'.cost < limit && exists x, y :: SplitsAlong(es, s, s', x, y)
  }

  /** Splits, one after the other. */
  ghost predicate SplitRun(es: seq<Edge>, limit: int, run: seq<Snapshot>) {
    && run != [] && (forall k {:trigger InOrder(es, run[k])} :: 0 <= k < |run| ==> InOrder(es, run[k]))
    && forall k {:trigger SplitsAt(es, limit, run, k)} :: 1 <= k < |run| ==> SplitsAt(es, limit, run, k)
  }

  ghost predicate SplitsAt(es: seq<Edge>, limit: int, run: seq<Snapshot>, k: nat)
    requires 1 <= k < |run|
  {
    SplitStep(es, limit, run[k - 1], run[k])
  }

  /** No domain can be split within the limit. */
  ghost predicate NoneFits(limit: int, s: Snapshot) {
    forall d :: d in s.cuts ==> s.cost + s.cuts[d].amnt >= limit
  }

  /** The heaviest domain edge weighs more than the lightest cut. */
  ghost predicate CanTrade(s: Snapshot) {
    exists inc, dec :: Lightest(s.cuts, inc) && Heaviest(s.pdes, dec) && inc < dec
  }

  /** A round from s, where that is so: one merge, and then the splits of the run, as many as fit. */
  ghost predicate Round(es: seq<Edge>, limit: int, s: Snapshot, run: seq<Snapshot>) {
    && InOrder(es, s) && CanTrade(s) && SplitRun(es, limit, run) && NoneFits(limit, Last(run))
    && exists p :: MergesAlong(es, s, run[0], p)
  }

  /** One iteration of the loop that does not end it: there is more to trade, and the offers have changed. */
  ghost predicate GoesOn(es: seq<Edge>, limit: int, s: Snapshot, s': Snapshot) {
    && (exists run :: Round(es, limit, s, run) && Last(run) == s')
    && CanTrade(s') && !SameOffers(s, s')
  }

  ghost function Last(run: seq<Snapshot>): Snapshot
    requires run != []
  {
    run[|run| - 1]
  }

  /** A round that changes neither the number of domains nor the total. */
  ghost predicate Even(s: Snapshot, s': Snapshot) {
    |s'.members| == |s.members| && s'.cost == s.cost
  }

  /** Every split adds one domain. */
  lemma {:induction false} RunCounts(es: seq<Edge>, limit: int, run: seq<Snapshot>, k: nat)
    requires SplitRun(es, limit, run) && k < |run|
    ensures |run[k].members| == |run[0].members| + k
  {
    if k > 0 {
      RunCounts(es, limit, run, k - 1);
      assert SplitsAt(es, limit, run, k);
      SplitCounts(es, limit, run[k - 1], run[k]);
    }
  }

  lemma SplitCounts(es: seq<Edge>, limit: int, s: Snapshot, s': Snapshot)
    requires SplitStep(es, limit, s, s')
    ensures |s'.members| == |s.members| + 1
  {
    var x, y :| SplitsAlong(es, s, s', x, y);
    SplitAdds(es, s, s', x, y);
  }

  lemma SplitAdds(es: seq<Edge>, s: Snapshot, s': Snapshot, x: nat, y: nat)
    requires SplitsAlong(es, s, s', x, y)
    ensures |s'.members| == |s.members| + 1
  {
    assert |s'.members.Keys| == |s.members.Keys| + 1;
  }

  /** So an even round splits once. */
  lemma EvenSplitsOnce(es: seq<Edge>, limit: int, s: Snapshot, run: seq<Snapshot>, p: nat)
    requires SplitRun(es, limit, run) && MergesAlong(es, s, run[0], p) && |Last(run).members| == |s.members|
    ensures |run| == 2
  {
    RunCounts(es, limit, run, |run| - 1);
    MergeCounts(es, s, run[0], p);
  }

  lemma MergeCounts(es: seq<Edge>, s: Snapshot, s': Snapshot, p: nat)
    requires MergesAlong(es, s, s', p)
    ensures |s'.members| == |s.members| - 1
  {
    assert |s'.members.Keys| == |s.members.Keys| - 1;
  }

  /** The merge of a round: the two joined domains, and what it was between them. */
  lemma {:induction false} JoinedPair(es: seq<Edge>, s: Snapshot, m: Snapshot, p: nat)
    requires InOrder(es, s) && InOrder(es, m) && MergesAlong(es, s, m, p)
    ensures var x, a, b := s.pdes[p].from, Elements(s.members[s.pdes[p].from]), Elements(s.members[s.pdes[p].to]);
      && Elements(m.members[x]) == a + b && a !! b && a != {} && b != {} && |m.members[x]| > 1
      && s.pdes[p].weight == Between(es, a, b) && x in m.cuts
  {
    var x, y := s.pdes[p].from, s.pdes[p].to;
    assert Listed(s.pdOf, s.members[x], x) && Listed(s.pdOf, s.members[y], y) && Listed(m.pdOf, m.members[x], x);
    JoinedRing(s.pdOf, s.members[x], x, s.members[y], y, m.pdOf, m.members[x]);
    PairWeight(es, s.master, s.pdOf, s.pdes, s.cost, p, Elements(s.members[x]), Elements(s.members[y]));
    assert s.members[x][0] in Elements(s.members[x]) && s.members[y][0] in Elements(s.members[y]);
    assert CutRight(es, m.members, m.cuts, x);
  }

  /** The cut of the joined domain weighs no more than what was between the two. */
  lemma JoinedCutIsLight(es: seq<Edge>, s: Snapshot, m: Snapshot, p: nat)
    requires InOrder(es, s) && InOrder(es, m) && MergesAlong(es, s, m, p)
    ensures s.pdes[p].from in m.cuts && m.cuts[s.pdes[p].from].amnt <= s.pdes[p].weight
  {
    var a, b := s.pdes[p].from, s.pdes[p].to;
    JoinedPair(es, s, m, p);
    assert CutRight(es, m.members, m.cuts, a);
    JoinedCut(es, s.members[a], s.members[b], m.members[a], m.cuts[a]);
  }

  /** In an even round the split costs what the merge saved, and no cut is lighter: also the joined domain's is
      as heavy as that. */
  lemma EvenCuts(es: seq<Edge>, s: Snapshot, m: Snapshot, s': Snapshot, p: nat, x: nat, y: nat)
    requires InOrder(es, s) && InOrder(es, m) && MergesAlong(es, s, m, p) && SplitsAlong(es, m, s', x, y)
    requires s'.cost == s.cost
    ensures m.cuts[x].amnt == s.pdes[p].weight
    ensures s.pdes[p].from in m.cuts && m.cuts[s.pdes[p].from].amnt == s.pdes[p].weight
  {
    JoinedCutIsLight(es, s, m, p);
  }

  lemma {:induction false} SomeLink(es: seq<Edge>, a: set<nat>, b: set<nat>) returns (j: nat)
    requires Between(es, a, b) > 0
    ensures j < |es| && Links(es[j], a, b)
  {
    j := |es| - 1;
    if !Links(es[j], a, b) {
      j := SomeLink(es[..j], a, b);
    }
  }

  /** Between two domains that call each other there is a domain edge, as heavy as what is between them. */
  lemma {:induction false} EdgeBetween(es: seq<Edge>, s: Snapshot, d1: nat, d2: nat) returns (p: nat)
    requires Booked(es, s) && d1 in s.members && d2 in s.members && d1 != d2
    requires Between(es, Elements(s.members[d1]), Elements(s.members[d2])) > 0
    ensures p in s.pdes && SamePair(s.pdes[p], d1, d2)
    ensures s.pdes[p].weight == Between(es, Elements(s.members[d1]), Elements(s.members[d2]))
  {
    var a, b := Elements(s.members[d1]), Elements(s.members[d2]);
    assert Listed(s.pdOf, s.members[d1], d1) && Listed(s.pdOf, s.members[d2], d2);
    var j := SomeLink(es, a, b);
    assert ChargedRight(es, s.master, s.pdOf, s.pdes, j);
    p := s.master[j];
    if s.pdes[p].from == d1 {
      PairWeight(es, s.master, s.pdOf, s.pdes, s.cost, p, a, b);
    } else {
      PairWeight(es, s.master, s.pdOf, s.pdes, s.cost, p, b, a);
      BetweenSymmetric(es, a, b);
    }
  }

  /** The two halves of a split. */
  lemma {:induction false} Halves(es: seq<Edge>, s: Snapshot, s': Snapshot, x: nat, y: nat)
    requires InOrder(es, s) && InOrder(es, s') && SplitsAlong(es, s, s', x, y)
    ensures var u, t := Elements(s.members[x]), Elements(s.cuts[x].side);
      && Elements(s'.members[y]) == t && Elements(s'.members[x]) == u - t && u * t == t
      && Between(es, t, u - t) == s.cuts[x].amnt
  {
    var u, t := Elements(s.members[x]), Elements(s.cuts[x].side);
    assert CutRight(es, s.members, s.cuts, x);
    assert u * t == t;
    assert Listed(s.pdOf, s.members[x], x) && Listed(s'.pdOf, s'.members[x], x) && Listed(s'.pdOf, s'.members[y], y);
    forall c: nat ensures (c in s'.members[y] <==> c in t) && (c in s'.members[x] <==> c in u && c !in t) {
      assert c in t ==> c in s.members[x];
      assert c < |s.pdOf| ==> s.pdOf[c] != y;
    }
  }

  /** In an even round the domain edge between the two halves is as heavy as the one given up. */
  lemma MayMergeBack(es: seq<Edge>, s: Snapshot, m: Snapshot, s': Snapshot, p: nat, x: nat, y: nat)
    requires InOrder(es, s) && InOrder(es, m) && InOrder(es, s')
    requires MergesAlong(es, s, m, p) && SplitsAlong(es, m, s', x, y) && s'.cost == s.cost && s.pdes[p].weight > 0
    ensures exists q :: q in s'.pdes && SamePair(s'.pdes[q], x, y) && s'.pdes[q].weight == s.pdes[p].weight
  {
    EvenCuts(es, s, m, s', p, x, y);
    Halves(es, m, s', x, y);
    BetweenSymmetric(es, Elements(s'.members[x]), Elements(s'.members[y]));
    var q := EdgeBetween(es, s', x, y);
  }

  /** After an even round, the heaviest domain edge is no lighter than before. */
  lemma EvenDec(es: seq<Edge>, s: Snapshot, m: Snapshot, s': Snapshot, p: nat, x: nat, y: nat, dec: int)
    requires InOrder(es, s) && InOrder(es, m) && InOrder(es, s')
    requires MergesAlong(es, s, m, p) && SplitsAlong(es, m, s', x, y)
    requires s'.cost == s.cost && s.pdes[p].weight > 0 && Heaviest(s'.pdes, dec)
    ensures s.pdes[p].weight <= dec
  {
    MayMergeBack(es, s, m, s', p, x, y);
  }

  /** The same components are together. */
  ghost predicate SameDivision(a: seq<nat>, b: seq<nat>) {
    |a| == |b| && forall u, v :: 0 <= u < |a| && 0 <= v < |a| ==> (a[u] == a[v] <==> b[u] == b[v])
  }

  /** The domain of s' that holds what d holds in s. */
  lemma SameDomain(es: seq<Edge>, s: Snapshot, s': Snapshot, d: nat) returns (d': nat)
    requires InOrder(es, s) && InOrder(es, s') && SameDivision(s.pdOf, s'.pdOf) && d in s.members
    ensures d' in s'.members && Elements(s'.members[d']) == Elements(s.members[d])
    ensures forall u :: 0 <= u < |s.pdOf| ==> (s'.pdOf[u] == d' <==> s.pdOf[u] == d)
  {
    assert Listed(s.pdOf, s.members[d], d);
    var u := s.members[d][0];
    assert u in s.members[d];
    d' := s'.pdOf[u];
    assert Listed(s'.pdOf, s'.members[d'], d');
    assert forall v: nat :: v in s'.members[d'] <==> v in s.members[d];
  }

  /** A lightest cut weighs the same however the members are listed. */
  lemma {:induction false} SameCut(es: seq<Edge>, ring: seq<nat>, cut: Cut, ring': seq<nat>, cut': Cut)
    requires Elements(ring) == Elements(ring') && Current(es, ring, cut) && Current(es, ring', cut')
    ensures cut.amnt == cut'.amnt
  {
    assert Proper(ring, Elements(cut'.side)) && Proper(ring', Elements(cut.side));
  }

  lemma TwoOf(ring: seq<nat>, side: set<nat>)
    requires Proper(ring, side)
    ensures |ring| > 1
  {
    var u :| u in side;
    assert u in Elements(ring);
    assert !(Elements(ring) <= side);
    var v :| v in Elements(ring) && v !in side;
    assert u in ring && v in ring;
  }

  lemma SameCuts(es: seq<Edge>, s: Snapshot, s': Snapshot, d: nat) returns (d': nat)
    requires InOrder(es, s) && InOrder(es, s') && SameDivision(s.pdOf, s'.pdOf) && d in s.cuts
    ensures d' in s'.cuts && s'.cuts[d'].amnt == s.cuts[d].amnt
  {
    assert CutRight(es, s.members, s.cuts, d);
    d' := SameDomain(es, s, s', d);
    assert Proper(s'.members[d'], Elements(s.cuts[d].side));
    TwoOf(s'.members[d'], Elements(s.cuts[d].side));
    assert CutRight(es, s'.members, s'.cuts, d');
    SameCut(es, s.members[d], s.cuts[d], s'.members[d'], s'.cuts[d']);
  }

  lemma SameLightest(es: seq<Edge>, s: Snapshot, s': Snapshot, inc: int)
    requires InOrder(es, s) && InOrder(es, s') && SameDivision(s.pdOf, s'.pdOf) && Lightest(s.cuts, inc)
    ensures Lightest(s'.cuts, inc)
  {
    var d :| d in s.cuts && s.cuts[d].amnt == inc;
    var _ := SameCuts(es, s, s', d);
    forall e | e in s'.cuts ensures inc <= s'.cuts[e].amnt {
      var _ := SameCuts(es, s', s, e);
    }
  }

  lemma {:induction false} SameEdges(es: seq<Edge>, s: Snapshot, s': Snapshot, p: nat) returns (p': nat)
    requires InOrder(es, s) && InOrder(es, s') && SameDivision(s.pdOf, s'.pdOf) && p in s.pdes
    ensures p' in s'.pdes && s'.pdes[p'].weight == s.pdes[p].weight
  {
    assert Carries(es, s.master, s.pdes, p);
    var j := SomethingCarried(s.master, p);
    assert ChargedRight(es, s.master, s.pdOf, s.pdes, j) && ChargedRight(es, s'.master, s'.pdOf, s'.pdes, j);
    p' := s'.master[j];
    SameWeight(es, s, s', p, p', j);
  }

  lemma {:induction false} SameWeight(es: seq<Edge>, s: Snapshot, s': Snapshot, p: nat, p': nat, j: nat)
    requires InOrder(es, s) && InOrder(es, s') && SameDivision(s.pdOf, s'.pdOf) && p in s.pdes && p' in s'.pdes
    requires j < |es| && Crosses(es[j], s.pdOf) && Crosses(es[j], s'.pdOf)
    requires SamePair(s.pdes[p], s.pdOf[es[j].from], s.pdOf[es[j].to])
    requires SamePair(s'.pdes[p'], s'.pdOf[es[j].from], s'.pdOf[es[j].to])
    ensures s'.pdes[p'].weight == s.pdes[p].weight
  {
    var a := set u: nat | u < |s.pdOf| && s.pdOf[u] == s.pdes[p].from;
    var b := set u: nat | u < |s.pdOf| && s.pdOf[u] == s.pdes[p].to;
    PairWeight(es, s.master, s.pdOf, s.pdes, s.cost, p, a, b);
    if (s.pdes[p].from == s.pdOf[es[j].from]) == (s'.pdes[p'].from == s'.pdOf[es[j].from]) {
      PairWeight(es, s'.master, s'.pdOf, s'.pdes, s'.cost, p', a, b);
    } else {
      PairWeight(es, s'.master, s'.pdOf, s'.pdes, s'.cost, p', b, a);
      BetweenSymmetric(es, a, b);
    }
  }

  lemma SameHeaviest(es: seq<Edge>, s: Snapshot, s': Snapshot, dec: int)
    requires InOrder(es, s) && InOrder(es, s') && SameDivision(s.pdOf, s'.pdOf) && Heaviest(s.pdes, dec)
    ensures Heaviest(s'.pdes, dec)
  {
    var p :| p in s.pdes && s.pdes[p].weight == dec;
    var _ := SameEdges(es, s, s', p);
    forall q | q in s'.pdes ensures s'.pdes[q].weight <= dec {
      var _ := SameEdges(es, s', s, q);
    }
  }

  /** s is a side of a lightest cut of u. */
  ghost predicate MinSide(es: seq<Edge>, u: set<nat>, s: set<nat>) {
    && s <= u && s != {} && s != u
    && forall c: set<nat> :: c <= u && c != {} && c != u ==> CutIn(es, u, s) <= CutIn(es, u, c)
  }

  /** Two different lightest cuts, of the same components or of components with none in common, weigh the same. */
  ghost predicate Tie(es: seq<Edge>, u: set<nat>, s: set<nat>, v: set<nat>, t: set<nat>) {
    && MinSide(es, u, s) && MinSide(es, v, t) && CutIn(es, u, s) == CutIn(es, v, t) > 0
    && (u !! v || (u == v && s != t && s != u - t))
  }

  /** The invocation counts allow for a tie. */
  ghost predicate Tied(es: seq<Edge>) {
    exists u: set<nat>, s: set<nat>, v: set<nat>, t: set<nat> :: Tie(es, u, s, v, t)
  }

  lemma {:induction false} CutIsMin(es: seq<Edge>, ring: seq<nat>, cut: Cut)
    requires Current(es, ring, cut)
    ensures MinSide(es, Elements(ring), Elements(cut.side))
    ensures CutIn(es, Elements(ring), Elements(cut.side)) == cut.amnt
  {
    forall c: set<nat> | c <= Elements(ring) && c != {} && c != Elements(ring)
      ensures cut.amnt <= CutIn(es, Elements(ring), c)
    {
      assert Proper(ring, c);
    }
  }

  /** Splitting a joined domain as it was before gives the same division. */
  lemma SplitBack(es: seq<Edge>, s: Snapshot, m: Snapshot, s': Snapshot, p: nat, y: nat)
    requires InOrder(es, s) && InOrder(es, m) && MergesAlong(es, s, m, p)
    requires SplitsAlong(es, m, s', s.pdes[p].from, y)
    requires var side := Elements(m.cuts[s.pdes[p].from].side);
      side == Elements(s.members[s.pdes[p].from]) || side == Elements(s.members[s.pdes[p].to])
    ensures SameDivision(s.pdOf, s'.pdOf)
  {
    var a, b := s.pdes[p].from, s.pdes[p].to;
    var side := Elements(m.cuts[a].side);
    assert Listed(s.pdOf, s.members[a], a) && Listed(s.pdOf, s.members[b], b);
    forall u: nat | u < |s.pdOf|
      ensures s'.pdOf[u] == if u in side then y else if s.pdOf[u] == b then a else s.pdOf[u]
      ensures u in side <==> if side == Elements(s.members[a]) then s.pdOf[u] == a else s.pdOf[u] == b
      ensures m.pdOf[u] != y
    {
      assert u in Elements(s.members[b]) <==> s.pdOf[u] == b;
      assert u in Elements(s.members[a]) <==> s.pdOf[u] == a;
    }
  }

  /** What was between the two joined domains is a lightest cut of them together. */
  lemma {:induction false} JoinIsMin(es: seq<Edge>, s: Snapshot, m: Snapshot, s': Snapshot,
                                     p: nat, x: nat, y: nat)
    requires InOrder(es, s) && InOrder(es, m) && MergesAlong(es, s, m, p) && SplitsAlong(es, m, s', x, y)
    requires s'.cost == s.cost
    ensures var u, a := Elements(m.members[s.pdes[p].from]), Elements(s.members[s.pdes[p].from]);
      MinSide(es, u, a) && CutIn(es, u, a) == s.pdes[p].weight
  {
    var x1 := s.pdes[p].from;
    JoinedPair(es, s, m, p);
    EvenCuts(es, s, m, s', p, x, y);
    assert CutRight(es, m.members, m.cuts, x1);
    CutIsMin(es, m.members[x1], m.cuts[x1]);
    var u, a, b := Elements(m.members[x1]), Elements(s.members[x1]), Elements(s.members[s.pdes[p].to]);
    assert u * a == a && u - a == b;
  }

  /** An even round that changes the offers comes from a tie. */
  lemma {:induction false} EvenIsTied(es: seq<Edge>, s: Snapshot, m: Snapshot, s': Snapshot,
                                      p: nat, x: nat, y: nat)
    requires InOrder(es, s) && InOrder(es, m) && InOrder(es, s')
    requires MergesAlong(es, s, m, p) && SplitsAlong(es, m, s', x, y)
    requires s'.cost == s.cost && s.pdes[p].weight > 0 && !SameDivision(s.pdOf, s'.pdOf)
    ensures Tied(es)
  {
    var x1 := s.pdes[p].from;
    var u, a, b := Elements(m.members[x1]), Elements(s.members[x1]), Elements(s.members[s.pdes[p].to]);
    var v, t := Elements(m.members[x]), Elements(m.cuts[x].side);
    JoinedPair(es, s, m, p);
    JoinIsMin(es, s, m, s', p, x, y);
    EvenCuts(es, s, m, s', p, x, y);
    assert CutRight(es, m.members, m.cuts, x);
    CutIsMin(es, m.members[x], m.cuts[x]);
    if x == x1 {
      if t == a || t == b {
        SplitBack(es, s, m, s', p, y);
      }
      assert u - t == a ==> t == b;
    } else {
      assert Listed(m.pdOf, m.members[x], x) && Listed(m.pdOf, m.members[x1], x1);
    }
    assert Tie(es, u, a, v, t);
  }

  /** Without a tie, an even round changes no offer. */
  lemma UntiedIsSame(es: seq<Edge>, limit: int, s: Snapshot, run: seq<Snapshot>)
    requires Round(es, limit, s, run) && Even(s, Last(run)) && !SameOffers(s, Last(run))
    ensures Tied(es)
  {
    var p, x, y := EvenParts(es, limit, s, run);
    if SameDivision(s.pdOf, run[1].pdOf) {
      var inc, dec :| Lightest(s.cuts, inc) && Heaviest(s.pdes, dec) && inc < dec;
      SameLightest(es, s, run[1], inc);
      SameHeaviest(es, s, run[1], dec);
    } else {
      EvenIsTied(es, s, run[0], run[1], p, x, y);
    }
  }

  /** After an even round the heaviest domain edge is no lighter. */
  lemma EvenKeepsHeaviest(es: seq<Edge>, limit: int, s: Snapshot, run: seq<Snapshot>, dec: int, dec': int)
    requires Round(es, limit, s, run) && Even(s, Last(run)) && Heaviest(s.pdes, dec) && Heaviest(Last(run).pdes, dec')
    ensures dec <= dec'
  {
    var p, x, y := EvenParts(es, limit, s, run);
    EvenDec(es, s, run[0], run[1], p, x, y, dec');
  }

  /** ... so there is one. */
  lemma EvenLeavesEdges(es: seq<Edge>, limit: int, s: Snapshot, run: seq<Snapshot>, dec: int)
    requires Round(es, limit, s, run) && Even(s, Last(run)) && Heaviest(s.pdes, dec)
    ensures Last(run).pdes != map[]
  {
    var p, x, y := EvenParts(es, limit, s, run);
    MayMergeBack(es, s, run[0], run[1], p, x, y);
  }

  /** The merge and the one split of an even round. */
  lemma EvenParts(es: seq<Edge>, limit: int, s: Snapshot, run: seq<Snapshot>) returns (p: nat, x: nat, y: nat)
    requires Round(es, limit, s, run) && Even(s, Last(run))
    ensures |run| == 2 && MergesAlong(es, s, run[0], p) && SplitsAlong(es, run[0], run[1], x, y)
    ensures s.pdes[p].weight > 0
  {
    p :| MergesAlong(es, s, run[0], p);
    EvenSplitsOnce(es, limit, s, run, p);
    assert SplitsAt(es, limit, run, 1);
    x, y :| SplitsAlong(es, run[0], run[1], x, y);
    var inc, dec :| Lightest(s.cuts, inc) && Heaviest(s.pdes, dec) && inc < dec;
    CutsNonNegative(es, s, inc);
  }

  lemma CutsNonNegative(es: seq<Edge>, s: Snapshot, inc: int)
    requires InOrder(es, s) && Lightest(s.cuts, inc)
    ensures inc >= 0
  {
    var d :| d in s.cuts && s.cuts[d].amnt == inc;
    assert CutRight(es, s.members, s.cuts, d);
  }

  /** How the trading ends. */
  datatype Ending = Settled | Same | Swung

  /** An even round that changes the lightest cut only. */
  ghost predicate Swing(s: Snapshot, s': Snapshot) {
    Even(s, s') && !SameOffers(s, s') && exists dec :: Heaviest(s.pdes, dec) && Heaviest(s'.pdes, dec)
  }

  /** What the ending says of the last round, from `was` to `now`. */
  ghost predicate Ends(es: seq<Edge>, limit: int, end: Ending, was: Snapshot, run: seq<Snapshot>, now: Snapshot) {
    && (end == Settled <==> !CanTrade(now))
    && (end != Settled ==> Round(es, limit, was, run) && Last(run) == now)
    && (end == Same ==> SameOffers(was, now))
    && (end == Swung ==> Swing(was, now) && Tied(es))
  }

  ghost function Top(pdes: map<nat, PdEdge>): int {
    if exists dec :: Heaviest(pdes, dec) then var dec :| Heaviest(pdes, dec); dec else 0
  }

  ghost predicate Bounded(s: Snapshot) {
    0 <= s.cost && Top(s.pdes) <= s.cost && |s.members| <= |s.pdOf|
  }

  /** From s to s' the trading comes down from the limit, or it gains a domain, lowers the total, or leaves a heavier
      domain edge. */
  ghost predicate Further(limit: int, s: Snapshot, s': Snapshot) {
    && Bounded(s) && s'.cost < limit
    && (|| s.cost >= limit || |s'.members| > |s.members|
        || (|s'.members| == |s.members| && s'.cost < s.cost) || (Even(s, s') && Top(s'.pdes) > Top(s.pdes)))
  }

  lemma MergesExtend(es: seq<Edge>, limit: int, run: seq<Snapshot>, s: Snapshot, p: nat)
    requires MergeRun(es, limit, run) && Booked(es, s) && Last(run).cost > limit && MergesAlong(es, Last(run), s, p)
    ensures MergeRun(es, limit, run + [s])
  {
    var run' := run + [s];
    forall k {:trigger Booked(es, run'[k])} | 0 <= k < |run'| ensures Booked(es, run'[k]) {
      assert k < |run| ==> Booked(es, run[k]);
    }
    forall k {:trigger MergesAt(es, limit, run', k)} | 1 <= k < |run'| ensures MergesAt(es, limit, run', k) {
      assert k < |run| ==> MergesAt(es, limit, run, k);
    }
  }

  lemma RunExtends(es: seq<Edge>, limit: int, run: seq<Snapshot>, s: Snapshot)
    requires SplitRun(es, limit, run) && InOrder(es, s) && SplitStep(es, limit, Last(run), s)
    ensures SplitRun(es, limit, run + [s])
  {
    var run' := run + [s];
    forall k {:trigger InOrder(es, run'[k])} | 0 <= k < |run'| ensures InOrder(es, run'[k]) {
      assert k < |run| ==> InOrder(es, run[k]);
    }
    forall k {:trigger SplitsAt(es, limit, run', k)} | 1 <= k < |run'| ensures SplitsAt(es, limit, run', k) {
      assert k < |run| ==> SplitsAt(es, limit, run, k);
    }
  }

  /** After a round the total is below the limit, if it was not above it before. */
  lemma RunStaysBelow(es: seq<Edge>, limit: int, s: Snapshot, run: seq<Snapshot>, p: nat)
    requires InOrder(es, s) && SplitRun(es, limit, run) && MergesAlong(es, s, run[0], p) && s.cost <= limit
    requires s.pdes[p].weight > 0
    ensures Last(run).cost < limit
  {
    assert |run| > 1 ==> SplitsAt(es, limit, run, |run| - 1);
  }

  /** From below the limit, a round leaves more domains, or as many and a total that is no larger. */
  lemma RoundProgress(es: seq<Edge>, limit: int, s: Snapshot, run: seq<Snapshot>)
    requires Round(es, limit, s, run) && s.cost < limit
    ensures |Last(run).members| >= |s.members|
    ensures |Last(run).members| == |s.members| ==> Last(run).cost <= s.cost
  {
    var p :| MergesAlong(es, s, run[0], p);
    MergeCounts(es, s, run[0], p);
    RunCounts(es, limit, run, |run| - 1);
    assert InOrder(es, run[0]);
    JoinedCutIsLight(es, s, run[0], p);
    assert |run| == 2 ==> SplitsAt(es, limit, run, 1);
  }
}
