/**
  An input on which the trading of the protection-domain policy never ends: four components, whose two lightest
  cuts weigh the same and are found in turn.
 */
module PolicyRuns {
  import opened Sums
  import opened Cuts
  import opened MinCuts
  import opened Wrappers
  import opened Ledgers
  import opened Trades
  import opened Policies

  /** The components 0 and 3 call 1 and 2, and 1 calls 2. */
  function Calls(): seq<Edge> {
    [Edge(0, 1, 6), Edge(0, 2, 4), Edge(3, 1, 5), Edge(3, 2, 5), Edge(1, 2, 2)]
  }

  /** ... before any call was made. */
  function Known(): seq<Edge> {
    [Edge(0, 1, 0), Edge(0, 2, 0), Edge(3, 1, 0), Edge(3, 2, 0), Edge(1, 2, 0)]
  }

  ghost function On(e: Edge, a: set<nat>, b: set<nat>): int {
    if Links(e, a, b) then e.inv else 0
  }

  lemma {:induction false} OneMore(es: seq<Edge>, e: Edge, a: set<nat>, b: set<nat>)
    ensures Between(es + [e], a, b) == Between(es, a, b) + On(e, a, b)
  {
    assert (es + [e])[..|es|] == es;
  }

  lemma {:induction false} BetweenCalls(a: set<nat>, b: set<nat>)
    ensures Between(Calls(), a, b) == On(Edge(0, 1, 6), a, b) + On(Edge(0, 2, 4), a, b) + On(Edge(3, 1, 5), a, b)
                                      + On(Edge(3, 2, 5), a, b) + On(Edge(1, 2, 2), a, b)
  {
    var one := [Edge(0, 1, 6)];
    var two := one + [Edge(0, 2, 4)];
    var three := two + [Edge(3, 1, 5)];
    var four := three + [Edge(3, 2, 5)];
    OneMore([], Edge(0, 1, 6), a, b);
    OneMore(one, Edge(0, 2, 4), a, b);
    OneMore(two, Edge(3, 1, 5), a, b);
    OneMore(three, Edge(3, 2, 5), a, b);
    OneMore(four, Edge(1, 2, 2), a, b);
    assert [] + [Edge(0, 1, 6)] == one && Calls() == four + [Edge(1, 2, 2)];
  }

  /** The weight w if the side c parts i and j, both of u. */
  function Part(u: set<nat>, c: set<nat>, i: nat, j: nat, w: int): int {
    if i in u && j in u && (i in c) != (j in c) then w else 0
  }

  lemma {:induction false} CutCalls(u: set<nat>, c: set<nat>)
    ensures CutIn(Calls(), u, c) ==
            Part(u, c, 0, 1, 6) + Part(u, c, 0, 2, 4) + Part(u, c, 3, 1, 5) + Part(u, c, 3, 2, 5) + Part(u, c, 1, 2, 2)
  {
    BetweenCalls(u * c, u - c);
  }

  lemma Parts(u: set<nat>, c: set<nat>)
    requires c <= u <= {0, 1, 2, 3} && c != {} && c != u
    ensures 0 in c || 1 in c || 2 in c || 3 in c
    ensures (0 in u && 0 !in c) || (1 in u && 1 !in c) || (2 in u && 2 !in c) || (3 in u && 3 !in c)
  {
    var i :| i in c;
    assert !(u <= c);
    var j :| j in u && j !in c;
  }

  /** Starting from u, the search on all four components meets the other end first. */
  lemma {:induction false} OuterCut(ring: seq<nat>, cut: Cut, u: nat)
    requires Elements(ring) == {0, 1, 2, 3} && ring != [] && ring[0] == u && (u == 0 || u == 3)
    requires Current(Calls(), ring, cut)
    ensures cut.amnt == 10 && Elements(cut.side) == {3 - u}
  {
    var all, t, c := Elements(ring), Elements(cut.side), {3 - u};
    assert Proper(ring, c);
    CutCalls(all, c);
    Parts(all, t);
    CutCalls(all, t);
    assert LeavesWhole(Calls(), ring, cut.amnt, t, c);
    assert u !in t;
    assert 3 - u in t;
    assert t == c;
  }

  /** What the lightest cut of the others weighs while u is alone. */
  function Inner(u: nat): int {
    if u == 3 then 6 else 7
  }

  lemma {:induction false} InnerCut(ring: seq<nat>, cut: Cut, u: nat)
    requires Elements(ring) == {0, 1, 2, 3} - {u} && (u == 0 || u == 3) && Current(Calls(), ring, cut)
    ensures cut.amnt == Inner(u)
  {
    var all, t, c := Elements(ring), Elements(cut.side), {2};
    assert Proper(ring, c);
    CutCalls(all, c);
    Parts(all, t);
    CutCalls(all, t);
  }

  /** u has a domain of its own, and the other three share one. */
  ghost predicate Alone(pdOf: seq<nat>, u: nat) {
    && (u == 0 || u == 3) && |pdOf| == 4 && pdOf[1] == pdOf[2] == pdOf[3 - u] != pdOf[u]
  }

  /** The books while u is alone, with a domain edge that runs from its domain. */
  ghost predicate Swinging(s: Snapshot, u: nat) {
    InOrder(Calls(), s) && Alone(s.pdOf, u) && Outward(s.pdes, s.pdOf[u])
  }

  lemma TwoDomains(s: Snapshot, u: nat)
    requires Booked(Calls(), s) && Alone(s.pdOf, u)
    ensures var d, e := s.pdOf[u], s.pdOf[1];
      && s.members.Keys == {d, e} && Elements(s.members[d]) == {u} && Elements(s.members[e]) == {0, 1, 2, 3} - {u}
      && |s.members[e]| > 1 && s.members[d][0] == u
  {
    var d, e := s.pdOf[u], s.pdOf[1];
    forall x | x in s.members ensures x == d || x == e {
      assert Listed(s.pdOf, s.members[x], x);
      assert s.members[x][0] in s.members[x];
    }
    assert Listed(s.pdOf, s.members[d], d) && Listed(s.pdOf, s.members[e], e);
    assert s.members[d][0] in s.members[d];
    TwoMembers(s.pdOf, s.members[e], e, 1, 2);
  }

  /** The one domain edge weighs 10. */
  lemma {:induction false} OneEdge(s: Snapshot, u: nat, p: nat)
    requires Booked(Calls(), s) && Alone(s.pdOf, u) && p in s.pdes
    ensures s.pdes[p].weight == 10 && SamePair(s.pdes[p], s.pdOf[u], s.pdOf[1])
  {
    assert Carries(Calls(), s.master, s.pdes, p);
    var j := SomethingCarried(s.master, p);
    assert ChargedRight(Calls(), s.master, s.pdOf, s.pdes, j);
    var a, b := {u}, {0, 1, 2, 3} - {u};
    if s.pdes[p].from == s.pdOf[u] {
      PairWeight(Calls(), s.master, s.pdOf, s.pdes, s.cost, p, a, b);
    } else {
      PairWeight(Calls(), s.master, s.pdOf, s.pdes, s.cost, p, b, a);
      BetweenSymmetric(Calls(), a, b);
    }
    BetweenCalls(a, b);
  }

  lemma SomeEdge(s: Snapshot, u: nat) returns (p: nat)
    requires Booked(Calls(), s) && Alone(s.pdOf, u)
    ensures p in s.pdes
  {
    var j := if u == 0 then 0 else 2;
    assert ChargedRight(Calls(), s.master, s.pdOf, s.pdes, j);
    p := s.master[j];
  }

  /** The two heaps offer a split for 6 or 7, and a merge for 10. */
  lemma SwingOffers(s: Snapshot, u: nat)
    requires Swinging(s, u)
    ensures Lightest(s.cuts, Inner(u)) && Heaviest(s.pdes, 10) && CanTrade(s)
  {
    TwoDomains(s, u);
    var e := s.pdOf[1];
    forall d | d in s.cuts ensures d == e && s.cuts[d].amnt == Inner(u) {
      assert CutRight(Calls(), s.members, s.cuts, d);
      if d == e {
        InnerCut(s.members[d], s.cuts[d], u);
      }
    }
    assert CutRight(Calls(), s.members, s.cuts, e);
    var p := SomeEdge(s, u);
    forall q | q in s.pdes ensures s.pdes[q].weight == 10 {
      OneEdge(s, u, q);
    }
    assert Lightest(s.cuts, Inner(u)) && Heaviest(s.pdes, 10);
  }

  /** What crosses, of the weight w, between the domains of i and j. */
  ghost function Apart(pdOf: seq<nat>, i: nat, j: nat, w: int): int
    requires i < |pdOf| && j < |pdOf|
  {
    if pdOf[i] != 0 && pdOf[j] != 0 && pdOf[i] != pdOf[j] then w else 0
  }

  lemma OneMoreCrosses(es: seq<Edge>, e: Edge, pdOf: seq<nat>)
    requires InRange(es, pdOf) && e.from < |pdOf| && e.to < |pdOf| && e.from != e.to
    ensures InRange(es + [e], pdOf)
    ensures CrossCost(es + [e], pdOf) == CrossCost(es, pdOf) + Apart(pdOf, e.from, e.to, e.inv)
  {
    CrossCostSnoc(es + [e], pdOf);
    assert (es + [e])[..|es|] == es;
  }

  lemma {:induction false} CallsCost(pdOf: seq<nat>)
    requires |pdOf| == 4
    ensures InRange(Calls(), pdOf)
    ensures CrossCost(Calls(), pdOf) ==
            Apart(pdOf, 0, 1, 6) + Apart(pdOf, 0, 2, 4) + Apart(pdOf, 3, 1, 5) + Apart(pdOf, 3, 2, 5)
            + Apart(pdOf, 1, 2, 2)
  {
    var one := [Edge(0, 1, 6)];
    var two := one + [Edge(0, 2, 4)];
    var three := two + [Edge(3, 1, 5)];
    var four := three + [Edge(3, 2, 5)];
    assert [] + [Edge(0, 1, 6)] == one && Calls() == four + [Edge(1, 2, 2)];
    OneMoreCrosses([], Edge(0, 1, 6), pdOf);
    OneMoreCrosses(one, Edge(0, 2, 4), pdOf);
    OneMoreCrosses(two, Edge(3, 1, 5), pdOf);
    OneMoreCrosses(three, Edge(3, 2, 5), pdOf);
    OneMoreCrosses(four, Edge(1, 2, 2), pdOf);
  }

  lemma SwingCost(s: Snapshot, u: nat)
    requires Booked(Calls(), s) && Alone(s.pdOf, u)
    ensures s.cost == 10
  {
    TotalIsCrossCost(Calls(), s.master, s.pdOf, s.pdes, s.cost);
    CallsCost(s.pdOf);
  }

  /** All four together, listed from u on. */
  ghost predicate Together(m: Snapshot, u: nat) {
    && InOrder(Calls(), m) && |m.pdOf| == 4 && (u == 0 || u == 3)
    && m.pdOf[0] == m.pdOf[1] == m.pdOf[2] == m.pdOf[3] && m.pdOf[0] in m.members
    && m.members[m.pdOf[0]] != [] && m.members[m.pdOf[0]][0] == u
  }

  lemma SwingMerges(s: Snapshot, m: Snapshot, u: nat, p: nat)
    requires Swinging(s, u) && InOrder(Calls(), m) && MergesAlong(Calls(), s, m, p)
    ensures Together(m, u)
  {
    TwoDomains(s, u);
    OneEdge(s, u, p);
    assert s.pdes[p].from == s.pdOf[u] && s.pdes[p].to == s.pdOf[1];
  }

  lemma {:induction false} TogetherCuts(m: Snapshot, u: nat)
    requires Together(m, u)
    ensures var d := m.pdOf[0];
      && m.cost == 0 && m.cuts.Keys == {d} && m.cuts[d].amnt == 10 && Elements(m.cuts[d].side) == {3 - u}
  {
    var d := m.pdOf[0];
    TotalIsCrossCost(Calls(), m.master, m.pdOf, m.pdes, m.cost);
    CallsCost(m.pdOf);
    forall x | x in m.members ensures x == d {
      assert Listed(m.pdOf, m.members[x], x);
      assert m.members[x][0] in m.members[x];
    }
    assert Listed(m.pdOf, m.members[d], d);
    assert Elements(m.members[d]) == {0, 1, 2, 3};
    TwoMembers(m.pdOf, m.members[d], d, 1, 2);
    assert forall x :: x in m.cuts ==> CutRight(Calls(), m.members, m.cuts, x);
    assert CutRight(Calls(), m.members, m.cuts, d);
    OuterCut(m.members[d], m.cuts[d], u);
  }

  lemma SwingSplits(m: Snapshot, s: Snapshot, u: nat, x: nat, y: nat)
    requires Together(m, u) && InOrder(Calls(), s) && SplitsAlong(Calls(), m, s, x, y)
    ensures Swinging(s, 3 - u)
  {
    TogetherCuts(m, u);
    assert s.pdOf[3 - u] == y && s.pdOf[u] == s.pdOf[1] == s.pdOf[2] == m.pdOf[0];
    assert forall j :: 0 <= j < |Calls()| ==> Calls()[j].to == 1 || Calls()[j].to == 2;
    assert Uncalled(Calls(), s.pdOf, y);
  }

  /** Every round, whatever way ties are broken, leaves the other end alone: the trading is not over, and the offers
      have changed. */
  lemma SwingRound(limit: int, s: Snapshot, run: seq<Snapshot>, u: nat)
    requires 10 < limit <= 16 && Swinging(s, u) && Round(Calls(), limit, s, run)
    ensures Swinging(Last(run), 3 - u)
  {
    var p :| MergesAlong(Calls(), s, run[0], p);
    assert InOrder(Calls(), run[0]);
    SwingMerges(s, run[0], u, p);
    FirstSplit(limit, run, u);
    OnlyOneSplit(limit, run, 3 - u);
  }

  lemma FirstSplit(limit: int, run: seq<Snapshot>, u: nat)
    requires 10 < limit && SplitRun(Calls(), limit, run) && NoneFits(limit, Last(run)) && Together(run[0], u)
    ensures |run| > 1 && Swinging(run[1], 3 - u)
  {
    TogetherCuts(run[0], u);
    assert |run| > 1;
    assert InOrder(Calls(), run[1]) && SplitsAt(Calls(), limit, run, 1);
    var x, y :| SplitsAlong(Calls(), run[0], run[1], x, y);
    SwingSplits(run[0], run[1], u, x, y);
  }

  lemma OnlyOneSplit(limit: int, run: seq<Snapshot>, u: nat)
    requires limit <= 16 && SplitRun(Calls(), limit, run) && |run| > 1 && Swinging(run[1], u)
    ensures |run| == 2
  {
    SwingCost(run[1], u);
    SwingOffers(run[1], u);
    assert |run| > 2 ==> SplitsAt(Calls(), limit, run, 2);
  }

  lemma SwingGoesOn(limit: int, s: Snapshot, run: seq<Snapshot>, u: nat)
    requires 10 < limit <= 16 && Swinging(s, u) && Round(Calls(), limit, s, run)
    ensures Swinging(Last(run), 3 - u) && GoesOn(Calls(), limit, s, Last(run))
  {
    SwingRound(limit, s, run, u);
    SwingOffers(s, u);
    SwingOffers(Last(run), 3 - u);
    assert forall inc :: Lightest(s.cuts, inc) ==> inc == Inner(u);
    assert forall inc :: Lightest(Last(run).cuts, inc) ==> inc == Inner(3 - u);
  }

  // How the policy gets there.

  /** The components in the domains of their own, before the first merge. */
  ghost predicate AtFirst(s: Snapshot) {
    && Booked(Calls(), s) && |s.pdOf| == 4 && AllApart(s.pdOf) && Outward(s.pdes, s.pdOf[3])
  }

  ghost predicate AfterOne(s: Snapshot) {
    && Booked(Calls(), s) && |s.pdOf| == 4 && s.pdOf[0] == s.pdOf[1]
    && s.pdOf[0] != s.pdOf[2] && s.pdOf[0] != s.pdOf[3] && s.pdOf[2] != s.pdOf[3] && Outward(s.pdes, s.pdOf[3])
  }

  ghost predicate AfterTwo(s: Snapshot) {
    Booked(Calls(), s) && Alone(s.pdOf, 3) && Outward(s.pdes, s.pdOf[3])
  }

  /** The components that share the domain of u. */
  ghost function With(pdOf: seq<nat>, u: nat): set<nat>
    requires u < |pdOf|
  {
    set v: nat | v < |pdOf| && pdOf[v] == pdOf[u]
  }

  lemma MembersWith(s: Snapshot, u: nat)
    requires Booked(Calls(), s) && u < |s.pdOf|
    ensures s.pdOf[u] in s.members && Elements(s.members[s.pdOf[u]]) == With(s.pdOf, u)
  {
    assert Listed(s.pdOf, s.members[s.pdOf[u]], s.pdOf[u]);
  }

  /** The heaviest domain edge is no lighter than what is between u and v, and joins two components' domains. */
  lemma {:induction false} TopEdge(s: Snapshot, p: nat, u: nat, v: nat) returns (i: nat, j: nat)
    requires Booked(Calls(), s) && |s.pdOf| == 4 && p in s.pdes && Heaviest(s.pdes, s.pdes[p].weight)
    requires u < 4 && v < 4 && s.pdOf[u] != s.pdOf[v] && Between(Calls(), With(s.pdOf, u), With(s.pdOf, v)) > 0
    ensures i < 4 && j < 4 && s.pdes[p].from == s.pdOf[i] && s.pdes[p].to == s.pdOf[j] && s.pdOf[i] != s.pdOf[j]
    ensures s.pdes[p].weight == Between(Calls(), With(s.pdOf, i), With(s.pdOf, j))
    ensures s.pdes[p].weight >= Between(Calls(), With(s.pdOf, u), With(s.pdOf, v))
  {
    MembersWith(s, u);
    MembersWith(s, v);
    var q := EdgeBetween(Calls(), s, s.pdOf[u], s.pdOf[v]);
    assert Carries(Calls(), s.master, s.pdes, p);
    var k := SomethingCarried(s.master, p);
    assert ChargedRight(Calls(), s.master, s.pdOf, s.pdes, k);
    var e := Calls()[k];
    i, j := if s.pdes[p].from == s.pdOf[e.from] then e.from else e.to,
            if s.pdes[p].from == s.pdOf[e.from] then e.to else e.from;
    PairWeight(Calls(), s.master, s.pdOf, s.pdes, s.cost, p, With(s.pdOf, i), With(s.pdOf, j));
  }

  lemma CostsAtFirst(s: Snapshot)
    requires AtFirst(s) || AfterOne(s)
    ensures s.cost == if AtFirst(s) then 22 else 16
  {
    TotalIsCrossCost(Calls(), s.master, s.pdOf, s.pdes, s.cost);
    CallsCost(s.pdOf);
  }

  lemma FirstMerge(s: Snapshot, s': Snapshot, p: nat)
    requires AtFirst(s) && Booked(Calls(), s') && MergesAlong(Calls(), s, s', p)
    ensures AfterOne(s')
  {
    BetweenCalls(With(s.pdOf, 0), With(s.pdOf, 1));
    var i, j := TopEdge(s, p, 0, 1);
    BetweenCalls(With(s.pdOf, i), With(s.pdOf, j));
    assert (i == 0 && j == 1) || (i == 1 && j == 0);
    MembersWith(s, j);
    assert Uncalled(Calls(), s'.pdOf, s'.pdOf[3]);
  }

  lemma SecondMerge(s: Snapshot, s': Snapshot, p: nat)
    requires AfterOne(s) && Booked(Calls(), s') && MergesAlong(Calls(), s, s', p)
    ensures AfterTwo(s')
  {
    BetweenCalls(With(s.pdOf, 0), With(s.pdOf, 2));
    var i, j := TopEdge(s, p, 0, 2);
    BetweenCalls(With(s.pdOf, i), With(s.pdOf, j));
    assert i != 3 && j != 3;
    MembersWith(s, j);
    assert Uncalled(Calls(), s'.pdOf, s'.pdOf[3]);
  }

  /** Down to the limit it takes two merges. */
  lemma MergesTwice(limit: int, run: seq<Snapshot>)
    requires 10 < limit < 16 && MergeRun(Calls(), limit, run) && AtFirst(run[0])
    requires Last(run).cost <= limit || Last(run).cost == 0
    ensures AfterTwo(Last(run))
  {
    CostsAtFirst(run[0]);
    assert |run| > 1;
    assert Booked(Calls(), run[1]) && MergesAt(Calls(), limit, run, 1);
    var p :| MergesAlong(Calls(), run[0], run[1], p);
    FirstMerge(run[0], run[1], p);
    CostsAtFirst(run[1]);
    assert |run| > 2;
    assert Booked(Calls(), run[2]) && MergesAt(Calls(), limit, run, 2);
    var q :| MergesAlong(Calls(), run[1], run[2], q);
    SecondMerge(run[1], run[2], q);
    SwingCost(run[2], 3);
    assert |run| > 3 ==> MergesAt(Calls(), limit, run, 3);
  }

  /** No split fits then. */
  lemma StaysAtTwo(limit: int, run: seq<Snapshot>)
    requires limit <= 16 && SplitRun(Calls(), limit, run) && Swinging(run[0], 3)
    ensures |run| == 1
  {
    SwingCost(run[0], 3);
    SwingOffers(run[0], 3);
    assert |run| > 1 ==> SplitsAt(Calls(), limit, run, 1);
  }

  /** Four components in domains of their own; 3 is called by none. */
  ghost predicate Building(p: Policy)
    reads p
  {
    && p.Books() && p.Housed() && p.Populated() && |p.pdOf| == 4 && AllApart(p.pdOf) && Outward(p.pdes, p.pdOf[3])
  }

  method CreateFour() returns (p: Policy)
    ensures fresh(p) && Building(p) && p.es == []
  {
    p := new Policy();
    for i := 0 to 4
      invariant fresh(p) && p.Books() && p.Housed() && p.Populated() && p.es == [] && p.pdes == map[]
      invariant |p.pdOf| == i && AllApart(p.pdOf)
    {
      var u := p.CreateComponent();
    }
  }

  /** A call that is known, but was not made yet. */
  method Connect(p: Policy, from: nat, to: nat)
    requires Building(p) && from < 4 && to < 3 && from != to
    modifies p
    ensures Building(p) && p.es == old(p.es) + [Edge(from, to, 0)]
  {
    p.AddEdge(from, to, 0);
  }

  method Invoke(p: Policy, i: nat, val: nat)
    requires Building(p) && i < |p.es|
    modifies p
    ensures Building(p) && p.es == old(p.es)[i := old(p.es)[i].(inv := val)]
  {
    p.SetInv(i, val);
  }

  /** create_components. */
  method Create() returns (p: Policy)
    ensures fresh(p) && Building(p) && p.es == Known()
  {
    p := CreateFour();
    var known := Known();
    for i := 0 to |known|
      invariant fresh(p) && Building(p) && p.es == known[..i]
    {
      Connect(p, known[i].from, known[i].to);
    }
  }

  /** Then the invocations are counted. */
  method Count() returns (p: Policy)
    ensures fresh(p) && Building(p) && p.es == Calls()
  {
    p := Create();
    Invoke(p, 0, 6);
    Invoke(p, 1, 4);
    Invoke(p, 2, 5);
    Invoke(p, 3, 5);
    Invoke(p, 4, 2);
  }

  /** The invocations of all calls together. */
  lemma AllCalls()
    ensures Sum(Invocations(Calls())) == 22
  {
    assert Invocations(Calls()) == [6, 4, 5, 5, 2];
    assert [6, 4, 5, 5, 2][..4] == [6, 4, 5, 5] && [6, 4, 5, 5][..3] == [6, 4, 5];
    assert [6, 4, 5][..2] == [6, 4] && [6, 4][..1] == [6];
  }

  method Merge(limit: int) returns (p: Policy)
    requires 10 < limit < 16
    ensures fresh(p) && p.Sound() && p.es == Calls() && AfterTwo(p.Now())
  {
    p := Count();
    AllCalls();
    ghost var merges := p.RemoveOverheadToLimit(limit);
    MergesTwice(limit, merges);
  }

  /** The first two loops of customize_overhead_to_limit leave 3 alone. */
  method ToTheLimit(limit: int) returns (p: Policy)
    requires 10 < limit < 16
    ensures fresh(p) && p.Valid() && p.es == Calls() && Swinging(p.Now(), 3) && NoneFits(limit, p.Now())
  {
    p := Merge(limit);
    p.RecomputeMinCuts();
    assert Swinging(p.Now(), 3);
    ghost var splits := p.SplitToLimit(limit);
    StaysAtTwo(limit, splits);
  }

  /** One round of the third loop, with u alone. */
  method Swing(p: Policy, limit: int, ghost u: nat)
    requires p.Valid() && p.es == Calls() && Swinging(p.Now(), u) && NoneFits(limit, p.Now()) && 10 < limit <= 16
    modifies p
    ensures p.Valid() && p.es == Calls() && Swinging(p.Now(), 3 - u) && NoneFits(limit, p.Now())
    ensures GoesOn(Calls(), limit, old(p.Now()), p.Now())
  {
    ghost var s := p.Now();
    SwingCost(s, u);
    SwingOffers(s, u);
    ghost var run := p.Trade(limit);
    SwingGoesOn(limit, s, run, u);
  }

  ghost predicate AllGoOn(limit: int, ss: seq<Snapshot>) {
    forall k {:trigger GoesOnAt(limit, ss, k)} :: 1 <= k < |ss| ==> GoesOnAt(limit, ss, k)
  }

  ghost predicate GoesOnAt(limit: int, ss: seq<Snapshot>, k: nat)
    requires 1 <= k < |ss|
  {
    GoesOn(Calls(), limit, ss[k - 1], ss[k])
  }

  /** The third loop never ends: however many rounds it has made, none of them ended it, and there is more to
      trade.  The ends 0 and 3 take turns in having a domain of their own. */
  method NeverEnds(limit: int, n: nat) returns (p: Policy, ghost ss: seq<Snapshot>)
    requires 10 < limit < 16
    ensures p.Valid() && p.es == Calls() && |ss| == n + 1 && Last(ss) == p.Now() && CanTrade(p.Now())
    ensures AllGoOn(limit, ss)
  {
    p := ToTheLimit(limit);
    ss := [p.Now()];
    ghost var u := 3;
    for i := 0 to n
      invariant fresh(p) && p.Valid() && p.es == Calls() && |ss| == i + 1 && Last(ss) == p.Now()
      invariant Swinging(p.Now(), u) && NoneFits(limit, p.Now()) && AllGoOn(limit, ss)
    {
      Swing(p, limit, u);
      MoreGoOn(limit, ss, p.Now());
      u, ss := 3 - u, ss + [p.Now()];
    }
    SwingOffers(p.Now(), u);
  }

  lemma MoreGoOn(limit: int, ss: seq<Snapshot>, s: Snapshot)
    requires ss != [] && AllGoOn(limit, ss) && GoesOn(Calls(), limit, Last(ss), s)
    ensures AllGoOn(limit, ss + [s])
  {
    var ss' := ss + [s];
    forall k {:trigger GoesOnAt(limit, ss', k)} | 1 <= k < |ss'| ensures GoesOnAt(limit, ss', k) {
      assert k < |ss| ==> GoesOnAt(limit, ss, k);
    }
  }
}
