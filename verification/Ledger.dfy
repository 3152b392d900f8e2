/**
  What the books of the protection-domain policy must say: which edges cross between domains, the
  domain-to-domain edges they are charged to, what they cost in all, and the lightest cut of each domain;
  and how these follow the steps of the policy.

  Domains and domain edges are named by naturals from 1 on; 0 is the NULL of the source.
 */
module Ledgers {
  import opened Sums
  import opened Cuts
  import opened MinCuts
  import opened Wrappers

  /** An edge between two domains, charged with the invocations of its constituents. */
  datatype PdEdge = PdEdge(from: nat, to: nat, weight: int, nedges: nat)

  predicate SamePair(e: PdEdge, d1: nat, d2: nat) {
    (e.from == d1 && e.to == d2) || (e.from == d2 && e.to == d1)
  }

  /** What each edge contributes to the weight of domain edge p. */
  ghost function Charges(es: seq<Edge>, master: seq<nat>, p: nat): seq<int>
    requires |es| == |master|
  {
    seq(|es|, i requires 0 <= i < |es| => if master[i] == p then es[i].inv else 0)
  }

  ghost function Marks(master: seq<nat>, p: nat): seq<int> {
    seq(|master|, i requires 0 <= i < |master| => if master[i] == p then 1 else 0)
  }

  /** What each edge contributes to the total cost. */
  ghost function Costs(es: seq<Edge>, master: seq<nat>): seq<int>
    requires |es| == |master|
  {
    seq(|es|, i requires 0 <= i < |es| => if master[i] != 0 then es[i].inv else 0)
  }

  /** The domain edge p carries exactly its constituents. */
  ghost predicate Carries(es: seq<Edge>, master: seq<nat>, pdes: map<nat, PdEdge>, p: nat)
    requires |es| == |master| && p in pdes
  {
    pdes[p].weight == Sum(Charges(es, master, p)) && pdes[p].nedges == Sum(Marks(master, p))
  }

  ghost predicate Ledger(es: seq<Edge>, master: seq<nat>, pdes: map<nat, PdEdge>, totCost: int) {
    && |es| == |master| && 0 !in pdes
    && (forall i :: 0 <= i < |master| && master[i] != 0 ==> master[i] in pdes)
    && (forall p {:trigger Carries(es, master, pdes, p)} :: p in pdes ==> Carries(es, master, pdes, p))
    && totCost == Sum(Costs(es, master))
  }

  ghost predicate DifferentPairs(pdes: map<nat, PdEdge>, p: nat, q: nat)
    requires p in pdes && q in pdes
  {
    !SamePair(pdes[p], pdes[q].from, pdes[q].to)
  }

  /** No two domain edges join the same two domains. */
  ghost predicate OnePerPair(pdes: map<nat, PdEdge>) {
    && (forall p :: p in pdes ==> pdes[p].from != pdes[p].to)
    && (forall p, q {:trigger DifferentPairs(pdes, p, q)} :: p in pdes && q in pdes && p != q ==>
          DifferentPairs(pdes, p, q))
  }

  /** The edge crosses between two domains. */
  predicate Crosses(e: Edge, pdOf: seq<nat>)
    requires e.from < |pdOf| && e.to < |pdOf|
  {
    pdOf[e.from] != 0 && pdOf[e.to] != 0 && pdOf[e.from] != pdOf[e.to]
  }

  ghost predicate InRange(es: seq<Edge>, pdOf: seq<nat>) {
    forall i :: 0 <= i < |es| ==> es[i].from < |pdOf| && es[i].to < |pdOf| && es[i].from != es[i].to
  }

  /** Edge i is charged exactly when it crosses, and then to the domain edge that joins its
      two domains. */
  ghost predicate ChargedRight(es: seq<Edge>, master: seq<nat>, pdOf: seq<nat>, pdes: map<nat, PdEdge>, i: nat)
    requires |es| == |master| && InRange(es, pdOf) && i < |es|
  {
    if Crosses(es[i], pdOf) then
      && master[i] != 0 && master[i] in pdes
      && SamePair(pdes[master[i]], pdOf[es[i].from], pdOf[es[i].to])
    else master[i] == 0
  }

  ghost predicate Assigned(es: seq<Edge>, master: seq<nat>, pdOf: seq<nat>, pdes: map<nat, PdEdge>)
    requires |es| == |master| && InRange(es, pdOf)
  {
    forall i {:trigger ChargedRight(es, master, pdOf, pdes, i)} :: 0 <= i < |es| ==>
      ChargedRight(es, master, pdOf, pdes, i)
  }

  /** Every domain lists exactly the components that name it. */
  ghost predicate Membership(pdOf: seq<nat>, members: map<nat, seq<nat>>) {
    && 0 !in members
    && (forall u :: 0 <= u < |pdOf| && pdOf[u] != 0 ==> pdOf[u] in members)
    && (forall d {:trigger Listed(pdOf, members[d], d)} :: d in members ==> Listed(pdOf, members[d], d))
  }

  ghost predicate Listed(pdOf: seq<nat>, ring: seq<nat>, d: nat) {
    Distinct(ring) && (forall u: nat {:trigger u in ring} :: u in ring <==> u < |pdOf| && pdOf[u] == d)
  }

  /** The specification of the total: invocations on edges between different domains. */
  ghost function CrossCost(es: seq<Edge>, pdOf: seq<nat>): int
    requires InRange(es, pdOf)
  {
    Sum(seq(|es|, i requires 0 <= i < |es| => if Crosses(es[i], pdOf) then es[i].inv else 0))
  }

  /** Recharging edge i from its domain edge to q, or to none, or the other way around. */
  lemma Recharge(es: seq<Edge>, master: seq<nat>, i: nat, q: nat, p: nat)
    requires |es| == |master| && i < |es|
    ensures Sum(Charges(es, master[i := q], p)) ==
            Sum(Charges(es, master, p)) + (if q == p then es[i].inv else 0) - (if master[i] == p then es[i].inv else 0)
    ensures Sum(Marks(master[i := q], p)) ==
            Sum(Marks(master, p)) + (if q == p then 1 else 0) - (if master[i] == p then 1 else 0)
  {
    var x := if q == p then es[i].inv else 0;
    assert Charges(es, master[i := q], p) == Charges(es, master, p)[i := x];
    SumUpdate(Charges(es, master, p), i, x);
    var y := if q == p then 1 else 0;
    assert Marks(master[i := q], p) == Marks(master, p)[i := y];
    SumUpdate(Marks(master, p), i, y);
  }

  lemma RechargeTotal(es: seq<Edge>, master: seq<nat>, i: nat, q: nat)
    requires |es| == |master| && i < |es|
    ensures Sum(Costs(es, master[i := q])) ==
            Sum(Costs(es, master)) + (if q != 0 then es[i].inv else 0) - (if master[i] != 0 then es[i].inv else 0)
  {
    var x := if q != 0 then es[i].inv else 0;
    assert Costs(es, master[i := q]) == Costs(es, master)[i := x];
    SumUpdate(Costs(es, master), i, x);
  }

  /** A domain edge that carries no constituent weighs nothing and charges no edge. */
  lemma NothingCarried(es: seq<Edge>, master: seq<nat>, p: nat)
    requires |es| == |master| && Sum(Marks(master, p)) == 0
    ensures p !in master && Sum(Charges(es, master, p)) == 0
  {
    forall i | 0 <= i < |master| ensures master[i] != p {
      SumNonNegative(Marks(master, p), i);
    }
    SumZero(Charges(es, master, p));
  }

  /** The domain edge e, charged with dn more (or fewer) constituents of weight inv. */
  function Adjusted(e: PdEdge, dn: int, inv: int): PdEdge
    requires e.nedges + dn >= 0
  {
    e.(nedges := e.nedges + dn, weight := e.weight + dn * inv)
  }

  lemma CarriesStill(es: seq<Edge>, master: seq<nat>, pdes: map<nat, PdEdge>, i: nat, t: nat,
                     pdes': map<nat, PdEdge>, q: nat)
    requires |es| == |master| && i < |es| && q in pdes && q in pdes' && Carries(es, master, pdes, q)
    requires master[i] != t
    requires if q == t then pdes[q].nedges + 1 >= 0 && pdes'[q] == Adjusted(pdes[q], 1, es[i].inv)
             else if q == master[i] then pdes[q].nedges - 1 >= 0 && pdes'[q] == Adjusted(pdes[q], -1, es[i].inv)
             else pdes'[q] == pdes[q]
    ensures Carries(es, master[i := t], pdes', q)
  {
    Recharge(es, master, i, t, q);
  }

  /** Taking edge i off its domain edge, weight and count included, keeps the ledger. */
  lemma Uncharge(es: seq<Edge>, master: seq<nat>, pdes: map<nat, PdEdge>, totCost: int, i: nat)
    requires Ledger(es, master, pdes, totCost) && i < |es| && master[i] != 0
    ensures pdes[master[i]].nedges > 0
    ensures Ledger(es, master[i := 0], pdes[master[i] := Adjusted(pdes[master[i]], -1, es[i].inv)],
                   totCost - es[i].inv)
  {
    RechargeTotal(es, master, i, 0);
    var p := master[i];
    assert Carries(es, master, pdes, p);
    HasConstituent(es, master, pdes, i);
    var pdes' := pdes[p := Adjusted(pdes[p], -1, es[i].inv)];
    forall q | q in pdes' ensures Carries(es, master[i := 0], pdes', q) {
      assert Carries(es, master, pdes, q);
      CarriesStill(es, master, pdes, i, 0, pdes', q);
    }
  }

  lemma HasConstituent(es: seq<Edge>, master: seq<nat>, pdes: map<nat, PdEdge>, i: nat)
    requires |es| == |master| && i < |es| && master[i] in pdes && Carries(es, master, pdes, master[i])
    ensures pdes[master[i]].nedges > 0
  {
    SumNonNegative(Marks(master, master[i]), i);
  }

  /** Charging edge i to the domain edge p, weight and count included, keeps the ledger. */
  lemma Charge(es: seq<Edge>, master: seq<nat>, pdes: map<nat, PdEdge>, totCost: int, i: nat, p: nat)
    requires Ledger(es, master, pdes, totCost) && i < |es| && master[i] == 0 && p in pdes
    ensures Ledger(es, master[i := p], pdes[p := Adjusted(pdes[p], 1, es[i].inv)], totCost + es[i].inv)
  {
    RechargeTotal(es, master, i, p);
    var pdes' := pdes[p := Adjusted(pdes[p], 1, es[i].inv)];
    forall q | q in pdes' ensures Carries(es, master[i := p], pdes', q) {
      assert Carries(es, master, pdes, q);
      CarriesStill(es, master, pdes, i, p, pdes', q);
    }
  }

  /** A domain edge without constituents has no weight left and can go. */
  lemma DropEmpty(es: seq<Edge>, master: seq<nat>, pdes: map<nat, PdEdge>, totCost: int, p: nat)
    requires Ledger(es, master, pdes, totCost) && p in pdes && pdes[p].nedges == 0
    ensures pdes[p].weight == 0 && Ledger(es, master, pdes - {p}, totCost)
  {
    assert Carries(es, master, pdes, p);
    NothingCarried(es, master, p);
    forall q | q in pdes - {p} ensures Carries(es, master, pdes - {p}, q) {
      assert Carries(es, master, pdes, q);
    }
  }

  /** A domain edge weighs no more than all of them. */
  lemma PartOfTotal(es: seq<Edge>, master: seq<nat>, pdes: map<nat, PdEdge>, totCost: int, p: nat)
    requires Ledger(es, master, pdes, totCost) && p in pdes
    ensures pdes[p].weight <= totCost
  {
    assert Carries(es, master, pdes, p);
    ChargesArePart(es, master, p);
  }

  lemma {:induction false} ChargesArePart(es: seq<Edge>, master: seq<nat>, p: nat)
    requires |es| == |master| && p != 0
    ensures Sum(Charges(es, master, p)) <= Sum(Costs(es, master))
  {
    if es != [] {
      var n := |es| - 1;
      ChargesArePart(es[..n], master[..n], p);
      assert Charges(es, master, p)[..n] == Charges(es[..n], master[..n], p);
      assert Costs(es, master)[..n] == Costs(es[..n], master[..n]);
    }
  }

  lemma SomethingCarried(master: seq<nat>, p: nat) returns (i: nat)
    requires Sum(Marks(master, p)) > 0
    ensures i < |master| && master[i] == p
  {
    if p !in master {
      SumZero(Marks(master, p));
    }
    i :| i < |master| && master[i] == p;
  }

  /** With the books complete, the total is the cost of the crossing edges. */
  lemma TotalIsCrossCost(es: seq<Edge>, master: seq<nat>, pdOf: seq<nat>, pdes: map<nat, PdEdge>, totCost: int)
    requires Ledger(es, master, pdes, totCost) && InRange(es, pdOf) && Assigned(es, master, pdOf, pdes)
    ensures totCost == CrossCost(es, pdOf)
  {
    forall i | 0 <= i < |es| ensures (master[i] != 0) == Crosses(es[i], pdOf) {
      assert ChargedRight(es, master, pdOf, pdes, i);
    }
    assert Costs(es, master) ==
      seq(|es|, i requires 0 <= i < |es| => if Crosses(es[i], pdOf) then es[i].inv else 0);
  }

  /** Moving the components b from domain y to domain x, which holds a, saves the edges between. */
  lemma {:induction false} MergeSaves(es: seq<Edge>, pdOf: seq<nat>, pdOf': seq<nat>, x: nat, y: nat,
                                      a: set<nat>, b: set<nat>)
    requires InRange(es, pdOf) && |pdOf'| == |pdOf| && x != 0 && y != 0 && x != y
    requires forall u :: 0 <= u < |pdOf| ==> pdOf[u] != 0
    requires forall u :: 0 <= u < |pdOf| ==> (u in a <==> pdOf[u] == x) && (u in b <==> pdOf[u] == y)
    requires forall u :: 0 <= u < |pdOf| ==> pdOf'[u] == if pdOf[u] == y then x else pdOf[u]
    ensures CrossCost(es, pdOf') == CrossCost(es, pdOf) - Between(es, a, b)
  {
    if es != [] {
      var n := |es| - 1;
      MergeSaves(es[..n], pdOf, pdOf', x, y, a, b);
      CrossCostSnoc(es, pdOf);
      CrossCostSnoc(es, pdOf');
    }
  }

  lemma CrossCostSnoc(es: seq<Edge>, pdOf: seq<nat>)
    requires InRange(es, pdOf) && es != []
    ensures InRange(es[..|es| - 1], pdOf)
    ensures CrossCost(es, pdOf) ==
            CrossCost(es[..|es| - 1], pdOf) + if Crosses(es[|es| - 1], pdOf) then es[|es| - 1].inv else 0
  {
    var n := |es| - 1;
    var s := seq(|es|, i requires 0 <= i < |es| => if Crosses(es[i], pdOf) then es[i].inv else 0);
    var t := seq(n, i requires 0 <= i < n => if Crosses(es[..n][i], pdOf) then es[..n][i].inv else 0);
    assert s[..n] == t;
  }

  /** Moving the components b out of domain x into a new domain y costs the edges across. */
  lemma SplitCosts(es: seq<Edge>, pdOf: seq<nat>, pdOf': seq<nat>, x: nat, y: nat, a: set<nat>, b: set<nat>)
    requires InRange(es, pdOf) && |pdOf'| == |pdOf| && x != 0 && y != 0 && x != y
    requires forall u :: 0 <= u < |pdOf| ==> pdOf[u] != 0 && pdOf[u] != y
    requires b <= a && forall u :: 0 <= u < |pdOf| ==> (u in a <==> pdOf[u] == x)
    requires forall u :: 0 <= u < |pdOf| ==> pdOf'[u] == if u in b then y else pdOf[u]
    ensures CrossCost(es, pdOf') == CrossCost(es, pdOf) + CutIn(es, a, b)
  {
    MergeSaves(es, pdOf', pdOf, x, y, a - b, b);
    assert a * b == b;
    BetweenSymmetric(es, b, a - b);
  }

  /** Domain edges keep their ends for as long as they live. */
  ghost predicate SameEnds(pdes: map<nat, PdEdge>, pdes': map<nat, PdEdge>) {
    forall p :: p in pdes && p in pdes' ==> pdes[p].from == pdes'[p].from && pdes[p].to == pdes'[p].to
  }

  /** Every domain edge at d runs from d. */
  ghost predicate Outward(pdes: map<nat, PdEdge>, d: nat) {
    forall p :: p in pdes ==> pdes[p].to != d
  }

  /** No edge leads to a component of d. */
  ghost predicate Uncalled(es: seq<Edge>, pdOf: seq<nat>, d: nat) {
    forall j :: 0 <= j < |es| && es[j].to < |pdOf| ==> pdOf[es[j].to] != d
  }

  ghost predicate Occupied(pdes: map<nat, PdEdge>) {
    forall p :: p in pdes ==> pdes[p].nedges > 0
  }

  lemma StillOnePerPair(pdes: map<nat, PdEdge>, pdes': map<nat, PdEdge>)
    requires OnePerPair(pdes) && SameEnds(pdes, pdes') && pdes'.Keys <= pdes.Keys
    ensures OnePerPair(pdes')
  {
    forall p, q | p in pdes' && q in pdes' && p != q ensures DifferentPairs(pdes', p, q) {
      assert DifferentPairs(pdes, p, q);
    }
  }

  /** Which edges are charged, and to which domain edge, does not depend on their weights. */
  lemma StillAssigned(es: seq<Edge>, es': seq<Edge>, master: seq<nat>, pdOf: seq<nat>,
                      pdes: map<nat, PdEdge>, pdes': map<nat, PdEdge>)
    requires |es| == |master| && InRange(es, pdOf) && Assigned(es, master, pdOf, pdes)
    requires |es'| == |es| && forall j :: 0 <= j < |es| ==> es'[j].from == es[j].from && es'[j].to == es[j].to
    requires SameEnds(pdes, pdes') && pdes.Keys == pdes'.Keys
    ensures InRange(es', pdOf) && Assigned(es', master, pdOf, pdes')
  {
    forall j {:trigger ChargedRight(es', master, pdOf, pdes', j)} | 0 <= j < |es'|
      ensures ChargedRight(es', master, pdOf, pdes', j)
    {
      assert ChargedRight(es, master, pdOf, pdes, j);
    }
  }

  lemma NewPair(pdes: map<nat, PdEdge>, p: nat, e: PdEdge)
    requires OnePerPair(pdes) && p !in pdes && e.from != e.to
    requires forall q :: q in pdes ==> !SamePair(pdes[q], e.from, e.to)
    ensures OnePerPair(pdes[p := e])
  {
    var pdes' := pdes[p := e];
    forall q, r | q in pdes' && r in pdes' && q != r ensures DifferentPairs(pdes', q, r) {
      if q != p && r != p {
        assert DifferentPairs(pdes, q, r);
      }
    }
  }

  predicate Pending(e: Edge, j: nat, c: nat, outs: nat, ins: nat) {
    (e.from == c && j >= outs) || (e.to == c && j >= ins)
  }

  /** Unlinking c, the i-th of its ring, as it leaves domain d. */
  lemma Unlisted(pdOf: seq<nat>, members: map<nat, seq<nat>>, d: nat, c: nat, i: nat)
    requires Membership(pdOf, members) && c < |pdOf| && pdOf[c] == d && d != 0
    requires i < |members[d]| && members[d][i] == c
    ensures var ring := members[d][..i] + members[d][i + 1..];
      && Membership(pdOf[c := 0], if ring == [] then members - {d} else members[d := ring])
      && (ring == [] <==> d !in pdOf[c := 0])
  {
    var ring := members[d][..i] + members[d][i + 1..];
    assert Listed(pdOf, members[d], d);
    WithoutOne(members[d], i);
    forall u: nat ensures u in ring <==> u < |pdOf| && pdOf[c := 0][u] == d {
      assert u in ring <==> u in members[d] && u != c;
    }
    assert Listed(pdOf[c := 0], ring, d);
    forall x | x in members && x != d ensures Listed(pdOf[c := 0], members[x], x) {
      assert Listed(pdOf, members[x], x);
    }
    assert ring != [] ==> ring[0] in ring;
    if ring == [] {
      forall u | 0 <= u < |pdOf| && pdOf[c := 0][u] != 0 ensures pdOf[u] in members && pdOf[u] != d {
        assert u !in ring;
      }
    }
  }

  lemma WithoutOne(s: seq<nat>, i: nat)
    requires Distinct(s) && i < |s|
    ensures Distinct(s[..i] + s[i + 1..])
    ensures forall u: nat :: u in s[..i] + s[i + 1..] <==> u in s && u != s[i]
  {
    var t := s[..i] + s[i + 1..];
    assert forall k :: 0 <= k < |t| ==> t[k] == if k < i then s[k] else s[k + 1];
    forall u: nat | u in s && u != s[i] ensures u in t {
      var k :| 0 <= k < |s| && s[k] == u;
      assert t[if k < i then k else k - 1] == u;
    }
  }

  /** Linking c into the ring of domain d as it joins. */
  lemma NewlyListed(pdOf: seq<nat>, members: map<nat, seq<nat>>, d: nat, c: nat, ring: seq<nat>)
    requires Membership(pdOf, members) && c < |pdOf| && pdOf[c] == 0 && d in members
    requires Distinct(ring) && Elements(ring) == Elements(members[d]) + {c}
    ensures Membership(pdOf[c := d], members[d := ring])
  {
    assert Listed(pdOf, members[d], d);
    forall u: nat ensures u in ring <==> u in Elements(members[d]) || u == c {
      assert u in ring <==> u in Elements(ring);
    }
    forall x | x in members && x != d ensures Listed(pdOf[c := d], members[x], x) {
      assert Listed(pdOf, members[x], x);
    }
  }

  /** A domain without members is the end of no domain edge. */
  lemma NoEdgesLeft(es: seq<Edge>, master: seq<nat>, pdOf: seq<nat>, pdes: map<nat, PdEdge>, totCost: int, d: nat)
    requires Ledger(es, master, pdes, totCost) && Occupied(pdes)
    requires InRange(es, pdOf) && Assigned(es, master, pdOf, pdes) && d !in pdOf
    ensures forall p :: p in pdes ==> pdes[p].from != d && pdes[p].to != d
  {
    forall p | p in pdes ensures pdes[p].from != d && pdes[p].to != d {
      assert Carries(es, master, pdes, p);
      var j := SomethingCarried(master, p);
      assert ChargedRight(es, master, pdOf, pdes, j);
    }
  }

  /** A move into domain x leaves no component called in a domain where one was called before, but for y. */
  lemma UncalledBefore(es: seq<Edge>, pdOf: seq<nat>, c: nat, x: nat, y: nat)
    requires c < |pdOf| && pdOf[c] == y
    ensures forall d :: d != y && Uncalled(es, pdOf[c := x], d) ==> Uncalled(es, pdOf, d)
  {
    forall d | d != y && Uncalled(es, pdOf[c := x], d) ensures Uncalled(es, pdOf, d) {
    }
  }

  /** As c leaves its domain its edges are uncharged, and all others are charged as they were. */
  lemma Leaves(es: seq<Edge>, master: seq<nat>, master': seq<nat>, pdOf: seq<nat>, pdes: map<nat, PdEdge>,
               pdes': map<nat, PdEdge>, c: nat)
    requires |es| == |master| == |master'| && InRange(es, pdOf) && Assigned(es, master, pdOf, pdes) && c < |pdOf|
    requires forall j :: 0 <= j < |es| ==> master'[j] == if es[j].from == c || es[j].to == c then 0 else master[j]
    requires SameEnds(pdes, pdes') && forall j :: 0 <= j < |es| && master'[j] != 0 ==> master'[j] in pdes'
    ensures Assigned(es, master', pdOf[c := 0], pdes')
  {
    forall j {:trigger ChargedRight(es, master', pdOf[c := 0], pdes', j)} | 0 <= j < |es|
      ensures ChargedRight(es, master', pdOf[c := 0], pdes', j)
    {
      assert ChargedRight(es, master, pdOf, pdes, j);
    }
  }

  /** As c joins domain d its edges are all uncharged, and all others are charged right. */
  lemma StartJoin(es: seq<Edge>, master: seq<nat>, pdOf: seq<nat>, pdes: map<nat, PdEdge>, c: nat, d: nat)
    requires |es| == |master| && InRange(es, pdOf) && Assigned(es, master, pdOf, pdes)
    requires c < |pdOf| && pdOf[c] == 0
    ensures forall j :: 0 <= j < |es| && Pending(es[j], j, c, 0, 0) ==> master[j] == 0
    ensures forall j {:trigger ChargedRight(es, master, pdOf[c := d], pdes, j)} ::
      0 <= j < |es| && !Pending(es[j], j, c, 0, 0) ==> ChargedRight(es, master, pdOf[c := d], pdes, j)
  {
    forall j {:trigger ChargedRight(es, master, pdOf[c := d], pdes, j)} | 0 <= j < |es|
      ensures if Pending(es[j], j, c, 0, 0) then master[j] == 0
              else ChargedRight(es, master, pdOf[c := d], pdes, j)
    {
      assert ChargedRight(es, master, pdOf, pdes, j);
    }
    forall j | 0 <= j < |es| && Pending(es[j], j, c, 0, 0) ensures master[j] == 0 {
      assert ChargedRight(es, master, pdOf, pdes, j);
    }
  }

  lemma Rotated(s: seq<nat>)
    requires s != [] && Distinct(s)
    ensures Distinct(s[1..] + [s[0]])
    ensures forall u: nat :: u in s[1..] + [s[0]] <==> u in s
  {
    var t := s[1..] + [s[0]];
    assert forall k :: 0 <= k < |s| ==> s[k] == if k == 0 then t[|s| - 1] else t[k - 1];
  }

  /** Charging every edge between a and b to p, and no other, gives p the weight between them. */
  lemma {:induction false} ChargesAreBetween(es: seq<Edge>, master: seq<nat>, p: nat, a: set<nat>, b: set<nat>)
    requires |es| == |master|
    requires forall i :: 0 <= i < |es| ==> (master[i] == p <==> Links(es[i], a, b))
    ensures Sum(Charges(es, master, p)) == Between(es, a, b)
  {
    if es != [] {
      var n := |es| - 1;
      ChargesAreBetween(es[..n], master[..n], p, a, b);
      assert Charges(es, master, p)[..n] == Charges(es[..n], master[..n], p);
    }
  }

  /** The weight of a domain edge is all there is between its two domains. */
  lemma {:induction false} PairWeight(es: seq<Edge>, master: seq<nat>, pdOf: seq<nat>, pdes: map<nat, PdEdge>,
                                      totCost: int, p: nat, a: set<nat>, b: set<nat>)
    requires Ledger(es, master, pdes, totCost) && OnePerPair(pdes) && p in pdes
    requires InRange(es, pdOf) && Assigned(es, master, pdOf, pdes)
    requires forall u: nat :: u in a <==> u < |pdOf| && pdOf[u] == pdes[p].from
    requires forall u: nat :: u in b <==> u < |pdOf| && pdOf[u] == pdes[p].to
    requires pdes[p].from != 0 && pdes[p].to != 0
    ensures pdes[p].weight == Between(es, a, b)
  {
    forall i | 0 <= i < |es| ensures master[i] == p <==> Links(es[i], a, b) {
      assert ChargedRight(es, master, pdOf, pdes, i);
      assert Links(es[i], a, b) && master[i] != p ==> DifferentPairs(pdes, master[i], p);
    }
    assert Carries(es, master, pdes, p);
    ChargesAreBetween(es, master, p, a, b);
  }

  /** There is a heaviest domain edge. */
  lemma HeaviestExists(pdes: map<nat, PdEdge>, ps: set<nat>) returns (p: nat)
    requires ps <= pdes.Keys && ps != {}
    ensures p in ps && (forall q :: q in ps ==> pdes[q].weight <= pdes[p].weight)
  {
    p :| p in ps;
    if ps != {p} {
      var q := HeaviestExists(pdes, ps - {p});
      if pdes[p].weight < pdes[q].weight {
        p := q;
      }
    }
  }

  /** There are no more domains than components. */
  lemma {:induction false} DomainsBounded(pdOf: seq<nat>, ds: set<nat>)
    requires forall d :: d in ds ==> d in pdOf
    ensures |ds| <= |pdOf|
  {
    if pdOf == [] {
      assert ds == {};
    } else {
      var n := |pdOf| - 1;
      DomainsBounded(pdOf[..n], ds - {pdOf[n]});
    }
  }

  /** The components in `moved` now belong to x, all others are where they were. */
  ghost predicate Moved(pdOf: seq<nat>, pdOf': seq<nat>, moved: set<nat>, x: nat) {
    && |pdOf'| == |pdOf|
    && (forall u :: 0 <= u < |pdOf'| ==> pdOf'[u] == if u in moved then x else pdOf[u])
  }

  /** A new domain starts out without members. */
  lemma NewDomain(pdOf: seq<nat>, members: map<nat, seq<nat>>, y: nat)
    requires Membership(pdOf, members) && y != 0 && y !in members
    ensures y !in pdOf && Membership(pdOf, members[y := []])
  {
    assert Listed(pdOf, [], y);
    forall d | d in members ensures Listed(pdOf, members[d], d) {
    }
  }

  /** The walk along the side of a cut meets its components, all of them in the domain. */
  lemma SideWalk(pdOf: seq<nat>, ring: seq<nat>, x: nat, side: seq<nat>)
    requires Listed(pdOf, ring, x) && Distinct(side) && Proper(ring, Elements(side))
    ensures side != []
    ensures Distinct(side[1..] + [side[0]]) && Elements(side[1..] + [side[0]]) == Elements(side)
    ensures forall u :: u in side[1..] + [side[0]] ==> u < |pdOf| && pdOf[u] == x
  {
    assert side != [] by {
      assert Elements([]) == {};
    }
    Rotated(side);
    forall u | u in side[1..] + [side[0]] ensures u < |pdOf| && pdOf[u] == x {
      assert u in Elements(side);
    }
  }

  /** Moving a side of a cut away leaves some component in the domain. */
  lemma StaysBehind(pdOf: seq<nat>, ring: seq<nat>, x: nat, side: seq<nat>, pdOf': seq<nat>, y: nat)
    requires Listed(pdOf, ring, x) && Proper(ring, Elements(side)) && Moved(pdOf, pdOf', Elements(side), y)
    ensures x in pdOf' && y in pdOf'
  {
    var some :| some in Elements(side);
    assert some in Elements(ring) && pdOf'[some] == y;
    assert !(Elements(ring) <= Elements(side));
    var rest :| rest in Elements(ring) && rest !in Elements(side);
    assert pdOf'[rest] == x;
  }

  ghost function Invocations(es: seq<Edge>): seq<int> {
    seq(|es|, i requires 0 <= i < |es| => es[i].inv)
  }

  /** No cut weighs more than all edges together. */
  lemma {:induction false} BetweenBounded(es: seq<Edge>, a: set<nat>, b: set<nat>)
    ensures Between(es, a, b) <= Sum(Invocations(es))
  {
    if es != [] {
      var n := |es| - 1;
      BetweenBounded(es[..n], a, b);
      assert Invocations(es)[..n] == Invocations(es[..n]);
    }
  }

  /** Changing the invocations of edge i, and the weight it is charged with, keeps the ledger. */
  lemma Reinvoke(es: seq<Edge>, master: seq<nat>, pdes: map<nat, PdEdge>, totCost: int, i: nat, val: nat)
    requires Ledger(es, master, pdes, totCost) && i < |es|
    ensures var delta := val - es[i].inv; var es' := es[i := es[i].(inv := val)];
      && Sum(Invocations(es')) == Sum(Invocations(es)) + delta
      && (master[i] == 0 ==> Ledger(es', master, pdes, totCost))
      && (master[i] != 0 ==>
            && pdes[master[i]].weight + delta >= 0
            && Ledger(es', master, pdes[master[i] := Reweighed(pdes[master[i]], delta)], totCost + delta))
  {
    var delta, es', p := val - es[i].inv, es[i := es[i].(inv := val)], master[i];
    assert Invocations(es') == Invocations(es)[i := val];
    SumUpdate(Invocations(es), i, val);
    var x := if p != 0 then val else 0;
    assert Costs(es', master) == Costs(es, master)[i := x];
    SumUpdate(Costs(es, master), i, x);
    var pdes' := if p == 0 then pdes else pdes[p := Reweighed(pdes[p], delta)];
    forall q | q in pdes' ensures Carries(es', master, pdes', q) {
      assert Carries(es, master, pdes, q);
      CarriesReinvoked(es, master, pdes, i, val, q);
    }
    if p != 0 {
      assert Carries(es, master, pdes, p);
      SumNonNegative(Charges(es, master, p), i);
    }
  }

  function Reweighed(e: PdEdge, delta: int): PdEdge {
    e.(weight := e.weight + delta)
  }

  lemma CarriesReinvoked(es: seq<Edge>, master: seq<nat>, pdes: map<nat, PdEdge>, i: nat, val: nat, q: nat)
    requires |es| == |master| && i < |es| && q in pdes && Carries(es, master, pdes, q)
    ensures var es' := es[i := es[i].(inv := val)];
      Sum(Charges(es', master, q)) == pdes[q].weight + if master[i] == q then val - es[i].inv else 0
  {
    var es' := es[i := es[i].(inv := val)];
    var x := if master[i] == q then val else 0;
    assert Charges(es', master, q) == Charges(es, master, q)[i := x];
    SumUpdate(Charges(es, master, q), i, x);
  }

  /** A new edge starts out uncharged. */
  lemma NewEdge(es: seq<Edge>, master: seq<nat>, pdes: map<nat, PdEdge>, totCost: int, e: Edge)
    requires Ledger(es, master, pdes, totCost)
    ensures Ledger(es + [e], master + [0], pdes, totCost)
    ensures Sum(Invocations(es + [e])) == Sum(Invocations(es)) + e.inv
  {
    assert Invocations(es + [e]) == Invocations(es) + [e.inv];
    SumSnoc(Invocations(es), e.inv);
    assert Costs(es + [e], master + [0]) == Costs(es, master) + [0];
    SumSnoc(Costs(es, master), 0);
    forall p | p in pdes ensures Carries(es + [e], master + [0], pdes, p) {
      assert Carries(es, master, pdes, p);
      assert Charges(es + [e], master + [0], p) == Charges(es, master, p) + [0];
      SumSnoc(Charges(es, master, p), 0);
      assert Marks(master + [0], p) == Marks(master, p) + [0];
      SumSnoc(Marks(master, p), 0);
    }
  }

  /** All components are apart. */
  ghost predicate AllApart(pdOf: seq<nat>) {
    && (forall u :: 0 <= u < |pdOf| ==> pdOf[u] != 0)
    && (forall u, v :: 0 <= u < v < |pdOf| ==> pdOf[u] != pdOf[v])
  }

  lemma TwoMembers(pdOf: seq<nat>, ring: seq<nat>, d: nat, u: nat, v: nat)
    requires Listed(pdOf, ring, d) && u < v < |pdOf| && pdOf[u] == pdOf[v] == d
    ensures |ring| > 1
  {
    assert u in ring && v in ring;
  }

  /** No division into domains costs more than the finest one. */
  lemma {:induction false} FinestCostsMost(es: seq<Edge>, pdOf: seq<nat>, pdOf': seq<nat>)
    requires InRange(es, pdOf) && InRange(es, pdOf') && AllApart(pdOf')
    ensures CrossCost(es, pdOf) <= CrossCost(es, pdOf')
  {
    if es == [] {
    } else {
      CrossCostSnoc(es, pdOf);
      CrossCostSnoc(es, pdOf');
      FinestCostsMost(es[..|es| - 1], pdOf, pdOf');
      var e := es[|es| - 1];
      assert pdOf'[e.from] != pdOf'[e.to];
    }
  }

  /** A lightest cut of a domain, as the min-cut run left it. */
  datatype Cut = Cut(amnt: int, side: seq<nat>)

  ghost predicate Current(es: seq<Edge>, ring: seq<nat>, cut: Cut) {
    cut.side != [] && MinimumCut(es, ring, cut.amnt, cut.side) && FirstMet(es, ring, cut.amnt, cut.side)
  }

  /** While all invocations together fit a `long`, a domain of two or more has a cut to save. */
  lemma SavesACut(es: seq<Edge>, ring: seq<nat>, amnt: int, side: seq<nat>)
    requires MinimumCut(es, ring, amnt, side) && Sum(Invocations(es)) < MAX_LONG
    requires |ring| >= 2 && Distinct(ring)
    ensures side != []
  {
    var c := {ring[0]};
    assert ring[0] in Elements(ring) && ring[1] in Elements(ring) && ring[1] !in c;
    assert Proper(ring, c);
    BetweenBounded(es, Elements(ring) * c, Elements(ring) - c);
  }

  /** A domain that can be split has its lightest cut saved, and no other has one. */
  ghost predicate CutRight(es: seq<Edge>, members: map<nat, seq<nat>>, cuts: map<nat, Cut>, d: nat) {
    && (d in cuts ==> d in members && Current(es, members[d], cuts[d]))
    && (d in members && |members[d]| > 1 ==> d in cuts)
  }

  ghost predicate CutsRight(es: seq<Edge>, members: map<nat, seq<nat>>, cuts: map<nat, Cut>) {
    forall d: nat {:trigger CutRight(es, members, cuts, d)} :: CutRight(es, members, cuts, d)
  }

  ghost predicate SameAt<V(!new)>(a: map<nat, V>, b: map<nat, V>, d: nat) {
    (d in a <==> d in b) && (d in a ==> a[d] == b[d])
  }

  /** The cut of a domain that was not searched, and did not change, is right still. */
  lemma CutStays(es: seq<Edge>, members: map<nat, seq<nat>>, cuts: map<nat, Cut>,
                 members': map<nat, seq<nat>>, cuts': map<nat, Cut>, d: nat, x: nat)
    requires CutRight(es, members, cuts, d) && d != x && cuts' - {x} == cuts - {x} && SameAt(members, members', d)
    ensures CutRight(es, members', cuts', d)
  {
    assert d in cuts' <==> d in cuts' - {x};
    assert d in cuts <==> d in cuts - {x};
    assert d in cuts' ==> cuts'[d] == (cuts' - {x})[d] == cuts[d];
  }

  /** Domain y went into x, whose cut was then found. */
  lemma MergedCuts(es: seq<Edge>, members: map<nat, seq<nat>>, cuts: map<nat, Cut>,
                   members': map<nat, seq<nat>>, cuts': map<nat, Cut>, x: nat, y: nat)
    requires CutsRight(es, members, cuts) && x != y && members'.Keys == members.Keys - {y}
    requires forall d :: d in members' && d != x ==> members'[d] == members[d]
    requires cuts' - {x} == cuts - {y} - {x} && CutRight(es, members', cuts', x)
    ensures CutsRight(es, members', cuts')
  {
    forall d: nat {:trigger CutRight(es, members', cuts', d)} ensures CutRight(es, members', cuts', d) {
      assert CutRight(es, members, cuts, d);
      if d == y {
        assert y !in cuts' - {x};
      } else if d != x {
        assert CutRight(es, members, cuts - {y}, d);
        CutStays(es, members, cuts - {y}, members', cuts', d, x);
      }
    }
  }

  /** A new domain y came out of x, and the cuts of the two were found one after the other. */
  lemma HalvesCuts(es: seq<Edge>, members: map<nat, seq<nat>>, cuts: map<nat, Cut>,
                   members': map<nat, seq<nat>>, cuts1: map<nat, Cut>, cuts2: map<nat, Cut>, x: nat, y: nat)
    requires CutsRight(es, members, cuts) && x in members && y !in members && members'.Keys == members.Keys + {y}
    requires forall d :: d in members && d != x ==> members'[d] == members[d]
    requires cuts1 - {x} == cuts - {x} && CutRight(es, members', cuts1, x)
    requires cuts2 - {y} == cuts1 - {y} && CutRight(es, members', cuts2, y)
    ensures CutsRight(es, members', cuts2)
  {
    forall d: nat {:trigger CutRight(es, members', cuts2, d)} ensures CutRight(es, members', cuts2, d) {
      assert CutRight(es, members, cuts, d);
      if d != x && d != y {
        CutStays(es, members, cuts, members', cuts1, d, x);
      }
      if d != y {
        CutStays(es, members', cuts1, members', cuts2, d, y);
      }
    }
  }

  /** The members of a merged domain are those of the two, and there are at least two of them. */
  lemma JoinedRing(pdOf: seq<nat>, xs: seq<nat>, x: nat, ys: seq<nat>, y: nat, pdOf': seq<nat>, zs: seq<nat>)
    requires Listed(pdOf, xs, x) && Listed(pdOf, ys, y) && x != y && xs != [] && ys != []
    requires Moved(pdOf, pdOf', Elements(ys), x) && Listed(pdOf', zs, x)
    ensures Elements(zs) == Elements(xs) + Elements(ys) && Elements(xs) !! Elements(ys) && |zs| > 1
  {
    assert xs[0] in xs && ys[0] in ys;
    assert forall u: nat :: u in zs <==> u in xs || u in ys;
    assert xs[0] in zs && ys[0] in zs && xs[0] != ys[0];
  }

  lemma {:induction false} JoinedCut(es: seq<Edge>, xs: seq<nat>, ys: seq<nat>, zs: seq<nat>, cut: Cut)
    requires Elements(zs) == Elements(xs) + Elements(ys) && Elements(xs) !! Elements(ys) && xs != [] && ys != []
    requires Current(es, zs, cut)
    ensures cut.amnt <= Between(es, Elements(xs), Elements(ys))
  {
    assert xs[0] in Elements(xs) && ys[0] in Elements(ys);
    assert Proper(zs, Elements(xs));
    assert Elements(zs) * Elements(xs) == Elements(xs) && Elements(zs) - Elements(xs) == Elements(ys);
  }

  lemma LightestExists(cuts: map<nat, Cut>, ds: set<nat>) returns (d: nat)
    requires ds <= cuts.Keys && ds != {}
    ensures d in ds && (forall e :: e in ds ==> cuts[d].amnt <= cuts[e].amnt)
  {
    d :| d in ds;
    if ds != {d} {
      var e := LightestExists(cuts, ds - {d});
      if cuts[e].amnt < cuts[d].amnt {
        d := e;
      }
    }
  }
}
