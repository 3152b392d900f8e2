/**
  The protection-domain policy: adding edges, changing invocation counts, merging and splitting
  domains, with the books of what crosses between them kept on the way.
 */
module Policies {
  import opened Sums
  import opened Cuts
  import opened Heaps
  import opened MinCuts
  import opened Wrappers
  import opened Ledgers
  import opened Trades

  class Policy {
    var es: seq<Edge>
    /** The domain edge each edge is charged to. */
    var master: seq<nat>
    var pdOf: seq<nat>
    var members: map<nat, seq<nat>>
    var pdes: map<nat, PdEdge>
    var totCost: int
    var totInv: int
    /** The cuts of the domains on the isolation heap. */
    var cuts: map<nat, Cut>
    var nextPd: nat
    var nextPde: nat

    /** The domain edges account for what is charged to them. */
    ghost predicate Accounts()
      reads this`es, this`master, this`pdes, this`totCost
    {
      Ledger(es, master, pdes, totCost) && OnePerPair(pdes) && Occupied(pdes)
    }

    /** The books are in order: every component listed once, every crossing edge charged. */
    ghost predicate Books()
      reads this`es, this`master, this`pdOf, this`members, this`pdes, this`totCost, this`totInv
      reads this`nextPd, this`nextPde
    {
      && Accounts() && Fresh() && Membership(pdOf, members)
      && InRange(es, pdOf) && Assigned(es, master, pdOf, pdes)
      && totInv == Sum(Invocations(es))
    }

    ghost predicate Fresh()
      reads this`members, this`pdes, this`nextPd, this`nextPde
    {
      0 < nextPd && 0 < nextPde && (forall d :: d in members ==> d < nextPd) && (forall p :: p in pdes ==> p < nextPde)
    }

    /** The books as they are now. */
    ghost function Now(): Snapshot
      reads this
    {
      Snapshot(master, pdOf, members, pdes, totCost, cuts)
    }

    /** Every component has its domain. */
    ghost predicate Housed()
      reads this`pdOf
    {
      forall u :: 0 <= u < |pdOf| ==> pdOf[u] != 0
    }

    constructor ()
      ensures Valid() && pdOf == [] && es == [] && pdes == map[]
    {
      es, master, pdOf, members, pdes := [], [], [], map[], map[];
      totCost, totInv, cuts, nextPd, nextPde := 0, 0, map[], 1, 1;
    }

    /** Set the invocation count of edge i. */
    method SetInv(i: nat, val: nat)
      requires Books() && i < |es|
      modifies this`es, this`pdes, this`totCost, this`totInv
      ensures Books() && es == old(es)[i := old(es)[i].(inv := val)]
      ensures SameEnds(old(pdes), pdes) && pdes.Keys == old(pdes.Keys)
    {
      var delta := val - es[i].inv;
      Reinvoke(es, master, pdes, totCost, i, val);
      if master[i] != 0 {
        assert pdes[master[i]].weight + delta >= 0;
        pdes, totCost := pdes[master[i] := Reweighed(pdes[master[i]], delta)], totCost + delta;
        StillOnePerPair(old(pdes), pdes);
      }
      assert Occupied(pdes) && OnePerPair(pdes) && SameEnds(old(pdes), pdes) && pdes.Keys == old(pdes.Keys);
      es := es[i := es[i].(inv := val)];
      totInv := totInv + delta;
      assert Ledger(es, master, pdes, totCost);
      StillAssigned(old(es), es, master, pdOf, old(pdes), pdes);
    }

    /** Take edge i off its domain edge, and drop that once it carries nothing. */
    method RemovePdEdge(i: nat)
      requires Accounts() && i < |es|
      modifies this`master, this`pdes, this`totCost
      ensures Accounts()
      ensures master == old(master)[i := 0]
      ensures SameEnds(old(pdes), pdes) && pdes.Keys <= old(pdes.Keys)
    {
      if master[i] == 0 {
        return;
      }
      var p := master[i];
      Uncharge(es, master, pdes, totCost, i);
      pdes, totCost := pdes[p := Adjusted(pdes[p], -1, es[i].inv)], totCost - es[i].inv;
      master := master[i := 0];
      if pdes[p].nedges == 0 {
        DropEmpty(es, master, pdes, totCost, p);
        assert pdes[p].weight == 0;
        pdes := pdes - {p};
      }
      StillOnePerPair(old(pdes), pdes);
    }

    /** The one domain edge between d1 and d2, made if there is none yet. */
    method FindEdge(d1: nat, d2: nat) returns (p: nat)
      requires Fresh() && d1 != d2
      requires Ledger(es, master, pdes, totCost) && OnePerPair(pdes)
      modifies this`pdes, this`nextPde
      ensures Fresh() && Ledger(es, master, pdes, totCost) && OnePerPair(pdes)
      ensures p in pdes && SamePair(pdes[p], d1, d2)
      ensures pdes == old(pdes) || (p !in old(pdes) && pdes == old(pdes)[p := PdEdge(d1, d2, 0, 0)])
    {
      if p' :| p' in pdes && SamePair(pdes[p'], d1, d2) {
        return p';
      }
      p := nextPde;
      NewPair(pdes, p, PdEdge(d1, d2, 0, 0));
      nextPde := nextPde + 1;
      pdes := pdes[p := PdEdge(d1, d2, 0, 0)];
      assert p !in master;
      SumZero(Charges(es, master, p));
      SumZero(Marks(master, p));
      forall q | q in pdes ensures Carries(es, master, pdes, q) {
        if q != p {
          assert Carries(es, master, old(pdes), q);
        }
      }
    }

    /** Charge edge i to the domain edge between d1 and d2. */
    method AddPdEdge(i: nat, d1: nat, d2: nat)
      requires Fresh() && d1 != d2 && Accounts() && i < |es| && master[i] == 0
      modifies this`master, this`pdes, this`totCost, this`nextPde
      ensures Fresh() && Accounts()
      ensures |master| == old(|master|) && master == old(master)[i := master[i]] && master[i] != 0
      ensures master[i] in pdes && SamePair(pdes[master[i]], d1, d2)
      ensures SameEnds(old(pdes), pdes) && old(pdes.Keys) <= pdes.Keys
      ensures forall d :: d != d2 && Outward(old(pdes), d) ==> Outward(pdes, d)
    {
      var p := FindEdge(d1, d2);
      ghost var found := pdes;
      Charge(es, master, pdes, totCost, i, p);
      pdes, totCost := pdes[p := Adjusted(pdes[p], 1, es[i].inv)], totCost + es[i].inv;
      master := master[i := p];
      StillOnePerPair(found, pdes);
    }

    /** Uncharge every edge at c. */
    method UnchargeAll(c: nat)
      requires Accounts()
      modifies this`master, this`pdes, this`totCost
      ensures Accounts() && |master| == |es|
      ensures forall j :: 0 <= j < |es| ==> master[j] == if es[j].from == c || es[j].to == c then 0 else old(master[j])
      ensures SameEnds(old(pdes), pdes) && pdes.Keys <= old(pdes.Keys)
    {
      for k := 0 to |es|
        invariant Accounts() && |master| == |es|
        invariant forall j :: 0 <= j < |es| ==> master[j] == if j < k && es[j].from == c then 0 else old(master[j])
        invariant SameEnds(old(pdes), pdes) && pdes.Keys <= old(pdes.Keys)
      {
        if es[k].from == c {
          RemovePdEdge(k);
        }
      }
      for k := 0 to |es|
        invariant Accounts() && |master| == |es|
        invariant forall j :: 0 <= j < |es| ==>
          master[j] == if es[j].from == c || (j < k && es[j].to == c) then 0 else old(master[j])
        invariant SameEnds(old(pdes), pdes) && pdes.Keys <= old(pdes.Keys)
      {
        if es[k].to == c {
          RemovePdEdge(k);
        }
      }
    }

    /** Take component c out of domain d, which goes away with its last member. */
    method RemComponent(d: nat, c: nat) returns (gone: bool)
      requires Books() && c < |pdOf| && pdOf[c] == d && d != 0
      modifies this`master, this`pdes, this`totCost, this`pdOf, this`members
      ensures Books() && pdOf == old(pdOf)[c := 0]
      ensures gone == (d !in pdOf)
      ensures members.Keys == if gone then old(members.Keys) - {d} else old(members.Keys)
      ensures forall x :: x in members && x != d ==> members[x] == old(members)[x]
      ensures forall x :: Outward(old(pdes), x) ==> Outward(pdes, x)
    {
      UnchargeAll(c);
      Leaves(es, old(master), master, pdOf, old(pdes), pdes, c);
      var ring := members[d];
      assert Listed(pdOf, ring, d);
      assert c in ring;
      var i :| 0 <= i < |ring| && ring[i] == c;
      Unlisted(pdOf, members, d, c, i);
      pdOf := pdOf[c := 0];
      gone := ring[..i] + ring[i + 1..] == [];
      if gone {
        members := members - {d};
        NoEdgesLeft(es, master, pdOf, pdes, totCost, d);
        assert forall p :: p in pdes ==> pdes[p].from != d && pdes[p].to != d;
      } else {
        members := members[d := ring[..i] + ring[i + 1..]];
      }
    }

    /** While c joins domain d, its edges are charged one after the other: the outward ones
        before `outs` and the inward ones before `ins` are done. */
    ghost predicate Joining(c: nat, outs: nat, ins: nat)
      reads this
    {
      && Accounts() && Fresh() && InRange(es, pdOf)
      && (forall j :: 0 <= j < |es| && Pending(es[j], j, c, outs, ins) ==> master[j] == 0)
      && (forall j {:trigger ChargedRight(es, master, pdOf, pdes, j)} ::
            0 <= j < |es| && !Pending(es[j], j, c, outs, ins) ==> ChargedRight(es, master, pdOf, pdes, j))
    }

    /** Charge edge j, at the component c that joins, if it crosses now. */
    method JoinEdge(c: nat, j: nat, d1: nat, d2: nat, ghost outs: nat, ghost ins: nat)
      requires Joining(c, outs, ins) && Housed() && j < |es|
      requires (es[j].from == c && j == outs && ins == 0) || (es[j].to == c && j == ins && outs == |es|)
      requires d1 == pdOf[es[j].from] && d2 == pdOf[es[j].to]
      modifies this`master, this`pdes, this`totCost, this`nextPde
      ensures if es[j].from == c then Joining(c, outs + 1, ins) else Joining(c, outs, ins + 1)
      ensures forall x :: x != d2 && Outward(old(pdes), x) ==> Outward(pdes, x)
    {
      assert Pending(es[j], j, c, outs, ins);
      if d1 != d2 {
        AddPdEdge(j, d1, d2);
        forall i {:trigger ChargedRight(es, master, pdOf, pdes, i)} |
          0 <= i < |es| && i != j && !Pending(es[i], i, c, outs, ins)
          ensures ChargedRight(es, master, pdOf, pdes, i)
        {
          assert old(ChargedRight(es, master, pdOf, pdes, i));
        }
      }
      assert ChargedRight(es, master, pdOf, pdes, j);
    }

    method JoinEdges(c: nat, d: nat)
      requires Joining(c, 0, 0) && Housed() && c < |pdOf| && pdOf[c] == d
      modifies this`master, this`pdes, this`totCost, this`nextPde
      ensures Joining(c, |es|, |es|)
      ensures forall x :: Uncalled(es, pdOf, x) && Outward(old(pdes), x) ==> Outward(pdes, x)
    {
      for k := 0 to |es|
        invariant Joining(c, k, 0)
        invariant forall x :: Uncalled(es, pdOf, x) && Outward(old(pdes), x) ==> Outward(pdes, x)
      {
        if es[k].from == c {
          JoinEdge(c, k, d, pdOf[es[k].to], k, 0);
        }
      }
      for k := 0 to |es|
        invariant Joining(c, |es|, k)
        invariant forall x :: Uncalled(es, pdOf, x) && Outward(old(pdes), x) ==> Outward(pdes, x)
      {
        if es[k].to == c {
          JoinEdge(c, k, pdOf[es[k].from], d, |es|, k);
        }
      }
    }

    /** Put component c, which has no domain, into domain d. */
    method AddComponent(d: nat, c: nat)
      requires Books() && c < |pdOf| && pdOf[c] == 0 && d in members
      requires forall u :: 0 <= u < |pdOf| && u != c ==> pdOf[u] != 0
      modifies this`master, this`pdes, this`totCost, this`nextPde, this`pdOf, this`members
      ensures Books() && Housed() && pdOf == old(pdOf)[c := d]
      ensures members.Keys == old(members.Keys)
      ensures forall x :: x in members && x != d ==> members[x] == old(members)[x]
      ensures members[d] != [] && (old(members)[d] != [] ==> members[d][0] == old(members)[d][0])
      ensures forall x :: Uncalled(es, pdOf, x) && Outward(old(pdes), x) ==> Outward(pdes, x)
    {
      var ring := if members[d] == [] then [c] else [members[d][0], c] + members[d][1..];
      assert Listed(pdOf, members[d], d);
      if members[d] != [] {
        PutSecond(members[d], c);
      }
      NewlyListed(pdOf, members, d, c, ring);
      assert Assigned(es, master, pdOf, pdes);
      ghost var was := pdOf;
      pdOf := pdOf[c := d];
      members := members[d := ring];
      StartJoin(es, master, was, pdes, c, d);
      JoinEdges(c, d);
    }

    /** Move component c from domain y, which may vanish with it, to domain x. */
    method MoveOne(x: nat, y: nat, c: nat) returns (gone: bool)
      requires Books() && Housed() && x in members && x != y && c < |pdOf| && pdOf[c] == y
      modifies this`master, this`pdes, this`totCost, this`nextPde, this`pdOf, this`members
      ensures Books() && Housed() && pdOf == old(pdOf)[c := x]
      ensures gone == (y !in pdOf)
      ensures members.Keys == if gone then old(members.Keys) - {y} else old(members.Keys)
      ensures forall d :: d in members && d != x && d != y ==> members[d] == old(members)[d]
      ensures members[x] != [] && (old(members)[x] != [] ==> members[x][0] == old(members)[x][0])
      ensures forall d :: Uncalled(es, pdOf, d) && Outward(old(pdes), d) ==> Outward(pdes, d)
    {
      gone := RemComponent(y, c);
      ghost var between := pdOf;
      AddComponent(x, c);
      assert y in between <==> y in pdOf by {
        assert between[c] == 0 && pdOf == between[c := x];
        if y in between {
          var u :| 0 <= u < |between| && between[u] == y;
          assert pdOf[u] == y;
        }
        if y in pdOf {
          var u :| 0 <= u < |pdOf| && pdOf[u] == y;
          assert between[u] == y;
        }
      }
    }

    /** Move components one by one from domain y, which may vanish with the last, to domain x. */
    method MoveAll(x: nat, y: nat, walk: seq<nat>) returns (gone: bool)
      requires Books() && Housed() && x in members && x != y && walk != [] && Distinct(walk)
      requires forall u :: u in walk ==> u < |pdOf| && pdOf[u] == y
      modifies this`master, this`pdes, this`totCost, this`nextPde, this`pdOf, this`members
      ensures Books() && Housed() && Moved(old(pdOf), pdOf, Elements(walk), x)
      ensures gone == (y !in pdOf)
      ensures members.Keys == if gone then old(members.Keys) - {y} else old(members.Keys)
      ensures forall d :: d in members && d != x && d != y ==> members[d] == old(members)[d]
      ensures old(members)[x] != [] ==> members[x] != [] && members[x][0] == old(members)[x][0]
      ensures forall d :: d != y && Uncalled(es, pdOf, d) && Outward(old(pdes), d) ==> Outward(pdes, d)
    {
      gone := false;
      for k := 0 to |walk|
        invariant Books() && Housed() && Moved(old(pdOf), pdOf, Elements(walk[..k]), x)
        invariant gone == (k > 0 && y !in pdOf)
        invariant members.Keys == if gone then old(members.Keys) - {y} else old(members.Keys)
        invariant forall d :: d in members && d != x && d != y ==> members[d] == old(members)[d]
        invariant old(members)[x] != [] ==> members[x] != [] && members[x][0] == old(members)[x][0]
        invariant forall d :: d != y && Uncalled(es, pdOf, d) && Outward(old(pdes), d) ==> Outward(pdes, d)
      {
        NextElement(walk, k);
        assert walk[k] in walk && pdOf[walk[k]] == y;
        ghost var before := pdOf;
        gone := MoveOne(x, y, walk[k]);
        UncalledBefore(es, before, walk[k], x, y);
      }
      assert walk[..|walk|] == walk;
    }

    /** Merge domain y into domain x. */
    method MergeDomains(x: nat, y: nat)
      requires Books() && Housed() && x in members && y in members && x != y && members[y] != []
      modifies this`master, this`pdes, this`totCost, this`nextPde, this`pdOf, this`members
      ensures Books() && Housed() && Moved(old(pdOf), pdOf, Elements(old(members)[y]), x)
      ensures members.Keys == old(members.Keys) - {y}
      ensures forall d :: d in members && d != x ==> members[d] == old(members)[d]
      ensures totCost == old(totCost) - Between(es, Elements(old(members)[x]), Elements(old(members)[y]))
      ensures old(members)[x] != [] ==> members[x] != [] && members[x][0] == old(members)[x][0]
      ensures forall d :: d != y && Uncalled(es, pdOf, d) && Outward(old(pdes), d) ==> Outward(pdes, d)
    {
      TotalIsCrossCost(es, master, pdOf, pdes, totCost);
      assert Listed(pdOf, members[y], y) && Listed(pdOf, members[x], x);
      Rotated(members[y]);
      var walk := members[y][1..] + [members[y][0]];
      assert Elements(walk) == Elements(members[y]);
      var done := MoveAll(x, y, walk);
      TotalIsCrossCost(es, master, pdOf, pdes, totCost);
      MergeSaves(es, old(pdOf), pdOf, x, y, Elements(old(members)[x]), Elements(old(members)[y]));
    }

    /** A new domain without members. */
    method CreateDomain() returns (y: nat)
      requires Books()
      modifies this`nextPd, this`members
      ensures Books() && y !in pdOf && y != 0 && y !in old(members) && members == old(members)[y := []]
    {
      y := nextPd;
      NewDomain(pdOf, members, y);
      nextPd := nextPd + 1;
      members := members[y := []];
    }

    /** Split the components `side` off domain x into a new domain. */
    method SplitDomain(x: nat, side: seq<nat>) returns (y: nat)
      requires Books() && Housed() && x in members && Distinct(side) && Proper(members[x], Elements(side))
      modifies this`master, this`pdes, this`totCost, this`nextPde, this`nextPd, this`pdOf, this`members
      ensures Books() && Housed() && Moved(old(pdOf), pdOf, Elements(side), y)
      ensures y !in old(members) && y !in old(pdOf) && y != 0 && members.Keys == old(members.Keys) + {y}
      ensures forall d :: d in old(members) && d != x ==> members[d] == old(members)[d]
      ensures totCost == old(totCost) + CutIn(es, Elements(old(members)[x]), Elements(side))
      ensures Uncalled(es, pdOf, y) ==> Outward(pdes, y)
    {
      TotalIsCrossCost(es, master, pdOf, pdes, totCost);
      assert Listed(pdOf, members[x], x);
      SideWalk(pdOf, members[x], x, side);
      y := CreateDomain();
      NoEdgesLeft(es, master, pdOf, pdes, totCost, y);
      var gone := MoveAll(y, x, side[1..] + [side[0]]);
      StaysBehind(old(pdOf), old(members)[x], x, side, pdOf, y);
      assert !gone;
      TotalIsCrossCost(es, master, pdOf, pdes, totCost);
      SplitCosts(es, old(pdOf), pdOf, x, y, Elements(old(members)[x]), Elements(side));
    }

    /** A new component, in a domain of its own. */
    method CreateComponent() returns (u: nat)
      requires Books() && Housed()
      modifies this`nextPd, this`members, this`pdOf
      ensures Books() && Housed() && u == old(|pdOf|) && |pdOf| == u + 1 && pdOf[..u] == old(pdOf)
      ensures pdOf[u] !in old(pdOf) && (old(Populated()) ==> Populated())
    {
      var y := CreateDomain();
      u := |pdOf|;
      ghost var before := members;
      pdOf := pdOf + [y];
      members := members[y := [u]];
      forall d | d in members ensures d < nextPd {
        assert d in before;
      }
      forall d | d in members ensures Listed(pdOf, members[d], d) {
        assert Listed(old(pdOf), before[d], d);
      }
      forall j {:trigger ChargedRight(es, master, pdOf, pdes, j)} | 0 <= j < |es|
        ensures ChargedRight(es, master, pdOf, pdes, j)
      {
        assert old(ChargedRight(es, master, pdOf, pdes, j));
      }
    }

    /** A new edge between components of different domains. */
    method AddEdge(from: nat, to: nat, weight: nat)
      requires Books() && Housed() && from < |pdOf| && to < |pdOf| && pdOf[from] != pdOf[to]
      modifies this`es, this`master, this`pdes, this`totCost, this`totInv, this`nextPde
      ensures Books() && es == old(es) + [Edge(from, to, weight)] && totInv == old(totInv) + weight
      ensures forall d :: d != pdOf[to] && Outward(old(pdes), d) ==> Outward(pdes, d)
    {
      NewEdge(es, master, pdes, totCost, Edge(from, to, weight));
      es, master, totInv := es + [Edge(from, to, weight)], master + [0], totInv + weight;
      AddPdEdge(|es| - 1, pdOf[from], pdOf[to]);
      forall j {:trigger ChargedRight(es, master, pdOf, pdes, j)} | 0 <= j < |es|
        ensures ChargedRight(es, master, pdOf, pdes, j)
      {
        if j < |es| - 1 {
          assert old(ChargedRight(es, master, pdOf, pdes, j));
        }
      }
    }

    /** Every domain has members. */
    ghost predicate Populated()
      reads this`members
    {
      forall d :: d in members ==> members[d] != []
    }

    /** In order, but for the saved cuts: new invocation counts make those out of date. */
    ghost predicate Sound()
      reads this`es, this`master, this`pdOf, this`members, this`pdes, this`totCost, this`totInv
      reads this`nextPd, this`nextPde
    {
      Books() && Housed() && Populated() && totInv < MAX_LONG
    }

    /** Everything in order between two operations of the policy: every domain that can be split has its lightest
        cut saved, and no other has one. */
    ghost predicate Valid()
      reads this
    {
      Sound() && CutsRight(es, members, cuts)
    }

    /** Run the min-cut algorithm on domain d and record its result. */
    method FindCut(d: nat)
      requires Sound() && d in members
      modifies this`cuts
      ensures CutRight(es, members, cuts, d) && cuts - {d} == old(cuts) - {d}
    {
      assert Listed(pdOf, members[d], d);
      var h := new Heap(|members[d]|, |pdOf|);
      var run := new Domain(es, pdOf, d, members[d], h);
      run.FindMinCut();
      if |members[d]| == 1 {
        cuts := cuts - {d};
      } else {
        SavesACut(es, members[d], run.mcAmnt, run.mcMembers);
        cuts := cuts[d := Cut(run.mcAmnt, run.mcMembers)];
      }
    }

    /** Merge domain y into domain x, up to the cut of the result. */
    method MergePair(x: nat, y: nat)
      requires Sound() && x in members && y in members && x != y
      modifies this
      ensures Sound() && es == old(es) && members.Keys == old(members.Keys) - {y}
      ensures x in members && Moved(old(pdOf), pdOf, Elements(old(members)[y]), x)
      ensures forall d :: d in members && d != x ==> members[d] == old(members)[d]
      ensures totCost == old(totCost) - Between(es, Elements(old(members)[x]), Elements(old(members)[y]))
      ensures cuts == old(cuts) - {y} && members[x] != [] && members[x][0] == old(members)[x][0]
      ensures forall d :: d != y && Uncalled(es, pdOf, d) && Outward(old(pdes), d) ==> Outward(pdes, d)
    {
      assert Listed(pdOf, members[x], x) && members[x][0] in members[x];
      MergeDomains(x, y);
      cuts := cuts - {y};
      assert pdOf[old(members)[x][0]] == x;
      StillPopulated(x);
    }

    /** Merge domain y into domain x, and find the lightest cut of the result.  It weighs no more than what was
        between the two. */
    method Merge(x: nat, y: nat)
      requires Sound() && x in members && y in members && x != y
      modifies this
      ensures Sound() && (old(Valid()) ==> Valid())
      ensures es == old(es) && members.Keys == old(members.Keys) - {y} && |pdOf| == old(|pdOf|)
      ensures Moved(old(pdOf), pdOf, Elements(old(members)[y]), x)
      ensures members[x] != [] && members[x][0] == old(members)[x][0]
      ensures forall d :: d != y && Uncalled(es, pdOf, d) && Outward(old(pdes), d) ==> Outward(pdes, d)
      ensures totCost == old(totCost) - Between(es, Elements(old(members)[x]), Elements(old(members)[y]))
      ensures x in cuts && cuts[x].amnt <= Between(es, Elements(old(members)[x]), Elements(old(members)[y]))
    {
      ghost var pdOf0, members0, cuts0, valid := pdOf, members, cuts, Valid();
      assert Listed(pdOf, members[x], x) && Listed(pdOf, members[y], y);
      MergePair(x, y);
      assert Listed(pdOf, members[x], x);
      JoinedRing(pdOf0, members0[x], x, members0[y], y, pdOf, members[x]);
      FindCut(x);
      JoinedCut(es, members0[x], members0[y], members[x], cuts[x]);
      if valid {
        MergedCuts(es, members0, cuts0, members, cuts, x, y);
      }
    }

    /** A domain some component belongs to has members. */
    lemma StillPopulated(x: nat)
      requires Membership(pdOf, members) && x in members && x in pdOf
      ensures members[x] != []
    {
      assert Listed(pdOf, members[x], x);
      var u :| 0 <= u < |pdOf| && pdOf[u] == x;
      assert u in members[x];
    }

    /** Split domain x along the cut recorded for it, up to the cuts of the two halves. */
    method SplitAlongCut(x: nat) returns (y: nat)
      requires Valid() && x in cuts
      modifies this`master, this`pdes, this`totCost, this`nextPde, this`nextPd, this`pdOf, this`members
      ensures Sound() && x in members && y !in old(members) && members.Keys == old(members.Keys) + {y}
      ensures forall d :: d in old(members) && d != x ==> members[d] == old(members)[d]
      ensures Moved(old(pdOf), pdOf, Elements(cuts[x].side), y) && y !in old(pdOf)
      ensures totCost == old(totCost) + cuts[x].amnt
      ensures y != 0 && (Uncalled(es, pdOf, y) ==> Outward(pdes, y))
    {
      assert CutRight(es, members, cuts, x) && Listed(pdOf, members[x], x);
      y := SplitDomain(x, cuts[x].side);
      StaysBehind(old(pdOf), old(members)[x], x, cuts[x].side, pdOf, y);
      StillPopulated(x);
      StillPopulated(y);
    }

    /** Split domain x along the cut recorded for it. */
    method Split(x: nat) returns (y: nat)
      requires Valid() && x in cuts
      modifies this
      ensures Valid() && es == old(es) && y !in old(members) && members.Keys == old(members.Keys) + {y}
      ensures Moved(old(pdOf), pdOf, Elements(old(cuts)[x].side), y) && y != 0
      ensures totCost == old(totCost) + old(cuts)[x].amnt
      ensures Uncalled(es, pdOf, y) ==> Outward(pdes, y)
    {
      ghost var members0, cuts0 := members, cuts;
      assert CutRight(es, members, cuts, x);
      y := SplitAlongCut(x);
      FindCut(x);
      ghost var cuts1 := cuts;
      FindCut(y);
      HalvesCuts(es, members0, cuts0, members, cuts1, cuts, x, y);
    }

    /** Merge the two domains with the most invocations between them. */
    method DecreaseOverhead() returns (p: nat)
      requires Sound() && pdes != map[]
      modifies this
      ensures Sound() && (old(Valid()) ==> Valid())
      ensures es == old(es) && |members| == old(|members|) - 1 && |pdOf| == old(|pdOf|)
      ensures MergesAlong(es, old(Now()), Now(), p)
      ensures exists d :: d in cuts && cuts[d].amnt <= old(pdes)[p].weight
    {
      ghost var heaviest := HeaviestExists(pdes, pdes.Keys);
      p :| p in pdes && (forall q :: q in pdes ==> pdes[q].weight <= pdes[p].weight);
      EndsAreDomains(p);
      var x, y := pdes[p].from, pdes[p].to;
      assert Listed(pdOf, members[x], x) && Listed(pdOf, members[y], y);
      PairWeight(es, master, pdOf, pdes, totCost, p, Elements(members[x]), Elements(members[y]));
      Merge(x, y);
      MergeCounts(es, old(Now()), Now(), p);
    }

    lemma EndsAreDomains(p: nat)
      requires Books() && p in pdes
      ensures pdes[p].from in members && pdes[p].to in members && pdes[p].from != pdes[p].to
      ensures pdes[p].from != 0 && pdes[p].to != 0
    {
      assert Carries(es, master, pdes, p);
      var j := SomethingCarried(master, p);
      assert ChargedRight(es, master, pdOf, pdes, j);
    }

    /** Merge domains until the total cost is down to the limit. */
    method RemoveOverheadToLimit(limit: int) returns (ghost run: seq<Snapshot>)
      requires Sound()
      modifies this
      ensures Sound() && (old(Valid()) ==> Valid()) && es == old(es) && |pdOf| == old(|pdOf|)
      ensures totCost <= limit || (totCost == 0 && pdes == map[])
      ensures MergeRun(es, limit, run) && run[0] == old(Now()) && Last(run) == Now()
    {
      run := [Now()];
      while pdes != map[] && totCost > limit
        invariant Sound() && (old(Valid()) ==> Valid()) && es == old(es) && |pdOf| == old(|pdOf|)
        invariant MergeRun(es, limit, run) && run[0] == old(Now()) && Last(run) == Now()
        decreases |members|
      {
        var p := DecreaseOverhead();
        MergesExtend(es, limit, run, Now(), p);
        run := run + [Now()];
      }
      if pdes == map[] {
        SumZero(Costs(es, master));
      }
    }

    /** Split the domain with the lightest cut. */
    method IncreaseIsolation() returns (x: nat, y: nat)
      requires Valid() && cuts != map[]
      modifies this
      ensures Valid() && es == old(es) && |members| == old(|members|) + 1 && |pdOf| == old(|pdOf|)
      ensures SplitsAlong(es, old(Now()), Now(), x, y)
    {
      ghost var lightest := LightestExists(cuts, cuts.Keys);
      x :| x in cuts && (forall d :: d in cuts ==> cuts[x].amnt <= cuts[d].amnt);
      assert CutRight(es, members, cuts, x);
      y := Split(x);
      SplitAdds(es, old(Now()), Now(), x, y);
    }

    /** Bring every cut up to date. */
    method RecomputeMinCuts()
      requires Sound()
      modifies this`cuts
      ensures Valid()
    {
      var todo := members.Keys;
      cuts := map[];
      while todo != {}
        invariant todo <= members.Keys
        invariant forall d: nat {:trigger CutRight(es, members, cuts, d)} ::
          d !in todo ==> CutRight(es, members, cuts, d)
        invariant forall d :: d in todo ==> d !in cuts
        decreases |todo|
      {
        var d :| d in todo;
        ghost var before := cuts;
        FindCut(d);
        todo := todo - {d};
        forall e: nat {:trigger CutRight(es, members, cuts, e)} | e !in todo ensures CutRight(es, members, cuts, e) {
          if e != d {
            CutStays(es, members, before, members, cuts, e, d);
          }
        }
        assert forall e :: e in todo ==> e !in cuts - {d};
      }
    }

    /** Split domains for as long as the total cost stays below the limit. */
    method SplitToLimit(limit: int) returns (ghost run: seq<Snapshot>)
      requires Valid()
      modifies this
      ensures Valid() && es == old(es) && |pdOf| == old(|pdOf|) && NoneFits(limit, Now())
      ensures SplitRun(es, limit, run) && run[0] == old(Now()) && Last(run) == Now()
    {
      run := [Now()];
      while cuts != map[] && exists d :: d in cuts && totCost + cuts[d].amnt < limit
        invariant Valid() && es == old(es) && |pdOf| == old(|pdOf|)
        invariant SplitRun(es, limit, run) && run[0] == old(Now()) && Last(run) == Now()
        decreases |pdOf| - |members|
      {
        ghost var before := Now();
        var x, y := IncreaseIsolation();
        assert SplitsAlong(es, before, Now(), x, y);
        RunExtends(es, limit, run, Now());
        run := run + [Now()];
        DomainsOfComponents();
      }
    }

    lemma DomainsOfComponents()
      requires Books() && Populated()
      ensures |members| <= |pdOf|
    {
      forall d | d in members.Keys ensures d in pdOf {
        assert Listed(pdOf, members[d], d);
        assert members[d][0] in members[d];
      }
      DomainsBounded(pdOf, members.Keys);
    }

    /** mpd_peek_inc_isolation. */
    method PeekInc() returns (inc: int)
      requires cuts != map[]
      ensures Lightest(cuts, inc)
    {
      ghost var lightest := LightestExists(cuts, cuts.Keys);
      var d :| d in cuts && (forall e :: e in cuts ==> cuts[d].amnt <= cuts[e].amnt);
      inc := cuts[d].amnt;
    }

    /** mpd_peek_dec_overhead. */
    method PeekDec() returns (dec: int)
      requires pdes != map[]
      ensures Heaviest(pdes, dec)
    {
      ghost var heaviest := HeaviestExists(pdes, pdes.Keys);
      var p :| p in pdes && (forall q :: q in pdes ==> pdes[q].weight <= pdes[p].weight);
      dec := pdes[p].weight;
    }

    lemma CostNonNegative()
      requires Books()
      ensures totCost >= 0 && (pdes == map[] ==> totCost == 0)
      ensures forall p :: p in pdes ==> pdes[p].weight <= totCost
    {
      if |es| > 0 {
        SumNonNegative(Costs(es, master), 0);
      }
      if pdes == map[] {
        SumZero(Costs(es, master));
      }
      forall p | p in pdes ensures pdes[p].weight <= totCost {
        PartOfTotal(es, master, pdes, totCost, p);
      }
    }

    /** Without a domain to split, all components are apart. */
    lemma NothingToSplit()
      requires Valid() && cuts == map[]
      ensures AllApart(pdOf)
    {
      forall u, v | 0 <= u < v < |pdOf| ensures pdOf[u] != pdOf[v] {
        var d := pdOf[u];
        assert Listed(pdOf, members[d], d) && CutRight(es, members, cuts, d);
        if pdOf[v] == d {
          TwoMembers(pdOf, members[d], d, u, v);
        }
      }
    }

    /** If a split of an earlier division would have reached the limit, and now the total is below it, then
        there is something left to split. */
    lemma StillToSplit(limit: int, before: seq<nat>, ring: seq<nat>, x: nat, side: set<nat>, y: nat)
      requires Valid() && totCost < limit && InRange(es, before) && |before| == |pdOf| && Proper(ring, side)
      requires Listed(before, ring, x) && x != 0 && y != 0 && x != y
      requires forall u :: 0 <= u < |before| ==> before[u] != 0 && before[u] != y
      requires CrossCost(es, before) + CutIn(es, Elements(ring), side) >= limit
      ensures cuts != map[]
    {
      var after := seq(|before|, u requires 0 <= u < |before| => if u in side then y else before[u]);
      SplitCosts(es, before, after, x, y, Elements(ring), side);
      TotalIsCrossCost(es, master, pdOf, pdes, totCost);
      if cuts == map[] {
        NothingToSplit();
        FinestCostsMost(es, after, pdOf);
        assert false;
      }
    }

    /** One round of the third loop of customize_overhead_to_limit: the heaviest domain edge is given up for
        splits that cost less together.  There is something left to split afterwards. */
    method Trade(limit: int) returns (ghost run: seq<Snapshot>)
      requires Valid() && NoneFits(limit, Now()) && CanTrade(Now()) && totCost <= limit
      modifies this
      ensures Valid() && es == old(es) && |pdOf| == old(|pdOf|) && totCost < limit && cuts != map[]
      ensures Round(es, limit, old(Now()), run) && Last(run) == Now()
    {
      ghost var x := Splittable(limit);
      ghost var before, y := pdOf, nextPd;
      var p := DecreaseOverhead();
      ghost var merged := Now();
      run := SplitToLimit(limit);
      assert MergesAlong(es, old(Now()), run[0], p);
      RunStaysBelow(es, limit, old(Now()), run, p);
      StillToSplit(limit, before, old(members)[x], x, Elements(old(cuts)[x].side), y);
    }

    /** A domain whose split would reach the limit. */
    lemma Splittable(limit: int) returns (x: nat)
      requires Valid() && NoneFits(limit, Now()) && cuts != map[]
      ensures x in cuts && x in members && x != 0 && x != nextPd && Listed(pdOf, members[x], x)
      ensures Proper(members[x], Elements(cuts[x].side))
      ensures CrossCost(es, pdOf) + CutIn(es, Elements(members[x]), Elements(cuts[x].side)) >= limit
      ensures forall u :: 0 <= u < |pdOf| ==> pdOf[u] != 0 && pdOf[u] != nextPd
    {
      x :| x in cuts;
      assert CutRight(es, members, cuts, x);
      TotalIsCrossCost(es, master, pdOf, pdes, totCost);
    }

    /** A trade, and whether the heaps then offer what they offered before.  The peeks find neither heap empty,
        except that the second one is not reached when the first one differs. */
    method TradeRound(limit: int, inc: int, dec: int) returns (same: bool, ghost run: seq<Snapshot>)
      requires Valid() && NoneFits(limit, Now()) && totCost <= limit
      requires Lightest(cuts, inc) && Heaviest(pdes, dec) && inc < dec
      modifies this
      ensures same <==> Lightest(cuts, inc) && Heaviest(pdes, dec)
      ensures Valid() && es == old(es) && |pdOf| == old(|pdOf|) && totCost < limit && cuts != map[]
      ensures Round(es, limit, old(Now()), run) && Last(run) == Now()
    {
      CostNonNegative();
      run := Trade(limit);
      CostNonNegative();
      var inc' := PeekInc();
      if inc' != inc {
        return false, run;
      }
      assert pdes != map[];
      var dec' := PeekDec();
      same := dec' == dec;
    }

    /** The third loop of customize_overhead_to_limit, up to the next swing.  It ends with nothing to trade
        (Settled), or with a round after which the two heaps offer what they offered before (Same).  A swing is a
        round that leaves the number of domains, the total and the heaviest domain edge as they were and changes
        the lightest cut only, with more to trade (Swung); the source goes on from there, as another call does.
        It takes two lightest cuts of the same weight for that. */
    method TradeToLimit(limit: int) returns (end: Ending, ghost was: Snapshot, ghost run: seq<Snapshot>)
      requires Valid() && NoneFits(limit, Now()) && (totCost <= limit || pdes == map[])
      modifies this
      ensures Valid() && es == old(es) && NoneFits(limit, Now()) && (totCost <= limit || pdes == map[])
      ensures Ends(es, limit, end, was, run, Now())
    {
      end, was, run := Settled, Now(), [];
      while pdes != map[] && cuts != map[]
        invariant Valid() && es == old(es) && |pdOf| == old(|pdOf|)
        invariant NoneFits(limit, Now()) && (totCost <= limit || pdes == map[])
        invariant end == Settled
        decreases if totCost >= limit then 1 else 0, |pdOf| - |members|, totCost, totCost - Top(pdes)
      {
        var inc := PeekInc();
        var dec := PeekDec();
        if inc >= dec {
          break;
        }
        was := Now();
        var more;
        more, end, run := TradeOn(limit, inc, dec);
        if !more {
          break;
        }
      }
    }

    /** One iteration of the loop, and whether to go on. */
    method TradeOn(limit: int, inc: int, dec: int) returns (more: bool, end: Ending, ghost run: seq<Snapshot>)
      requires Valid() && NoneFits(limit, Now()) && totCost <= limit
      requires Lightest(cuts, inc) && Heaviest(pdes, dec) && inc < dec
      modifies this
      ensures Valid() && es == old(es) && |pdOf| == old(|pdOf|) && totCost < limit && NoneFits(limit, Now())
      ensures if more then end == Settled && Further(limit, old(Now()), Now())
              else Ends(es, limit, end, old(Now()), run, Now())
    {
      ghost var was := Now();
      var n, cost := |members|, totCost;
      Bounds();
      var same;
      same, run := TradeRound(limit, inc, dec);
      if same {
        return false, Same, run;
      }
      more, end := GoOn(limit, inc, dec, n, cost, was, run);
    }

    /** After a round that changed an offer. */
    method GoOn(limit: int, inc: int, dec: int, n: nat, cost: int, ghost was: Snapshot, ghost run: seq<Snapshot>)
      returns (more: bool, end: Ending)
      requires Valid() && Round(es, limit, was, run) && Last(run) == Now() && totCost < limit && cuts != map[]
      requires n == |was.members| && cost == was.cost && Bounded(was)
      requires Lightest(was.cuts, inc) && Heaviest(was.pdes, dec) && inc < dec
      requires !(Lightest(cuts, inc) && Heaviest(pdes, dec))
      ensures end != Same && (more ==> end == Settled && Further(limit, was, Now()))
      ensures !more ==> (end == Settled <==> !CanTrade(Now()))
      ensures end == Swung ==> Swing(was, Now()) && Tied(es)
    {
      if |members| == n && totCost == cost {
        EvenLeavesEdges(es, limit, was, run, dec);
        var dec' := PeekDec();
        if dec' == dec {
          var inc' := PeekInc();
          if inc' >= dec {
            return false, Settled;
          }
          UntiedIsSame(es, limit, was, run);
          return false, Swung;
        }
        EvenKeepsHeaviest(es, limit, was, run, dec, dec');
      } else if cost < limit {
        RoundProgress(es, limit, was, run);
      }
      return true, Settled;
    }

    lemma Bounds()
      requires Sound()
      ensures Bounded(Now())
    {
      CostNonNegative();
      DomainsOfComponents();
    }

    /** customize_overhead_to_limit: merge down to the limit, split again as far as the limit allows, then trade,
        through as many swings as given.  Without ties there is none, and the trading ends. */
    method CustomizeOverhead(limit: int, swings: nat)
      returns (end: Ending, ghost was: Snapshot, ghost run: seq<Snapshot>)
      requires Sound()
      modifies this
      ensures Valid() && es == old(es)
      ensures totCost <= limit || totCost == 0
      ensures NoneFits(limit, Now())
      ensures Ends(es, limit, end, was, run, Now())
    {
      ghost var merged := RemoveOverheadToLimit(limit);
      RecomputeMinCuts();
      ghost var split := SplitToLimit(limit);
      assert |split| > 1 ==> SplitsAt(es, limit, split, |split| - 1);
      end, was, run := TradeToLimit(limit);
      for k := 0 to swings
        invariant Valid() && es == old(es) && NoneFits(limit, Now()) && (totCost <= limit || pdes == map[])
        invariant Ends(es, limit, end, was, run, Now())
      {
        if end == Swung {
          end, was, run := TradeToLimit(limit);
        }
      }
      CostNonNegative();
    }
  }
}
