/**
  The min-cut computation of the protection-domain policy: `mc_phase` and
  `mc_find_min_cut`, with the loops over members, groups and edges they are built from.

  A circular list of the source is a sequence that starts at the element the list is
  entered by.
 */
module MinCuts {
  import opened Cuts
  import opened Heaps
  import opened Wrappers

  datatype Grp = MostConnected | LeastConnected | Slave

  /** The largest value of a `long`. */
  const MAX_LONG: int := 0x7FFF_FFFF

  ghost function Elements(s: seq<nat>): set<nat> {
    set u | u in s
  }

  /** The components merged into the group of master m. */
  ghost function Group(members: seq<nat>, master: seq<nat>, m: nat): set<nat> {
    set u | u in members && u < |master| && master[u] == m
  }

  /** The components of the groups of all the masters in ms. */
  ghost function Reached(members: seq<nat>, master: seq<nat>, ms: seq<nat>): set<nat> {
    set u | u in members && u < |master| && master[u] in ms
  }

  ghost function Groups(members: seq<nat>, master: seq<nat>, ms: seq<nat>): seq<set<nat>> {
    seq(|ms|, i requires 0 <= i < |ms| => Group(members, master, ms[i]))
  }

  /** The ring holds exactly the components of the group of m, from m on. */
  ghost predicate Headed(members: seq<nat>, master: seq<nat>, ring: seq<nat>, m: nat) {
    ring != [] && ring[0] == m && Distinct(ring) && Elements(ring) == Group(members, master, m)
  }

  /** Every master stands for itself and heads the ring of its group. */
  ghost predicate Rings(members: seq<nat>, master: seq<nat>, rings: seq<seq<nat>>) {
    && (forall u :: u in members ==> u < |master| && u < |rings|)
    && (forall u {:trigger master[u]} :: u in members ==> master[u] in members && master[master[u]] == master[u])
    && (forall m {:trigger rings[m]} :: m in members && master[m] == m ==> Headed(members, master, rings[m], m))
  }

  /** A side of a cut: some members, but not all of them. */
  ghost predicate Proper(members: seq<nat>, c: set<nat>) {
    c <= Elements(members) && c != {} && c != Elements(members)
  }

  /** The side c takes every group whole. */
  ghost predicate Respects(members: seq<nat>, master: seq<nat>, c: set<nat>) {
    forall u :: u in members && u < |master| ==> (u in c <==> master[u] in c)
  }

  /** Every cut that splits one of the current groups weighs at least `bound`. */
  ghost predicate Settled(es: seq<Edge>, members: seq<nat>, master: seq<nat>, bound: int) {
    forall c: set<nat> :: SettledCut(es, members, master, bound, c)
  }

  ghost predicate SettledCut(es: seq<Edge>, members: seq<nat>, master: seq<nat>, bound: int, c: set<nat>) {
    Proper(members, c) && !Respects(members, master, c) ==> bound <= CutIn(es, Elements(members), c)
  }

  /** The side saved so far (none is []) has weight `amnt`, which is below MAX_LONG. */
  ghost predicate Attained(es: seq<Edge>, members: seq<nat>, amnt: int, side: seq<nat>) {
    if side == [] then amnt == MAX_LONG
    else
      && amnt < MAX_LONG && Distinct(side) && Proper(members, Elements(side))
      && amnt == CutIn(es, Elements(members), Elements(side))
  }

  /** `amnt` is the least weight of any cut of the members, or MAX_LONG if no cut is lighter,
      and `side` is a side of a cut of that weight. */
  ghost predicate MinimumCut(es: seq<Edge>, members: seq<nat>, amnt: int, side: seq<nat>) {
    && Attained(es, members, amnt, side)
    && (forall c: set<nat> :: Proper(members, c) ==> amnt <= CutIn(es, Elements(members), c))
  }

  /** The saved side leaves out the member the search starts from, and no cut as light as it splits it: of all
      lightest cuts, the search keeps the first one it meets. */
  ghost predicate FirstMet(es: seq<Edge>, members: seq<nat>, amnt: int, side: seq<nat>) {
    side != [] ==>
      && members != [] && members[0] !in side
      && forall c: set<nat> :: LeavesWhole(es, members, amnt, Elements(side), c)
  }

  ghost predicate LeavesWhole(es: seq<Edge>, members: seq<nat>, amnt: int, side: set<nat>, c: set<nat>) {
    Proper(members, c) && CutIn(es, Elements(members), c) <= amnt ==> Whole(side, c)
  }

  /** All members are in one group. */
  ghost predicate OneGroup(members: seq<nat>, master: seq<nat>) {
    && (forall u :: u in members ==> u < |master|)
    && (forall u, v {:trigger master[u], master[v]} :: u in members && v in members ==> master[u] == master[v])
  }

  /** The assertion that a side was found holds exactly when some cut weighs less than MAX_LONG. */
  lemma SideFound(es: seq<Edge>, members: seq<nat>, amnt: int, side: seq<nat>)
    requires MinimumCut(es, members, amnt, side)
    ensures side != [] <==> exists c: set<nat> :: Proper(members, c) && CutIn(es, Elements(members), c) < MAX_LONG
  {
    if side != [] {
      assert Proper(members, Elements(side));
    }
  }

  /** With a single group left, no cut is open any more. */
  lemma OneGroupSettles(es: seq<Edge>, members: seq<nat>, master: seq<nat>, bound: int, c: set<nat>)
    requires Settled(es, members, master, bound) && Proper(members, c)
    requires forall u :: u in members ==> u < |master|
    requires OneGroup(members, master)
    ensures bound <= CutIn(es, Elements(members), c)
  {
    var u :| u in c;
    assert !(Elements(members) <= c);
    var v :| v in Elements(members) && v !in c;
    assert u in members && v in members;
    assert master[u] == master[v];
    assert !Respects(members, master, c);
    assert SettledCut(es, members, master, bound, c);
  }

  /** The group of the last master of a phase is a side of a cut. */
  lemma LastGroupIsProper(es: seq<Edge>, members: seq<nat>, master: seq<nat>, ms: seq<nat>)
    requires PhaseOrder(es, members, master, ms)
    ensures Proper(members, Group(members, master, ms[|ms| - 1]))
  {
    assert ms[|ms| - 1] in ms && ms[|ms| - 2] in ms;
    assert ms[|ms| - 2] !in Group(members, master, ms[|ms| - 1]);
    assert ms[|ms| - 1] in Group(members, master, ms[|ms| - 1]);
  }

  /** A cut lighter than all that split a group splits none. */
  lemma LighterLeavesWhole(es: seq<Edge>, members: seq<nat>, master: seq<nat>, bound: int, m: nat, curr: int)
    requires Settled(es, members, master, bound) && curr < bound
    ensures forall c: set<nat> :: LeavesWhole(es, members, curr, Group(members, master, m), c)
  {
    forall c: set<nat> ensures LeavesWhole(es, members, curr, Group(members, master, m), c) {
      assert SettledCut(es, members, master, bound, c);
    }
  }

  /** At the moment ms[i] was absorbed, the group of t was no more connected to ms[..i]. */
  ghost predicate Tightest(es: seq<Edge>, members: seq<nat>, master: seq<nat>, ms: seq<nat>, i: nat, t: nat)
    requires i < |ms|
  {
    var a := Reached(members, master, ms[..i]);
    Between(es, a, Group(members, master, t)) <= Between(es, a, Group(members, master, ms[i]))
  }

  ghost predicate AbsorbedTightest(es: seq<Edge>, members: seq<nat>, master: seq<nat>, ms: seq<nat>) {
    forall i, t {:trigger Tightest(es, members, master, ms, i, t)} ::
      1 <= i < |ms| && t in members && t < |master| && master[t] == t && t !in ms[..i] ==>
      Tightest(es, members, master, ms, i, t)
  }

  /** What a phase leaves behind: the masters of all groups, in the order of absorption. */
  ghost predicate PhaseOrder(es: seq<Edge>, members: seq<nat>, master: seq<nat>, ms: seq<nat>) {
    && |ms| >= 2 && Distinct(ms)
    && (forall m :: m in ms ==> m in members && m < |master| && master[m] == m)
    && (forall u :: u in members ==> u < |master| && master[u] in ms)
    && AbsorbedTightest(es, members, master, ms)
  }

  lemma {:induction false} AbsorbedIsReached(members: seq<nat>, master: seq<nat>, ms: seq<nat>, i: nat)
    requires i <= |ms|
    ensures Absorbed(Groups(members, master, ms), i) == Reached(members, master, ms[..i])
  {
    if i > 0 {
      AbsorbedIsReached(members, master, ms, i - 1);
      assert ms[..i] == ms[..i - 1] + [ms[i - 1]];
    }
  }

  /** The last group of a phase is a cheapest cut away from the group before it. */
  lemma LastGroupIsCheapest(es: seq<Edge>, members: seq<nat>, master: seq<nat>, ms: seq<nat>, c: set<nat>)
    requires PhaseOrder(es, members, master, ms)
    requires Proper(members, c) && Respects(members, master, c)
    requires (ms[|ms| - 2] in c) != (ms[|ms| - 1] in c)
    ensures CutIn(es, Elements(members), Group(members, master, ms[|ms| - 1])) <= CutIn(es, Elements(members), c)
  {
    var order := Groups(members, master, ms);
    assert PairwiseDisjoint(order);
    forall i, j | 1 <= i <= j < |order| ensures NoTighter(es, order, i, j) {
      AbsorbedIsReached(members, master, ms, i);
      assert ms[j] in ms && ms[j] !in ms[..i];
      assert Tightest(es, members, master, ms, i, ms[j]);
    }
    forall k | 0 <= k < |order| ensures Whole(order[k], c) {
    }
    AbsorbedIsReached(members, master, ms, |ms|);
    assert ms[..|ms|] == ms;
    assert Absorbed(order, |order|) == Elements(members);
    CutOfPhase(es, order, c);
  }

  /** After a phase, the groups of the last two masters can be merged: the cuts that this
      rules out weigh at least as much as the cut of the phase. */
  lemma MergeSettles(es: seq<Edge>, members: seq<nat>, master: seq<nat>, ms: seq<nat>, master': seq<nat>,
                     bound: int, curr: int)
    requires PhaseOrder(es, members, master, ms)
    requires Settled(es, members, master, bound)
    requires curr == CutIn(es, Elements(members), Group(members, master, ms[|ms| - 1]))
    requires Merged(members, master, master', ms[|ms| - 1], ms[|ms| - 2])
    ensures Settled(es, members, master', if curr < bound then curr else bound)
  {
    var bound' := if curr < bound then curr else bound;
    forall c: set<nat> ensures SettledCut(es, members, master', bound', c) {
      assert SettledCut(es, members, master, bound, c);
      if Proper(members, c) && !Respects(members, master', c) && Respects(members, master, c) {
        LastGroupIsCheapest(es, members, master, ms, c);
      }
    }
  }

  /** The invocations on the first k edges that leave s for b. */
  ghost function Out(es: seq<Edge>, k: nat, s: nat, b: set<nat>): nat
    requires k <= |es|
  {
    if k == 0 then 0
    else Out(es, k - 1, s, b) + if es[k - 1].from == s && es[k - 1].to in b then es[k - 1].inv else 0
  }

  /** The invocations on the first k edges that come into s from b. */
  ghost function In(es: seq<Edge>, k: nat, s: nat, b: set<nat>): nat
    requires k <= |es|
  {
    if k == 0 then 0
    else In(es, k - 1, s, b) + if es[k - 1].to == s && es[k - 1].from in b then es[k - 1].inv else 0
  }

  lemma {:induction false} OutPlusIn(es: seq<Edge>, k: nat, s: nat, b: set<nat>)
    requires s !in b && k <= |es|
    ensures Between(es[..k], {s}, b) == Out(es, k, s, b) + In(es, k, s, b)
  {
    if k > 0 {
      OutPlusIn(es, k - 1, s, b);
      assert es[..k][..k - 1] == es[..k - 1];
    }
  }

  function Key(w: seq<int>, x: nat): int {
    if x < |w| then w[x] else 0
  }

  /** The comparator of the min-cut heap, for the edge weights w. */
  function MoreConnected(w: seq<int>): Cmp {
    (x: nat, y: nat) => Key(w, x) >= Key(w, y)
  }

  lemma {:induction false} ReachedGrows(es: seq<Edge>, members: seq<nat>, master: seq<nat>, ms: seq<nat>,
                                        c: nat, t: nat)
    requires t !in ms && t != c && c !in ms
    ensures Between(es, Reached(members, master, ms + [c]), Group(members, master, t)) ==
            Between(es, Reached(members, master, ms), Group(members, master, t)) +
            Between(es, Group(members, master, c), Group(members, master, t))
  {
    assert Reached(members, master, ms + [c]) == Reached(members, master, ms) + Group(members, master, c);
    BetweenUnion(es, Reached(members, master, ms), Group(members, master, c), Group(members, master, t));
  }

  lemma {:induction false} AbsorbHighest(es: seq<Edge>, members: seq<nat>, master: seq<nat>, ms: seq<nat>, c: nat)
    requires AbsorbedTightest(es, members, master, ms)
    requires forall t :: t in members && t < |master| && master[t] == t && t !in ms ==>
      Between(es, Reached(members, master, ms), Group(members, master, t)) <=
      Between(es, Reached(members, master, ms), Group(members, master, c))
    ensures AbsorbedTightest(es, members, master, ms + [c])
  {
    var ms' := ms + [c];
    forall i, t | 1 <= i < |ms'| && t in members && t < |master| && master[t] == t && t !in ms'[..i]
      ensures Tightest(es, members, master, ms', i, t)
    {
      if i < |ms| {
        assert ms'[..i] == ms[..i];
        assert Tightest(es, members, master, ms, i, t);
      } else {
        assert ms'[..i] == ms;
      }
    }
  }

  /** Once all other groups are absorbed, the connection of the last one is its cut. */
  lemma {:induction false} LastWeightIsCut(es: seq<Edge>, members: seq<nat>, master: seq<nat>, ms: seq<nat>, t: nat)
    requires t !in ms
    requires forall u :: u in members ==> u < |master| && (master[u] == t || master[u] in ms)
    ensures Between(es, Reached(members, master, ms), Group(members, master, t)) ==
            CutIn(es, Elements(members), Group(members, master, t))
  {
    var u, g := Elements(members), Group(members, master, t);
    assert u * g == g && u - g == Reached(members, master, ms);
    BetweenSymmetric(es, g, u - g);
  }

  lemma NextElement(s: seq<nat>, k: nat)
    requires Distinct(s) && k < |s|
    ensures Elements(s[..k + 1]) == Elements(s[..k]) + {s[k]}
    ensures s[k] !in Elements(s[..k])
  {
  }

  /** Linking t behind the head of a ring adds t and nothing else. */
  lemma PutSecond(ring: seq<nat>, t: nat)
    requires ring != [] && Distinct(ring) && t !in Elements(ring)
    ensures Distinct([ring[0], t] + ring[1..])
    ensures Elements([ring[0], t] + ring[1..]) == Elements(ring) + {t}
  {
    var ring' := [ring[0], t] + ring[1..];
    assert forall i :: 0 <= i < |ring'| ==> ring'[i] == if i == 0 then ring[0] else if i == 1 then t else ring[i - 1];
    assert forall u :: u in ring ==> u in Elements(ring);
    forall u | u in ring ensures u in ring' {
      var k :| 0 <= k < |ring| && ring[k] == u;
      assert ring'[if k == 0 then 0 else k + 1] == u;
    }
  }

  /** The rest of a ring, walked from its i-th entry on. */
  function RestOfRing(members: seq<nat>, i: nat): (walk: seq<nat>)
    requires i < |members|
    ensures |walk| == |members| - 1
  {
    members[i + 1..] + members[..i]
  }

  /** The walk meets every other member once. */
  lemma RestIsRest(members: seq<nat>, i: nat)
    requires Distinct(members) && i < |members|
    ensures Distinct(RestOfRing(members, i))
    ensures forall k :: 0 <= k < |members| - 1 ==>
      RestOfRing(members, i)[k] in members && RestOfRing(members, i)[k] != members[i]
    ensures Elements(members) == Elements(RestOfRing(members, i)) + {members[i]}
  {
    var walk := RestOfRing(members, i);
    assert forall k :: 0 <= k < |walk| ==>
      walk[k] == if k < |members| - i - 1 then members[i + 1 + k] else members[k - (|members| - i - 1)];
    forall u | u in members ensures u == members[i] || u in walk {
      var k :| 0 <= k < |members| && members[k] == u;
      if k < i {
        assert walk[k + |members| - i - 1] == u;
      } else if k > i {
        assert walk[k - i - 1] == u;
      }
    }
  }

  ghost function Masters(members: seq<nat>, master: seq<nat>): set<nat> {
    set u | u in members && u < |master| && master[u] == u
  }

  /** What merging the group of b into that of a does to the masters. */
  ghost predicate Merged(members: seq<nat>, master: seq<nat>, master': seq<nat>, a: nat, b: nat) {
    && |master'| == |master|
    && (forall u {:trigger master'[u]} :: u in members && u < |master| ==>
          master'[u] == if master[u] == b then a else master[u])
  }

  lemma MergedGroups(members: seq<nat>, master: seq<nat>, master': seq<nat>, a: nat, b: nat, m: nat)
    requires Merged(members, master, master', a, b) && a != b && m != b
    ensures Group(members, master', m) ==
            if m == a then Group(members, master, a) + Group(members, master, b) else Group(members, master, m)
  {
  }

  /** Merging the group of b into that of a keeps every group on the ring of its master. */
  lemma MergedRings(members: seq<nat>, master: seq<nat>, rings: seq<seq<nat>>,
                    master': seq<nat>, rings': seq<seq<nat>>, a: nat, b: nat)
    requires Rings(members, master, rings) && Merged(members, master, master', a, b) && |rings'| == |rings|
    requires a in members && b in members && a != b && master[a] == a && master[b] == b
    requires forall m :: m in members && m != a ==> rings'[m] == rings[m]
    requires rings'[a] != [] && rings'[a][0] == a && Distinct(rings'[a])
    requires Elements(rings'[a]) == Group(members, master, a) + Group(members, master, b)
    ensures Rings(members, master', rings')
    ensures Masters(members, master') == Masters(members, master) - {b}
  {
    forall u | u in members ensures master'[u] in members && master'[master'[u]] == master'[u] {
      assert master[u] in members;
    }
    forall m | m in members && master'[m] == m ensures Headed(members, master', rings'[m], m) {
      MergedGroups(members, master, master', a, b, m);
      assert m != a ==> Headed(members, master, rings[m], m);
    }
  }

  /** A protection domain together with the min-cut data of its members. */
  class Domain {
    const n: nat
    const es: seq<Edge>
    const pdOf: seq<nat>
    const pd: nat
    const members: seq<nat>
    const h: Heap

    var grp: seq<Grp>
    var sgMaster: seq<nat>
    var sgRing: seq<seq<nat>>
    var edgeWeight: seq<int>
    var mcMembers: seq<nat>
    var mcAmnt: int

    ghost predicate Graph() {
      && |pdOf| == n && members != [] && Distinct(members) && |members| < h.maxSz
      && (forall u :: u in members ==> u < n)
      && (forall u :: 0 <= u < n ==> (pdOf[u] == pd <==> u in members))
      && (forall e :: e in es ==> e.from < n && e.to < n && e.from != e.to)
    }

    ghost predicate Grouped()
      reads this`sgMaster, this`sgRing
    {
      Graph() && |sgMaster| == n && |sgRing| == n && Rings(members, sgMaster, sgRing)
    }

    /** The masters that wait on the heap. */
    ghost predicate Waits(t: nat)
      reads this`grp
    {
      t in members && t < |grp| && grp[t] == LeastConnected
    }

    /** The heap holds the masters not absorbed yet, by their weight. */
    ghost predicate HeapReady()
      reads this, h, h.data
    {
      && |grp| == n && |edgeWeight| == n && h.Valid() && |h.pos| == n
      && h.Ordered(MoreConnected(edgeWeight))
      && (forall t: nat :: t in h.Elems() <==> Waits(t))
    }

    ghost function GroupOf(m: nat): set<nat>
      reads this`sgMaster
    {
      Group(members, sgMaster, m)
    }

    constructor (es: seq<Edge>, pdOf: seq<nat>, pd: nat, members: seq<nat>, h: Heap)
      ensures this.n == |pdOf| && this.es == es && this.pdOf == pdOf && this.pd == pd
      ensures this.members == members && this.h == h
      ensures |grp| == n && |sgMaster| == n && |sgRing| == n && |edgeWeight| == n
    {
      this.n, this.es, this.pdOf, this.pd, this.members, this.h := |pdOf|, es, pdOf, pd, members, h;
      grp := seq(|pdOf|, i => Slave);
      sgMaster := seq(|pdOf|, i => 0);
      sgRing := seq(|pdOf|, i => []);
      edgeWeight := seq(|pdOf|, i => 0);
      mcMembers := [];
      mcAmnt := MAX_LONG;
    }

    method GroupWeight(s: nat, m: nat) returns (cnt: nat)
      requires Grouped() && s in members && m in members && sgMaster[s] != sgMaster[m]
      ensures cnt == Between(es, {s}, GroupOf(sgMaster[m]))
    {
      var master := sgMaster[m];
      cnt := 0;
      for k := 0 to |es|
        invariant cnt == Out(es, k, s, GroupOf(master))
      {
        var e := es[k];
        if e.from == s && pdOf[e.to] == pdOf[e.from] && sgMaster[e.to] == master {
          cnt := cnt + e.inv;
        }
      }
      for k := 0 to |es|
        invariant cnt == Out(es, |es|, s, GroupOf(master)) + In(es, k, s, GroupOf(master))
      {
        var e := es[k];
        if e.to == s && pdOf[e.to] == pdOf[e.from] && sgMaster[e.from] == master {
          cnt := cnt + e.inv;
        }
      }
      OutPlusIn(es, |es|, s, GroupOf(master));
      assert es[..|es|] == es;
    }

    method GroupToGroupWeight(g1: nat, g2: nat) returns (cnt: nat)
      requires Grouped() && g1 in members && g2 in members
      requires sgMaster[g1] == g1 && sgMaster[g2] == g2 && g1 != g2
      ensures cnt == Between(es, GroupOf(g1), GroupOf(g2))
    {
      var ring := sgRing[g1];
      assert Headed(members, sgMaster, ring, g1);
      cnt := 0;
      NothingBetween(es, GroupOf(g2));
      assert Elements(ring[..0]) == {};
      for k := 0 to |ring|
        invariant cnt == Between(es, Elements(ring[..k]), GroupOf(g2))
      {
        assert ring[k] in GroupOf(g1);
        var w := GroupWeight(ring[k], g2);
        cnt := cnt + w;
        RingStep(ring, k, g1, g2);
      }
      assert ring[..|ring|] == ring;
    }

    lemma RingStep(ring: seq<nat>, k: nat, g: nat, t: nat)
      requires Headed(members, sgMaster, ring, g) && k < |ring| && g != t
      ensures Between(es, Elements(ring[..k + 1]), GroupOf(t)) ==
              Between(es, Elements(ring[..k]), GroupOf(t)) + Between(es, {ring[k]}, GroupOf(t))
    {
      assert forall i :: 0 <= i < |ring| ==> ring[i] in Elements(ring);
      assert Elements(ring[..k + 1]) == Elements(ring[..k]) + {ring[k]};
      BetweenUnion(es, Elements(ring[..k]), {ring[k]}, GroupOf(t));
    }

    method HeapAdjust(c: nat, e: Edge)
      requires Graph() && HeapReady() && c in members
      modifies this`edgeWeight, h, h.data
      ensures HeapReady() && h.e == old(h.e)
      ensures edgeWeight == old(edgeWeight)[c := old(edgeWeight)[c] + if grp[c] == LeastConnected then e.inv else 0]
    {
      if grp[c] == LeastConnected {
        ghost var w0 := edgeWeight;
        edgeWeight := edgeWeight[c := edgeWeight[c] + e.inv];
        assert Waits(c);
        assert c in h.Elems();
        h.Adjust(MoreConnected(w0), MoreConnected(edgeWeight), h.pos[c]);
      }
    }

    method AdjustOutward(s: nat)
      requires Grouped() && HeapReady() && s in members
      modifies this`edgeWeight, h, h.data
      ensures HeapReady() && h.e == old(h.e)
      ensures forall t: nat :: Waits(t) ==> edgeWeight[t] == old(edgeWeight[t]) + Out(es, |es|, s, GroupOf(t))
    {
      for k := 0 to |es|
        invariant HeapReady() && h.e == old(h.e)
        invariant forall t: nat :: Waits(t) ==> edgeWeight[t] == old(edgeWeight[t]) + Out(es, k, s, GroupOf(t))
      {
        var e := es[k];
        if e.from == s && pdOf[e.to] == pdOf[e.from] {
          HeapAdjust(sgMaster[e.to], e);
        }
      }
    }

    method AdjustInward(s: nat)
      requires Grouped() && HeapReady() && s in members
      modifies this`edgeWeight, h, h.data
      ensures HeapReady() && h.e == old(h.e)
      ensures forall t: nat :: Waits(t) ==> edgeWeight[t] == old(edgeWeight[t]) + In(es, |es|, s, GroupOf(t))
    {
      for k := 0 to |es|
        invariant HeapReady() && h.e == old(h.e)
        invariant forall t: nat :: Waits(t) ==> edgeWeight[t] == old(edgeWeight[t]) + In(es, k, s, GroupOf(t))
      {
        var e := es[k];
        if e.to == s && pdOf[e.to] == pdOf[e.from] {
          HeapAdjust(sgMaster[e.from], e);
        }
      }
    }

    /** Every waiting group gains the weight of its edges to the component s. */
    method AdjustHeap(s: nat)
      requires Grouped() && HeapReady() && s in members && grp[sgMaster[s]] != LeastConnected
      modifies this`edgeWeight, h, h.data
      ensures HeapReady() && h.e == old(h.e)
      ensures forall t: nat :: Waits(t) ==> edgeWeight[t] == old(edgeWeight[t]) + Between(es, {s}, GroupOf(t))
    {
      AdjustOutward(s);
      AdjustInward(s);
      forall t: nat | Waits(t) ensures edgeWeight[t] == old(edgeWeight[t]) + Between(es, {s}, GroupOf(t)) {
        OutPlusIn(es, |es|, s, GroupOf(t));
        assert es[..|es|] == es;
      }
    }

    /** Every waiting group gains the weight of its edges to the group of g. */
    method GroupAdjustHeap(g: nat)
      requires Grouped() && HeapReady() && g in members && sgMaster[g] == g && grp[g] != LeastConnected
      modifies this`edgeWeight, h, h.data
      ensures HeapReady() && h.e == old(h.e)
      ensures forall t: nat :: Waits(t) ==> edgeWeight[t] == old(edgeWeight[t]) + Between(es, GroupOf(g), GroupOf(t))
    {
      var ring := sgRing[g];
      assert Headed(members, sgMaster, ring, g);
      forall t: nat ensures Between(es, Elements(ring[..0]), GroupOf(t)) == 0 {
        assert Elements(ring[..0]) == {};
        NothingBetween(es, GroupOf(t));
      }
      for k := 0 to |ring|
        invariant HeapReady() && h.e == old(h.e)
        invariant forall t: nat :: Waits(t) ==>
          edgeWeight[t] == old(edgeWeight[t]) + Between(es, Elements(ring[..k]), GroupOf(t))
      {
        assert ring[k] in GroupOf(g);
        AdjustHeap(ring[k]);
        forall t: nat | Waits(t)
          ensures edgeWeight[t] == old(edgeWeight[t]) + Between(es, Elements(ring[..k + 1]), GroupOf(t))
        {
          RingStep(ring, k, g, t);
        }
      }
      assert ring[..|ring|] == ring;
    }

    lemma OrderedByAgreement(w: seq<int>, w': seq<int>)
      requires h.Valid() && h.Ordered(MoreConnected(w))
      requires forall t: nat :: t in h.Elems() ==> Key(w, t) == Key(w', t)
      ensures h.Ordered(MoreConnected(w'))
    {
      assert forall i :: 1 <= i < h.e ==> h.data[i] in h.Elems();
    }

    /** The heap while it is being filled: the masters among the members seen so far. */
    ghost predicate Filled(s: nat, seen: set<nat>)
      reads this, h, h.data
    {
      && |grp| == n && |sgMaster| == n && |edgeWeight| == n && h.Valid() && |h.pos| == n
      && s < n && grp[s] == MostConnected && s !in seen
      && (forall t :: t in seen ==> t < n)
      && (forall t: nat :: t in h.Elems() <==> t in seen && sgMaster[t] == t)
      && (forall t :: t in seen ==> (grp[t] == LeastConnected <==> sgMaster[t] == t))
      && (forall t: nat :: t in h.Elems() ==> edgeWeight[t] == Between(es, GroupOf(s), GroupOf(t)))
      && h.Ordered(MoreConnected(edgeWeight))
    }

    method FillOne(s: nat, t: nat, ghost seen: set<nat>)
      requires Grouped() && s in members && sgMaster[s] == s && t in members && t !in seen && t != s
      requires Filled(s, seen) && h.e < h.maxSz
      modifies this`grp, this`edgeWeight, h, h.data
      ensures Filled(s, seen + {t}) && h.e <= old(h.e) + 1
    {
      if sgMaster[t] == t {
        grp := grp[t := LeastConnected];
        var w := GroupToGroupWeight(s, t);
        OrderedByAgreement(edgeWeight, edgeWeight[t := w]);
        edgeWeight := edgeWeight[t := w];
        var ok := h.Add(MoreConnected(edgeWeight), t);
      } else {
        grp := grp[t := Slave];
      }
    }

    /** The walk around the ring of members from s. */
    method OtherMembers(s: nat) returns (walk: seq<nat>)
      requires Graph() && s in members
      ensures |walk| == |members| - 1 && Distinct(walk) && Elements(members) == Elements(walk) + {s}
      ensures forall k :: 0 <= k < |walk| ==> walk[k] in members && walk[k] != s
    {
      var i :| 0 <= i < |members| && members[i] == s;
      walk := RestOfRing(members, i);
      RestIsRest(members, i);
    }

    /** Put every master but s on the heap, weighted by its connection to the group of s. */
    method FillHeap(s: nat)
      requires Grouped() && s in members && sgMaster[s] == s
      requires |grp| == n && |edgeWeight| == n && h.Valid() && |h.pos| == n && h.e == 1
      requires grp[s] == MostConnected
      modifies this`grp, this`edgeWeight, h, h.data
      ensures HeapReady()
      ensures forall t: nat :: Waits(t) <==> t in members && sgMaster[t] == t && t != s
      ensures forall t: nat :: Waits(t) ==> edgeWeight[t] == Between(es, GroupOf(s), GroupOf(t))
    {
      var walk := OtherMembers(s);
      NoneFilled(s);
      ghost var seen: set<nat> := {};
      for k := 0 to |walk|
        invariant seen == Elements(walk[..k]) && Filled(s, seen) && h.e <= k + 1
      {
        NextElement(walk, k);
        FillOne(s, walk[k], seen);
        seen := seen + {walk[k]};
      }
      assert walk[..|walk|] == walk;
      AllFilled(s, seen);
    }

    lemma NoneFilled(s: nat)
      requires |grp| == n && |sgMaster| == n && |edgeWeight| == n && h.Valid() && |h.pos| == n && h.e == 1
      requires s < n && grp[s] == MostConnected
      ensures Filled(s, {})
    {
    }

    lemma AllFilled(s: nat, seen: set<nat>)
      requires Graph() && Filled(s, seen) && Elements(members) == seen + {s}
      ensures HeapReady()
      ensures forall t: nat :: Waits(t) <==> t in members && sgMaster[t] == t && t != s
      ensures forall t: nat :: Waits(t) ==> edgeWeight[t] == Between(es, GroupOf(s), GroupOf(t))
    {
      assert forall u :: u in members <==> u in Elements(members);
    }

    /** The master of the group a phase starts from. */
    ghost function StartOf(): nat
      requires Grouped()
      reads this`sgMaster, this`sgRing
    {
      assert members[0] in members;
      sgMaster[members[0]]
    }

    /** Absorb group after group, the most tightly connected first, until one is left.  The
        masters in the order of absorption are `ms`; `value` is the weight of the last cut. */
    method Phase() returns (found: bool, secondToLast: nat, mcop: nat, value: int, ghost ms: seq<nat>)
      requires Grouped()
      requires |grp| == n && |edgeWeight| == n && h.Valid() && |h.pos| == n && h.e == 1
      modifies this`grp, this`edgeWeight, h, h.data
      ensures |grp| == n && |edgeWeight| == n && h.Valid() && |h.pos| == n && h.e == 1
      ensures !found ==> OneGroup(members, sgMaster)
      ensures found ==>
        && PhaseOrder(es, members, sgMaster, ms)
        && ms[0] == StartOf() && secondToLast == ms[|ms| - 2] && mcop == ms[|ms| - 1]
        && value == CutIn(es, Elements(members), GroupOf(mcop))
    {
      assert members[0] in members;
      var s := sgMaster[members[0]];
      grp := grp[s := MostConnected];
      FillHeap(s);
      ms := [s];
      if h.e - 1 == 0 {
        found, secondToLast, mcop, value := false, 0, 0, 0;
        forall u | u in members ensures sgMaster[u] == s {
          assert !Waits(sgMaster[u]);
        }
        return;
      }
      assert Reached(members, sgMaster, ms) == GroupOf(s);
      secondToLast, ms := AbsorbAll(s);
      mcop := TakeLast(ms);
      found, value := true, edgeWeight[mcop];
      ms := ms + [mcop];
    }

    /** Absorb all groups but one; the last one absorbed is c. */
    method AbsorbAll(s: nat) returns (c: nat, ghost ms: seq<nat>)
      requires Grouped() && HeapReady() && Absorbing([s]) && h.e >= 2
      modifies this`grp, this`edgeWeight, h, h.data
      ensures HeapReady() && Absorbing(ms) && ms[0] == s && ms[|ms| - 1] == c && h.e == 2
    {
      c, ms := s, [s];
      while 1 < h.e - 1
        invariant HeapReady() && h.e >= 2
        invariant Absorbing(ms) && ms[0] == s && ms[|ms| - 1] == c
        decreases h.e
      {
        c := AbsorbOne(ms);
        ms := ms + [c];
      }
    }

    /** The one group that is left at the end of a phase. */
    method TakeLast(ghost ms: seq<nat>) returns (mcop: nat)
      requires Grouped() && HeapReady() && Absorbing(ms) && h.e == 2
      modifies h, h.data
      ensures h.Valid() && |h.pos| == n && h.e == 1
      ensures PhaseOrder(es, members, sgMaster, ms + [mcop])
      ensures mcop < n && edgeWeight[mcop] == CutIn(es, Elements(members), GroupOf(mcop))
    {
      ghost var waiting := h.Elems();
      assert forall x, y :: x in waiting && y in waiting ==> x == y;
      var ok;
      ok, mcop := h.Highest(MoreConnected(edgeWeight));
      forall t: nat | Waits(t) ensures t == mcop {
        assert t in waiting && mcop in waiting;
      }
      assert Waits(mcop);
      forall u | u in members ensures sgMaster[u] == mcop || sgMaster[u] in ms {
        assert Waits(sgMaster[u]) || sgMaster[u] in ms;
      }
      LastWeightIsCut(es, members, sgMaster, ms, mcop);
      AbsorbHighest(es, members, sgMaster, ms, mcop);
    }

    /** Midway through a phase: the masters ms are absorbed, all others wait on the heap with
        their connection to the absorbed groups. */
    ghost predicate Absorbing(ms: seq<nat>)
      reads this`grp, this`sgMaster, this`edgeWeight
    {
      && |sgMaster| == n && |edgeWeight| == n
      && ms != [] && Distinct(ms)
      && (forall m :: m in ms ==> m in members && m < n && sgMaster[m] == m)
      && (forall t: nat :: Waits(t) <==> t in members && t < n && sgMaster[t] == t && t !in ms)
      && (forall t: nat :: Waits(t) ==>
            t < n && edgeWeight[t] == Between(es, Reached(members, sgMaster, ms), GroupOf(t)))
      && AbsorbedTightest(es, members, sgMaster, ms)
    }

    /** Take the most connected waiting group off the heap. */
    method TakeHighest(ghost ms: seq<nat>) returns (c: nat)
      requires Graph() && HeapReady() && Absorbing(ms) && h.e > 1
      modifies this`grp, h, h.data
      ensures HeapReady() && h.e == old(h.e) - 1
      ensures old(Waits(c)) && grp == old(grp)[c := MostConnected]
      ensures forall t: nat :: Waits(t) <==> old(Waits(t)) && t != c
      ensures forall t: nat :: old(Waits(t)) ==> edgeWeight[t] <= edgeWeight[c]
    {
      var ok;
      ok, c := h.Highest(MoreConnected(edgeWeight));
      assert Waits(c);
      forall t: nat | Waits(t) ensures edgeWeight[t] <= edgeWeight[c] {
        assert MoreConnected(edgeWeight)(c, t);
      }
      grp := grp[c := MostConnected];
    }

    method AbsorbOne(ghost ms: seq<nat>) returns (c: nat)
      requires Grouped() && HeapReady() && Absorbing(ms) && h.e > 1
      modifies this`grp, this`edgeWeight, h, h.data
      ensures HeapReady() && h.e == old(h.e) - 1
      ensures Absorbing(ms + [c])
    {
      c := TakeHighest(ms);
      AbsorbHighest(es, members, sgMaster, ms, c) by {
        forall t | t in members && t < n && sgMaster[t] == t && t !in ms
          ensures edgeWeight[t] <= edgeWeight[c]
        {
          assert old(Waits(t));
        }
      }
      GroupAdjustHeap(c);
      forall t: nat | Waits(t)
        ensures edgeWeight[t] == Between(es, Reached(members, sgMaster, ms + [c]), GroupOf(t))
      {
        ReachedGrows(es, members, sgMaster, ms, c, t);
      }
    }

    /** Join the group of b to that of a. */
    method AppendLists(a: nat, b: nat)
      requires Grouped() && |grp| == n && a in members && b in members && a != b
      requires sgMaster[a] == a && sgMaster[b] == b
      modifies this`grp, this`sgMaster, this`sgRing
      ensures Grouped() && |grp| == n
      ensures Merged(members, old(sgMaster), sgMaster, a, b)
      ensures Masters(members, sgMaster) == Masters(members, old(sgMaster)) - {b}
    {
      var moved := sgRing[b];
      ghost var master, rings := sgMaster, sgRing;
      assert Headed(members, master, rings[a], a) && Headed(members, master, moved, b);
      assert forall i :: 0 <= i < |moved| ==> moved[i] in Elements(moved);
      assert Elements(rings[a]) !! Elements(moved);
      for k := 0 to |moved|
        invariant |grp| == n && |sgMaster| == n && |sgRing| == n
        invariant forall u :: 0 <= u < n ==> sgMaster[u] == if u in Elements(moved[..k]) then a else master[u]
        invariant forall m :: 0 <= m < n && m != a ==> sgRing[m] == rings[m]
        invariant sgRing[a] != [] && sgRing[a][0] == a && Distinct(sgRing[a])
        invariant Elements(sgRing[a]) == Elements(rings[a]) + Elements(moved[..k])
      {
        var t := moved[k];
        NextElement(moved, k);
        assert t !in Elements(sgRing[a]);
        sgMaster := sgMaster[t := a];
        PutSecond(sgRing[a], t);
        sgRing := sgRing[a := [a, t] + sgRing[a][1..]];
        grp := grp[t := Slave];
      }
      assert moved[..|moved|] == moved;
      MergedRings(members, master, rings, sgMaster, sgRing, a, b);
    }

    /** Every member starts out as a group of its own, with no cut saved. */
    method PrepareData()
      requires Graph() && |grp| == n && |sgMaster| == n && |sgRing| == n && |edgeWeight| == n
      modifies this
      ensures Grouped() && |grp| == n && |edgeWeight| == n
      ensures forall u :: u in members ==> sgMaster[u] == u
      ensures mcMembers == [] && mcAmnt == MAX_LONG
    {
      assert forall i :: 0 <= i < |members| ==> members[i] in members;
      for k := 0 to |members|
        invariant |grp| == n && |sgMaster| == n && |sgRing| == n && |edgeWeight| == n
        invariant forall i :: 0 <= i < |members| ==> members[i] < n
        invariant forall i :: 0 <= i < k ==> sgMaster[members[i]] == members[i] && sgRing[members[i]] == [members[i]]
      {
        var t := members[k];
        assert t in members;
        sgRing := sgRing[t := [t]];
        sgMaster := sgMaster[t := t];
        edgeWeight := edgeWeight[t := 0];
        grp := grp[t := LeastConnected];
      }
      mcMembers := [];
      mcAmnt := MAX_LONG;
      assert forall u :: u in members ==> sgMaster[u] == u && sgRing[u] == [u];
      forall m | m in members ensures Headed(members, sgMaster, sgRing[m], m) {
        assert Group(members, sgMaster, m) == {m};
      }
    }

    /** Make the group of mcop the saved side of the cut. */
    method SaveCut(mcop: nat, curr: int)
      requires Grouped() && mcop in members && sgMaster[mcop] == mcop
      modifies this`mcMembers, this`mcAmnt
      ensures Distinct(mcMembers) && mcMembers != [] && Elements(mcMembers) == GroupOf(mcop) && mcAmnt == curr
    {
      var ring := sgRing[mcop];
      assert Headed(members, sgMaster, ring, mcop);
      mcMembers := [mcop];
      assert Elements(ring[..1]) == {mcop};
      for k := 1 to |ring|
        invariant mcMembers != [] && mcMembers[0] == mcop && Distinct(mcMembers)
        invariant Elements(mcMembers) == Elements(ring[..k])
      {
        NextElement(ring, k);
        PutSecond(mcMembers, ring[k]);
        mcMembers := [mcop, ring[k]] + mcMembers[1..];
      }
      assert ring[..|ring|] == ring;
      mcAmnt := curr;
    }

    /** Between phases: the saved cut is at most as heavy as every cut that splits a group. */
    ghost predicate InProgress()
      reads this, h, h.data
    {
      && Grouped() && |grp| == n && |edgeWeight| == n
      && h.Valid() && |h.pos| == n && h.e == 1
      && Attained(es, members, mcAmnt, mcMembers)
      && Settled(es, members, sgMaster, mcAmnt) && FirstMet(es, members, mcAmnt, mcMembers)
    }

    /** Keep the cut of a phase if it is the lightest so far. */
    method KeepBest(mcop: nat, curr: int, minCut: int, ghost ms: seq<nat>) returns (minCut': int)
      requires Grouped() && PhaseOrder(es, members, sgMaster, ms) && mcop == ms[|ms| - 1]
      requires curr == CutIn(es, Elements(members), GroupOf(mcop))
      requires minCut == mcAmnt && Attained(es, members, mcAmnt, mcMembers) && FirstMet(es, members, mcAmnt, mcMembers)
      requires ms[0] == StartOf() && Settled(es, members, sgMaster, mcAmnt)
      modifies this`mcMembers, this`mcAmnt
      ensures Attained(es, members, mcAmnt, mcMembers) && FirstMet(es, members, mcAmnt, mcMembers)
      ensures minCut' == mcAmnt == if curr < minCut then curr else minCut
    {
      LastGroupIsProper(es, members, sgMaster, ms);
      assert mcop in ms;
      minCut' := minCut;
      if curr < minCut {
        // Unlinking the previous side and linking up the new one is one assignment here.
        LighterLeavesWhole(es, members, sgMaster, minCut, mcop, curr);
        SaveCut(mcop, curr);
        assert members[0] !in Elements(mcMembers);
        minCut' := curr;
      }
    }

    /** One phase, and the merge it allows; `more` tells whether there were groups to merge. */
    method Round(minCut: int) returns (more: bool, minCut': int)
      requires InProgress() && minCut == mcAmnt
      modifies this, h, h.data
      ensures InProgress() && minCut' == mcAmnt
      ensures more ==> |Masters(members, sgMaster)| < |Masters(members, old(sgMaster))|
      ensures !more ==> OneGroup(members, sgMaster)
    {
      var found, second, mcop, curr, ms := Phase();
      if !found {
        return false, minCut;
      }
      minCut' := KeepBest(mcop, curr, minCut, ms);
      JoinLast(mcop, second, ms, minCut, curr);
      more := true;
    }

    /** Join the last two groups of a phase. */
    method JoinLast(mcop: nat, second: nat, ghost ms: seq<nat>, ghost bound: int, ghost curr: int)
      requires Grouped() && |grp| == n && PhaseOrder(es, members, sgMaster, ms)
      requires mcop == ms[|ms| - 1] && second == ms[|ms| - 2]
      requires Settled(es, members, sgMaster, bound) && curr == CutIn(es, Elements(members), GroupOf(mcop))
      modifies this`grp, this`sgMaster, this`sgRing
      ensures Grouped() && |grp| == n && Settled(es, members, sgMaster, if curr < bound then curr else bound)
      ensures |Masters(members, sgMaster)| < |Masters(members, old(sgMaster))|
    {
      assert mcop in ms && second in ms;
      ghost var master := sgMaster;
      AppendLists(mcop, second);
      assert second in Masters(members, master);
      MergeSettles(es, members, master, ms, sgMaster, bound, curr);
    }

    /** Find a lightest cut of the domain. */
    method FindMinCut()
      requires Graph() && |grp| == n && |sgMaster| == n && |sgRing| == n && |edgeWeight| == n
      requires h.Valid() && |h.pos| == n && h.e == 1
      modifies this, h, h.data
      ensures h.Valid() && |h.pos| == n && h.e == 1
      ensures MinimumCut(es, members, mcAmnt, mcMembers) && FirstMet(es, members, mcAmnt, mcMembers)
    {
      if |members| == 1 {
        mcMembers := [];
        mcAmnt := MAX_LONG;
        return;
      }
      PrepareData();
      var minCut, more := MAX_LONG, true;
      while more
        invariant InProgress() && minCut == mcAmnt
        invariant !more ==> OneGroup(members, sgMaster)
        decreases more, |Masters(members, sgMaster)|
      {
        more, minCut := Round(minCut);
      }
      forall c: set<nat> | Proper(members, c) ensures mcAmnt <= CutIn(es, Elements(members), c) {
        OneGroupSettles(es, members, sgMaster, mcAmnt, c);
      }
    }
  }
}
