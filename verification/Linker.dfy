/**
  The linker's check that components depend on each other without cycles, and the order in
  which the booter starts them.  A service is its position in the linker's list.
 */
module Linkers {

  /** The dependencies of each service. */
  type Graph = deps: seq<seq<nat>> |
    forall s, i :: 0 <= s < |deps| && 0 <= i < |deps[s]| ==> deps[s][i] < |deps|
    witness []

  /** A walk along dependencies. */
  ghost predicate Path(g: Graph, p: seq<nat>) {
    && |p| > 0
    && (forall i :: 0 <= i < |p| ==> p[i] < |g|)
    && (forall i :: 0 <= i < |p| - 1 ==> p[i + 1] in g[p[i]])
  }

  ghost predicate Acyclic(g: Graph) {
    forall p :: Path(g, p) && |p| > 1 ==> p[0] != p[|p| - 1]
  }

  /** A walk of k dependencies leaves s. */
  ghost predicate Deep(g: Graph, s: nat, k: nat)
    requires s < |g|
    decreases k
  {
    k == 0 || exists i :: 0 <= i < |g[s]| && Deep(g, g[s][i], k - 1)
  }

  lemma {:induction false} PathOfDepth(g: Graph, s: nat, k: nat) returns (p: seq<nat>)
    requires s < |g| && Deep(g, s, k)
    ensures Path(g, p) && |p| == k + 1 && p[0] == s
    decreases k
  {
    if k == 0 {
      p := [s];
    } else {
      var i :| 0 <= i < |g[s]| && Deep(g, g[s][i], k - 1);
      var rest := PathOfDepth(g, g[s][i], k - 1);
      p := [s] + rest;
    }
  }

  /** More walkers than places: two meet. */
  lemma {:induction false} Pigeonhole(p: seq<nat>, n: nat) returns (i: nat, j: nat)
    requires |p| > n && forall k :: 0 <= k < |p| ==> p[k] < n
    ensures i < j < |p| && p[i] == p[j]
    decreases n
  {
    assert p[0] < n;
    if m :| 0 <= m < |p| && p[m] == n - 1 {
      var q := p[..m] + p[m + 1..];
      if m' :| 0 <= m' < |q| && q[m'] == n - 1 {
        i, j := if m' < m then m' else m, if m' < m then m else m' + 1;
      } else {
        i, j := Pigeonhole(q, n - 1);
        i, j := if i < m then i else i + 1, if j < m then j else j + 1;
      }
    } else {
      i, j := Pigeonhole(p, n - 1);
    }
  }

  /** A cycle can be walked for ever. */
  lemma {:induction false} CycleIsDeep(g: Graph, p: seq<nat>, i: nat, k: nat)
    requires Path(g, p) && |p| > 1 && p[0] == p[|p| - 1] && i < |p|
    ensures Deep(g, p[i], k)
    decreases k
  {
    if k == 0 {
    } else {
      var j := if i == |p| - 1 then 0 else i;
      CycleIsDeep(g, p, j + 1, k - 1);
      var m :| 0 <= m < |g[p[j]]| && g[p[j]][m] == p[j + 1];
    }
  }

  /** More dependencies than there are services can be followed from s. */
  ghost predicate Endless(g: Graph, s: nat)
    requires s < |g|
  {
    Deep(g, s, |g| + 1)
  }

  /** The bounded search is exact: a service can be left by more dependencies than there are
      services just when some cycle exists. */
  lemma AcyclicIsShallow(g: Graph)
    ensures Acyclic(g) <==> forall s :: 0 <= s < |g| ==> !Endless(g, s)
  {
    if s :| 0 <= s < |g| && Endless(g, s) {
      var p := PathOfDepth(g, s, |g| + 1);
      var i, j := Pigeonhole(p, |g|);
      assert Path(g, p[i..j + 1]);
    }
    if p :| Path(g, p) && |p| > 1 && p[0] == p[|p| - 1] {
      CycleIsDeep(g, p, 0, |g| + 1);
      assert Endless(g, p[0]);
    }
  }

  lemma {:induction false} DeepNext(g: Graph, s: nat, i: nat, k: nat)
    requires s < |g| && i < |g[s]| && Deep(g, g[s][i], k)
    ensures Deep(g, s, k + 1)
  {
  }

  lemma NotDeep(g: Graph, s: nat, k: nat)
    requires s < |g| && forall j :: 0 <= j < |g[s]| ==> !Deep(g, g[s][j], k)
    ensures !Deep(g, s, k + 1)
  {
  }

  // Depths.

  ghost predicate Ranked(g: Graph, depth: seq<int>, s: nat)
    requires |depth| == |g| && s < |g|
  {
    forall i :: 0 <= i < |g[s]| ==> depth[s] < depth[g[s][i]]
  }

  /** A visit only raises depths, and leaves a service it raised below all its dependencies. */
  ghost predicate Raised(g: Graph, before: seq<int>, after: seq<int>) {
    && |before| == |after| == |g|
    && forall s :: 0 <= s < |g| ==> RaisedAt(g, before, after, s)
  }

  ghost predicate RaisedAt(g: Graph, before: seq<int>, after: seq<int>, s: nat)
    requires |before| == |after| == |g| && s < |g|
  {
    before[s] <= after[s] && (Ranked(g, before, s) || before[s] != after[s] ==> Ranked(g, after, s))
  }

  /** The state of the visit of s at `current` after its first i dependencies. */
  ghost predicate Visiting(g: Graph, before: seq<int>, now: seq<int>, s: nat, current: nat, i: nat) {
    && |before| == |now| == |g| && s < |g| && i <= |g[s]| && current <= now[s] && before[s] <= now[s]
    && (forall x :: 0 <= x < |g| && x != s ==> RaisedAt(g, before, now, x))
    && (now[s] == (if current > before[s] then current else before[s]) || Ranked(g, now, s))
    && (current <= before[s] && Ranked(g, before, s) ==> Ranked(g, now, s))
    && Above(g, now, s, current, i)
  }

  ghost predicate Above(g: Graph, now: seq<int>, s: nat, current: nat, i: nat)
    requires |now| == |g| && s < |g| && i <= |g[s]|
  {
    forall j :: 0 <= j < i ==> current < now[g[s][j]]
  }

  lemma VisitStart(g: Graph, before: seq<int>, now: seq<int>, s: nat, current: nat)
    requires |before| == |g| && s < |g|
    requires now == if current > before[s] then before[s := current] else before
    ensures Visiting(g, before, now, s, current, 0)
  {
    forall x | 0 <= x < |g| && x != s ensures RaisedAt(g, before, now, x) {
    }
  }

  lemma VisitNext(g: Graph, before: seq<int>, now: seq<int>, after: seq<int>, s: nat, current: nat, i: nat)
    requires Visiting(g, before, now, s, current, i) && i < |g[s]|
    requires Raised(g, now, after) && current < after[g[s][i]]
    ensures Visiting(g, before, after, s, current, i + 1)
  {
    assert RaisedAt(g, now, after, s);
    forall x | 0 <= x < |g| && x != s ensures RaisedAt(g, before, after, x) {
      assert RaisedAt(g, before, now, x) && RaisedAt(g, now, after, x);
    }
    forall j | 0 <= j < i + 1 ensures current < after[g[s][j]] {
      assert RaisedAt(g, now, after, g[s][j]);
    }
  }

  lemma VisitEnd(g: Graph, before: seq<int>, now: seq<int>, s: nat, current: nat)
    requires s < |g| && Visiting(g, before, now, s, current, |g[s]|)
    ensures Raised(g, before, now)
  {
    forall x | 0 <= x < |g| ensures RaisedAt(g, before, now, x) {
    }
  }

  ghost predicate EndsAt(g: Graph, p: seq<nat>, s: nat, k: int) {
    Path(g, p) && |p| == k + 1 && p[|p| - 1] == s
  }

  /** Every recorded depth is the length of a walk that ends there. */
  ghost predicate Walked(g: Graph, depth: seq<int>)
    requires |depth| == |g|
  {
    forall s :: 0 <= s < |g| ==> WalkedAt(g, depth, s)
  }

  ghost predicate WalkedAt(g: Graph, depth: seq<int>, s: nat)
    requires s < |depth|
  {
    -1 <= depth[s] && (depth[s] >= 0 ==> exists p :: EndsAt(g, p, s, depth[s]))
  }

  lemma WalkOn(g: Graph, p: seq<nat>, s: nat, k: int, i: nat)
    requires EndsAt(g, p, s, k) && s < |g| && i < |g[s]|
    ensures EndsAt(g, p + [g[s][i]], g[s][i], k + 1)
  {
  }

  lemma WalkedTo(g: Graph, depth: seq<int>, p: seq<nat>, s: nat, k: nat)
    requires |depth| == |g| && Walked(g, depth) && EndsAt(g, p, s, k) && s < |g|
    ensures Walked(g, depth[s := k])
  {
    var depth' := depth[s := k];
    forall x | 0 <= x < |g| ensures WalkedAt(g, depth', x) {
      assert WalkedAt(g, depth, x);
    }
  }

  ghost predicate AtMost(depth: seq<int>, max: nat) {
    forall s :: 0 <= s < |depth| ==> depth[s] <= max
  }

  /** No walk that ends at s is longer than its depth, and one is as long. */
  ghost predicate Longest(g: Graph, depth: seq<int>, s: nat)
    requires |depth| == |g| && s < |g|
  {
    && (forall p :: Path(g, p) && p[|p| - 1] == s ==> |p| <= depth[s] + 1)
    && exists p :: EndsAt(g, p, s, depth[s])
  }

  lemma {:induction false} RankBoundsWalks(g: Graph, depth: seq<int>, p: seq<nat>)
    requires |depth| == |g| && (forall s :: 0 <= s < |g| ==> depth[s] >= 0 && Ranked(g, depth, s))
    requires Path(g, p)
    ensures |p| <= depth[p[|p| - 1]] + 1
  {
    if |p| == 1 {
    } else {
      var q := p[..|p| - 1];
      RankBoundsWalks(g, depth, q);
      assert Ranked(g, depth, q[|q| - 1]);
      assert p[|q| - 1 + 1] in g[p[|q| - 1]];
    }
  }

  // The boot order.

  /** Each service of the order once, loaded by the booter, and after its dependencies that are. */
  ghost predicate Ordered(g: Graph, loaded: seq<bool>, order: seq<nat>)
    requires |loaded| == |g|
  {
    && (forall k :: 0 <= k < |order| ==> order[k] < |g| && loaded[order[k]])
    && (forall j, k :: 0 <= j < k < |order| ==> order[j] != order[k])
    && (forall k, i :: 0 <= k < |order| && 0 <= i < |g[order[k]]| && loaded[g[order[k]][i]] ==>
          g[order[k]][i] in order[..k])
  }

  /** The services among the first n that the booter loads. */
  ghost function Loaded(loaded: seq<bool>, n: nat): set<nat>
    requires n <= |loaded|
  {
    set s: nat | s < n && loaded[s]
  }

  lemma {:induction false} OrderFits(loaded: seq<bool>, order: seq<nat>, n: nat, left: set<nat>)
    requires n <= |loaded| && left <= Loaded(loaded, n)
    requires forall k :: 0 <= k < |order| ==> order[k] in left
    requires forall j, k :: 0 <= j < k < |order| ==> order[j] != order[k]
    ensures |order| <= |left|
    decreases |order|
  {
    if order == [] {
    } else {
      var last := order[|order| - 1];
      OrderFits(loaded, order[..|order| - 1], n, left - {last});
    }
  }

  /** The already_loaded flags are those of the services in the order. */
  ghost predicate Marks(already: seq<bool>, order: seq<nat>) {
    forall s :: 0 <= s < |already| ==> (already[s] <==> s in order)
  }

  /** Flags are only set, and only those of services at least so deep. */
  ghost predicate Marked(depth: seq<int>, before: seq<bool>, after: seq<bool>, least: int) {
    && |before| == |after| == |depth|
    && forall s :: 0 <= s < |depth| ==> if before[s] then after[s] else after[s] ==> least <= depth[s]
  }

  lemma Schedule(g: Graph, loaded: seq<bool>, already: seq<bool>, order: seq<nat>, comp: nat)
    requires |loaded| == |already| == |g| && Ordered(g, loaded, order) && Marks(already, order)
    requires comp < |g| && loaded[comp] && !already[comp]
    requires forall i :: 0 <= i < |g[comp]| ==> already[g[comp][i]] || !loaded[g[comp][i]]
    ensures Ordered(g, loaded, order + [comp]) && Marks(already[comp := true], order + [comp])
    ensures |order| < |Loaded(loaded, |loaded|)|
  {
    var order' := order + [comp];
    forall k, i | 0 <= k < |order'| && 0 <= i < |g[order'[k]]| && loaded[g[order'[k]][i]]
      ensures g[order'[k]][i] in order'[..k]
    {
      assert order'[..k] == order[..k];
      assert order[..|order|] == order;
    }
    OrderFits(loaded, order', |loaded|, Loaded(loaded, |loaded|));
  }

  lemma {:induction false} Covers(order: seq<nat>, all: set<nat>)
    requires forall s :: s in all ==> s in order
    ensures |all| <= |order|
    decreases |order|
  {
    if order == [] {
      assert all == {};
    } else {
      Covers(order[1..], all - {order[0]});
    }
  }

  lemma AllFit(g: Graph, loaded: seq<bool>, order: seq<nat>)
    requires |loaded| == |g| && Ordered(g, loaded, order)
    requires forall s :: 0 <= s < |g| && loaded[s] ==> s in order
    ensures |order| == |Loaded(loaded, |loaded|)|
  {
    var all := Loaded(loaded, |loaded|);
    OrderFits(loaded, order, |loaded|, all);
    Covers(order, all);
  }

  class Linker {
    const deps: Graph
    const loaded: seq<bool>
    var depth: seq<int>
    var already: seq<bool>
    var off: nat

    constructor (deps: Graph, loaded: seq<bool>)
      requires |loaded| == |deps|
      ensures this.deps == deps && this.loaded == loaded && Valid() && off == 0
      ensures forall s :: 0 <= s < |deps| ==> depth[s] == -1 && !already[s]
    {
      this.deps := deps;
      this.loaded := loaded;
      depth := seq(|deps|, _ => -1);
      already := seq(|deps|, _ => false);
      off := 0;
    }

    ghost predicate Valid()
      reads this
    {
      |loaded| == |depth| == |already| == |deps|
    }

    method RecVerifyDag(s: nat, current: nat, max: nat, ghost p: seq<nat>) returns (ok: bool)
      requires Valid() && s < |deps| && current <= max + 1
      requires Walked(deps, depth) && EndsAt(deps, p, s, current)
      requires AtMost(depth, max)
      modifies this`depth
      ensures Valid() && Walked(deps, depth) && AtMost(depth, max)
      ensures ok <==> !Deep(deps, s, max + 1 - current)
      ensures ok ==> Raised(deps, old(depth), depth) && current <= depth[s]
      decreases max + 1 - current
    {
      if current > max {
        return false;
      }
      WalkedTo(deps, depth, p, s, current);
      if current > depth[s] {
        depth := depth[s := current];
      }
      VisitStart(deps, old(depth), depth, s, current);
      var i := 0;
      while i < |deps[s]|
        invariant 0 <= i <= |deps[s]| && Valid() && Walked(deps, depth) && AtMost(depth, max)
        invariant Visiting(deps, old(depth), depth, s, current, i)
        invariant forall j :: 0 <= j < i ==> !Deep(deps, deps[s][j], max - current)
      {
        var d := deps[s][i];
        WalkOn(deps, p, s, current, i);
        ghost var now := depth;
        var ok := RecVerifyDag(d, current + 1, max, p + [d]);
        if !ok {
          DeepNext(deps, s, i, max - current);
          return false;
        }
        VisitNext(deps, old(depth), now, depth, s, current, i);
        i := i + 1;
      }
      VisitEnd(deps, old(depth), depth, s, current);
      NotDeep(deps, s, max - current);
      return true;
    }

    /** Zero just when the services form no cycle; then each depth is the length of the longest
        chain of dependents, so it is larger at every dependency. */
    method VerifyDependencySoundness() returns (r: int)
      requires Valid() && forall s :: 0 <= s < |deps| ==> depth[s] == -1
      modifies this`depth
      ensures Valid() && (r == 0 || r == -1)
      ensures r == 0 <==> Acyclic(deps)
      ensures r == 0 ==> forall s :: 0 <= s < |deps| ==>
        0 <= depth[s] <= |deps| && Ranked(deps, depth, s) && Longest(deps, depth, s)
    {
      AcyclicIsShallow(deps);
      var cnt := |deps|;
      var s := 0;
      while s < |deps|
        invariant 0 <= s <= |deps| && Valid() && Walked(deps, depth) && AtMost(depth, cnt)
        invariant forall x :: 0 <= x < |deps| && depth[x] >= 0 ==> Ranked(deps, depth, x)
        invariant forall x :: 0 <= x < s ==> depth[x] >= 0 && !Endless(deps, x)
      {
        ghost var before := depth;
        var ok := RecVerifyDag(s, 0, cnt, [s]);
        if !ok {
          assert Endless(deps, s);
          return -1;
        }
        forall x | 0 <= x < |deps| ensures before[x] <= depth[x] && (depth[x] >= 0 ==> Ranked(deps, depth, x)) {
          assert RaisedAt(deps, before, depth, x) && WalkedAt(deps, before, x);
        }
        s := s + 1;
      }
      forall x | 0 <= x < |deps| ensures Longest(deps, depth, x) {
        assert WalkedAt(deps, depth, x);
        forall p | Path(deps, p) && p[|p| - 1] == x ensures |p| <= depth[x] + 1 {
          RankBoundsWalks(deps, depth, p);
        }
      }
      return 0;
    }

    predicate SpdAlreadyLoaded(s: nat)
      requires s < |loaded| && s < |already|
      reads this`already
    {
      already[s] || !loaded[s]
    }

    ghost predicate Scheduling(order: seq<nat>)
      reads this
    {
      && Valid() && |order| == off && Ordered(deps, loaded, order) && Marks(already, order)
      && AtMost(depth, |deps|) && (forall s :: 0 <= s < |deps| ==> Ranked(deps, depth, s))
    }

    method MakeSpdBootSchedule(comp: nat, sched: array<nat>)
      requires comp < |deps| && off <= sched.Length && Scheduling(sched[..off])
      requires sched.Length == |Loaded(loaded, |loaded|)|
      modifies this`already, this`off, sched
      ensures off <= sched.Length && Scheduling(sched[..off])
      ensures old(sched[..off]) <= sched[..off] && SpdAlreadyLoaded(comp)
      ensures Marked(depth, old(already), already, depth[comp])
      decreases |deps| - depth[comp]
    {
      if SpdAlreadyLoaded(comp) {
        return;
      }
      ghost var order := sched[..off];
      var i := 0;
      while i < |deps[comp]|
        invariant 0 <= i <= |deps[comp]| && off <= sched.Length && Scheduling(sched[..off])
        invariant order <= sched[..off] && Marked(depth, old(already), already, depth[comp] + 1)
        invariant forall j :: 0 <= j < i ==> SpdAlreadyLoaded(deps[comp][j])
      {
        var d := deps[comp][i];
        assert Ranked(deps, depth, comp);
        if !SpdAlreadyLoaded(d) {
          MakeSpdBootSchedule(d, sched);
        }
        assert SpdAlreadyLoaded(d);
        i := i + 1;
      }
      order := sched[..off];
      Schedule(deps, loaded, already, order, comp);
      sched[off] := comp;
      already := already[comp := true];
      off := off + 1;
      assert sched[..off] == order + [comp];
    }

    /** The whole schedule lists each component loaded by the booter once, after the ones it
        depends on that are. */
    method MakeSpdBoot() returns (sched: array<nat>)
      requires Scheduling([])
      modifies this`already, this`off
      ensures sched.Length == off && Ordered(deps, loaded, sched[..])
      ensures forall s: nat :: s in sched[..] <==> s < |deps| && loaded[s]
    {
      var cnt := CountLoaded();
      sched := new nat[cnt];
      assert sched[..off] == [];
      var s := 0;
      while s < |deps|
        invariant 0 <= s <= |deps| && off <= sched.Length && Scheduling(sched[..off])
        invariant forall x :: 0 <= x < s ==> already[x] || !loaded[x]
      {
        MakeSpdBootSchedule(s, sched);
        s := s + 1;
      }
      AllFit(deps, loaded, sched[..off]);
      assert sched[..off] == sched[..];
    }

    /** Linking stops unless the dependencies are sound, and a sound system has a boot order. */
    method Link() returns (r: int, sched: array<nat>)
      requires Valid() && off == 0 && forall s :: 0 <= s < |deps| ==> depth[s] == -1 && !already[s]
      modifies this
      ensures r == 0 <==> Acyclic(deps)
      ensures r == 0 ==> Ordered(deps, loaded, sched[..])
      ensures r == 0 ==> forall s: nat :: s in sched[..] <==> s < |deps| && loaded[s]
    {
      r := VerifyDependencySoundness();
      if r == 0 {
        sched := MakeSpdBoot();
      } else {
        sched := new nat[0];
      }
    }

    method CountLoaded() returns (cnt: nat)
      ensures cnt == |Loaded(loaded, |loaded|)|
    {
      cnt := 0;
      var s := 0;
      while s < |loaded|
        invariant 0 <= s <= |loaded| && cnt == |Loaded(loaded, s)|
      {
        assert Loaded(loaded, s + 1) == Loaded(loaded, s) + if loaded[s] then {s} else {};
        if loaded[s] {
          cnt := cnt + 1;
        }
        s := s + 1;
      }
    }
  }
}
