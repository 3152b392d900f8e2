/**
  The embedded radix trie.  Its nodes are numbered; node 0 is the root.  An internal node has `width`
  entries, a leaf `leaf` embedded slots.  An identifier below the largest one leads through `depth`
  levels to one slot.
 */
module Tries {
  import opened Modulo

  function Pow(w: nat, k: nat): nat {
    if k == 0 then 1 else w * Pow(w, k - 1)
  }

  lemma {:induction false} PowPositive(w: nat, k: nat)
    requires w > 0
    ensures Pow(w, k) > 0
  {
    if k > 0 {
      PowPositive(w, k - 1);
      assert w * Pow(w, k - 1) > 0;
    }
  }

  /** Digit k of q, counted from the lowest, in base w. */
  function Digit(q: nat, w: nat, k: nat): (d: nat)
    requires w > 0
    ensures d < w
    decreases k
  {
    if k == 0 then q % w else Digit(q / w, w, k - 1)
  }

  /** What shifting and masking an identifier computes. */
  lemma {:induction false} DigitIsMasked(q: nat, w: nat, k: nat)
    requires w > 0
    ensures Pow(w, k) > 0 && Digit(q, w, k) == q / Pow(w, k) % w
    decreases k
  {
    PowPositive(w, k);
    if k == 0 {
      assert q / 1 == q;
    } else {
      var p := Pow(w, k - 1);
      PowPositive(w, k - 1);
      DigitIsMasked(q / w, w, k - 1);
      DivDiv(q, w, p);
      assert Pow(w, k) == w * p;
    }
  }

  /** Numbers with the same digits are the same. */
  lemma {:induction false} SameDigits(p: nat, q: nat, w: nat, n: nat)
    requires w > 0 && p < Pow(w, n) && q < Pow(w, n) && forall k :: 0 <= k < n ==> Digit(p, w, k) == Digit(q, w, k)
    ensures p == q
    decreases n
  {
    if n == 0 {
    } else {
      Below(p, w, n);
      Below(q, w, n);
      forall k | 0 <= k < n - 1 ensures Digit(p / w, w, k) == Digit(q / w, w, k) {
        assert Digit(p, w, k + 1) == Digit(q, w, k + 1);
      }
      SameDigits(p / w, q / w, w, n - 1);
      assert Digit(p, w, 0) == Digit(q, w, 0);
      SameQuotient(p, q, w);
    }
  }

  lemma Below(p: nat, w: nat, n: nat)
    requires w > 0 && n > 0 && p < Pow(w, n)
    ensures p / w < Pow(w, n - 1)
  {
    var t, b := p / w, Pow(w, n - 1);
    assert p == t * w + p % w;
    assert t >= b ==> t * w >= b * w;
  }

  // Nodes.

  ghost predicate NodeOk(nodes: seq<seq<int>>, level: seq<nat>, up: seq<(nat, nat)>, w: nat, n: nat)
    requires |nodes| == |level| == |up| && n < |nodes|
  {
    && level[n] > 0 && |nodes[n]| == (if level[n] == 1 then 0 else w)
    && forall i :: 0 <= i < |nodes[n]| ==> ChildOk(nodes[n][i], level, up, n, i)
  }

  /** A child is one level down and knows the entry that points at it, so no two entries share it. */
  ghost predicate ChildOk(c: int, level: seq<nat>, up: seq<(nat, nat)>, n: nat, i: nat)
    requires n < |level| == |up|
  {
    c == -1 || (n < c < |level| && level[c] + 1 == level[n] && up[c] == (n, i))
  }

  ghost predicate Tree(nodes: seq<seq<int>>, level: seq<nat>, up: seq<(nat, nat)>, w: nat, depth: nat) {
    && |nodes| == |level| == |up| > 0 && w > 0 && level[0] == depth
    && forall n :: 0 <= n < |nodes| ==> NodeOk(nodes, level, up, w, n)
  }

  /** The leaf that q leads to from node n, which is at level lvl, or -1. */
  ghost function Reach(nodes: seq<seq<int>>, n: int, q: nat, w: nat, lvl: nat): int
    requires w > 0
    decreases lvl
  {
    if lvl <= 1 || !(0 <= n < |nodes|) then n
    else
      var i := Digit(q, w, lvl - 2);
      if i >= |nodes[n]| then -1 else Reach(nodes, nodes[n][i], q, w, lvl - 1)
  }

  /** Paths that meet came the same way. */
  lemma {:induction false} Meet(nodes: seq<seq<int>>, level: seq<nat>, up: seq<(nat, nat)>, w: nat, depth: nat,
                                a: nat, b: nat, p: nat, q: nat, lvl: nat)
    requires Tree(nodes, level, up, w, depth) && a < |nodes| && b < |nodes| && level[a] == level[b] == lvl
    requires Reach(nodes, a, p, w, lvl) == Reach(nodes, b, q, w, lvl) != -1
    ensures a == b && forall k :: 0 <= k < lvl - 1 ==> Digit(p, w, k) == Digit(q, w, k)
    decreases lvl
  {
    assert NodeOk(nodes, level, up, w, a) && NodeOk(nodes, level, up, w, b);
    if lvl > 1 {
      var i, j := Digit(p, w, lvl - 2), Digit(q, w, lvl - 2);
      var c, d := nodes[a][i], nodes[b][j];
      assert ChildOk(c, level, up, a, i) && ChildOk(d, level, up, b, j);
      Meet(nodes, level, up, w, depth, c, d, p, q, lvl - 1);
    }
  }

  /** A reached leaf is a node of the last level. */
  lemma {:induction false} ReachesLeaf(nodes: seq<seq<int>>, level: seq<nat>, up: seq<(nat, nat)>, w: nat, depth: nat,
                                       n: nat, q: nat, lvl: nat)
    requires Tree(nodes, level, up, w, depth) && n < |nodes| && level[n] == lvl
    ensures var r := Reach(nodes, n, q, w, lvl); r == -1 || (0 <= r < |nodes| && level[r] == 1)
    decreases lvl
  {
    assert NodeOk(nodes, level, up, w, n);
    if lvl > 1 {
      var i := Digit(q, w, lvl - 2);
      var c := nodes[n][i];
      assert ChildOk(c, level, up, n, i);
      if c != -1 {
        ReachesLeaf(nodes, level, up, w, depth, c, q, lvl - 1);
      }
    }
  }

  /** Distinct numbers below the largest one reach distinct leaves. */
  lemma {:induction false} DistinctLeaves(nodes: seq<seq<int>>, level: seq<nat>, up: seq<(nat, nat)>, w: nat,
                                          depth: nat, p: nat, q: nat)
    requires depth > 0 && Tree(nodes, level, up, w, depth) && p < Pow(w, depth - 1) && q < Pow(w, depth - 1)
    requires Reach(nodes, 0, p, w, depth) == Reach(nodes, 0, q, w, depth) != -1
    ensures p == q
  {
    Meet(nodes, level, up, w, depth, 0, 0, p, q, depth);
    SameDigits(p, q, w, depth - 1);
  }

  // Growing.

  /** A new node below an empty entry. */
  function Grown(nodes: seq<seq<int>>, n: nat, i: nat, node: seq<int>): seq<seq<int>>
    requires n < |nodes| && i < |nodes[n]|
  {
    nodes[n := nodes[n][i := |nodes|]] + [node]
  }

  function Empty(w: nat, lvl: nat): seq<int> {
    if lvl == 1 then [] else seq(w, _ => -1)
  }

  lemma GrownTree(nodes: seq<seq<int>>, level: seq<nat>, up: seq<(nat, nat)>, w: nat, depth: nat, n: nat, i: nat)
    requires Tree(nodes, level, up, w, depth) && n < |nodes| && i < |nodes[n]| && level[n] > 1
    ensures Tree(Grown(nodes, n, i, Empty(w, level[n] - 1)), level + [level[n] - 1], up + [(n, i)], w, depth)
  {
    var nodes' := Grown(nodes, n, i, Empty(w, level[n] - 1));
    var level', up' := level + [level[n] - 1], up + [(n, i)];
    forall m | 0 <= m < |nodes'| ensures NodeOk(nodes', level', up', w, m) {
      if m < |nodes| {
        assert NodeOk(nodes, level, up, w, m);
        forall j | 0 <= j < |nodes'[m]| ensures ChildOk(nodes'[m][j], level', up', m, j) {
          assert ChildOk(nodes[m][j], level, up, m, j);
        }
      }
    }
  }

  /** What was reached still is, and only the new leaf can be reached besides. */
  lemma {:induction false} ReachGrown(nodes: seq<seq<int>>, level: seq<nat>, up: seq<(nat, nat)>, w: nat, depth: nat,
                                      n: nat, i: nat, a: nat, q: nat, lvl: nat)
    requires Tree(nodes, level, up, w, depth) && n < |nodes| && i < |nodes[n]| && level[n] > 1 && nodes[n][i] == -1
    requires a < |nodes| && level[a] == lvl
    ensures var r, r' := Reach(nodes, a, q, w, lvl), Reach(Grown(nodes, n, i, Empty(w, level[n] - 1)), a, q, w, lvl);
      r' == r || (r == -1 && r' == |nodes| && level[n] == 2)
    decreases lvl
  {
    var nodes' := Grown(nodes, n, i, Empty(w, level[n] - 1));
    assert NodeOk(nodes, level, up, w, a);
    if lvl > 1 {
      var j := Digit(q, w, lvl - 2);
      var c := nodes[a][j];
      assert ChildOk(c, level, up, a, j);
      if a == n && j == i {
        assert nodes'[a][j] == |nodes| && nodes'[|nodes|] == Empty(w, lvl - 1);
        assert lvl > 2 ==> Reach(nodes', |nodes|, q, w, lvl - 1) == -1;
      } else {
        assert nodes'[a][j] == c;
        if c != -1 {
          ReachGrown(nodes, level, up, w, depth, n, i, c, q, lvl - 1);
        }
      }
    }
  }

  /** The path of q from node a, at level lvl, comes to node n, at level l. */
  ghost predicate Via(nodes: seq<seq<int>>, a: int, q: nat, w: nat, lvl: nat, n: int, l: nat)
    requires w > 0
    decreases lvl
  {
    if lvl <= l then a == n && lvl == l
    else if lvl <= 1 then false
    else
      var i := Digit(q, w, lvl - 2);
      0 <= a < |nodes| && i < |nodes[a]| && Via(nodes, nodes[a][i], q, w, lvl - 1, n, l)
  }

  /** From there on it leads where it leads from there. */
  lemma {:induction false} ViaReach(nodes: seq<seq<int>>, a: int, q: nat, w: nat, lvl: nat, n: int, l: nat)
    requires w > 0 && l > 0 && Via(nodes, a, q, w, lvl, n, l)
    ensures Reach(nodes, a, q, w, lvl) == Reach(nodes, n, q, w, l)
    decreases lvl
  {
    if lvl > l {
      ViaReach(nodes, nodes[a][Digit(q, w, lvl - 2)], q, w, lvl - 1, n, l);
    }
  }

  lemma {:induction false} ViaNext(nodes: seq<seq<int>>, a: int, q: nat, w: nat, lvl: nat, n: int, l: nat)
    requires w > 0 && l > 1 && Via(nodes, a, q, w, lvl, n, l) && 0 <= n < |nodes| && Digit(q, w, l - 2) < |nodes[n]|
    ensures Via(nodes, a, q, w, lvl, nodes[n][Digit(q, w, l - 2)], l - 1)
    decreases lvl
  {
    if lvl > l {
      ViaNext(nodes, nodes[a][Digit(q, w, lvl - 2)], q, w, lvl - 1, n, l);
    }
  }

  /** A new node below n does not change the path to n. */
  lemma {:induction false} ViaGrown(nodes: seq<seq<int>>, level: seq<nat>, up: seq<(nat, nat)>, w: nat, depth: nat,
                                    a: int, q: nat, lvl: nat, n: nat, i: nat, node: seq<int>)
    requires Tree(nodes, level, up, w, depth) && n < |nodes| && i < |nodes[n]| && 0 <= a < |nodes| && level[a] == lvl
    requires Via(nodes, a, q, w, lvl, n, level[n])
    ensures Via(Grown(nodes, n, i, node), a, q, w, lvl, n, level[n])
    decreases lvl
  {
    if lvl > level[n] {
      assert NodeOk(nodes, level, up, w, a);
      var j := Digit(q, w, lvl - 2);
      var c := nodes[a][j];
      assert ChildOk(c, level, up, a, j);
      assert Grown(nodes, n, i, node)[a] == nodes[a];
      if c != -1 {
        ViaGrown(nodes, level, up, w, depth, c, q, lvl - 1, n, i, node);
      }
    }
  }

  class Trie {
    const depth: nat
    const width: nat
    const leaf: nat
    var nodes: seq<seq<int>>
    ghost var level: seq<nat>
    ghost var up: seq<(nat, nat)>

    ghost predicate Valid()
      reads this
    {
      depth > 0 && leaf > 0 && Tree(nodes, level, up, width, depth)
    }

    /** ert_alloc. */
    constructor (depth: nat, width: nat, leaf: nat)
      requires depth > 0 && width > 0 && leaf > 0
      ensures Valid() && this.depth == depth && this.width == width && this.leaf == leaf && |nodes| == 1
      ensures forall q: nat :: depth > 1 ==> Reach(nodes, 0, q, width, depth) == -1
    {
      this.depth, this.width, this.leaf := depth, width, leaf;
      nodes, level, up := [Empty(width, depth)], [depth], [(0, 0)];
    }

    function MaxId(): nat
      requires depth > 0
    {
      leaf * Pow(width, depth - 1)
    }

    /** The entry of a node at level lvl that an identifier selects, by shifting and masking. */
    method Entry(id: nat, lvl: nat) returns (k: nat)
      requires lvl > 1 && leaf > 0 && width > 0
      ensures k == Digit(id / leaf, width, lvl - 2)
    {
      PowPositive(width, lvl - 2);
      DigitIsMasked(id / leaf, width, lvl - 2);
      DivDiv(id, leaf, Pow(width, lvl - 2));
      k := id / (leaf * Pow(width, lvl - 2)) % width;
    }

    /** The leaf of an identifier, or -1 if there is none yet. */
    ghost function LeafOf(id: nat): int
      requires leaf > 0 && width > 0
      reads this
    {
      Reach(nodes, 0, id / leaf, width, depth)
    }

    /** __ert_lookup down to the slots: the leaf, or -1, and the slot in it. */
    method Lookup(id: nat) returns (node: int, slot: nat)
      requires Valid()
      ensures node == LeafOf(id) && slot == id % leaf
    {
      node := 0;
      var i := 0;
      while i < depth - 1
        invariant 0 <= i <= depth - 1 && -1 <= node < |nodes|
        invariant Reach(nodes, 0, id / leaf, width, depth) ==
                  if node == -1 then -1 else Reach(nodes, node, id / leaf, width, depth - i)
        invariant node != -1 ==> level[node] == depth - i
      {
        if node == -1 {
          return -1, id % leaf;
        }
        assert NodeOk(nodes, level, up, width, node);
        var k := Entry(id, depth - i);
        assert ChildOk(nodes[node][k], level, up, node, k);
        node := nodes[node][k];
        i := i + 1;
      }
      slot := id % leaf;
    }

    /** An identifier below the largest one: its leaf has a number. */
    ghost predicate Numbered(id: nat)
      requires depth > 0 && leaf > 0
    {
      id / leaf < Pow(width, depth - 1)
    }

    lemma LeafNumber(id: nat)
      requires Valid() && id < MaxId()
      ensures Numbered(id)
    {
      DivBelow(id, leaf, Pow(width, depth - 1));
    }

    lemma {:induction false} SameLeaf(p: nat, q: nat)
      requires Valid() && p < Pow(width, depth - 1) && q < Pow(width, depth - 1)
      requires Reach(nodes, 0, p, width, depth) == Reach(nodes, 0, q, width, depth) != -1
      ensures p == q
    {
      DistinctLeaves(nodes, level, up, width, depth, p, q);
    }

    /** Distinct identifiers reach distinct slots. */
    lemma DistinctSlots(a: nat, b: nat)
      requires Valid() && Numbered(a) && Numbered(b) && LeafOf(a) == LeafOf(b) != -1
      ensures a / leaf == b / leaf
      ensures a % leaf == b % leaf ==> a == b
    {
      SameLeaf(a / leaf, b / leaf);
      if a % leaf == b % leaf {
        SameQuotient(a, b, leaf);
      }
    }

    /** A new, empty node in the entry i of node n. */
    method Hook(n: nat, i: nat, lvl: nat)
      requires Valid() && n < |nodes| && i < |nodes[n]| && nodes[n][i] == -1 && level[n] == lvl > 1
      modifies this
      ensures Valid() && nodes == Grown(old(nodes), n, i, Empty(width, old(level)[n] - 1))
      ensures level == old(level) + [old(level)[n] - 1]
      ensures forall q: nat ::
        Kept(Reach(old(nodes), 0, q, width, depth), Reach(nodes, 0, q, width, depth), |old(nodes)|)
      ensures old(level)[n] > 2 ==> SameReach(old(nodes), nodes, width, depth)
    {
      GrownTree(nodes, level, up, width, depth, n, i);
      forall q: nat
        ensures var r := Reach(Grown(nodes, n, i, Empty(width, level[n] - 1)), 0, q, width, depth);
          Kept(Reach(nodes, 0, q, width, depth), r, |nodes|) && (level[n] > 2 ==> r == Reach(nodes, 0, q, width, depth))
      {
        ReachGrown(nodes, level, up, width, depth, n, i, 0, q, depth);
      }
      nodes := Grown(nodes, n, i, Empty(width, lvl - 1));
      level, up := level + [level[n] - 1], up + [(n, i)];
    }

    /** One level of __ert_expand: the entry of node n on the way to `id`, filled if it was empty. */
    method Descend(id: nat, n: nat, lvl: nat, mem: nat, ghost before: seq<seq<int>>) returns (c: int, left: nat)
      requires Valid() && n < |nodes| && level[n] == lvl > 1 && Via(nodes, 0, id / leaf, width, depth, n, lvl)
      requires SameReach(before, nodes, width, depth) && |before| <= |nodes|
      modifies this
      ensures Valid() && |nodes| == |old(nodes)| + mem - left && left <= mem && old(level) <= level
      ensures if c == -1 then nodes == old(nodes) && mem == 0
              else 0 <= c < |nodes| && level[c] == lvl - 1 && Via(nodes, 0, id / leaf, width, depth, c, lvl - 1)
      ensures lvl > 2 ==> SameReach(before, nodes, width, depth)
      ensures Expanded(before, nodes, id / leaf, width, depth)
      ensures left + 1 >= mem && (old(LeafOf(id)) != -1 ==> left == mem && nodes == old(nodes) && c != -1)
    {
      ghost var q := id / leaf;
      ViaReach(nodes, 0, q, width, depth, n, lvl);
      assert NodeOk(nodes, level, up, width, n);
      var k := Entry(id, lvl);
      assert ChildOk(nodes[n][k], level, up, n, k);
      left := mem;
      if nodes[n][k] == -1 {
        if left == 0 {
          return -1, left;
        }
        ViaGrown(nodes, level, up, width, depth, 0, q, depth, n, k, Empty(width, lvl - 1));
        Hook(n, k, lvl);
        left := left - 1;
      }
      c := nodes[n][k];
      ViaNext(nodes, 0, q, width, depth, n, lvl);
      ViaReach(nodes, 0, q, width, depth, c, lvl - 1);
    }

    /** The walk of __ert_expand. */
    method Path(id: nat, dlimit: nat, mem: nat) returns (r: int, left: nat)
      requires Valid() && 1 <= dlimit <= depth
      modifies this
      ensures Valid() && (r == 0 || (r == -1 && left == 0)) && left <= mem && |nodes| == |old(nodes)| + mem - left
      ensures old(level) <= level
      ensures Expanded(old(nodes), nodes, id / leaf, width, depth)
      ensures r == 0 && dlimit == depth ==> LeafOf(id) != -1
      ensures (mem >= dlimit - 1 ==> r == 0) && (old(LeafOf(id)) != -1 ==> r == 0 && left == mem)
    {
      var n: int, i := 0, 0;
      left, r := mem, 0;
      while i < dlimit - 1
        invariant 0 <= i <= dlimit - 1 && Valid() && 0 <= n < |nodes| && level[n] == depth - i
        invariant left <= mem && |nodes| == |old(nodes)| + mem - left && old(level) <= level
        invariant Via(nodes, 0, id / leaf, width, depth, n, depth - i)
        invariant i < depth - 1 ==> SameReach(old(nodes), nodes, width, depth)
        invariant Expanded(old(nodes), nodes, id / leaf, width, depth)
        invariant left + i >= mem && (old(LeafOf(id)) != -1 ==> left == mem && nodes == old(nodes))
      {
        n, left := Descend(id, n, depth - i, left, old(nodes));
        if n == -1 {
          return -1, left;
        }
        i := i + 1;
      }
      ViaReach(nodes, 0, id / leaf, width, depth, n, depth - i);
    }

    /** __ert_expand down to level dlimit, with memory for `mem` nodes: -1 if that is not enough. */
    method Expand(id: nat, dlimit: nat, mem: nat) returns (r: int, left: nat)
      requires Valid() && id < MaxId() && 1 <= dlimit <= depth
      modifies this
      ensures Valid() && (r == 0 || (r == -1 && left == 0)) && left <= mem && |nodes| == |old(nodes)| + mem - left
      ensures old(level) <= level
      ensures forall b: nat :: b < MaxId() && b / leaf != id / leaf ==> LeafOf(b) == old(LeafOf(b))
      ensures LeafOf(id) == old(LeafOf(id)) || (old(LeafOf(id)) == -1 && LeafOf(id) == |nodes| - 1 >= |old(nodes)|)
      ensures r == 0 && dlimit == depth ==> LeafOf(id) != -1
      ensures (mem >= dlimit - 1 ==> r == 0) && (old(LeafOf(id)) != -1 ==> r == 0 && left == mem)
    {
      r, left := Path(id, dlimit, mem);
      forall b: nat | b < MaxId() && b / leaf != id / leaf ensures LeafOf(b) == old(LeafOf(b)) {
        LeafNumber(id);
        LeafNumber(b);
        OtherStays(old(nodes), id, b);
      }
    }

    /** Identifiers of other leaves never reach the one of `id`. */
    lemma {:induction false} OtherStays(before: seq<seq<int>>, id: nat, b: nat)
      requires Valid() && Numbered(id) && Numbered(b) && b / leaf != id / leaf
      requires Expanded(before, nodes, id / leaf, width, depth)
      ensures LeafOf(b) == Reach(before, 0, b / leaf, width, depth)
    {
      assert Others(before, nodes, b / leaf, id / leaf, width, depth);
      if LeafOf(b) == LeafOf(id) != -1 {
        DistinctSlots(b, id);
      }
    }
  }

  ghost predicate SameReach(before: seq<seq<int>>, after: seq<seq<int>>, w: nat, depth: nat)
    requires w > 0
  {
    forall p: nat :: Reach(after, 0, p, w, depth) == Reach(before, 0, p, w, depth)
  }

  /** At most one new leaf, the last node, and q leads to it. */
  ghost predicate Expanded(before: seq<seq<int>>, after: seq<seq<int>>, q: nat, w: nat, depth: nat)
    requires w > 0
  {
    && (forall p: nat :: Others(before, after, p, q, w, depth))
    && (Reach(after, 0, q, w, depth) == Reach(before, 0, q, w, depth)
        || (Reach(before, 0, q, w, depth) == -1 && Reach(after, 0, q, w, depth) == |after| - 1 >= |before|))
  }

  /** What was reached still is; what was not may now reach the node `fresh`. */
  ghost predicate Kept(before: int, after: int, node: int) {
    after == before || (before == -1 && after == node)
  }

  /** Another number reaches what it reached before, or what q reaches. */
  ghost predicate Others(before: seq<seq<int>>, after: seq<seq<int>>, p: nat, q: nat, w: nat, depth: nat)
    requires w > 0
  {
    || Reach(after, 0, p, w, depth) == Reach(before, 0, p, w, depth)
    || Reach(after, 0, p, w, depth) == Reach(after, 0, q, w, depth) != -1
  }
}
