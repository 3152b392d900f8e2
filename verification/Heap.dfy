/**
  The indexed binary heap: a 1-based array of elements in which the update callback
  keeps, inside every element, the index it currently occupies (0 once it has left).

  Elements are small naturals (the identity of the C object behind a `void *`).  The
  comparator reads fields of the elements that change over time, so every operation takes
  the comparator as it stands at the moment of the call.
 */
module Heaps {

  /** `c(x, y)` answers the question of the C comparator: is x at least as high as y? */
  type Cmp = (nat, nat) -> bool

  ghost predicate Total(c: Cmp) {
    forall x: nat, y: nat :: c(x, y) || c(y, x)
  }

  ghost predicate Transitive(c: Cmp) {
    forall x: nat, y: nat, z: nat :: c(x, y) && c(y, z) ==> c(x, z)
  }

  ghost predicate TotalPreorder(c: Cmp) {
    Total(c) && Transitive(c)
  }

  /** The two comparators can differ only where x takes part. */
  ghost predicate AgreeExcept(c0: Cmp, c: Cmp, x: nat) {
    forall y: nat, z: nat :: y != x && z != x ==> c0(y, z) == c(y, z)
  }

  class Heap {
    const maxSz: nat
    const data: array<nat>
    var e: nat
    /** What the update callback has written into each element. */
    var pos: seq<nat>

    ghost predicate Valid()
      reads this, data
    {
      && data.Length == maxSz
      && 1 <= e <= maxSz
      && (forall i :: 1 <= i < e ==> data[i] < |pos| && pos[data[i]] == i)
      && (forall x :: 0 <= x < |pos| && pos[x] != 0 ==> pos[x] < e && data[pos[x]] == x)
    }

    ghost predicate Ordered(c: Cmp)
      requires Valid()
      reads this, data
    {
      forall i :: 2 <= i < e ==> c(data[i / 2], data[i])
    }

    /** Ordered, but for the links between position k and its neighbours. */
    ghost predicate OrderedAround(c: Cmp, k: nat)
      requires Valid()
      reads this, data
    {
      && (forall i :: 2 <= i < e && i != k && i / 2 != k ==> c(data[i / 2], data[i]))
      && (forall i :: 4 <= i < e && i / 2 == k ==> c(data[k / 2], data[i]))
    }

    /** Ordered, but for the links between position k and its children. */
    ghost predicate OrderedAbove(c: Cmp, k: nat)
      requires Valid()
      reads this, data
    {
      && (forall i :: 2 <= i < e && i / 2 != k ==> c(data[i / 2], data[i]))
      && (forall i :: 4 <= i < e && i / 2 == k ==> c(data[k / 2], data[i]))
    }

    /** The elements on the heap. */
    ghost function Elems(): set<nat>
      reads this
    {
      set x: nat | x < |pos| && pos[x] != 0
    }

    /** Adding one to the requested size makes room for the unused slot 0. */
    constructor (size: nat, universe: nat)
      ensures Valid() && fresh(data)
      ensures maxSz == size + 1 && e == 1 && |pos| == universe && Elems() == {}
    {
      maxSz := size + 1;
      data := new nat[size + 1];
      e := 1;
      pos := seq(universe, i => 0);
    }

    method SwapEntries(a: nat, b: nat)
      requires Valid() && 1 <= a < e && 1 <= b < e
      modifies this`pos, data
      ensures Valid() && Elems() == old(Elems()) && |pos| == old(|pos|)
      ensures data[a] == old(data[b]) && data[b] == old(data[a])
      ensures forall i :: 0 <= i < data.Length && i != a && i != b ==> data[i] == old(data[i])
    {
      var t := data[a];
      data[a] := data[b];
      data[b] := t;
      pos := pos[data[a] := a];
      pos := pos[data[b] := b];
    }

    /** The child of r to descend to. */
    method HigherChild(c: Cmp, r: nat) returns (n: nat)
      requires Valid() && Total(c) && 1 <= r <= (e - 1) / 2
      ensures n / 2 == r && 2 <= n < e
      ensures forall i :: 2 <= i < e && i / 2 == r ==> c(data[n], data[i])
    {
      if 2 * r + 1 > e - 1 {
        n := 2 * r;
      } else if c(data[2 * r], data[2 * r + 1]) {
        n := 2 * r;
      } else {
        n := 2 * r + 1;
      }
      assert forall i :: 2 <= i < e && i / 2 == r ==> i == 2 * r || i == 2 * r + 1;
    }

    /** One exchange on the way down. */
    method Sink(c: Cmp, r: nat, n: nat)
      requires Valid() && 1 <= r && n / 2 == r && 2 <= n < e
      requires OrderedAbove(c, r) && c(data[n], data[r])
      requires forall i :: 2 <= i < e && i / 2 == r ==> c(data[n], data[i])
      modifies this`pos, data
      ensures Valid() && Elems() == old(Elems()) && |pos| == old(|pos|)
      ensures OrderedAbove(c, n)
    {
      SwapEntries(n, r);
      forall i | 2 <= i < e && i / 2 != n ensures c(data[i / 2], data[i]) {
        if i == r {
          assert old(c(data[r / 2], data[n]));
        } else if i / 2 == r {
          assert old(c(data[n], data[i]));
        } else {
          assert old(c(data[i / 2], data[i]));
        }
      }
      forall i | 4 <= i < e && i / 2 == n ensures c(data[n / 2], data[i]) {
        assert old(c(data[i / 2], data[i]));
      }
    }

    method SwapDown(c: Cmp, k: nat) returns (r: nat)
      requires Valid() && TotalPreorder(c) && 1 <= k <= e
      requires OrderedAbove(c, k)
      modifies this`pos, data
      ensures Valid() && Ordered(c) && Elems() == old(Elems()) && |pos| == old(|pos|)
    {
      r := k;
      var l := e - 1;
      while r <= l / 2
        invariant 1 <= r <= e
        invariant Valid() && Elems() == old(Elems()) && |pos| == old(|pos|)
        invariant OrderedAbove(c, r)
        decreases e - r
      {
        var n := HigherChild(c, r);
        if c(data[r], data[n]) {
          assert forall i :: 2 <= i < e && i / 2 == r ==> c(data[r], data[n]) && c(data[n], data[i]);
          return;
        }
        Sink(c, r, n);
        r := n;
      }
      assert forall i :: 2 <= i < e ==> i / 2 <= l / 2;
    }

    method SwapUp(c: Cmp, k: nat) returns (r: nat)
      requires Valid() && TotalPreorder(c) && 1 <= k < e
      requires OrderedAround(c, k)
      modifies this`pos, data
      ensures Valid() && Elems() == old(Elems()) && |pos| == old(|pos|)
      ensures 1 <= r < e && OrderedAbove(c, r)
    {
      r := k;
      while r > 1
        invariant 1 <= r < e
        invariant Valid() && Elems() == old(Elems()) && |pos| == old(|pos|)
        invariant OrderedAround(c, r)
      {
        var p := r / 2;
        if c(data[p], data[r]) {
          return;
        }
        SwapEntries(p, r);
        r := p;
      }
    }

    method Heapify(c: Cmp, k: nat) returns (r: nat)
      requires Valid() && TotalPreorder(c) && 1 <= k < e
      requires OrderedAround(c, k)
      modifies this`pos, data
      ensures Valid() && Ordered(c) && Elems() == old(Elems()) && |pos| == old(|pos|)
    {
      r := SwapUp(c, k);
      r := SwapDown(c, r);
    }

    method Add(c: Cmp, x: nat) returns (ok: bool)
      requires Valid() && TotalPreorder(c) && Ordered(c)
      requires x < |pos| && x !in Elems()
      modifies this`e, this`pos, data
      ensures Valid() && Ordered(c) && |pos| == old(|pos|)
      ensures ok == (old(e) < maxSz)
      ensures e == if ok then old(e) + 1 else old(e)
      ensures Elems() == if ok then old(Elems()) + {x} else old(Elems())
    {
      if e == maxSz {
        return false;
      }
      var k := e;
      data[k] := x;
      pos := pos[x := k];
      e := e + 1;
      assert Elems() == old(Elems()) + {x};
      k := Heapify(c, k);
      return true;
    }

    /** In an ordered heap the first entry is at least as high as every other. */
    lemma TopIsHighest(c: Cmp, i: nat)
      requires Valid() && TotalPreorder(c) && Ordered(c) && 1 <= i < e
      ensures c(data[1], data[i])
    {
      if i >= 2 {
        TopIsHighest(c, i / 2);
      }
    }

    /** In an ordered heap the parent of k is at least as high as the children of k. */
    lemma SkipLevel(c: Cmp, k: nat)
      requires Valid() && Transitive(c) && Ordered(c) && 1 <= k < e
      ensures forall i :: 4 <= i < e && i / 2 == k ==> c(data[k / 2], data[i])
    {
      forall i | 4 <= i < e && i / 2 == k ensures c(data[k / 2], data[i]) {
        assert c(data[k / 2], data[k]) && c(data[k], data[i]);
      }
    }

    /** Take the element at k off the heap by moving the last one into its place. */
    method Vacate(k: nat)
      requires Valid() && 1 <= k < e
      modifies this`e, this`pos, data
      ensures Valid() && |pos| == old(|pos|) && e == old(e) - 1
      ensures Elems() == old(Elems()) - {old(data[k])}
      ensures forall i :: 1 <= i < e && i != k ==> data[i] == old(data[i])
    {
      var r := data[k];
      e := e - 1;
      data[k] := data[e];
      pos := pos[data[k] := k];
      // The source records the departure of r before or after these writes; nothing in
      // between reads the field.
      pos := pos[r := 0];
      assert Elems() == old(Elems()) - {r};
    }

    method Highest(c: Cmp) returns (ok: bool, r: nat)
      requires Valid() && TotalPreorder(c) && Ordered(c)
      modifies this`e, this`pos, data
      ensures Valid() && Ordered(c) && |pos| == old(|pos|)
      ensures ok == (old(Elems()) != {}) && ok == (old(e) > 1)
      ensures ok ==> r in old(Elems()) && (forall x :: x in old(Elems()) ==> c(r, x))
      ensures Elems() == if ok then old(Elems()) - {r} else old(Elems())
      ensures e == if ok then old(e) - 1 else old(e)
    {
      if e == 1 {
        return false, 0;
      }
      r := data[1];
      assert r in Elems();
      forall x | x in Elems() ensures c(r, x) {
        TopIsHighest(c, pos[x]);
      }
      Vacate(1);
      var k := SwapDown(c, 1);
      return true, r;
    }

    method Peek(c: Cmp) returns (ok: bool, r: nat)
      requires Valid() && TotalPreorder(c) && Ordered(c)
      ensures ok == (Elems() != {})
      ensures ok ==> r in Elems() && (forall x :: x in Elems() ==> c(r, x))
    {
      if e == 1 {
        return false, 0;
      }
      r := data[1];
      assert r in Elems();
      forall x | x in Elems() ensures c(r, x) {
        TopIsHighest(c, pos[x]);
      }
      return true, r;
    }

    /** The key of the element at k has changed: `c0` is the comparator from before. */
    method Adjust(ghost c0: Cmp, c: Cmp, k: nat)
      requires Valid() && 1 <= k < e
      requires TotalPreorder(c0) && TotalPreorder(c) && AgreeExcept(c0, c, data[k])
      requires Ordered(c0)
      modifies this`pos, data
      ensures Valid() && Ordered(c) && Elems() == old(Elems()) && |pos| == old(|pos|)
    {
      assert OrderedAround(c, k) by {
        SkipLevel(c0, k);
        assert forall i, j :: 1 <= i < e && 1 <= j < e && data[i] == data[j] ==> i == j;
      }
      var r := Heapify(c, k);
    }

    method Remove(c: Cmp, k: nat) returns (r: nat)
      requires Valid() && TotalPreorder(c) && Ordered(c) && 1 <= k < e
      modifies this`e, this`pos, data
      ensures Valid() && Ordered(c) && |pos| == old(|pos|)
      ensures r == old(data[k]) && Elems() == old(Elems()) - {r} && e == old(e) - 1
    {
      r := data[k];
      SkipLevel(c, k);
      Vacate(k);
      if k == e {
        return;
      }
      assert OrderedAround(c, k) by {
        assert forall i :: 2 <= i < e && i != k && i / 2 != k ==> old(c(data[i / 2], data[i]));
        assert forall i :: 4 <= i < e && i / 2 == k ==> old(c(data[k / 2], data[i]));
      }
      var i := Heapify(c, k);
    }
  }
}
