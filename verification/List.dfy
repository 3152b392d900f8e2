/**
  The kernel's circular, doubly linked lists.  Nodes are numbered, and a node that is on no list
  points at itself.
 */
module Lists {
  import opened Wrappers

  function After(r: seq<nat>, k: nat): nat
    requires k < |r|
  {
    if k + 1 < |r| then r[k + 1] else r[0]
  }

  function Before(r: seq<nat>, k: nat): nat
    requires k < |r|
  {
    if k > 0 then r[k - 1] else r[|r| - 1]
  }

  ghost predicate Linked(next: seq<nat>, prev: seq<nat>, r: seq<nat>, k: nat)
    requires |next| == |prev| && k < |r|
  {
    r[k] < |next| && next[r[k]] == After(r, k) && prev[r[k]] == Before(r, k)
  }

  /** The nodes of r form one circular list, in this order. */
  ghost predicate Cycle(next: seq<nat>, prev: seq<nat>, r: seq<nat>) {
    |next| == |prev| && |r| > 0 && Distinct(r) && forall k :: 0 <= k < |r| ==> Linked(next, prev, r, k)
  }

  /** Only pointers of nodes in `nodes` differ. */
  ghost predicate OnlyIn(next: seq<nat>, prev: seq<nat>, next': seq<nat>, prev': seq<nat>, nodes: seq<nat>) {
    && |next| == |prev| == |next'| == |prev'|
    && forall x :: 0 <= x < |next| && x !in nodes ==> next'[x] == next[x] && prev'[x] == prev[x]
  }

  /** A list without the changed nodes is still the same list. */
  lemma OtherCycle(next: seq<nat>, prev: seq<nat>, next': seq<nat>, prev': seq<nat>, nodes: seq<nat>, r: seq<nat>)
    requires Cycle(next, prev, r) && OnlyIn(next, prev, next', prev', nodes)
    requires forall k :: 0 <= k < |r| ==> r[k] !in nodes
    ensures Cycle(next', prev', r)
  {
    forall k | 0 <= k < |r| ensures Linked(next', prev', r, k) {
      assert Linked(next, prev, r, k);
    }
  }

  /** r with n after its first k nodes. */
  function Inserted(r: seq<nat>, k: nat, n: nat): seq<nat>
    requires k <= |r|
  {
    r[..k] + [n] + r[k..]
  }

  function Removed(r: seq<nat>, k: nat): seq<nat>
    requires k < |r|
  {
    r[..k] + r[k + 1..]
  }

  lemma InsertBetween(next: seq<nat>, prev: seq<nat>, r: seq<nat>, k: nat, n: nat)
    requires Cycle(next, prev, r) && 0 < k <= |r| && n < |next| && n !in r
    ensures r[k - 1] < |next| && After(r, k - 1) < |next|
    ensures var p, q := r[k - 1], After(r, k - 1);
      var next', prev' := next[n := q][p := n], prev[n := p][q := n];
      Cycle(next', prev', Inserted(r, k, n)) && OnlyIn(next, prev, next', prev', r + [n])
  {
    var p, q, r' := r[k - 1], After(r, k - 1), Inserted(r, k, n);
    assert Linked(next, prev, r, k - 1) && Linked(next, prev, r, if k < |r| then k else 0);
    var next', prev' := next[n := q][p := n], prev[n := p][q := n];
    forall i | 0 <= i < |r'| ensures Linked(next', prev', r', i) {
      if i != k {
        assert Linked(next, prev, r, if i < k then i else i - 1);
      }
    }
  }

  lemma RemoveFrom(next: seq<nat>, prev: seq<nat>, r: seq<nat>, k: nat)
    requires Cycle(next, prev, r) && 0 < k < |r|
    ensures r[k - 1] < |next| && r[k] < |next| && After(r, k) < |next|
    ensures var p, n, q := r[k - 1], r[k], After(r, k);
      var next', prev' := next[p := q][n := n], prev[q := p][n := n];
      Cycle(next', prev', Removed(r, k)) && Cycle(next', prev', [n]) && OnlyIn(next, prev, next', prev', r)
  {
    var p, n, q, r' := r[k - 1], r[k], After(r, k), Removed(r, k);
    assert Linked(next, prev, r, k - 1) && Linked(next, prev, r, k);
    assert Linked(next, prev, r, if k + 1 < |r| then k + 1 else 0);
    var next', prev' := next[p := q][n := n], prev[q := p][n := n];
    forall i | 0 <= i < |r'| ensures Linked(next', prev', r', i) {
      assert Linked(next, prev, r, if i < k then i else i + 1);
    }
  }

  // Several lists at once.

  /** rings[h] are the lists; on[x] says which of them node x is on, -1 meaning none. */
  ghost predicate Family(next: seq<nat>, prev: seq<nat>, rings: seq<seq<nat>>, on: seq<int>) {
    && |next| == |prev| == |on|
    && (forall h {:trigger RingOf(next, prev, rings[h], on, h)} ::
          0 <= h < |rings| ==> RingOf(next, prev, rings[h], on, h))
    && (forall x {:trigger NodeOf(next, prev, rings, on[x], x)} ::
          0 <= x < |on| ==> NodeOf(next, prev, rings, on[x], x))
  }

  ghost predicate RingOf(next: seq<nat>, prev: seq<nat>, r: seq<nat>, on: seq<int>, h: int) {
    Cycle(next, prev, r) && forall x :: x in r ==> x < |on| && on[x] == h
  }

  ghost predicate NodeOf(next: seq<nat>, prev: seq<nat>, rings: seq<seq<nat>>, h: int, x: nat) {
    if h == -1 then Cycle(next, prev, [x]) else 0 <= h < |rings| && x in rings[h]
  }

  /** Changing list h, and where x is, leaves the other lists as they are. */
  lemma FamilyChange(next: seq<nat>, prev: seq<nat>, rings: seq<seq<nat>>, on: seq<int>,
                     h: nat, r: seq<nat>, x: nat, where: int, next': seq<nat>, prev': seq<nat>)
    requires Family(next, prev, rings, on) && h < |rings| && x < |on| && (on[x] == -1 || on[x] == h)
    requires OnlyIn(next, prev, next', prev', rings[h] + [x]) && Cycle(next', prev', r)
    requires forall y :: y in r <==> (y in rings[h] && y != x) || (where == h && y == x)
    requires where == h || (where == -1 && Cycle(next', prev', [x]))
    ensures Family(next', prev', rings[h := r], on[x := where])
  {
    var rings', on' := rings[h := r], on[x := where];
    assert RingOf(next, prev, rings[h], on, h) && NodeOf(next, prev, rings, on[x], x);
    forall i | 0 <= i < |rings| ensures RingOf(next', prev', rings'[i], on', i) {
      assert RingOf(next, prev, rings[i], on, i);
      if i != h {
        OtherCycle(next, prev, next', prev', rings[h] + [x], rings[i]);
      }
    }
    forall y | 0 <= y < |on| ensures NodeOf(next', prev', rings', on'[y], y) {
      assert NodeOf(next, prev, rings, on[y], y);
      if y != x && on[y] == -1 {
        OtherCycle(next, prev, next', prev', rings[h] + [x], [y]);
      }
    }
  }

  lemma InsertedHas(r: seq<nat>, k: nat, n: nat)
    requires k <= |r|
    ensures forall x :: x in Inserted(r, k, n) <==> x in r || x == n
    ensures 0 < k ==> Inserted(r, k, n)[0] == r[0]
  {
    assert r == r[..k] + r[k..];
  }

  lemma RemovedHas(r: seq<nat>, k: nat)
    requires k < |r| && Distinct(r)
    ensures forall x :: x in Removed(r, k) <==> x in r && x != r[k]
    ensures 0 < k ==> Removed(r, k) != [] && Removed(r, k)[0] == r[0]
  {
    assert r == r[..k] + [r[k]] + r[k + 1..];
  }

  /** Every list still starts with its head. */
  ghost predicate SameHeads(rings: seq<seq<nat>>, rings': seq<seq<nat>>) {
    && |rings| == |rings'|
    && forall h :: 0 <= h < |rings| ==> |rings[h]| > 0 && |rings'[h]| > 0 && rings'[h][0] == rings[h][0]
  }

  /** list_node pointers of all nodes; `rings` and `on` say which lists they make up. */
  class Links {
    var next: seq<nat>
    var prev: seq<nat>
    ghost var rings: seq<seq<nat>>
    ghost var on: seq<int>

    ghost predicate Valid()
      reads this
    {
      Family(next, prev, rings, on)
    }

    ghost predicate IsHead(x: nat)
      reads this
    {
      x < |on| && 0 <= on[x] < |rings| && |rings[on[x]]| > 0 && rings[on[x]][0] == x
    }

    constructor ()
      ensures Valid() && next == prev == [] && rings == [] && on == []
    {
      next, prev, rings, on := [], [], [], [];
    }

    /** list_init, of a node not seen before. */
    method Init() returns (n: nat)
      requires Valid()
      modifies this
      ensures Valid() && n == |old(on)| && on == old(on) + [-1] && rings == old(rings)
    {
      FamilyGrows(next, prev, rings, on, rings, -1);
      n := |next|;
      next, prev, on := next + [n], prev + [n], on + [-1];
    }

    /** list_head_init: a node that starts a list of its own. */
    method HeadInit() returns (n: nat)
      requires Valid()
      modifies this
      ensures Valid() && n == |old(on)| && on == old(on) + [|old(rings)|] && rings == old(rings) + [[n]] && IsHead(n)
    {
      FamilyGrows(next, prev, rings, on, rings + [[|next|]], |rings|);
      n := |next|;
      next, prev, rings, on := next + [n], prev + [n], rings + [[n]], on + [|rings|];
    }

    ghost method Position(x: nat) returns (k: nat)
      requires Valid() && x < |on| && on[x] != -1
      ensures 0 <= on[x] < |rings| && Cycle(next, prev, rings[on[x]]) && k < |rings[on[x]]| && rings[on[x]][k] == x
    {
      assert NodeOf(next, prev, rings, on[x], x) && RingOf(next, prev, rings[on[x]], on, on[x]);
      k :| 0 <= k < |rings[on[x]]| && rings[on[x]][k] == x;
    }

    /** What a new node n on list h needs of the pointers. */
    ghost method Insert(h: nat, k: nat, n: nat, next0: seq<nat>, prev0: seq<nat>)
      requires Family(next0, prev0, rings, on) && h < |rings| && 0 < k <= |rings[h]| && n < |on| && on[n] == -1
      requires OnlyIn(next0, prev0, next, prev, rings[h] + [n]) && Cycle(next, prev, Inserted(rings[h], k, n))
      modifies this`rings, this`on
      ensures Valid() && on == old(on)[n := h] && rings == old(rings)[h := Inserted(old(rings)[h], k, n)]
      ensures SameHeads(old(rings), rings)
    {
      assert RingOf(next0, prev0, rings[h], on, h);
      InsertedHas(rings[h], k, n);
      FamilyChange(next0, prev0, rings, on, h, Inserted(rings[h], k, n), n, h, next, prev);
      assert forall i :: 0 <= i < |rings| ==> RingOf(next0, prev0, rings[i], on, i);
      rings, on := rings[h := Inserted(rings[h], k, n)], on[n := h];
    }

    /** The new node comes right before l; before the head is at the end. */
    method AddBefore(l: nat, n: nat) returns (ghost i: nat)
      requires Valid() && l < |on| && on[l] != -1 && n < |on| && on[n] == -1
      modifies this
      ensures Valid() && on == old(on)[n := old(on)[l]] && SameHeads(old(rings), rings)
      ensures var h := old(on)[l];
        && 0 <= h < |old(rings)| && 0 < i <= |old(rings)[h]| && After(old(rings)[h], i - 1) == l
        && rings == old(rings)[h := Inserted(old(rings)[h], i, n)]
      ensures n < |next| && next[n] == l
    {
      ghost var k := Position(l);
      ghost var r, next0, prev0 := rings[on[l]], next, prev;
      i := if k == 0 then |r| else k;
      assert Linked(next, prev, r, k) && RingOf(next, prev, r, on, on[l]) && NodeOf(next, prev, rings, -1, n);
      InsertBetween(next, prev, r, i, n);
      next := next[n := l];
      prev := prev[n := prev[l]];
      next := next[prev[l] := n];
      prev := prev[l := n];
      Insert(on[l], i, n, next0, prev0);
    }

    method AddAfter(l: nat, n: nat, ghost k: nat)
      requires Valid() && l < |on| && 0 <= on[l] < |rings| && n < |on| && on[n] == -1
      requires k < |rings[on[l]]| && rings[on[l]][k] == l
      modifies this
      ensures Valid() && on == old(on)[n := old(on)[l]] && SameHeads(old(rings), rings)
      ensures rings == old(rings)[old(on)[l] := Inserted(old(rings)[old(on)[l]], k + 1, n)]
    {
      ghost var r, next0, prev0 := rings[on[l]], next, prev;
      assert RingOf(next, prev, r, on, on[l]) && Linked(next, prev, r, k) && NodeOf(next, prev, rings, -1, n);
      InsertBetween(next, prev, r, k + 1, n);
      next := next[n := next[l]];
      prev := prev[n := l];
      prev := prev[next[l] := n];
      next := next[l := n];
      Insert(on[l], k + 1, n, next0, prev0);
    }

    /** Add to the end. */
    method Enqueue(head: nat, n: nat)
      requires Valid() && IsHead(head) && n < |on| && on[n] == -1
      modifies this
      ensures Valid() && on == old(on)[n := old(on)[head]] && SameHeads(old(rings), rings)
      ensures rings == old(rings)[old(on)[head] := old(rings)[old(on)[head]] + [n]]
    {
      ghost var r := rings[on[head]];
      assert RingOf(next, prev, r, on, on[head]) && Linked(next, prev, r, 0) && r[|r| - 1] in r;
      AddAfter(prev[head], n, |r| - 1);
      assert Inserted(r, |r|, n) == r + [n];
    }

    ghost method Drop(h: nat, k: nat, n: nat, next0: seq<nat>, prev0: seq<nat>)
      requires Family(next0, prev0, rings, on) && h < |rings| && 0 < k < |rings[h]| && rings[h][k] == n
      requires OnlyIn(next0, prev0, next, prev, rings[h])
      requires Cycle(next, prev, Removed(rings[h], k)) && Cycle(next, prev, [n])
      modifies this`rings, this`on
      ensures Valid() && n < |old(on)| && on == old(on)[n := -1]
      ensures rings == old(rings)[h := Removed(old(rings)[h], k)] && SameHeads(old(rings), rings)
    {
      assert RingOf(next0, prev0, rings[h], on, h) && n in rings[h];
      RemovedHas(rings[h], k);
      FamilyChange(next0, prev0, rings, on, h, Removed(rings[h], k), n, -1, next, prev);
      assert forall i :: 0 <= i < |rings| ==> RingOf(next0, prev0, rings[i], on, i);
      rings, on := rings[h := Removed(rings[h], k)], on[n := -1];
    }

    /** Takes a node off its list, if it is on one.  The head of an empty list stays where it is. */
    method Rem(n: nat) returns (ghost k: nat)
      requires Valid() && n < |on| && (IsHead(n) ==> |rings[on[n]]| == 1)
      modifies this
      ensures Valid() && SameHeads(old(rings), rings)
      ensures if old(IsHead(n)) then on == old(on) else on == old(on)[n := -1]
      ensures k > 0 <==> old(on[n] != -1 && !IsHead(n))
      ensures if k == 0 then rings == old(rings)
              else 0 <= old(on)[n] < |rings| && k < |old(rings)[old(on)[n]]| && old(rings)[old(on)[n]][k] == n
                   && rings == old(rings)[old(on)[n] := Removed(old(rings)[old(on)[n]], k)]
    {
      ghost var h, next0, prev0 := on[n], next, prev;
      k := 0;
      EmptyMeans(n);
      assert forall i :: 0 <= i < |rings| ==> RingOf(next, prev, rings[i], on, i);
      assert NodeOf(next, prev, rings, h, n);
      if h == -1 {
        assert Linked(next, prev, [n], 0);
      } else {
        k := Position(n);
        assert Linked(next, prev, rings[h], k);
        if k > 0 {
          RemoveFrom(next, prev, rings[h], k);
        }
      }
      prev := prev[next[n] := prev[n]];
      next := next[prev[n] := next[n]];
      next, prev := next[n := n], prev[n := n];
      if k > 0 {
        Drop(h, k, n, next0, prev0);
      } else {
        assert next == next0 && prev == prev0;
      }
    }

    /** The node at the start of a list, which leaves it; the head itself if there is none. */
    method Dequeue(head: nat) returns (n: nat)
      requires Valid() && IsHead(head)
      modifies this
      ensures Valid() && SameHeads(old(rings), rings) && n < |old(on)|
      ensures var h, r := old(on)[head], old(rings)[old(on)[head]];
        if |r| == 1 then n == head && on == old(on) && rings == old(rings)
        else n == r[1] && on == old(on)[n := -1] && rings == old(rings)[h := [head] + r[2..]]
    {
      ghost var r := rings[on[head]];
      assert RingOf(next, prev, r, on, on[head]) && Linked(next, prev, r, 0);
      n := next[head];
      assert n in r;
      ghost var k := Rem(n);
      if |r| > 1 {
        FirstRemoved(r, k);
      }
    }

    predicate Empty(l: nat)
      requires l < |next|
      reads this
    {
      next[l] == l
    }

    /** list_empty tells whether a node other than a head is on a list, and whether a head's is empty. */
    lemma EmptyMeans(x: nat)
      requires Valid() && x < |on|
      ensures if IsHead(x) then Empty(x) <==> |rings[on[x]]| == 1 else Empty(x) <==> on[x] == -1
    {
      assert NodeOf(next, prev, rings, on[x], x);
      if on[x] == -1 {
        assert Linked(next, prev, [x], 0);
      } else {
        var r := rings[on[x]];
        assert RingOf(next, prev, r, on, on[x]);
        var k :| 0 <= k < |r| && r[k] == x;
        assert Linked(next, prev, r, k);
      }
    }
  }

  /** The first node after the head leaves its list. */
  lemma FirstRemoved(r: seq<nat>, k: nat)
    requires Distinct(r) && |r| > 1 && k < |r| && r[k] == r[1]
    ensures Removed(r, k) == [r[0]] + r[2..]
  {
  }

  lemma FamilyGrows(next: seq<nat>, prev: seq<nat>, rings: seq<seq<nat>>, on: seq<int>, rings': seq<seq<nat>>, h: int)
    requires Family(next, prev, rings, on)
    requires if h == -1 then rings' == rings else h == |rings| && rings' == rings + [[|next|]]
    ensures Family(next + [|next|], prev + [|next|], rings', on + [h])
  {
    var n := |next|;
    var next', prev', on' := next + [n], prev + [n], on + [h];
    assert Linked(next', prev', [n], 0);
    forall i | 0 <= i < |rings'| ensures RingOf(next', prev', rings'[i], on', i) {
      if i < |rings| {
        assert RingOf(next, prev, rings[i], on, i);
        CycleGrows(next, prev, rings[i], n);
      }
    }
    forall x | 0 <= x < |on'| ensures NodeOf(next', prev', rings', on'[x], x) {
      if x < |on| {
        assert NodeOf(next, prev, rings, on[x], x);
        if on[x] == -1 {
          CycleGrows(next, prev, [x], n);
        }
      }
    }
  }

  lemma CycleGrows(next: seq<nat>, prev: seq<nat>, r: seq<nat>, n: nat)
    requires Cycle(next, prev, r)
    ensures Cycle(next + [n], prev + [n], r)
  {
    forall k | 0 <= k < |r| ensures Linked(next + [n], prev + [n], r, k) {
      assert Linked(next, prev, r, k);
    }
  }
}
