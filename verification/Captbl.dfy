/**
  Capability tables: a trie whose leaves are cache lines of four slots.  The capabilities of a line
  have one size, and a capability occupies one, two or four consecutive identifiers.
 */
module Captbls {
  import opened Tries
  import opened Wrappers

  datatype CapType =
    | Free | Sinv | Sret | Asnd | Arcv | Thd | Comp | Captbl | Pgtbl | Frame | Vm | Quiescence | Tcap | Hw

  /** CAP_SZ_16B, CAP_SZ_32B, CAP_SZ_64B; 3 is CAP_SZ_ERR. */
  function Cap2Sz(t: CapType): nat {
    match t
    case Sret => 0 case Thd => 0 case Tcap => 0
    case Captbl => 1 case Pgtbl => 1 case Hw => 1
    case Sinv => 2 case Comp => 2 case Asnd => 2 case Arcv => 2
    case _ => 3
  }

  /** The slots, and the identifiers, that a capability of a size takes. */
  function Slots(sz: nat): nat {
    if sz == 0 then 1 else if sz == 1 then 2 else 4
  }

  /** The start of the place for a capability of a size that includes slot k: the low bits masked out. */
  function Aligned(k: nat, sz: nat): nat {
    if sz == 0 then k else if sz == 1 then k - k % 2 else k - k % 4
  }

  /** A cache line: which slots start an active capability, the size of them all, and each slot's type. */
  datatype Line = Line(amap: seq<bool>, size: nat, ro: bool, types: seq<CapType>)

  ghost predicate LineOk(l: Line) {
    && |l.amap| == |l.types| == 4 && l.size <= 2
    && forall k :: 0 <= k < 4 && l.amap[k] ==> Aligned(k, l.size) == k && Cap2Sz(l.types[k]) == l.size
  }

  /** The start of the capability that slot k belongs to, or -1. */
  ghost function Find(l: Line, k: nat): int
    requires LineOk(l) && k < 4
  {
    if l.amap[Aligned(k, l.size)] then Aligned(k, l.size) else -1
  }

  /** Exactly the active capability whose slots include k; so those of a line do not overlap. */
  lemma FindMeans(l: Line, k: nat, s: nat)
    requires LineOk(l) && k < 4 && s < 4
    ensures Find(l, k) == s <==> l.amap[s] && s <= k < s + Slots(l.size)
  {
    assert l.amap[s] ==> Aligned(s, l.size) == s;
  }

  /** __captbl_getleaf, with its fast path for the size of invocation capabilities. */
  method GetLeaf(l: Line, k: nat) returns (r: int)
    requires LineOk(l) && k < 4
    ensures r == Find(l, k)
  {
    if l.size == Cap2Sz(Sinv) {
      var c := Aligned(k, Cap2Sz(Sinv));
      if l.amap[c] {
        return c;
      }
    }
    var c := Aligned(k, l.size);
    if l.amap[c] {
      r := c;
    } else {
      r := -1;
    }
  }

  predicate Unused(l: Line) {
    forall k :: 0 <= k < |l.amap| ==> !l.amap[k]
  }

  function Activated(l: Line, k: nat, t: CapType): Line
    requires k < |l.amap| && k < |l.types|
  {
    l.(amap := l.amap[k := true], size := Cap2Sz(t), types := l.types[k := t])
  }

  function Cleared(l: Line, k: nat): Line
    requires 0 < |l.types| && k < |l.amap| && k < |l.types|
  {
    var l' := l.(amap := l.amap[k := false], types := l.types[k := Free]);
    if Unused(l') then l'.(types := l'.types[0 := Free]) else l'
  }

  /** Adding a capability changes what its own slots find, and nothing else. */
  lemma ActivatedFinds(l: Line, k: nat, t: CapType)
    requires LineOk(l) && k < 4 && Cap2Sz(t) <= 2 && Aligned(k, Cap2Sz(t)) == k && !l.amap[k]
    requires Unused(l) || l.size == Cap2Sz(t)
    ensures var l' := Activated(l, k, t);
      && LineOk(l')
      && forall j :: 0 <= j < 4 ==> Find(l', j) == if k <= j < k + Slots(Cap2Sz(t)) then k else Find(l, j)
  {
    var l' := Activated(l, k, t);
    assert LineOk(l');
    forall j | 0 <= j < 4 ensures Find(l', j) == if k <= j < k + Slots(Cap2Sz(t)) then k else Find(l, j) {
      FindMeans(l', j, k);
      FindMeans(l', j, Aligned(j, l'.size));
    }
  }

  lemma ClearedFinds(l: Line, k: nat)
    requires LineOk(l) && k < 4 && l.amap[k]
    ensures var l' := Cleared(l, k);
      && LineOk(l')
      && forall j :: 0 <= j < 4 ==> Find(l', j) == if k <= j < k + Slots(l.size) then -1 else Find(l, j)
  {
    var l' := Cleared(l, k);
    assert LineOk(l');
    forall j | 0 <= j < 4 ensures Find(l', j) == if k <= j < k + Slots(l.size) then -1 else Find(l, j) {
      FindMeans(l, j, k);
      FindMeans(l, j, Aligned(j, l.size));
    }
  }

  /** A capability and the first of its identifiers. */
  datatype Entry = Entry(start: nat, typ: CapType)

  /** The errors of the table; Deeper is captbl_expand's answer that more memory is needed. */
  datatype Error = Ok | Inval | Perm | Exist | Deeper

  class CapTable {
    const trie: Trie
    /** The lines of each leaf of the trie. */
    var lines: seq<seq<Line>>

    ghost predicate Valid()
      reads this, trie
    {
      && trie.Valid() && trie.depth == 2 && trie.width == 512 && trie.leaf == 128 && |lines| == |trie.nodes|
      && forall n :: 0 <= n < |lines| && trie.level[n] == 1 ==> LeafOk(lines[n])
    }

    /** captbl_create: the root and the first leaf. */
    constructor ()
      ensures Valid() && fresh(trie) && forall id: nat :: id < MaxId() ==> At(id) == None
      ensures forall id: nat, typ :: id < 128 && Fits(id, typ) ==> CanAdd(id, typ)
    {
      trie := new Trie(2, 512, 128);
      lines := [[]];
      new;
      var r := Expand(0, 1);
    }

    /** captbl_expand with memory for `mem` leaves.  No lookup changes, as new leaves are empty. */
    method Expand(cap: nat, mem: nat) returns (r: Error)
      requires Valid() && mem <= 1
      modifies this, trie
      ensures Valid() && forall id: nat :: id < MaxId() ==> At(id) == old(At(id))
      ensures r == if cap >= MaxId() then Inval else if old(Leaf(cap)) == -1 then (if mem == 0 then Deeper else Ok)
                   else if mem == 0 then Ok else Exist
      ensures r == Ok ==> Leaf(cap) != -1
      ensures r == Ok && mem == 1 ==> forall id: nat, typ :: id / 128 == cap / 128 && Fits(id, typ) ==> CanAdd(id, typ)
      ensures forall id: nat :: id < MaxId() && old(Leaf(id)) != -1 ==> LineKept(id)
    {
      LeavesInRange();
      if cap >= MaxId() {
        return Inval;
      }
      var ret, left := Grow(cap, mem);
      LeavesInRange();
      forall id: nat | id < MaxId() ensures At(id) == old(At(id)) && (old(Leaf(id)) != -1 ==> LineKept(id)) {
        if old(Leaf(id)) != -1 {
          assert lines[Leaf(id)] == old(lines)[Leaf(id)];
        }
        FreshFinds(id);
      }
      forall id: nat, typ | ret == 0 && mem == 1 && left == 0 && id / 128 == cap / 128 && Fits(id, typ)
        ensures CanAdd(id, typ)
      {
        assert Leaf(id) == Leaf(cap) == |old(lines)|;
        FreshFinds(id);
      }
      if left > 0 {
        return Exist;
      }
      return if ret == 0 then Ok else Deeper;
    }

    /** The trie with the leaf of `cap`, and its lines, all free. */
    method Grow(cap: nat, mem: nat) returns (ret: int, left: nat)
      requires Valid() && mem <= 1 && cap < MaxId()
      modifies this, trie
      ensures Valid() && old(lines) <= lines && (ret == 0 <==> Leaf(cap) != -1) && left <= mem
      ensures forall id: nat :: id < MaxId() ==>
        || Leaf(id) == old(Leaf(id))
        || (id / 128 == cap / 128 && old(Leaf(id)) == -1 && Leaf(id) == |old(lines)| == |lines| - 1)
      ensures |lines| > |old(lines)| ==> lines[|old(lines)|] == FreshLeaf()
      ensures left == if old(Leaf(cap)) == -1 then 0 else mem
      ensures ret == 0 <==> mem == 1 || old(Leaf(cap)) != -1
    {
      MaxIdIsTries();
      LeavesInRange();
      ret, left := trie.Expand(cap, 2, mem);
      forall id: nat | id < MaxId()
        ensures Leaf(id) == old(Leaf(id))
                || (id / 128 == cap / 128 && old(Leaf(id)) == -1 && Leaf(id) == |lines| < |trie.nodes|)
      {
        if id / 128 == cap / 128 {
          assert Leaf(id) == Leaf(cap) == trie.LeafOf(cap);
        } else {
          assert Leaf(id) == trie.LeafOf(id);
        }
      }
      if left < mem {
        lines := lines + [FreshLeaf()];
      }
    }

    /** A capability of the type can start at the identifier. */
    predicate Fits(id: nat, typ: CapType) {
      Cap2Sz(typ) != 3 && Aligned(id % 4, Cap2Sz(typ)) == id % 4
    }

    /** The line of an identifier is what it was. */
    twostate predicate LineKept(id: nat)
      requires old(Valid()) && Valid()
      reads this, trie
    {
      old(Leaf(id)) != -1 && Leaf(id) == old(Leaf(id)) && LineAt(id) == old(LineAt(id))
    }

    /** What lookup finds at an identifier. */
    ghost function At(id: nat): Option<Entry>
      requires Valid()
      reads this, trie
    {
      var n := Leaf(id);
      if n == -1 then None
      else
        ReachesLeaf(trie.nodes, trie.level, trie.up, 512, 2, 0, id / 128, 2);
        InLeaf(lines[n], id)
    }

    ghost function Leaf(id: nat): int
      reads trie
    {
      Reach(trie.nodes, 0, id / 128, 512, 2)
    }

    function MaxId(): nat {
      65536
    }

    lemma LeavesInRange()
      requires Valid()
      ensures forall id: nat :: Leaf(id) == -1 || (0 <= Leaf(id) < |lines| && LeafOk(lines[Leaf(id)]))
    {
      forall id: nat ensures Leaf(id) == -1 || (0 <= Leaf(id) < |lines| && LeafOk(lines[Leaf(id)])) {
        ReachesLeaf(trie.nodes, trie.level, trie.up, 512, 2, 0, id / 128, 2);
      }
    }

    lemma MaxIdIsTries()
      requires Valid()
      ensures trie.MaxId() == MaxId()
    {
      assert Pow(512, 1) == 512 * Pow(512, 0);
    }

    method Slot(cap: nat) returns (n: int)
      requires Valid()
      ensures n == Leaf(cap) && (n == -1 || (0 <= n < |lines| && LeafOk(lines[n])))
    {
      var off;
      n, off := trie.Lookup(cap);
      ReachesLeaf(trie.nodes, trie.level, trie.up, 512, 2, 0, cap / 128, 2);
    }

    /** captbl_lkup, which ignores the high bits of the identifier. */
    method Lookup(cap: nat) returns (r: Option<Entry>)
      requires Valid()
      ensures r == At(cap % MaxId())
    {
      var id := cap % MaxId();
      var n := Slot(id);
      if n == -1 {
        return None;
      }
      var l := lines[n][id % 128 / 4];
      assert LineOk(l);
      var s := GetLeaf(l, id % 4);
      if s == -1 {
        return None;
      }
      return Some(Entry(id - id % 4 + s, l.types[s]));
    }

    /** Replaces one line.  Identifiers of other lines find what they found. */
    method SetLine(cap: nat, n: nat, l: Line)
      requires Valid() && cap < MaxId() && n < |lines| && Leaf(cap) == n && LeafOk(lines[n]) && LineOk(l)
      modifies this`lines
      ensures Valid()
      ensures forall id: nat :: id < MaxId() ==>
        At(id) == if id / 4 == cap / 4 then InLine(l, id) else old(At(id))
      ensures forall id: nat :: id < MaxId() && id / 4 != cap / 4 && Leaf(id) != -1 ==> LineKept(id)
      ensures Leaf(cap) == n && LineAt(cap) == l
    {
      lines := lines[n := lines[n][cap % 128 / 4 := l]];
      MaxIdIsTries();
      forall id: nat | id < MaxId()
        ensures At(id) == if id / 4 == cap / 4 then InLine(l, id) else old(At(id))
        ensures id / 4 != cap / 4 && Leaf(id) != -1 ==> LineKept(id)
      {
        LineOf(id, cap);
        if Leaf(id) == n {
          assert trie.LeafOf(id) == trie.LeafOf(cap);
          trie.LeafNumber(id);
          trie.LeafNumber(cap);
          trie.DistinctSlots(id, cap);
        }
        ReachesLeaf(trie.nodes, trie.level, trie.up, 512, 2, 0, id / 128, 2);
      }
    }

    /** The line of `cap` with the new capability. */
    method Put(cap: nat, n: nat, typ: CapType)
      requires Valid() && CanAdd(cap, typ) && Leaf(cap) == n
      modifies this`lines
      ensures Valid()
      ensures forall id: nat :: id < MaxId() ==>
        At(id) == if cap <= id < cap + Slots(Cap2Sz(typ)) then Some(Entry(cap, typ)) else old(At(id))
      ensures forall id: nat :: id < MaxId() && id / 4 != cap / 4 && Leaf(id) != -1 ==> LineKept(id)
      ensures Leaf(cap) == n && !LineAt(cap).ro
    {
      LeavesInRange();
      var l, k := lines[n][cap % 128 / 4], cap % 4;
      ActivatedFinds(l, k, typ);
      LineFinds(cap, n);
      SetLine(cap, n, Activated(l, k, typ));
      forall id: nat | id < MaxId()
        ensures At(id) == if cap <= id < cap + Slots(Cap2Sz(typ)) then Some(Entry(cap, typ)) else old(At(id))
      {
        ActivatedInLine(l, cap, typ, id);
      }
    }

    /** The identifiers that find a capability are those of its span. */
    lemma Starts(cap: nat, n: nat)
      requires Valid() && Leaf(cap) == n < |lines| && LeafOk(lines[n]) && lines[n][cap % 128 / 4].amap[cap % 4]
      ensures var typ := lines[n][cap % 128 / 4].types[cap % 4];
        && Aligned(cap % 4, Cap2Sz(typ)) == cap % 4
        && forall id: nat :: At(id) == Some(Entry(cap, typ)) <==> cap <= id < cap + Slots(Cap2Sz(typ))
    {
      var l := lines[n][cap % 128 / 4];
      assert LineOk(l);
      LineFinds(cap, n);
      LeavesInRange();
      forall id: nat ensures At(id) == Some(Entry(cap, l.types[cap % 4])) <==> cap <= id < cap + Slots(l.size) {
        if At(id).Some? {
          StartInLine(lines[Leaf(id)][id % 128 / 4], id);
        }
        ClearedInLine(l, cap, id);
        if id / 4 == cap / 4 {
          FindMeans(l, id % 4, cap % 4);
        }
      }
    }

    /** All identifiers of a line are looked up in it. */
    lemma LineFinds(cap: nat, n: nat)
      requires Valid() && Leaf(cap) == n < |lines| && LeafOk(lines[n])
      ensures forall id: nat :: id / 4 == cap / 4 ==> At(id) == InLine(lines[n][cap % 128 / 4], id)
    {
      forall id: nat | id / 4 == cap / 4 ensures At(id) == InLine(lines[n][cap % 128 / 4], id) {
        LineOf(id, cap);
      }
    }

    /** captbl_add.  It succeeds just when the place for the capability exists, is aligned, and is free in
        a line that is empty or holds capabilities of the same size.  Then the identifiers of the
        capability find it, and all others find what they found. */
    method Add(cap: nat, typ: CapType) returns (r: Error)
      requires Valid()
      modifies this`lines
      ensures Valid()
      ensures r == Ok <==> old(CanAdd(cap, typ))
      ensures forall id: nat :: id < MaxId() ==>
        At(id) == if r == Ok && cap <= id < cap + Slots(Cap2Sz(typ)) then Some(Entry(cap, typ)) else old(At(id))
      ensures r == Ok ==> forall id: nat :: cap <= id < cap + Slots(Cap2Sz(typ)) ==> old(At(id)) == None
      ensures r == Ok ==> forall id: nat :: id < MaxId() && id / 4 != cap / 4 && Leaf(id) != -1 ==> LineKept(id)
      ensures r == Ok ==> cap + Slots(Cap2Sz(typ)) <= MaxId() && Leaf(cap) != -1 && !LineAt(cap).ro
      ensures r != Ok ==> lines == old(lines)
    {
      if CanAdd(cap, typ) {
        FreePlace(cap, typ);
      }
      var n;
      r, n := Admit(cap, typ);
      if r == Ok {
        Put(cap, n, typ);
      }
    }

    /** Nothing is found where a capability can be added. */
    lemma FreePlace(cap: nat, typ: CapType)
      requires Valid() && CanAdd(cap, typ)
      ensures cap + Slots(Cap2Sz(typ)) <= MaxId()
      ensures forall id: nat :: cap <= id < cap + Slots(Cap2Sz(typ)) ==> At(id) == None
    {
      LeavesInRange();
      var l := lines[Leaf(cap)][cap % 128 / 4];
      LineFinds(cap, Leaf(cap));
      forall id: nat | cap <= id < cap + Slots(Cap2Sz(typ)) ensures At(id) == None {
        FreeInLine(l, cap, typ, id);
      }
      FreeInLine(l, cap, typ, cap + Slots(Cap2Sz(typ)) - 1);
    }

    /** The checks of captbl_add. */
    method Admit(cap: nat, typ: CapType) returns (r: Error, n: int)
      requires Valid()
      ensures Valid() && (r == Ok <==> CanAdd(cap, typ)) && (r == Ok ==> 0 <= n == Leaf(cap))
    {
      var sz := Cap2Sz(typ);
      if sz == 3 {
        return Inval, -1;
      }
      if cap >= MaxId() {
        return Inval, -1;
      }
      n := Slot(cap);
      if n == -1 {
        return Perm, n;
      }
      var l, k := lines[n][cap % 128 / 4], cap % 4;
      assert LineOk(l);
      if l.ro {
        return Perm, n;
      }
      if l.amap[k] {
        return Exist, n;
      }
      if !Unused(l) && l.size != sz {
        return Exist, n;
      }
      if !HeaderValid(l, k, sz) {
        return Inval, n;
      }
      return Ok, n;
    }

    /** captbl_clear.  It succeeds just when `cap` is the first identifier of a capability of that type in a
        line that can be written.  Then its identifiers find nothing, and all others what they found. */
    method Clear(cap: nat, typ: CapType) returns (r: Error)
      requires Valid()
      modifies this`lines
      ensures Valid()
      ensures r == Ok <==> old(cap < MaxId() && At(cap) == Some(Entry(cap, typ)) && !LineAt(cap).ro)
      ensures forall id: nat :: id < MaxId() ==>
        At(id) == if r == Ok && old(At(id)) == Some(Entry(cap, typ)) then None else old(At(id))
      ensures forall id: nat :: id < MaxId() && id / 4 != cap / 4 && Leaf(id) != -1 ==> LineKept(id)
      ensures r != Ok ==> lines == old(lines)
    {
      if cap >= MaxId() {
        return Inval;
      }
      var n := Slot(cap);
      if n == -1 {
        return Perm;
      }
      var l, k := lines[n][cap % 128 / 4], cap % 4;
      assert LineOk(l);
      var p := GetLeaf(l, k);
      if p != k {
        return Inval;
      }
      if l.types[k] != typ {
        return Inval;
      }
      if l.ro {
        return Perm;
      }
      Erase(cap, n, typ);
      return Ok;
    }

    method Erase(cap: nat, n: nat, ghost typ: CapType)
      requires Valid() && cap < MaxId() && n < |lines| && Leaf(cap) == n && LeafOk(lines[n])
      requires lines[n][cap % 128 / 4].amap[cap % 4] && lines[n][cap % 128 / 4].types[cap % 4] == typ
      modifies this`lines
      ensures Valid()
      ensures forall id: nat :: id < MaxId() ==>
        At(id) == if old(At(id)) == Some(Entry(cap, typ)) then None else old(At(id))
      ensures forall id: nat :: id < MaxId() && id / 4 != cap / 4 && Leaf(id) != -1 ==> LineKept(id)
    {
      var l, k := lines[n][cap % 128 / 4], cap % 4;
      ClearedFinds(l, k);
      LineFinds(cap, n);
      Starts(cap, n);
      SetLine(cap, n, Cleared(l, k));
      forall id: nat | id < MaxId()
        ensures At(id) == if old(At(id)) == Some(Entry(cap, typ)) then None else old(At(id))
      {
        ClearedInLine(l, cap, id);
      }
    }

    ghost predicate CanAdd(cap: nat, typ: CapType)
      requires Valid()
      reads this, trie
    {
      && cap < MaxId() && Leaf(cap) != -1 && Cap2Sz(typ) != 3
      && var l := LineAt(cap); !l.ro && !l.amap[cap % 4] && Aligned(cap % 4, Cap2Sz(typ)) == cap % 4
                               && (Unused(l) || l.size == Cap2Sz(typ))
    }

    ghost function LineAt(cap: nat): (l: Line)
      requires Valid() && Leaf(cap) != -1
      reads this, trie
      ensures LineOk(l)
    {
      ReachesLeaf(trie.nodes, trie.level, trie.up, 512, 2, 0, cap / 128, 2);
      lines[Leaf(cap)][cap % 128 / 4]
    }
  }

  /** __captbl_header_validate of the line with slot k taken as well: the mask of each size. */
  predicate HeaderValid(l: Line, k: nat, sz: nat)
    requires |l.amap| == 4
  {
    var a := l.amap[..];
    forall j :: 0 <= j < 4 && (a[j] || j == k) ==>
      (if sz == 0 then true else if sz == 1 then j == 0 || j == 2 else j == 0)
  }

  lemma ActivatedInLine(l: Line, cap: nat, t: CapType, id: nat)
    requires LineOk(l) && Cap2Sz(t) <= 2 && Aligned(cap % 4, Cap2Sz(t)) == cap % 4 && !l.amap[cap % 4]
    requires Unused(l) || l.size == Cap2Sz(t)
    ensures LineOk(Activated(l, cap % 4, t))
    ensures if id / 4 != cap / 4 then !(cap <= id < cap + Slots(Cap2Sz(t)))
            else InLine(Activated(l, cap % 4, t), id) ==
                 if cap <= id < cap + Slots(Cap2Sz(t)) then Some(Entry(cap, t)) else InLine(l, id)
  {
    ActivatedFinds(l, cap % 4, t);
    if id / 4 == cap / 4 {
      assert id - id % 4 == cap - cap % 4;
      assert cap <= id < cap + Slots(Cap2Sz(t)) <==> cap % 4 <= id % 4 < cap % 4 + Slots(Cap2Sz(t));
    }
  }

  /** The place of a capability that can be added is free, and within its line. */
  lemma FreeInLine(l: Line, cap: nat, t: CapType, id: nat)
    requires LineOk(l) && Cap2Sz(t) <= 2 && Aligned(cap % 4, Cap2Sz(t)) == cap % 4 && !l.amap[cap % 4]
    requires (Unused(l) || l.size == Cap2Sz(t)) && cap <= id < cap + Slots(Cap2Sz(t))
    ensures id / 4 == cap / 4 && InLine(l, id) == None && (cap < 65536 ==> id < 65536)
  {
    var k, e := cap % 4, id - cap;
    assert k + Slots(Cap2Sz(t)) <= 4;
    InOneLine(cap, e);
    assert Aligned(k + e, Cap2Sz(t)) == k;
  }

  lemma InOneLine(cap: nat, e: nat)
    requires cap % 4 + e < 4
    ensures (cap + e) / 4 == cap / 4 && (cap + e) % 4 == cap % 4 + e && (cap < 65536 ==> cap + e < 65536)
  {
    var q := cap / 4;
    assert cap + e == 4 * q + (cap % 4 + e);
  }

  lemma StartInLine(l: Line, id: nat)
    requires LineOk(l) && InLine(l, id).Some?
    ensures InLine(l, id).value.start / 4 == id / 4
  {
  }

  lemma ClearedInLine(l: Line, cap: nat, id: nat)
    requires LineOk(l) && l.amap[cap % 4]
    ensures LineOk(Cleared(l, cap % 4))
    ensures if id / 4 != cap / 4 then !(cap <= id < cap + Slots(l.size))
            else InLine(Cleared(l, cap % 4), id) == if cap <= id < cap + Slots(l.size) then None else InLine(l, id)
  {
    ClearedFinds(l, cap % 4);
    assert Aligned(cap % 4, l.size) == cap % 4;
    if id / 4 == cap / 4 {
      assert cap <= id < cap + Slots(l.size) <==> cap % 4 <= id % 4 < cap % 4 + Slots(l.size);
    }
  }

  /** captbl_init of a leaf. */
  function FreshLeaf(): seq<Line> {
    seq(32, _ => Line([false, false, false, false], 2, false, [Free, Free, Free, Free]))
  }

  lemma FreshFinds(id: nat)
    ensures LeafOk(FreshLeaf()) && InLeaf(FreshLeaf(), id) == None
  {
  }

  /** Identifiers of one line are in one leaf, and at the same place of it. */
  lemma LineOf(a: nat, b: nat)
    ensures a / 4 == b / 4 <==> a / 128 == b / 128 && a % 128 / 4 == b % 128 / 4
    ensures a % 128 % 4 == a % 4
  {
    LineIs(a);
    LineIs(b);
  }

  lemma LineIs(a: nat)
    ensures a / 4 == 32 * (a / 128) + a % 128 / 4 && a % 128 / 4 < 32 && a % 128 % 4 == a % 4
  {
    var q, r := a / 128, a % 128;
    var t, u := r / 4, r % 4;
    assert a == 4 * (32 * q + t) + u;
  }

  ghost predicate LeafOk(ls: seq<Line>) {
    |ls| == 32 && forall j :: 0 <= j < 32 ==> LineOk(ls[j])
  }

  ghost function InLeaf(ls: seq<Line>, id: nat): Option<Entry>
    requires LeafOk(ls)
  {
    InLine(ls[id % 128 / 4], id)
  }

  ghost function InLine(l: Line, id: nat): Option<Entry>
    requires LineOk(l)
  {
    var s := Find(l, id % 4);
    if s == -1 then None else Some(Entry(id - id % 4 + s, l.types[s]))
  }
}
