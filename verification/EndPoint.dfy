/**
  The receive capabilities of one core, kept in a capability table: what each identifier finds, where
  one more can be added, and which can be cleared.
 */
module EndPoints {
  import C = Captbls
  import opened Wrappers

  /** A receive capability: its thread, and how far it is below the root. */
  datatype Arcv = Arcv(thd: nat, depth: nat)

  /** The receive capability at an entry of the table, by its first identifier, or -1. */
  function ArcvIn(e: Option<C.Entry>): int {
    if e.Some? && e.value.typ == C.CapType.Arcv then e.value.start else -1
  }

  /** What the identifiers find are the capabilities, each by its own four identifiers. */
  ghost predicate Agree(found: seq<int>, arcvs: map<int, Arcv>) {
    && |found| == 65536
    && (forall id :: 0 <= id < 65536 ==> found[id] == -1 || found[id] in arcvs)
    && (forall s :: s in arcvs ==> Spans(found, s))
  }

  /** The four identifiers from s on find s. */
  ghost predicate Spans(found: seq<int>, s: int) {
    0 <= s <= |found| - 4 && s == found[s] == found[s + 1] == found[s + 2] == found[s + 3]
  }

  /** The table with the receive capabilities of a core, and what they hold, by first identifier. */
  class ArcvTable {
    const captbl: C.CapTable
    var arcvs: map<int, Arcv>
    /** The receive capability that each identifier finds, or -1. */
    ghost var found: seq<int>
    /** Where a receive capability can be added, and the identifiers in lines that can be written. */
    ghost var room: set<nat>
    ghost var writable: set<nat>

    ghost predicate Valid()
      reads this, captbl, captbl.trie
    {
      Table() && Agree(found, arcvs)
    }

    /** The ghost fields say what the table does. */
    ghost predicate Table()
      reads this`found, this`room, this`writable, captbl, captbl.trie
    {
      && captbl.Valid() && |found| == 65536
      && (forall id: nat {:trigger captbl.At(id)} :: id < 65536 ==> found[id] == ArcvIn(captbl.At(id)))
      && (forall id: nat {:trigger captbl.CanAdd(id, C.CapType.Arcv)} ::
            id in room <==> captbl.CanAdd(id, C.CapType.Arcv))
      && (forall id: nat {:trigger captbl.Leaf(id)} ::
            id in writable <==> id < 65536 && captbl.Leaf(id) != -1 && !captbl.LineAt(id).ro)
    }

    ghost method Record()
      requires captbl.Valid()
      modifies this`found, this`room, this`writable
      ensures Table()
    {
      found := seq(65536,
                   id requires 0 <= id < 65536 && captbl.Valid() reads captbl, captbl.trie => ArcvIn(captbl.At(id)));
      room := set id: nat | id < 65536 && captbl.CanAdd(id, C.CapType.Arcv);
      writable := set id: nat | id < 65536 && captbl.Leaf(id) != -1 && !captbl.LineAt(id).ro;
    }

    /** A table with the capability of the root. */
    constructor (cap: nat, a: Arcv)
      requires cap < 128 && cap % 4 == 0
      ensures Valid() && fresh(captbl) && fresh(captbl.trie) && arcvs == map[cap := a]
      ensures forall id: nat :: id < 128 && id % 4 == 0 && id != cap ==> id in room
    {
      captbl := new C.CapTable();
      arcvs := map[];
      new;
      Record();
      assert forall id: nat :: id < 128 && id % 4 == 0 ==> captbl.Fits(id, C.CapType.Arcv);
      forall id: nat | id < 128 && id % 4 == 0 ensures id in room {
        assert captbl.CanAdd(id, C.CapType.Arcv);
      }
      forall id: nat | id < 65536 ensures found[id] == -1 {
        assert captbl.At(id) == None;
      }
      var ok := Add(cap, a);
      forall id: nat | id < 128 && id % 4 == 0 && id != cap ensures id in room {
        assert id / 4 != cap / 4;
      }
    }

    /** captbl_lkup of a receive capability. */
    method Find(cap: nat) returns (s: int)
      requires Valid()
      ensures Valid() && s == found[cap % 65536] && (s != -1 <==> s in arcvs)
    {
      var e := captbl.Lookup(cap);
      if e.Some? && e.value.typ == C.CapType.Arcv {
        s := e.value.start;
      } else {
        s := -1;
      }
    }

    /** captbl_add of a receive capability. */
    method Add(cap: nat, a: Arcv) returns (ok: bool)
      requires Valid()
      modifies this, captbl
      ensures Valid() && (ok <==> cap in old(room))
      ensures forall id :: id in old(room) && id / 4 != cap / 4 ==> id in room
      ensures if ok then cap !in old(arcvs) && arcvs == old(arcvs)[cap := a] else arcvs == old(arcvs)
    {
      assert captbl.CanAdd(cap, C.CapType.Arcv) <==> cap in room;
      var r := captbl.Add(cap, C.CapType.Arcv);
      ok := r == C.Ok;
      ghost var was := found;
      Record();
      forall id | id in old(room) && id / 4 != cap / 4 ensures id in room {
        assert old(captbl.CanAdd(id, C.CapType.Arcv));
        assert ok ==> captbl.LineKept(id);
        assert captbl.CanAdd(id, C.CapType.Arcv);
      }
      forall id: nat | id < 65536 ensures found[id] == if ok && cap <= id < cap + 4 then cap else was[id] {
        assert captbl.At(id) == if ok && cap <= id < cap + 4 then Some(C.Entry(cap, C.CapType.Arcv))
                                else old(captbl.At(id));
      }
      if ok {
        forall id: nat | cap <= id < cap + 4 ensures was[id] == -1 {
          assert old(captbl.At(id)) == None;
        }
        AgreeAdd(was, arcvs, found, cap, a);
        arcvs := arcvs[cap := a];
      } else {
        assert found == was;
      }
    }

    /** captbl_clear of a receive capability. */
    method Clear(cap: nat) returns (ok: bool)
      requires Valid()
      modifies this, captbl
      ensures Valid() && (ok <==> cap < 65536 && old(found)[cap] == cap && cap in old(writable))
      ensures forall id :: id in old(room) && id / 4 != cap / 4 ==> id in room
      ensures arcvs == if ok then old(arcvs) - {cap} else old(arcvs)
    {
      assert cap < 65536 ==> found[cap] == ArcvIn(captbl.At(cap));
      ghost var n := captbl.Leaf(cap);
      assert cap in writable <==> cap < 65536 && n != -1 && !captbl.LineAt(cap).ro;
      var r := captbl.Clear(cap, C.CapType.Arcv);
      ok := r == C.Ok;
      ghost var was := found;
      Record();
      forall id | id in old(room) && id / 4 != cap / 4 ensures id in room {
        assert old(captbl.CanAdd(id, C.CapType.Arcv));
        assert captbl.LineKept(id);
        assert captbl.CanAdd(id, C.CapType.Arcv);
      }
      forall id: nat | id < 65536 ensures found[id] == if ok && was[id] == cap then -1 else was[id] {
        assert was[id] == ArcvIn(old(captbl.At(id)));
        assert found[id] == ArcvIn(captbl.At(id));
      }
      if ok {
        AgreeClear(was, arcvs, found, cap);
        arcvs := arcvs - {cap};
      } else {
        assert found == was;
      }
    }

    /** captbl_expand keeps every end-point. */
    method Grow(cap: nat, mem: nat)
      requires Valid() && mem <= 1
      modifies this, captbl, captbl.trie
      ensures Valid() && arcvs == old(arcvs) && found == old(found)
    {
      ghost var was := found;
      var _ := captbl.Expand(cap, mem);
      Record();
      forall id: nat | id < 65536 ensures found[id] == was[id] {
        assert captbl.At(id) == old(captbl.At(id));
      }
      assert found == was;
    }

    /** So does adding a capability of another type. */
    method AddOther(cap: nat, typ: C.CapType) returns (r: C.Error)
      requires Valid() && typ != C.CapType.Arcv
      modifies this, captbl
      ensures Valid() && arcvs == old(arcvs) && found == old(found)
    {
      ghost var was := found;
      r := captbl.Add(cap, typ);
      Record();
      forall id: nat | id < 65536 ensures found[id] == was[id] {
        assert was[id] == ArcvIn(old(captbl.At(id)));
        assert found[id] == ArcvIn(captbl.At(id));
      }
      assert found == was;
    }

    /** ... and clearing one. */
    method ClearOther(cap: nat, typ: C.CapType) returns (r: C.Error)
      requires Valid() && typ != C.CapType.Arcv
      modifies this, captbl
      ensures Valid() && arcvs == old(arcvs) && found == old(found)
    {
      ghost var was := found;
      r := captbl.Clear(cap, typ);
      Record();
      forall id: nat | id < 65536 ensures found[id] == was[id] {
        assert was[id] == ArcvIn(old(captbl.At(id)));
        assert found[id] == ArcvIn(captbl.At(id));
      }
      assert found == was;
    }
  }

  lemma AgreeAdd(found: seq<int>, arcvs: map<int, Arcv>, found': seq<int>, cap: nat, a: Arcv)
    requires Agree(found, arcvs) && |found'| == 65536 && cap + 4 <= 65536
    requires forall id: nat :: cap <= id < cap + 4 ==> found[id] == -1
    requires forall id: nat :: id < 65536 ==> found'[id] == if cap <= id < cap + 4 then cap else found[id]
    ensures cap !in arcvs && Agree(found', arcvs[cap := a])
  {
    assert found[cap] == -1;
    forall s | s in arcvs ensures Spans(found', s) {
      assert Spans(found, s);
    }
  }

  lemma AgreeClear(found: seq<int>, arcvs: map<int, Arcv>, found': seq<int>, cap: nat)
    requires Agree(found, arcvs) && |found'| == 65536 && cap in arcvs
    requires forall id: nat :: id < 65536 ==> found'[id] == if found[id] == cap then -1 else found[id]
    ensures Agree(found', arcvs - {cap})
  {
    forall id | 0 <= id < 65536 ensures found'[id] == -1 || found'[id] in arcvs - {cap} {
      assert found[id] == -1 || found[id] in arcvs;
    }
    forall s | s in arcvs - {cap} ensures Spans(found', s) {
      assert Spans(found, s);
    }
  }
}
