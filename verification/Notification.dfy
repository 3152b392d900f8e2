/**
  Receive end-points of one core and the tree in which they notify each other: every bound thread
  notifies the thread of its parent end-point, up to the root, which notifies itself.
 */
module Notifications {
  import C = Captbls
  import opened EndPoints
  import opened Lists
  import opened Sums

  /** ARCV_NOTIF_DEPTH. */
  const NOTIF_DEPTH: nat := 8

  /** `notif` and `tcap` are -1 for NULL.  `notif` is kept when the thread is unbound. */
  datatype Thread = Thread(bound: bool, refcnt: int, notif: int, rcving: bool, tcap: int)

  /** Of a tcap: its references, and the thread whose end-point it is hooked into, or -1. */
  datatype TcapRef = TcapRef(refcnt: int, ep: int)

  /** TcapAssert is the assertion that a thread to be unbound has a tcap. */
  datatype Error = None | Inval | Busy | NoSlot | NotCleared | TcapAssert

  /** Thread t and the depth of its end-point fit those of the thread it notifies. */
  ghost predicate NodeOk(ts: seq<Thread>, cs: map<int, Arcv>, at: seq<int>, t: nat)
    requires t < |ts| == |at|
  {
    var i, p := at[t], ts[t].notif;
    if !ts[t].bound then i == -1
    else
      && i in cs && cs[i].thd == t && cs[i].depth < NOTIF_DEPTH && 0 <= p < |ts|
      && if p == t then t == 0 && cs[i].depth == 0
         else ts[p].bound && at[p] in cs && cs[i].depth == cs[at[p]].depth + 1
  }

  /** at[t] is the capability of a bound thread, and there is no other. */
  ghost predicate Tree(ts: seq<Thread>, cs: map<int, Arcv>, at: seq<int>) {
    && |at| == |ts| > 0 && ts[0].bound && ts[0].notif == 0
    && (forall t :: 0 <= t < |ts| ==> NodeOk(ts, cs, at, t))
    && (forall i :: i in cs ==> 0 <= i && cs[i].thd < |ts| && at[cs[i].thd] == i)
  }

  function Notifies(u: Thread, t: nat): int {
    if u.bound && u.notif == t then 1 else 0
  }

  function Notifiers(ts: seq<Thread>, t: nat): seq<int> {
    seq(|ts|, u requires 0 <= u < |ts| => Notifies(ts[u], t))
  }

  /** A thread's count of references is the number of bound threads that notify it. */
  ghost predicate Counted(ts: seq<Thread>) {
    && (forall t :: 0 <= t < |ts| ==> CountOk(ts, t))
    && (forall t :: 0 <= t < |ts| && ts[t].bound ==> 0 <= ts[t].notif < |ts|)
  }

  ghost predicate CountOk(ts: seq<Thread>, t: nat)
    requires t < |ts|
  {
    ts[t].refcnt == Sum(Notifiers(ts, t))
  }

  /** The thread k notifications up from t. */
  ghost function Ancestor(ts: seq<Thread>, t: int, k: nat): int
    decreases k
  {
    if k == 0 then t
    else if 0 <= t < |ts| then Ancestor(ts, ts[t].notif, k - 1)
    else -1
  }

  function HoldsTcap(u: Thread, k: nat): int {
    if u.tcap == k then 1 else 0
  }

  function Holders(ts: seq<Thread>, k: nat): seq<int> {
    seq(|ts|, u requires 0 <= u < |ts| => HoldsTcap(ts[u], k))
  }

  /** A tcap has a reference for its capability and one for each thread bound with it. */
  ghost predicate Held(ts: seq<Thread>, tcs: seq<TcapRef>) {
    && (forall k :: 0 <= k < |tcs| ==> HeldOk(ts, tcs, k))
    && (forall t :: 0 <= t < |ts| ==> -1 <= ts[t].tcap < |tcs| && (ts[t].bound <==> ts[t].tcap != -1))
  }

  ghost predicate HeldOk(ts: seq<Thread>, tcs: seq<TcapRef>, k: nat)
    requires k < |tcs|
  {
    tcs[k].refcnt == 1 + Sum(Holders(ts, k))
  }

  lemma HoldersChange(ts: seq<Thread>, u: nat, x: Thread, k: nat)
    requires u < |ts|
    ensures Sum(Holders(ts[u := x], k)) == Sum(Holders(ts, k)) - HoldsTcap(ts[u], k) + HoldsTcap(x, k)
  {
    SumUpdate(Holders(ts, k), u, HoldsTcap(x, k));
    assert Holders(ts[u := x], k) == Holders(ts, k)[u := HoldsTcap(x, k)];
  }

  /** tcap_ref_take and tcap_promote: the tcap is hooked into the first end-point that uses it. */
  function Hook(tcs: seq<TcapRef>, k: nat, t: nat): seq<TcapRef>
    requires k < |tcs|
  {
    tcs[k := TcapRef(tcs[k].refcnt + 1, if tcs[k].ep == -1 then t else tcs[k].ep)]
  }

  /** ... and hooked out of it by any end-point that stops to use it. */
  function Unhook(tcs: seq<TcapRef>, k: nat): seq<TcapRef>
    requires k < |tcs|
  {
    tcs[k := TcapRef(tcs[k].refcnt - 1, -1)]
  }

  lemma BindHeld(ts: seq<Thread>, tcs: seq<TcapRef>, t: nat, p: nat, k: nat)
    requires Held(ts, tcs) && t < |ts| && p < |ts| && !ts[t].bound && k < |tcs|
    ensures Held(Bind(ts, t, p, k), Hook(tcs, k, t))
  {
    var a := ts[t := ts[t].(notif := p)];
    var b := Take(a, p);
    forall j | 0 <= j < |tcs| ensures HeldOk(Bind(ts, t, p, k), Hook(tcs, k, t), j) {
      assert HeldOk(ts, tcs, j);
      HoldersChange(ts, t, a[t], j);
      HoldersChange(a, p, b[p], j);
      HoldersChange(b, t, b[t].(bound := true, tcap := k), j);
    }
  }

  lemma UnbindHeld(ts: seq<Thread>, tcs: seq<TcapRef>, t: nat)
    requires Held(ts, tcs) && t < |ts| && ts[t].bound && 0 <= ts[t].notif < |ts|
    ensures 0 <= ts[t].tcap < |tcs| && Held(Unbind(ts, t), Unhook(tcs, ts[t].tcap))
  {
    var p := ts[t].notif;
    var b := Release(ts, p);
    forall j | 0 <= j < |tcs| ensures HeldOk(Unbind(ts, t), Unhook(tcs, ts[t].tcap), j) {
      assert HeldOk(ts, tcs, j);
      HoldersChange(ts, p, b[p], j);
      HoldersChange(b, t, b[t].(bound := false, tcap := -1), j);
    }
  }

  /** The tcap of a bound thread has more than one reference. */
  lemma HeldTwice(ts: seq<Thread>, tcs: seq<TcapRef>, t: nat)
    requires Held(ts, tcs) && t < |ts| && ts[t].bound
    ensures 0 <= ts[t].tcap < |tcs| && tcs[ts[t].tcap].refcnt > 1
  {
    assert HeldOk(ts, tcs, ts[t].tcap);
    SumNonNegative(Holders(ts, ts[t].tcap), t);
  }

  /** Every chain of notifications ends at the root in fewer than NOTIF_DEPTH steps. */
  lemma {:induction false} ChainEnds(ts: seq<Thread>, cs: map<int, Arcv>, at: seq<int>, t: nat)
    requires Tree(ts, cs, at) && t < |ts| && ts[t].bound
    ensures at[t] in cs && cs[at[t]].depth < NOTIF_DEPTH && Ancestor(ts, t, cs[at[t]].depth) == 0
    decreases if at[t] in cs then cs[at[t]].depth else 0
  {
    assert NodeOk(ts, cs, at, t);
    var p := ts[t].notif;
    if p != t {
      assert NodeOk(ts, cs, at, p);
      ChainEnds(ts, cs, at, p);
    }
  }

  lemma {:induction false} AncestorNext(ts: seq<Thread>, t: int, k: nat)
    requires 0 <= Ancestor(ts, t, k) < |ts|
    ensures Ancestor(ts, t, k + 1) == ts[Ancestor(ts, t, k)].notif
    decreases k
  {
    if k == 0 {
      assert Ancestor(ts, t, 1) == Ancestor(ts, ts[t].notif, 0);
    } else {
      AncestorNext(ts, ts[t].notif, k - 1);
    }
  }

  lemma NotifiersChange(ts: seq<Thread>, u: nat, x: Thread, t: nat)
    requires u < |ts|
    ensures Sum(Notifiers(ts[u := x], t)) == Sum(Notifiers(ts, t)) - Notifies(ts[u], t) + Notifies(x, t)
  {
    SumUpdate(Notifiers(ts, t), u, Notifies(x, t));
    assert Notifiers(ts[u := x], t) == Notifiers(ts, t)[u := Notifies(x, t)];
  }

  function Take(ts: seq<Thread>, t: nat): seq<Thread>
    requires t < |ts|
  {
    ts[t := ts[t].(refcnt := ts[t].refcnt + 1)]
  }

  function Release(ts: seq<Thread>, t: nat): seq<Thread>
    requires t < |ts|
  {
    ts[t := ts[t].(refcnt := ts[t].refcnt - 1)]
  }

  /** The threads after t starts to notify p, with the tcap k. */
  function Bind(ts: seq<Thread>, t: nat, p: nat, k: nat): seq<Thread>
    requires t < |ts| && p < |ts|
  {
    var ts' := Take(ts[t := ts[t].(notif := p)], p);
    ts'[t := ts'[t].(bound := true, tcap := k)]
  }

  /** ... and after it stops. */
  function Unbind(ts: seq<Thread>, t: nat): seq<Thread>
    requires t < |ts|
  {
    var p := ts[t].notif;
    var ts' := if 0 <= p < |ts| then Release(ts, p) else ts;
    ts'[t := ts'[t].(bound := false, tcap := -1)]
  }

  lemma BindCount(ts: seq<Thread>, t: nat, p: nat, k: nat, u: nat)
    requires t < |ts| && p < |ts| && u < |ts| && !ts[t].bound && CountOk(ts, u)
    ensures CountOk(Bind(ts, t, p, k), u)
  {
    var a := ts[t := ts[t].(notif := p)];
    var b := Take(a, p);
    NotifiersChange(ts, t, a[t], u);
    NotifiersChange(a, p, b[p], u);
    NotifiersChange(b, t, b[t].(bound := true, tcap := k), u);
  }

  lemma BindCounted(ts: seq<Thread>, t: nat, p: nat, k: nat)
    requires Counted(ts) && t < |ts| && p < |ts| && !ts[t].bound
    ensures Counted(Bind(ts, t, p, k))
  {
    forall u | 0 <= u < |ts| ensures CountOk(Bind(ts, t, p, k), u) {
      assert CountOk(ts, u);
      BindCount(ts, t, p, k, u);
    }
  }

  lemma UnbindCount(ts: seq<Thread>, t: nat, u: nat)
    requires t < |ts| && u < |ts| && ts[t].bound && 0 <= ts[t].notif < |ts| && CountOk(ts, u)
    ensures CountOk(Unbind(ts, t), u)
  {
    var p := ts[t].notif;
    var b := Release(ts, p);
    NotifiersChange(ts, p, b[p], u);
    NotifiersChange(b, t, b[t].(bound := false, tcap := -1), u);
  }

  lemma UnbindCounted(ts: seq<Thread>, t: nat)
    requires Counted(ts) && t < |ts| && ts[t].bound
    ensures Counted(Unbind(ts, t))
  {
    assert CountOk(ts, t);
    forall u | 0 <= u < |ts| ensures CountOk(Unbind(ts, t), u) {
      assert CountOk(ts, u);
      UnbindCount(ts, t, u);
    }
  }

  lemma BindTree(ts: seq<Thread>, cs: map<int, Arcv>, at: seq<int>, t: nat, i: int, k: nat, cap: nat)
    requires Tree(ts, cs, at) && t < |ts| && !ts[t].bound && i in cs && cs[i].depth + 1 < NOTIF_DEPTH && cap !in cs
    ensures cs[i].thd < |ts|
    ensures Tree(Bind(ts, t, cs[i].thd, k), cs[cap := Arcv(t, cs[i].depth + 1)], at[t := cap])
  {
    var p := cs[i].thd;
    assert at[p] == i;
    var ts', cs', at' := Bind(ts, t, p, k), cs[cap := Arcv(t, cs[i].depth + 1)], at[t := cap];
    assert NodeOk(ts, cs, at, t) && NodeOk(ts, cs, at, p);
    forall u | 0 <= u < |ts| ensures NodeOk(ts', cs', at', u) {
      assert NodeOk(ts, cs, at, u);
    }
  }

  ghost predicate NobodyNotifies(ts: seq<Thread>, t: nat) {
    forall u :: 0 <= u < |ts| ==> !(ts[u].bound && ts[u].notif == t)
  }

  lemma UnbindTree(ts: seq<Thread>, cs: map<int, Arcv>, at: seq<int>, i: int)
    requires Tree(ts, cs, at) && i in cs && cs[i].thd < |ts| && NobodyNotifies(ts, cs[i].thd)
    ensures Tree(Unbind(ts, cs[i].thd), cs - {i}, at[cs[i].thd := -1])
  {
    var t := cs[i].thd;
    var ts', cs', at' := Unbind(ts, t), cs - {i}, at[t := -1];
    assert NodeOk(ts, cs, at, t);
    forall u | 0 <= u < |ts| ensures NodeOk(ts', cs', at', u) {
      assert NodeOk(ts, cs, at, u);
      assert ts[u].bound ==> NodeOk(ts, cs, at, ts[u].notif);
    }
  }

  /** The tcap of a thread is hooked into the thread's own end-point. */
  ghost predicate Hooked(ts: seq<Thread>, tcs: seq<TcapRef>, t: nat)
    requires t < |ts|
  {
    0 <= ts[t].tcap < |tcs| && tcs[ts[t].tcap].ep == t
  }

  /** The identifier is the first one of a receive capability, in a line that can be written. */
  ghost predicate Clears(found: seq<int>, writable: set<nat>, cap: nat) {
    cap < |found| && found[cap] == cap && cap in writable
  }

  /** Places in other lines stay free. */
  ghost predicate RoomKept(before: set<nat>, after: set<nat>, cap: nat) {
    forall id :: id in before && id / 4 != cap / 4 ==> id in after
  }

  /** Nobody notifies a thread without references. */
  lemma Unreferenced(ts: seq<Thread>, t: nat)
    requires Counted(ts) && t < |ts| && ts[t].refcnt <= 0
    ensures NobodyNotifies(ts, t)
  {
    assert CountOk(ts, t);
    forall u | 0 <= u < |ts| ensures !(ts[u].bound && ts[u].notif == t) {
      SumNonNegative(Notifiers(ts, t), u);
    }
  }

  class Receivers {
    var threads: seq<Thread>
    var tcaps: seq<TcapRef>
    const ends: ArcvTable
    const links: Links
    /** The capability of each bound thread, or -1. */
    ghost var at: seq<int>

    /** Nodes 2t and 2t + 1 are the event_head and the event_list of thread t. */
    ghost predicate Queues()
      reads this`threads, links
    {
      && links.Valid() && |links.rings| == |threads| && |links.on| == 2 * |threads|
      && (forall t :: 0 <= t < |threads| ==> links.on[2 * t] == t && |links.rings[t]| > 0 && links.rings[t][0] == 2 * t)
    }

    ghost predicate Shape()
      reads this, links, ends, ends.captbl, ends.captbl.trie
    {
      && Queues() && ends.Valid() && Counted(threads) && Held(threads, tcaps) && |at| == |threads|
      && forall s :: s in ends.arcvs ==> ends.arcvs[s].thd < |threads|
    }

    ghost predicate Valid()
      reads this, links, ends, ends.captbl, ends.captbl.trie
    {
      Shape() && Tree(threads, ends.arcvs, at)
    }

    /** A core boots with one thread, one tcap, and the root end-point. */
    constructor (cap: nat)
      requires cap < 128 && cap % 4 == 0
      ensures Valid() && fresh(links) && fresh(ends) && fresh(ends.captbl) && fresh(ends.captbl.trie)
      ensures threads == [Thread(true, 1, 0, false, 0)] && tcaps == [TcapRef(2, 0)]
      ensures ends.arcvs == map[cap := Arcv(0, 0)]
      ensures forall id: nat :: id < 128 && id % 4 == 0 && id != cap ==> id in ends.room
    {
      links := new Links();
      ends := new ArcvTable(cap, Arcv(0, 0));
      threads, tcaps, at := [Thread(true, 1, 0, false, 0)], [TcapRef(2, 0)], [cap];
      new;
      var _ := links.HeadInit();
      var _ := links.Init();
      assert Notifiers(threads, 0) == [1];
      assert Holders(threads, 0) == [1];
    }

    /** thd_activate: the receive part of a new thread. */
    method NewThread() returns (t: nat)
      requires Shape()
      modifies this`threads, this`at, links
      ensures Shape() && (old(Valid()) ==> Valid())
      ensures t == |old(threads)| && threads == old(threads) + [FreshThread()] && at == old(at) + [-1]
    {
      t := |threads|;
      NewCounted(threads);
      NewHeld(threads, tcaps);
      if Tree(threads, ends.arcvs, at) {
        NewTree(threads, ends.arcvs, at);
      }
      threads, at := threads + [FreshThread()], at + [-1];
      var _ := links.HeadInit();
      var _ := links.Init();
    }

    /** tcap_activate: a tcap that no end-point uses yet. */
    method NewTcap() returns (k: nat)
      requires Shape()
      modifies this`tcaps
      ensures Shape() && (old(Valid()) ==> Valid()) && k == |old(tcaps)| && tcaps == old(tcaps) + [TcapRef(1, -1)]
    {
      k := |tcaps|;
      ghost var tcs := tcaps + [TcapRef(1, -1)];
      SumZero(Holders(threads, k));
      forall j | 0 <= j < |tcs| ensures HeldOk(threads, tcs, j) {
        assert j < k ==> HeldOk(threads, tcaps, j);
      }
      tcaps := tcaps + [TcapRef(1, -1)];
    }

    /** The end-point that an identifier finds. */
    ghost function EndPoint(cap: nat): Arcv
      requires |ends.found| == 65536 && ends.found[cap % 65536] in ends.arcvs
      reads ends
    {
      ends.arcvs[ends.found[cap % 65536]]
    }

    /** arcv_activate of the capability `cap` below the end-point that `parent` finds. */
    method Activate(cap: nat, thd: nat, k: nat, parent: nat) returns (r: Error)
      requires Shape() && thd < |threads| && k < |tcaps|
      modifies this, ends, ends.captbl
      ensures Shape() && (old(Valid()) ==> Valid()) && RoomKept(old(ends.room), ends.room, cap)
      ensures r == None <==> old(&& !threads[thd].bound && cap in ends.room && ends.found[parent % 65536] in ends.arcvs
                                 && EndPoint(parent).depth + 1 < NOTIF_DEPTH)
      ensures r == None ==> var a := old(EndPoint(parent));
        && a.thd < |old(threads)| && threads == Bind(old(threads), thd, a.thd, k) && tcaps == Hook(old(tcaps), k, thd)
        && ends.arcvs == old(ends.arcvs)[cap := Arcv(thd, a.depth + 1)]
      ensures r != None ==> threads == old(threads) && tcaps == old(tcaps) && ends.arcvs == old(ends.arcvs)
    {
      var ok, i := Below(thd, parent);
      if !ok {
        return Inval;
      }
      var a := ends.arcvs[i];
      ok := ends.Add(cap, Arcv(thd, a.depth + 1));
      if !ok {
        return NoSlot;
      }
      Setup(thd, a.thd, k, old(ends.arcvs), i, cap);
      return None;
    }

    /** The checks of arcv_activate: the capability that it goes below. */
    method Below(thd: nat, parent: nat) returns (ok: bool, i: int)
      requires Shape() && thd < |threads|
      ensures Shape() && i == ends.found[parent % 65536] && (ok ==> i in ends.arcvs)
      ensures ok <==> && !threads[thd].bound && ends.found[parent % 65536] in ends.arcvs
                      && EndPoint(parent).depth + 1 < NOTIF_DEPTH
    {
      i := ends.Find(parent);
      if threads[thd].bound {
        return false, i;
      }
      assert threads[thd].tcap == -1;
      if i == -1 {
        return false, i;
      }
      if ends.arcvs[i].depth + 1 >= NOTIF_DEPTH {
        return false, i;
      }
      return true, i;
    }

    /** __arcv_setup: the thread of the new capability `cap` will notify p, the thread of capability i. */
    method Setup(thd: nat, p: nat, k: nat, ghost cs: map<int, Arcv>, ghost i: int, ghost cap: nat)
      requires thd < |threads| == |at| && p < |threads| && k < |tcaps|
      requires Counted(threads) && Held(threads, tcaps) && !threads[thd].bound
      requires i in cs && cs[i].thd == p && cs[i].depth + 1 < NOTIF_DEPTH && cap !in cs
      modifies this`threads, this`tcaps, this`at
      ensures Counted(threads) && Held(threads, tcaps) && |at| == |threads|
      ensures threads == Bind(old(threads), thd, p, k) && tcaps == Hook(old(tcaps), k, thd)
      ensures Tree(old(threads), cs, old(at)) ==> Tree(threads, cs[cap := Arcv(thd, cs[i].depth + 1)], at)
    {
      BindCounted(threads, thd, p, k);
      BindHeld(threads, tcaps, thd, p, k);
      if Tree(threads, cs, at) {
        BindTree(threads, cs, at, thd, i, k, cap);
      }
      threads := threads[thd := threads[thd].(notif := p)];
      threads := Take(threads, p);
      threads := threads[thd := threads[thd].(bound := true, tcap := k)];
      tcaps, at := Hook(tcaps, k, thd), at[thd := cap];
    }

    /** captbl_expand, and the capabilities of other types that share the table: the tree does not depend on them. */
    method Grow(cap: nat, mem: nat)
      requires Shape() && mem <= 1
      modifies ends, ends.captbl, ends.captbl.trie
      ensures Shape() && (old(Valid()) ==> Valid()) && ends.arcvs == old(ends.arcvs)
    {
      ends.Grow(cap, mem);
    }

    method AddOther(cap: nat, typ: C.CapType) returns (r: C.Error)
      requires Shape() && typ != C.CapType.Arcv
      modifies ends, ends.captbl
      ensures Shape() && (old(Valid()) ==> Valid()) && ends.arcvs == old(ends.arcvs)
    {
      r := ends.AddOther(cap, typ);
    }

    method ClearOther(cap: nat, typ: C.CapType) returns (r: C.Error)
      requires Shape() && typ != C.CapType.Arcv
      modifies ends, ends.captbl
      ensures Shape() && (old(Valid()) ==> Valid()) && ends.arcvs == old(ends.arcvs)
    {
      r := ends.ClearOther(cap, typ);
    }

    /** The end-point of a thread cannot go: another thread notifies it, or its tcap is hooked into it. */
    ghost predicate InUse(t: nat)
      reads this`threads, this`tcaps
    {
      t < |threads| && (threads[t].refcnt > 0 || Hooked(threads, tcaps, t))
    }

    ghost predicate Bound(t: nat)
      reads this`threads
    {
      t < |threads| && threads[t].bound
    }

    /** arcv_deactivate.  It looks the capability up by any of its identifiers, with or without high bits, and
        clears it by the first one only: so the tree survives exactly when the call stops before the
        thread is unbound, or gets that identifier.  A capability that outlives the binding of its thread meets
        the assertion, unless the thread is notified or bound again by then. */
    method Deactivate(cap: nat) returns (r: Error)
      requires Shape()
      modifies this, ends, ends.captbl
      ensures Shape() && RoomKept(old(ends.room), ends.room, cap)
      ensures old(Valid()) ==>
        && r != TcapAssert
        && (Valid() <==> r == Inval || r == Busy || Clears(old(ends.found), old(ends.writable), cap))
      ensures r == if old(ends.found[cap % 65536] !in ends.arcvs) then Inval
                   else if old(InUse(EndPoint(cap).thd)) then Busy
                   else if old(!Bound(EndPoint(cap).thd)) then TcapAssert
                   else if Clears(old(ends.found), old(ends.writable), cap) then None else NotCleared
      ensures r == Inval || r == Busy || r == TcapAssert ==>
        threads == old(threads) && tcaps == old(tcaps) && ends.arcvs == old(ends.arcvs)
      ensures r == None || r == NotCleared ==> var t := old(EndPoint(cap)).thd;
        && t < |old(threads)| && 0 <= old(threads)[t].tcap < |old(tcaps)|
        && threads == Unbind(old(threads), t) && tcaps == Unhook(old(tcaps), old(threads)[t].tcap)
        && ends.arcvs == if r == None then old(ends.arcvs) - {cap} else old(ends.arcvs)
    {
      var i;
      r, i := Unused(cap);
      if r != None {
        return;
      }
      r := Remove(cap, i, ends.arcvs[i].thd);
    }

    /** The checks of arcv_deactivate up to the assertion: the capability to remove. */
    method Unused(cap: nat) returns (r: Error, i: int)
      requires Shape()
      ensures i == ends.found[cap % 65536]
      ensures r == if i !in ends.arcvs then Inval
                   else if threads[ends.arcvs[i].thd].refcnt > 0 then Busy
                   else if !Bound(ends.arcvs[i].thd) then TcapAssert else None
      ensures r == TcapAssert ==> !Valid()
    {
      i := ends.Find(cap);
      if i == -1 {
        return Inval, i;
      }
      var t := ends.arcvs[i].thd;
      if threads[t].refcnt > 0 {
        return Busy, i;
      }
      if threads[t].tcap == -1 {
        assert Valid() ==> NodeOk(threads, ends.arcvs, at, t);
        return TcapAssert, i;
      }
      return None, i;
    }

    /** The rest of it: the thread t of the capability i is unbound, and then that is cleared. */
    method Remove(cap: nat, i: int, t: nat) returns (r: Error)
      requires Shape() && i == ends.found[cap % 65536] && i in ends.arcvs && t == ends.arcvs[i].thd
      requires threads[t].refcnt <= 0 && threads[t].bound
      modifies this, ends, ends.captbl
      ensures Shape() && RoomKept(old(ends.room), ends.room, cap)
      ensures old(Valid()) ==> (Valid() <==> r == Busy || Clears(old(ends.found), old(ends.writable), cap))
      ensures r == if old(Hooked(threads, tcaps, t)) then Busy
                   else if Clears(old(ends.found), old(ends.writable), cap) then None else NotCleared
      ensures r == Busy ==> threads == old(threads) && tcaps == old(tcaps) && ends.arcvs == old(ends.arcvs)
      ensures r == None || r == NotCleared ==>
        && 0 <= old(threads)[t].tcap < |old(tcaps)|
        && threads == Unbind(old(threads), t) && tcaps == Unhook(old(tcaps), old(threads)[t].tcap)
        && ends.arcvs == if r == None then old(ends.arcvs) - {cap} else old(ends.arcvs)
    {
      var done := Teardown(t, ends.arcvs, i);
      if !done {
        return Busy;
      }
      var ok := ends.Clear(cap);
      if !ok {
        return NotCleared;
      }
      assert i == cap;
      return None;
    }

    /** __arcv_teardown, which leaves the tree well as soon as the capability i is cleared, and not before.  It
        is refused exactly for the thread that the tcap is hooked into, as the tcap of a bound thread always
        has more than one reference. */
    method Teardown(t: nat, ghost cs: map<int, Arcv>, ghost i: int) returns (ok: bool)
      requires Counted(threads) && Held(threads, tcaps) && |at| == |threads|
      requires i in cs && cs[i].thd == t < |threads| && threads[t].refcnt <= 0 && threads[t].tcap != -1
      modifies this`threads, this`tcaps, this`at
      ensures Counted(threads) && Held(threads, tcaps) && |at| == |threads| == |old(threads)|
      ensures 0 <= old(threads)[t].tcap < |old(tcaps)| && (ok <==> !Hooked(old(threads), old(tcaps), t))
      ensures !ok ==> threads == old(threads) && tcaps == old(tcaps) && at == old(at)
      ensures ok ==>
        && threads == Unbind(old(threads), t) && tcaps == Unhook(old(tcaps), old(threads)[t].tcap)
        && !Tree(threads, cs, at) && (Tree(old(threads), cs, old(at)) ==> Tree(threads, cs - {i}, at))
    {
      HeldTwice(threads, tcaps, t);
      var k := threads[t].tcap;
      if tcaps[k].refcnt > 1 && tcaps[k].ep == t {
        return false;
      }
      Unreferenced(threads, t);
      UnbindCounted(threads, t);
      UnbindHeld(threads, tcaps, t);
      if Tree(threads, cs, at) {
        UnbindTree(threads, cs, at, i);
      }
      threads := Release(threads, threads[t].notif);
      threads := threads[t := threads[t].(bound := false, tcap := -1)];
      tcaps, at := Unhook(tcaps, k), at[t := -1];
      assert at[t] == -1 && cs[i].thd == t;
      return true;
    }

    /** A thread starts, or stops, waiting for notifications. */
    method SetReceiving(t: nat, b: bool)
      requires Shape() && t < |threads|
      modifies this`threads
      ensures Shape() && (old(Valid()) ==> Valid()) && threads == old(threads)[t := old(threads)[t].(rcving := b)]
    {
      ReceivingKeeps(threads, tcaps, ends.arcvs, at, t, b);
      threads := threads[t := threads[t].(rcving := b)];
    }

    predicate Queued(t: nat)
      requires 2 * t + 1 < |links.next|
      reads links
    {
      !links.Empty(2 * t + 1)
    }

    /** Queued or not is what list_empty of the thread's event node says. */
    lemma QueuedMeans(t: nat)
      requires Queues() && t < |threads|
      ensures Queued(t) <==> links.on[2 * t + 1] != -1
    {
      links.EmptyMeans(2 * t + 1);
    }

    /** thd_rcvcap_evt_enqueue: an event is on at most one queue, so one that is queued stays there, and any
        other goes to the end. */
    method EvtEnqueue(head: nat, t: nat)
      requires Queues() && head < |threads| && t < |threads|
      modifies links
      ensures Queues()
      ensures links.on == Enqueued(old(links.on), t, head)
      ensures links.rings == if links.on == old(links.on) then old(links.rings)
                             else old(links.rings)[head := old(links.rings)[head] + [2 * t + 1]]
    {
      QueuedMeans(t);
      if !Queued(t) && head != t {
        links.Enqueue(2 * head, 2 * t + 1);
      }
    }

    /** A node on a queue that is not its head is an event. */
    lemma OddNode(u: nat, x: nat, head: nat)
      requires Queues() && x < |links.on| && u == x / 2 && links.on[x] == head && x != 2 * head
      ensures x == 2 * u + 1 && u < |threads|
    {
      assert x == 2 * u || x == 2 * u + 1;
      assert links.on[2 * u] == u;
    }

    /** thd_rcvcap_evt_dequeue: the oldest event of a thread's queue, or -1. */
    method EvtDequeue(head: nat) returns (t: int)
      requires Queues() && head < |threads|
      modifies links
      ensures Queues()
      ensures var q := old(links.rings)[head];
        if |q| == 1 then t == -1 && links.on == old(links.on) && links.rings == old(links.rings)
        else && 0 <= t < |threads| && q[1] == 2 * t + 1 && links.on == old(links.on)[q[1] := -1]
             && links.rings == old(links.rings)[head := [2 * head] + q[2..]]
    {
      ghost var q := links.rings[head];
      assert RingOf(links.next, links.prev, q, links.on, head);
      if |q| > 1 {
        assert q[1] in q;
        OddNode(q[1] / 2, q[1], head);
      }
      var n := links.Dequeue(2 * head);
      if n % 2 == 0 {
        t := -1;
      } else {
        t := n / 2;
      }
    }

    /** One round of notify_parent. */
    method Report(prev: nat, curr: nat, ghost rcv: nat, ghost n: nat, ghost before: seq<int>)
      requires Queues() && prev < |threads| && curr < |threads| && curr == threads[prev].notif != prev
      requires prev == Ancestor(threads, rcv, n)
      requires HeardUpTo(threads, links.on, rcv, n) && EventsKept(threads, before, links.on)
      modifies links
      ensures Queues() && HeardUpTo(threads, links.on, rcv, n + 1) && EventsKept(threads, before, links.on)
      ensures Ancestor(threads, rcv, n + 1) == curr
      ensures WaitsUpTo(threads, rcv, n) && threads[curr].rcving ==> WaitsUpTo(threads, rcv, n + 1)
    {
      ghost var on := links.on;
      EvtEnqueue(curr, prev);
      EventAdded(threads, before, on, links.on, rcv, n);
    }

    /** notify_parent: events for `n` threads from rcv upwards, ending at the root or below a thread that is
        not waiting for notifications.  The chain is short enough for the assertion on its depth. */
    method NotifyParent(rcv: nat) returns (notif: int, ghost n: nat)
      requires Valid() && rcv < |threads| && threads[rcv].bound
      modifies links
      ensures Valid() && notif == threads[rcv].notif && n <= NOTIF_DEPTH
      ensures NotifiedUp(threads, links.on, rcv, n)
      ensures EventsKept(threads, old(links.on), links.on)
    {
      var prev: nat, depth := rcv, 0;
      var curr := threads[prev].notif;
      notif, n := curr, 0;
      while curr != -1 && curr != prev
        invariant Queues() && prev < |threads| && threads[prev].bound && curr == threads[prev].notif
        invariant depth + DepthOf(ends.arcvs, at, prev) == DepthOf(ends.arcvs, at, rcv)
        invariant n == depth && prev == Ancestor(threads, rcv, n)
        invariant HeardUpTo(threads, links.on, rcv, n) && WaitsUpTo(threads, rcv, n)
        invariant EventsKept(threads, old(links.on), links.on)
        decreases DepthOf(ends.arcvs, at, prev)
      {
        Up(threads, ends.arcvs, at, rcv);
        Up(threads, ends.arcvs, at, prev);
        assert depth < NOTIF_DEPTH;
        Report(prev, curr, rcv, n, old(links.on));
        n := n + 1;
        if !threads[curr].rcving {
          break;
        }
        prev := curr;
        curr := threads[prev].notif;
        depth := depth + 1;
      }
      Up(threads, ends.arcvs, at, prev);
      Up(threads, ends.arcvs, at, rcv);
    }
  }

  /** The depth of a thread's end-point. */
  ghost function DepthOf(cs: map<int, Arcv>, at: seq<int>, t: nat): nat {
    if t < |at| && at[t] in cs then cs[at[t]].depth else 0
  }

  /** A notification goes one level up. */
  lemma Up(ts: seq<Thread>, cs: map<int, Arcv>, at: seq<int>, t: nat)
    requires Tree(ts, cs, at) && t < |ts| && ts[t].bound
    ensures DepthOf(cs, at, t) < NOTIF_DEPTH && 0 <= ts[t].notif < |ts| && ts[ts[t].notif].bound
    ensures ts[t].notif != t ==> DepthOf(cs, at, t) == DepthOf(cs, at, ts[t].notif) + 1
  {
    assert NodeOk(ts, cs, at, t);
  }

  /** The queue that the event of t is on, or -1. */
  function EventOf(on: seq<int>, t: nat): int
    requires 2 * t + 1 < |on|
  {
    on[2 * t + 1]
  }

  /** An event for `head` is queued unless it is queued already. */
  function Enqueued(on: seq<int>, t: nat, head: nat): seq<int>
    requires 2 * t + 1 < |on|
  {
    if EventOf(on, t) == -1 && head != t then on[2 * t + 1 := head] else on
  }

  ghost predicate HeardAt(ts: seq<Thread>, on: seq<int>, rcv: nat, j: nat)
    requires |on| == 2 * |ts|
  {
    var t := Ancestor(ts, rcv, j);
    0 <= t < |ts| && EventOf(on, t) != -1
  }

  ghost predicate HeardUpTo(ts: seq<Thread>, on: seq<int>, rcv: nat, n: nat) {
    |on| == 2 * |ts| && forall j :: 0 <= j < n ==> HeardAt(ts, on, rcv, j)
  }

  ghost predicate WaitsAt(ts: seq<Thread>, rcv: nat, j: nat) {
    var t := Ancestor(ts, rcv, j);
    0 <= t < |ts| && ts[t].rcving
  }

  ghost predicate WaitsUpTo(ts: seq<Thread>, rcv: nat, n: nat) {
    forall j :: 0 < j <= n ==> WaitsAt(ts, rcv, j)
  }

  /** The first n threads from rcv upwards are queued, and the one above them needs no event. */
  ghost predicate NotifiedUp(ts: seq<Thread>, on: seq<int>, rcv: nat, n: nat) {
    && HeardUpTo(ts, on, rcv, n)
    && (forall j :: 0 < j < n ==> WaitsAt(ts, rcv, j))
    && var top := Ancestor(ts, rcv, n);
       0 <= top < |ts| && (ts[top].notif == top || (n > 0 && !ts[top].rcving))
  }

  /** An event that is queued stays; one that becomes queued is for the thread that is notified. */
  ghost predicate EventsKept(ts: seq<Thread>, before: seq<int>, after: seq<int>) {
    && |before| == |after| == 2 * |ts|
    && forall t :: 0 <= t < |ts| ==> EventKept(ts[t], EventOf(before, t), EventOf(after, t))
  }

  ghost predicate EventKept(t: Thread, before: int, after: int) {
    after == before || (before == -1 && after == t.notif)
  }

  lemma EventAdded(ts: seq<Thread>, before: seq<int>, on: seq<int>, on': seq<int>, rcv: nat, n: nat)
    requires EventsKept(ts, before, on) && HeardUpTo(ts, on, rcv, n)
    requires var t := Ancestor(ts, rcv, n);
      0 <= t < |ts| && 0 <= ts[t].notif != t && on' == Enqueued(on, t, ts[t].notif)
    ensures EventsKept(ts, before, on') && HeardUpTo(ts, on', rcv, n + 1)
    ensures Ancestor(ts, rcv, n + 1) == ts[Ancestor(ts, rcv, n)].notif
    ensures WaitsUpTo(ts, rcv, n) && WaitsAt(ts, rcv, n + 1) ==> WaitsUpTo(ts, rcv, n + 1)
  {
    AncestorNext(ts, rcv, n);
    var t := Ancestor(ts, rcv, n);
    forall u | 0 <= u < |ts|
      ensures EventOf(on', u) == if u == t && EventOf(on, t) == -1 then ts[t].notif else EventOf(on, u)
    {
      assert 2 * u + 1 == 2 * t + 1 ==> u == t;
    }
    forall j | 0 <= j < n + 1 ensures HeardAt(ts, on', rcv, j) {
      assert j < n ==> HeardAt(ts, on, rcv, j);
    }
  }

  lemma ReceivingKeeps(ts: seq<Thread>, tcs: seq<TcapRef>, cs: map<int, Arcv>, at: seq<int>, t: nat, b: bool)
    requires Counted(ts) && Held(ts, tcs) && t < |ts|
    ensures var ts' := ts[t := ts[t].(rcving := b)];
      Counted(ts') && Held(ts', tcs) && (Tree(ts, cs, at) ==> Tree(ts', cs, at))
  {
    var ts' := ts[t := ts[t].(rcving := b)];
    forall u | 0 <= u < |ts| ensures CountOk(ts', u) {
      assert CountOk(ts, u);
      NotifiersChange(ts, t, ts'[t], u);
    }
    forall k | 0 <= k < |tcs| ensures HeldOk(ts', tcs, k) {
      assert HeldOk(ts, tcs, k);
      HoldersChange(ts, t, ts'[t], k);
    }
    if Tree(ts, cs, at) {
      forall u | 0 <= u < |ts| ensures NodeOk(ts', cs, at, u) {
        assert NodeOk(ts, cs, at, u);
      }
    }
  }

  lemma NewCounted(ts: seq<Thread>)
    requires Counted(ts)
    ensures Counted(ts + [FreshThread()])
  {
    var ts' := ts + [FreshThread()];
    forall t | 0 <= t < |ts'| ensures CountOk(ts', t) {
      assert t < |ts| ==> CountOk(ts, t);
      assert forall u :: 0 <= u < |ts| ==> CountOk(ts, u);
      SumSnoc(Notifiers(ts, t), 0);
      assert Notifiers(ts', t) == Notifiers(ts, t) + [0];
      if t == |ts| {
        SumZero(Notifiers(ts, t));
      }
    }
  }

  lemma NewTree(ts: seq<Thread>, cs: map<int, Arcv>, at: seq<int>)
    requires Tree(ts, cs, at)
    ensures Tree(ts + [FreshThread()], cs, at + [-1])
  {
    forall t | 0 <= t < |ts| ensures NodeOk(ts + [FreshThread()], cs, at + [-1], t) {
      assert NodeOk(ts, cs, at, t);
    }
  }

  lemma NewHeld(ts: seq<Thread>, tcs: seq<TcapRef>)
    requires Held(ts, tcs)
    ensures Held(ts + [FreshThread()], tcs)
  {
    var ts' := ts + [FreshThread()];
    forall k | 0 <= k < |tcs| ensures HeldOk(ts', tcs, k) {
      assert HeldOk(ts, tcs, k);
      SumSnoc(Holders(ts, k), 0);
      assert Holders(ts', k) == Holders(ts, k) + [0];
    }
  }

  /** The receive part of a thread that was just created. */
  function FreshThread(): Thread {
    Thread(false, 0, -1, false, -1)
  }

  // A capability that outlives the binding of its thread.

  /** Two threads that notify each other never reach the root. */
  lemma {:induction false} PairLoops(ts: seq<Thread>, t: nat, u: nat, k: nat)
    requires t < |ts| && u < |ts| && ts[t].notif == u && ts[u].notif == t
    ensures Ancestor(ts, t, k) == t || Ancestor(ts, t, k) == u
    decreases k
  {
    if k == 0 {
    } else {
      PairLoops(ts, u, t, k - 1);
    }
  }

  /** Two threads besides the root, without end-points. */
  method ThreeThreads() returns (s: Receivers)
    ensures s.Valid() && fresh(s) && fresh(s.links) && fresh(s.ends)
    ensures fresh(s.ends.captbl) && fresh(s.ends.captbl.trie)
    ensures s.threads == [Thread(true, 1, 0, false, 0), FreshThread(), FreshThread()]
    ensures s.tcaps == [TcapRef(2, 0)] && s.ends.arcvs == map[0 := Arcv(0, 0)]
    ensures 4 in s.ends.room && 8 in s.ends.room && 12 in s.ends.room
  {
    s := new Receivers(0);
    var a := s.NewThread();
    var b := s.NewThread();
  }

  /** End-point 4 is below the root, for thread 1, with the tcap of the root. */
  method OneBelow() returns (s: Receivers)
    ensures s.Valid() && fresh(s) && fresh(s.links) && fresh(s.ends)
    ensures fresh(s.ends.captbl) && fresh(s.ends.captbl.trie)
    ensures s.threads == [Thread(true, 2, 0, false, 0), Thread(true, 0, 0, false, 0), FreshThread()]
    ensures s.tcaps == [TcapRef(3, 0)] && s.ends.arcvs == map[0 := Arcv(0, 0), 4 := Arcv(1, 1)]
    ensures 8 in s.ends.room && 12 in s.ends.room
  {
    s := ThreeThreads();
    assert Spans(s.ends.found, 0);
    var r := s.Activate(4, 1, 0, 0);
    assert s.threads == [Thread(true, 2, 0, false, 0), Thread(true, 0, 0, false, 0), FreshThread()];
  }

  /** It is deactivated as 5: the thread is unbound, and the capability stays. */
  method Uncleared() returns (s: Receivers)
    ensures s.Shape() && fresh(s) && fresh(s.links) && fresh(s.ends)
    ensures fresh(s.ends.captbl) && fresh(s.ends.captbl.trie)
    ensures |s.threads| == 3 && !s.threads[1].bound && !s.threads[2].bound && |s.tcaps| == 1
    ensures s.threads[1].refcnt == 0
    ensures s.ends.arcvs == map[0 := Arcv(0, 0), 4 := Arcv(1, 1)] && 8 in s.ends.room && 12 in s.ends.room
  {
    s := OneBelow();
    assert Spans(s.ends.found, 4);
    var r := s.Deactivate(5);
  }

  /** Deactivating what was left behind, as 4 or as any of its other identifiers, meets the assertion. */
  method DeactivatedAgain(cap: nat) returns (s: Receivers, r: Error)
    requires cap % 65536 / 4 == 1
    ensures r == TcapAssert
  {
    s := Uncleared();
    assert Spans(s.ends.found, 4);
    r := s.Deactivate(cap);
  }

  /** The bounded chains depend on every deactivation clearing its capability: below one that was not
      cleared, two threads can be made to notify each other. */
  method LoopAfterFailedClear() returns (s: Receivers)
    ensures |s.threads| == 3 && s.threads[1].bound && s.threads[2].bound
    ensures forall k: nat :: Ancestor(s.threads, 1, k) != 0
  {
    s := Uncleared();
    assert Spans(s.ends.found, 4);
    var r := s.Activate(8, 2, 0, 4);
    assert Spans(s.ends.found, 8);
    r := s.Activate(12, 1, 0, 8);
    forall k: nat ensures Ancestor(s.threads, 1, k) != 0 {
      PairLoops(s.threads, 1, 2, k);
    }
  }
}
