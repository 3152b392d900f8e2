/**
  Temporal capabilities: budgets of cycles that schedulers pass to each other, and the list of
  those with budget left on each core.
 */
module Tcaps {
  import opened Delegations
  import opened Lists
  import opened Sums

  /** TCAP_RES_INF, the largest 32-bit number, and TCAP_RES_MAX. */
  const INF: nat := 0xFFFF_FFFF
  const MAX: nat := INF - 1
  const WORD: nat := INF + 1

  type Res = r: nat | r <= INF

  /** What is left of a sum of two 32-bit numbers in 32 bits. */
  function Wrapped(x: nat): Res
    requires x < 2 * WORD
  {
    if x < WORD then x else x - WORD
  }

  /** Whether the source of a transfer is linked still; if so, a destination without budget goes right before
      it, and the list does not change otherwise. */
  ghost predicate LinkedBefore(next: seq<nat>, next': seq<nat>, d: nat, s: nat, had: bool) {
    if had then next' == next else d < |next'| && next'[d] == s
  }

  // Moving budget.

  function Finite(b: Res): nat {
    if b == INF then 0 else b
  }

  /** The cycles a transfer asks for. */
  function Asked(bs: Res, cycles: Res): Res {
    if cycles == 0 then bs else cycles
  }

  /** The cycles a transfer of a finite amount moves. */
  function Moved(bs: Res, cycles: Res): Res {
    var c := Asked(bs, cycles);
    if c > bs then bs else c
  }

  /** Cycles that an infinite source adds to finite budgets. */
  function Granted(bd: Res, bs: Res, cycles: Res): nat {
    if bs == INF && Asked(bs, cycles) != INF && bd != INF then Moved(bs, cycles) else 0
  }

  /** Cycles that a transfer takes out of finite budgets: into an infinite one, or past the bound. */
  function Absorbed(bd: Res, bs: Res, cycles: Res): nat {
    if Asked(bs, cycles) == INF then Finite(bd)
    else if bd == INF then if bs == INF then 0 else Moved(bs, cycles)
    else if bd + Moved(bs, cycles) > MAX then bd + Moved(bs, cycles) - MAX
    else 0
  }

  /** What a transfer makes of the budgets of its destination and its source. */
  ghost predicate Transferred(bd: Res, bs: Res, cycles: Res, bd': Res, bs': Res) {
    && (bd' == INF <==> bd == INF || Asked(bs, cycles) == INF)
    && (bd' != INF ==> bd' == if bd + Moved(bs, cycles) <= MAX then bd + Moved(bs, cycles) else MAX)
    && bs' == (if bs == INF then INF else bs - Moved(bs, cycles))
  }

  /** The arithmetic of __tcap_budget_xfer, on 32-bit numbers.  Time is conserved, up to what infinite
      budgets give and what is absorbed; a source with budget leaves its destination with some; and only
      an infinite source makes a budget infinite. */
  method Transfer(bd: Res, bs: Res, cycles: Res) returns (ok: bool, bd': Res, bs': Res)
    ensures ok <==> (Asked(bs, cycles) == INF ==> bs == INF)
    ensures if ok then Transferred(bd, bs, cycles, bd', bs') else bd' == bd && bs' == bs
    ensures ok ==>
      Finite(bd') + Finite(bs') + Absorbed(bd, bs, cycles) == Finite(bd) + Finite(bs) + Granted(bd, bs, cycles)
    ensures ok && bs != 0 ==> bd' != 0
    ensures bd != INF && bd' == INF ==> bs == INF
    ensures bd != INF && bs != INF ==> bd' + bs' <= bd + bs
  {
    bd', bs' := bd, bs;
    var c := cycles;
    if c == 0 {
      c := bs;
    }
    if c == INF {
      if bs != INF {
        return false, bd', bs';
      }
      return true, INF, bs';
    }
    if c > bs {
      c := bs;
    }
    if bd != INF {
      var sum := Wrapped(bd + c);
      if sum < bd || sum == INF {
        bd' := MAX;
      } else {
        bd' := sum;
      }
    }
    if bs != INF {
      bs' := bs - c;
    }
    return true, bd', bs';
  }

  // The state of the tcaps of all cores.

  datatype Tcap = Tcap(
    alive: bool,
    bound: bool,
    refcnt: nat,
    budget: Res,
    cpuid: nat,
    delegs: seq<Info>,
    off: nat,
    permPrio: nat)

  predicate HasOwn(t: Tcap) {
    t.off < |t.delegs|
  }

  function Own(t: Tcap): Info
    requires HasOwn(t)
  {
    t.delegs[t.off]
  }

  function WithOwnPrio(t: Tcap, prio: nat): Tcap
    requires HasOwn(t)
  {
    t.(delegs := t.delegs[t.off := Own(t).(prio := prio)])
  }

  ghost predicate ScheduledOk(t: Tcap) {
    HasOwn(t) && Sorted(t.delegs) && |t.delegs| <= MAX_DELEGATIONS && t.refcnt > 0
  }

  ghost predicate DifferentOwn(t: Tcap, u: Tcap) {
    t.alive && u.alive && t.cpuid == u.cpuid && HasOwn(t) && HasOwn(u) ==> Own(t).uid != Own(u).uid
  }

  /** Delegation lists are sorted and name their owner, and owners on a core differ. */
  ghost predicate Schedulers(tcaps: seq<Tcap>, uids: seq<nat>) {
    && (forall t :: 0 <= t < |tcaps| ==> ScheduledAt(tcaps[t], uids))
    && (forall t, u {:trigger DifferentOwn(tcaps[t], tcaps[u])} ::
          0 <= t < u < |tcaps| ==> DifferentOwn(tcaps[t], tcaps[u]))
  }

  ghost predicate ScheduledAt(t: Tcap, uids: seq<nat>) {
    t.alive ==> ScheduledOk(t) && t.cpuid < |uids| && Own(t).uid < uids[t.cpuid]
  }

  /** The list a tcap belongs on: that of its core if it has budget. */
  function Where(t: Tcap): int {
    if t.budget == 0 then -1 else t.cpuid
  }

  ghost predicate TcapOk(cpus: nat, t: Tcap, on: int) {
    t.cpuid < cpus && on == Where(t) && (t.budget != 0 ==> t.alive)
  }

  /** List c is that of core c, and a tcap is on the list of its core if and only if it has budget. */
  ghost predicate Active(cpus: nat, tcaps: seq<Tcap>, rings: seq<seq<nat>>, on: seq<int>) {
    && |on| == cpus + |tcaps| && |rings| == cpus
    && (forall c :: 0 <= c < cpus ==> HeadAt(rings, on, c))
    && (forall t :: 0 <= t < |tcaps| ==> TcapAt(cpus, tcaps, on, t))
  }

  ghost predicate HeadAt(rings: seq<seq<nat>>, on: seq<int>, c: nat)
    requires c < |rings| && c < |on|
  {
    |rings[c]| > 0 && rings[c][0] == c && on[c] == c
  }

  ghost predicate TcapAt(cpus: nat, tcaps: seq<Tcap>, on: seq<int>, t: nat)
    requires t < |tcaps| && |on| == cpus + |tcaps|
  {
    TcapOk(cpus, tcaps[t], on[cpus + t])
  }

  /** A tcap changes; its place on the lists is changed to match, or was right already. */
  lemma ActiveUpdate(cpus: nat, tcaps: seq<Tcap>, rings: seq<seq<nat>>, on: seq<int>, t: nat, x: Tcap,
                     rings': seq<seq<nat>>, on': seq<int>)
    requires Active(cpus, tcaps, rings, on) && t < |tcaps| && TcapOk(cpus, x, Where(x))
    requires on' == on[cpus + t := Where(x)] && SameHeads(rings, rings')
    ensures Active(cpus, tcaps[t := x], rings', on')
  {
    var tcaps' := tcaps[t := x];
    forall c | 0 <= c < cpus ensures HeadAt(rings', on', c) {
      assert HeadAt(rings, on, c);
    }
    forall u | 0 <= u < |tcaps| ensures TcapAt(cpus, tcaps', on', u) {
      assert TcapAt(cpus, tcaps, on, u);
    }
  }

  lemma SelfHeads(cpus: nat, tcaps: seq<Tcap>, rings: seq<seq<nat>>, on: seq<int>)
    requires Active(cpus, tcaps, rings, on)
    ensures SameHeads(rings, rings)
  {
    forall c | 0 <= c < cpus ensures |rings[c]| > 0 {
      assert HeadAt(rings, on, c);
    }
  }

  lemma ActiveGrows(cpus: nat, tcaps: seq<Tcap>, rings: seq<seq<nat>>, on: seq<int>, x: Tcap)
    requires Active(cpus, tcaps, rings, on) && TcapOk(cpus, x, -1)
    ensures Active(cpus, tcaps + [x], rings, on + [-1])
  {
    var tcaps', on' := tcaps + [x], on + [-1];
    forall c | 0 <= c < cpus ensures HeadAt(rings, on', c) {
      assert HeadAt(rings, on, c);
    }
    forall u | 0 <= u < |tcaps'| ensures TcapAt(cpus, tcaps', on', u) {
      assert u < |tcaps| ==> TcapAt(cpus, tcaps, on, u);
    }
  }

  predicate CyclesSame(a: nat, b: nat, thresh: nat) {
    (if b < a then a - b else b - a) <= thresh
  }

  /** A tcap after `cycles` of execution. */
  function Consumed(t: Tcap, cycles: Res, thresh: nat): Tcap
    requires HasOwn(t)
  {
    if t.budget == INF then t
    else if cycles + thresh >= t.budget then t.(budget := 0, delegs := [Own(t)], off := 0)
    else t.(budget := t.budget - cycles)
  }

  // Ledger.

  function FiniteBudgets(tcaps: seq<Tcap>): seq<int> {
    seq(|tcaps|, t requires 0 <= t < |tcaps| => Finite(tcaps[t].budget))
  }

  lemma LedgerUpdate(tcaps: seq<Tcap>, t: nat, x: Tcap)
    requires t < |tcaps|
    ensures Sum(FiniteBudgets(tcaps[t := x])) == Sum(FiniteBudgets(tcaps)) - Finite(tcaps[t].budget) + Finite(x.budget)
  {
    SumUpdate(FiniteBudgets(tcaps), t, Finite(x.budget));
    assert FiniteBudgets(tcaps[t := x]) == FiniteBudgets(tcaps)[t := Finite(x.budget)];
  }

  lemma SchedulersUpdate(tcaps: seq<Tcap>, uids: seq<nat>, t: nat, x: Tcap)
    requires Schedulers(tcaps, uids) && t < |tcaps|
    requires x.alive ==> tcaps[t].alive && ScheduledOk(x)
    requires x.alive ==> Own(x).uid == Own(tcaps[t]).uid && x.cpuid == tcaps[t].cpuid
    ensures Schedulers(tcaps[t := x], uids)
  {
    var tcaps' := tcaps[t := x];
    forall u, v | 0 <= u < v < |tcaps| ensures DifferentOwn(tcaps'[u], tcaps'[v]) {
      assert DifferentOwn(tcaps[u], tcaps[v]);
    }
  }

  /** The tcap that each booted core started with still has all the time there is. */
  ghost predicate Rooted(cpus: nat, tcaps: seq<Tcap>, roots: seq<int>) {
    && |roots| == cpus
    && forall c :: 0 <= c < cpus && roots[c] >= 0 ==> roots[c] < |tcaps| && IsRoot(tcaps[roots[c]], c)
  }

  ghost predicate IsRoot(t: Tcap, c: nat) {
    t.alive && t.budget == INF && t.cpuid == c
  }

  /** `spent` cycles, consumed or absorbed, and those still in finite budgets are those granted. */
  ghost predicate Accounts(cpus: nat, tcaps: seq<Tcap>, uids: seq<nat>, roots: seq<int>, granted: int, spent: int) {
    && |uids| == cpus && Schedulers(tcaps, uids) && Rooted(cpus, tcaps, roots)
    && Sum(FiniteBudgets(tcaps)) + spent == granted
  }

  lemma AccountsUpdate(cpus: nat, tcaps: seq<Tcap>, uids: seq<nat>, roots: seq<int>, granted: int, spent: int,
                       t: nat, x: Tcap)
    requires Accounts(cpus, tcaps, uids, roots, granted, spent) && t < |tcaps|
    requires x.alive ==> tcaps[t].alive && ScheduledOk(x)
    requires x.alive ==> Own(x).uid == Own(tcaps[t]).uid && x.cpuid == tcaps[t].cpuid
    requires tcaps[t].budget == INF ==> x.budget == INF && x.alive == tcaps[t].alive
    ensures Accounts(cpus, tcaps[t := x], uids, roots,
                     granted, spent + Finite(tcaps[t].budget) - Finite(x.budget))
  {
    SchedulersUpdate(tcaps, uids, t, x);
    LedgerUpdate(tcaps, t, x);
    assert forall c :: IsRoot(tcaps[t], c) ==> IsRoot(x, c);
  }

  lemma AccountsTransfer(cpus: nat, tcaps: seq<Tcap>, uids: seq<nat>, roots: seq<int>, granted: int, spent: int,
                         d: nat, s: nat, bd: Res, bs: Res, grant: nat, absorb: nat)
    requires Accounts(cpus, tcaps, uids, roots, granted, spent) && d < |tcaps| && s < |tcaps| && d != s
    requires tcaps[d].budget == INF ==> bd == INF
    requires tcaps[s].budget == INF ==> bs == INF
    requires Finite(bd) + Finite(bs) + absorb == Finite(tcaps[d].budget) + Finite(tcaps[s].budget) + grant
    ensures var tcaps' := tcaps[d := tcaps[d].(budget := bd)][s := tcaps[s].(budget := bs)];
      Accounts(cpus, tcaps', uids, roots, granted + grant, spent + absorb)
  {
    var x, y := tcaps[d].(budget := bd), tcaps[s].(budget := bs);
    AccountsUpdate(cpus, tcaps, uids, roots, granted, spent, d, x);
    var spent' := spent + Finite(tcaps[d].budget) - Finite(bd);
    AccountsUpdate(cpus, tcaps[d := x], uids, roots, granted, spent', s, y);
  }

  /** The delegations of a destination after one from a source with `prio`. */
  ghost predicate Delegated(l: seq<Info>, off: nat, d: Tcap, s: Tcap, prio: nat)
    requires HasOwn(d) && HasOwn(s)
  {
    && Sorted(l) && 2 <= |l| <= MAX_DELEGATIONS && off < |l| && l[off].uid == Own(d).uid
    && Uids(l) == Uids(d.delegs) + Uids(s.delegs)
    && forall e :: e in l ==>
         if e.uid == Own(d).uid || e.uid == Own(s).uid then e.prio == prio else IsMax(e, d.delegs, s.delegs)
  }

  lemma DelegatedMerge(m: seq<Info>, si: int, d: Tcap, s: Tcap, prio: nat)
    requires HasOwn(d) && HasOwn(s) && Own(d).uid != Own(s).uid && |m| <= MAX_DELEGATIONS
    requires MergeOf(m, d.delegs, s.delegs, Own(s).uid, prio) && 0 <= si < |m| && m[si].uid == Own(d).uid
    ensures |m| >= 2 && Delegated(m[si := Info(m[si].uid, prio)], si, d, s, prio)
  {
    var l := m[si := Info(m[si].uid, prio)];
    Named(s.delegs, s.off);
    var x :| x in m && x.uid == Own(s).uid;
    SameNames(m, si, prio);
    forall e | e in l
      ensures if e.uid == Own(d).uid || e.uid == Own(s).uid then e.prio == prio else IsMax(e, d.delegs, s.delegs)
    {
      assert e == l[si] || e in m;
      assert e in m ==> MergedInfo(e, d.delegs, s.delegs, Own(s).uid, prio);
      var k :| 0 <= k < |l| && l[k] == e;
    }
  }

  lemma SameNames(m: seq<Info>, k: nat, prio: nat)
    requires k < |m|
    ensures Uids(m[k := Info(m[k].uid, prio)]) == Uids(m)
  {
    var l := m[k := Info(m[k].uid, prio)];
    forall u | u in Uids(m) ensures u in Uids(l) {
      var x :| x in m && x.uid == u;
      var i :| 0 <= i < |m| && m[i] == x;
      Named(l, i);
    }
    forall u | u in Uids(l) ensures u in Uids(m) {
      var x :| x in l && x.uid == u;
      var i :| 0 <= i < |l| && l[i] == x;
      Named(m, i);
    }
  }

  lemma OwnsDiffer(tcaps: seq<Tcap>, uids: seq<nat>, t: nat, u: nat)
    requires Schedulers(tcaps, uids) && t < |tcaps| && u < |tcaps| && t != u && tcaps[t].alive && tcaps[u].alive
    requires tcaps[t].cpuid == tcaps[u].cpuid
    ensures HasOwn(tcaps[t]) && HasOwn(tcaps[u]) && Own(tcaps[t]).uid != Own(tcaps[u]).uid
  {
    assert if t < u then DifferentOwn(tcaps[t], tcaps[u]) else DifferentOwn(tcaps[u], tcaps[t]);
  }

  /** What a failed delegation may leave behind: a new priority of the source's own scheduler. */
  ghost predicate OnlyPrio(before: seq<Tcap>, after: seq<Tcap>, src: nat, prio: nat) {
    && src < |before| && HasOwn(before[src])
    && (after == before || after == before[src := WithOwnPrio(before[src], prio)])
  }

  /** When a delegation between two tcaps fails. */
  ghost function Verdict(d: Tcap, s: Tcap, cycles: Res): Error {
    if |Uids(d.delegs) + Uids(s.delegs)| > MAX_DELEGATIONS then NoMem
    else if cycles == INF && s.budget != INF then Inval
    else None
  }

  ghost predicate Installed(before: seq<Tcap>, after: seq<Tcap>, dst: nat, src: nat, cycles: Res, l: seq<Info>,
                            off: nat, prio: nat) {
    && dst < |before| == |after| && src < |before| && dst != src
    && after[dst] == before[dst].(budget := after[dst].budget, delegs := l, off := off, permPrio := prio)
    && after[src] == before[src].(budget := after[src].budget)
    && Transferred(before[dst].budget, before[src].budget, cycles, after[dst].budget, after[src].budget)
    && forall t :: 0 <= t < |before| && t != dst && t != src ==> after[t] == before[t]
  }

  /** What a delegation does: the lists merged, the cycles moved, and nothing else. */
  ghost predicate AfterDelegation(before: seq<Tcap>, after: seq<Tcap>, dst: nat, src: nat, cycles: Res, prio: nat) {
    && dst < |before| == |after| && src < |before| && dst != src && HasOwn(before[dst]) && HasOwn(before[src])
    && var d, s, d', s' := before[dst], before[src], after[dst], after[src];
    && Delegated(d'.delegs, d'.off, d, s, prio)
    && d' == d.(budget := d'.budget, delegs := d'.delegs, off := d'.off, permPrio := prio)
    && s' == (if Own(s).uid in Uids(d.delegs) then s else WithOwnPrio(s, prio)).(budget := s'.budget)
    && Transferred(d.budget, s.budget, cycles, d'.budget, s'.budget)
    && forall t :: 0 <= t < |before| && t != dst && t != src ==> after[t] == before[t]
  }

  lemma DelegationDone(before: seq<Tcap>, mid: seq<Tcap>, after: seq<Tcap>, dst: nat, src: nat, cycles: Res,
                       l: seq<Info>, off: nat, prio: nat)
    requires dst < |before| && src < |before| && dst != src && HasOwn(before[dst]) && HasOwn(before[src])
    requires mid == if Own(before[src]).uid in Uids(before[dst].delegs) then before
                    else before[src := WithOwnPrio(before[src], prio)]
    requires Delegated(l, off, before[dst], before[src], prio) && Installed(mid, after, dst, src, cycles, l, off, prio)
    ensures AfterDelegation(before, after, dst, src, cycles, prio)
  {
  }

  /** What a merge does: all cycles moved and the lists merged, and the emptied tcap deleted. */
  ghost predicate AfterMerge(before: seq<Tcap>, after: seq<Tcap>, dst: nat, rm: nat) {
    && dst < |before| == |after| && rm < |before| && dst != rm && HasOwn(before[dst]) && HasOwn(before[rm])
    && after[rm] == Deleted(after[rm])
    && var d, s, d' := before[dst], before[rm], after[dst];
    && Delegated(d'.delegs, d'.off, d, s, PrioOr(Own(d).prio, s))
    && d'.budget == (if d.budget == INF || s.budget == INF then INF
                     else if d.budget + s.budget <= MAX then d.budget + s.budget else MAX)
    && forall t :: 0 <= t < |before| && t != dst && t != rm ==> after[t] == before[t]
  }

  /** A delegation of everything, and then the deletion of its source. */
  lemma MergeMoves(before: seq<Tcap>, mid: seq<Tcap>, after: seq<Tcap>, dst: nat, rm: nat)
    requires dst < |before| && rm < |before| && HasOwn(before[dst]) && HasOwn(before[rm])
    requires AfterDelegation(before, mid, dst, rm, 0, PrioOr(Own(before[dst]).prio, before[rm]))
    requires after == mid[rm := Deleted(mid[rm])]
    ensures AfterMerge(before, after, dst, rm)
  {
  }

  datatype Error = None | NoMem | Inval | Perm

  class TcapSystem {
    const cpus: nat
    /** chal_cyc_thresh: budgets this close to what was used count as used up. */
    const thresh: nat
    const links: Links
    var tcaps: seq<Tcap>
    var uids: seq<nat>
    /** The tcap each core was booted with, if it was. */
    ghost var roots: seq<int>
    ghost var granted: int
    ghost var consumed: int
    ghost var absorbed: int

    constructor (cpus: nat, thresh: nat)
      ensures Valid() && this.cpus == cpus && this.thresh == thresh && tcaps == [] && fresh(links)
      ensures roots == seq(cpus, _ => -1) && uids == seq(cpus, _ => 0) && granted == consumed == absorbed == 0
    {
      this.cpus, this.thresh := cpus, thresh;
      links := new Links();
      tcaps, uids := [], seq(cpus, _ => 0);
      roots := seq(cpus, _ => -1);
      granted, consumed, absorbed := 0, 0, 0;
      new;
      var i := 0;
      while i < cpus
        modifies links
        invariant 0 <= i <= cpus && links.Valid() && |links.on| == |links.rings| == i
        invariant forall c :: 0 <= c < i ==> links.rings[c] == [c] && links.on[c] == c
      {
        var _ := links.HeadInit();
        i := i + 1;
      }
    }

    ghost predicate Listed()
      reads this`tcaps, links
    {
      links.Valid() && Active(cpus, tcaps, links.rings, links.on)
    }

    ghost predicate Valid()
      reads this, links
    {
      Listed() && Accounts(cpus, tcaps, uids, roots, granted, consumed + absorbed)
    }

    predicate IsActive(t: nat)
      requires cpus + t < |links.next|
      reads links
    {
      !links.Empty(cpus + t)
    }

    /** The kernel's test for activity is a test for budget. */
    lemma ActiveIffBudget(t: nat)
      requires Listed() && t < |tcaps|
      ensures IsActive(t) <==> tcaps[t].budget != 0
    {
      assert TcapAt(cpus, tcaps, links.on, t);
      NoHead(t);
      links.EmptyMeans(cpus + t);
    }

    /** tcap_activate: __tcap_init of fresh memory. */
    method Activate(cpu: nat) returns (t: nat)
      requires Valid() && cpu < cpus
      modifies this`tcaps, this`uids, links
      ensures Valid() && t == |old(tcaps)| && |tcaps| == t + 1 && tcaps[..t] == old(tcaps)
      ensures tcaps[t] == Tcap(true, false, 1, 0, cpu, [Info(old(uids)[cpu], 0)], 0, 0)
      ensures uids == old(uids)[cpu := old(uids)[cpu] + 1]
    {
      t := |tcaps|;
      var x := Tcap(true, false, 1, 0, cpu, [Info(uids[cpu], 0)], 0, 0);
      ActiveGrows(cpus, tcaps, links.rings, links.on, x);
      ActivateAccounts(cpus, tcaps, uids, roots, granted, consumed + absorbed, x);
      tcaps := tcaps + [x];
      uids := uids[cpu := uids[cpu] + 1];
      var _ := links.Init();
    }

    /** The tcap a core boots with has all the time there is. */
    method Boot(cpu: nat) returns (t: nat)
      requires Valid() && cpu < cpus && roots[cpu] < 0
      modifies this, links
      ensures Valid() && t == |old(tcaps)| && |tcaps| == t + 1 && tcaps[..t] == old(tcaps)
      ensures tcaps[t] == Tcap(true, false, 1, INF, cpu, [Info(old(uids)[cpu], 0)], 0, 0)
      ensures roots == old(roots)[cpu := t] && uids == old(uids)[cpu := old(uids)[cpu] + 1]
    {
      t := Activate(cpu);
      var x := tcaps[t].(budget := INF);
      assert TcapAt(cpus, tcaps, links.on, t) && HeadAt(links.rings, links.on, cpu);
      AccountsUpdate(cpus, tcaps, uids, roots, granted, consumed + absorbed, t, x);
      ghost var rings, on := links.rings, links.on;
      links.Enqueue(cpu, cpus + t);
      ActiveUpdate(cpus, tcaps, rings, on, t, x, links.rings, links.on);
      tcaps := tcaps[t := x];
      roots := roots[cpu := t];
    }

    /** tcap_active_rem of a tcap that becomes x, which has no budget. */
    method ActiveRem(t: nat, x: Tcap)
      requires Listed() && t < |tcaps| && x.budget == 0 && x.cpuid == tcaps[t].cpuid
      modifies this`tcaps, links
      ensures Listed() && tcaps == old(tcaps)[t := x]
    {
      assert TcapAt(cpus, tcaps, links.on, t);
      NoHead(t);
      ghost var rings, on := links.rings, links.on;
      var _ := links.Rem(cpus + t);
      ActiveUpdate(cpus, tcaps, rings, on, t, x, links.rings, links.on);
      tcaps := tcaps[t := x];
    }

    /** tcap_active_add_before of a tcap that becomes x, which has budget. */
    method ActiveAddBefore(s: nat, t: nat, x: Tcap)
      requires Listed() && s < |tcaps| && t < |tcaps| && tcaps[s].budget != 0 == tcaps[t].budget && x.budget != 0
      requires x.alive && x.cpuid == tcaps[t].cpuid == tcaps[s].cpuid
      modifies this`tcaps, links
      ensures Listed() && tcaps == old(tcaps)[t := x] && cpus + t < |links.next| && links.next[cpus + t] == cpus + s
    {
      assert TcapAt(cpus, tcaps, links.on, t) && TcapAt(cpus, tcaps, links.on, s);
      ghost var rings, on := links.rings, links.on;
      ghost var _ := links.AddBefore(cpus + s, cpus + t);
      ActiveUpdate(cpus, tcaps, rings, on, t, x, links.rings, links.on);
      tcaps := tcaps[t := x];
    }

    /** The budget, the priority or the delegations of a linked, or of an unlinked, tcap change. */
    method Change(t: nat, x: Tcap)
      requires Listed() && t < |tcaps| && Where(x) == Where(tcaps[t]) && x.cpuid == tcaps[t].cpuid
      requires x.alive == tcaps[t].alive
      modifies this`tcaps
      ensures Listed() && tcaps == old(tcaps)[t := x]
    {
      assert TcapAt(cpus, tcaps, links.on, t);
      SelfHeads(cpus, tcaps, links.rings, links.on);
      assert links.on[cpus + t := Where(x)] == links.on;
      ActiveUpdate(cpus, tcaps, links.rings, links.on, t, x, links.rings, links.on);
      tcaps := tcaps[t := x];
    }

    /** The node of a tcap starts no list. */
    lemma NoHead(t: nat)
      requires Listed() && t < |tcaps|
      ensures !links.IsHead(cpus + t)
    {
      var h := links.on[cpus + t];
      if 0 <= h < cpus {
        assert HeadAt(links.rings, links.on, h);
      }
    }

    /** A finite budget shrinks; a tcap without budget leaves the active list. */
    method Spend(t: nat, x: Tcap)
      requires Valid() && t < |tcaps| && tcaps[t].alive && tcaps[t].budget != INF && x.budget <= tcaps[t].budget
      requires x.budget != 0 || x == tcaps[t].(budget := 0, delegs := [Own(tcaps[t])], off := 0)
      requires x.budget == 0 || x == tcaps[t].(budget := x.budget)
      modifies this`tcaps, this`consumed, links
      ensures Valid() && tcaps == old(tcaps)[t := x]
      ensures consumed == old(consumed) + old(tcaps)[t].budget - x.budget
    {
      AccountsUpdate(cpus, tcaps, uids, roots, granted, consumed + absorbed, t, x);
      consumed := consumed + tcaps[t].budget - x.budget;
      if x.budget == 0 {
        ActiveRem(t, x);
      } else {
        Change(t, x);
      }
    }

    /** The budget that is left; a tcap that has none keeps only its own scheduler. */
    method Consume(t: nat, cycles: Res) returns (left: Res)
      requires Valid() && t < |tcaps| && tcaps[t].alive
      modifies this`tcaps, this`consumed, links
      ensures Valid() && |tcaps| == |old(tcaps)| && tcaps == old(tcaps)[t := tcaps[t]]
      ensures tcaps[t] == Consumed(old(tcaps)[t], cycles, thresh)
      ensures consumed == old(consumed) + Finite(old(tcaps)[t].budget) - Finite(tcaps[t].budget)
      ensures left == Finite(tcaps[t].budget)
    {
      var x := tcaps[t];
      if x.budget == INF {
        return 0;
      }
      if cycles >= x.budget || CyclesSame(cycles, x.budget, thresh) {
        Spend(t, x.(budget := 0, delegs := [Own(x)], off := 0));
      } else {
        Spend(t, x.(budget := x.budget - cycles));
      }
      left := tcaps[t].budget;
    }

    /** Writes the budgets of a transfer and links or unlinks its two tcaps. */
    method Relink(d: nat, s: nat, bd: Res, bs: Res)
      requires Listed() && d < |tcaps| && s < |tcaps| && d != s && tcaps[d].alive && tcaps[s].alive
      requires tcaps[s].budget != 0 && bd != 0 && tcaps[d].cpuid == tcaps[s].cpuid
      modifies this`tcaps, links
      ensures Listed()
      ensures tcaps == old(tcaps)[d := old(tcaps)[d].(budget := bd)][s := old(tcaps)[s].(budget := bs)]
      ensures bs != 0 ==> LinkedBefore(old(links.next), links.next, cpus + d, cpus + s, old(tcaps)[d].budget != 0)
    {
      var x, y := tcaps[d].(budget := bd), tcaps[s].(budget := bs);
      ActiveIffBudget(d);
      if !IsActive(d) {
        ActiveAddBefore(s, d, x);
      } else {
        Change(d, x);
      }
      if bs == 0 {
        ActiveRem(s, y);
      } else {
        Change(s, y);
      }
    }

    method Settle(d: nat, s: nat, bd: Res, bs: Res, ghost grant: nat, ghost absorb: nat)
      requires Valid() && d < |tcaps| && s < |tcaps| && d != s && tcaps[d].alive && tcaps[s].alive
      requires tcaps[s].budget != 0 && bd != 0 && tcaps[d].cpuid == tcaps[s].cpuid
      requires (tcaps[d].budget == INF ==> bd == INF) && (tcaps[s].budget == INF ==> bs == INF)
      requires Finite(bd) + Finite(bs) + absorb == Finite(tcaps[d].budget) + Finite(tcaps[s].budget) + grant
      modifies this`tcaps, this`granted, this`absorbed, links
      ensures Valid() && granted == old(granted) + grant && absorbed == old(absorbed) + absorb
      ensures tcaps == old(tcaps)[d := old(tcaps)[d].(budget := bd)][s := old(tcaps)[s].(budget := bs)]
      ensures bs != 0 ==> LinkedBefore(old(links.next), links.next, cpus + d, cpus + s, old(tcaps)[d].budget != 0)
    {
      AccountsTransfer(cpus, tcaps, uids, roots, granted, consumed + absorbed, d, s, bd, bs, grant, absorb);
      Relink(d, s, bd, bs);
      granted := granted + grant;
      absorbed := absorbed + absorb;
    }

    /** A core may only move budget between its own tcaps, and infinity only from infinity. */
    method BudgetXfer(cpu: nat, d: nat, s: nat, cycles: Res) returns (ok: bool)
      requires Valid() && d < |tcaps| && s < |tcaps| && d != s && tcaps[d].alive && tcaps[s].alive
      requires tcaps[s].budget != 0
      modifies this`tcaps, this`granted, this`absorbed, links
      ensures Valid() && |tcaps| == |old(tcaps)|
      ensures tcaps == old(tcaps)[d := old(tcaps)[d].(budget := tcaps[d].budget)]
                                 [s := old(tcaps)[s].(budget := tcaps[s].budget)]
      ensures ok <==> && old(tcaps)[s].cpuid == cpu == old(tcaps)[d].cpuid
                      && (Asked(old(tcaps)[s].budget, cycles) == INF ==> old(tcaps)[s].budget == INF)
      ensures !ok ==> tcaps == old(tcaps) && unchanged(links)
      ensures ok ==> var bd, bs := old(tcaps)[d].budget, old(tcaps)[s].budget;
        && Transferred(bd, bs, cycles, tcaps[d].budget, tcaps[s].budget)
        && granted == old(granted) + Granted(bd, bs, cycles) && absorbed == old(absorbed) + Absorbed(bd, bs, cycles)
        && (tcaps[s].budget != 0 ==> LinkedBefore(old(links.next), links.next, cpus + d, cpus + s, bd != 0))
    {
      var x, y := tcaps[d], tcaps[s];
      if y.cpuid != cpu || x.cpuid != y.cpuid {
        return false;
      }
      var bd', bs';
      ok, bd', bs' := Transfer(x.budget, y.budget, cycles);
      if !ok {
        return;
      }
      ghost var grant, absorb := Granted(x.budget, y.budget, cycles), Absorbed(x.budget, y.budget, cycles);
      Settle(d, s, bd', bs', grant, absorb);
    }

    /** A change to a tcap that leaves its budget and its scheduler alone. */
    method Update(t: nat, x: Tcap)
      requires Valid() && t < |tcaps| && tcaps[t].alive && x.alive && x.budget == tcaps[t].budget
      requires ScheduledOk(x) && Own(x).uid == Own(tcaps[t]).uid && x.cpuid == tcaps[t].cpuid
      modifies this`tcaps
      ensures Valid() && tcaps == old(tcaps)[t := x]
    {
      AccountsUpdate(cpus, tcaps, uids, roots, granted, consumed + absorbed, t, x);
      Change(t, x);
    }

    /** The merge, which also gives the source's own scheduler its new priority unless the
        destination lists that scheduler too. */
    method MergeInto(dst: nat, src: nat, prio: nat) returns (ok: bool, merged: seq<Info>, si: int)
      requires Valid() && dst < |tcaps| && src < |tcaps| && tcaps[dst].alive && tcaps[src].alive
      modifies this`tcaps
      ensures Valid() && OnlyPrio(old(tcaps), tcaps, src, prio)
      ensures ok <==> |Uids(old(tcaps)[dst].delegs) + Uids(old(tcaps)[src].delegs)| <= MAX_DELEGATIONS
      ensures ok ==> tcaps == if Own(old(tcaps)[src]).uid in Uids(old(tcaps)[dst].delegs) then old(tcaps)
                              else old(tcaps)[src := WithOwnPrio(old(tcaps)[src], prio)]
      ensures ok ==> |merged| <= MAX_DELEGATIONS && 0 <= si < |merged| && merged[si].uid == Own(old(tcaps)[dst]).uid
      ensures ok ==> MergeOf(merged, old(tcaps)[dst].delegs, old(tcaps)[src].delegs, Own(old(tcaps)[src]).uid, prio)
    {
      var x, y := tcaps[dst], tcaps[src];
      var dl, sl;
      ok, merged, si, dl, sl := MergeDelegations(x.delegs, y.delegs, Own(x).uid, y.off, prio);
      Named(x.delegs, x.off);
      Update(src, y.(delegs := sl));
      assert y.(delegs := y.delegs) == y && tcaps[src := y] == old(tcaps);
    }

    /** Gives a tcap its merged delegations and its new priority. */
    method Rename(t: nat, l: seq<Info>, off: nat, prio: nat)
      requires Valid() && t < |tcaps| && tcaps[t].alive && Sorted(l) && |l| <= MAX_DELEGATIONS
      requires off < |l| && l[off].uid == Own(tcaps[t]).uid
      modifies this`tcaps
      ensures Valid() && |tcaps| == |old(tcaps)| && forall u :: 0 <= u < |tcaps| && u != t ==> tcaps[u] == old(tcaps)[u]
      ensures tcaps[t] == old(tcaps)[t].(delegs := l, off := off, permPrio := prio)
    {
      Update(t, tcaps[t].(delegs := l, off := off, permPrio := prio));
    }

    /** tcap_promote: the tcap is bound to a receive end-point. */
    method Promote(t: nat)
      requires Valid() && t < |tcaps| && tcaps[t].alive
      modifies this`tcaps
      ensures Valid() && tcaps == old(tcaps)[t := old(tcaps)[t].(bound := true)]
    {
      Update(t, tcaps[t].(bound := true));
    }

    /** An end-point that stops to use the tcap takes it off the one it was bound to. */
    method Demote(t: nat)
      requires Valid() && t < |tcaps| && tcaps[t].alive
      modifies this`tcaps
      ensures Valid() && tcaps == old(tcaps)[t := old(tcaps)[t].(bound := false)]
    {
      Update(t, tcaps[t].(bound := false));
    }

    /** tcap_ref_take and tcap_ref_release, of a reference that was taken. */
    method Refer(t: nat, take: bool)
      requires Valid() && t < |tcaps| && tcaps[t].alive && (!take ==> tcaps[t].refcnt > 1)
      modifies this`tcaps
      ensures Valid()
      ensures tcaps == old(tcaps)[t := old(tcaps)[t].(refcnt := old(tcaps)[t].refcnt + if take then 1 else -1)]
    {
      Update(t, tcaps[t].(refcnt := tcaps[t].refcnt + if take then 1 else -1));
    }

    /** Moves the cycles and then installs the merged list. */
    method Install(cpu: nat, dst: nat, src: nat, cycles: Res, l: seq<Info>, off: nat, prio: nat) returns (ok: bool)
      requires Valid() && dst < |tcaps| && src < |tcaps| && dst != src && tcaps[dst].alive && tcaps[src].alive
      requires tcaps[src].cpuid == cpu == tcaps[dst].cpuid && tcaps[src].budget != 0
      requires Sorted(l) && |l| <= MAX_DELEGATIONS && off < |l| && l[off].uid == Own(tcaps[dst]).uid
      modifies this`tcaps, this`granted, this`absorbed, links
      ensures Valid() && (ok <==> (cycles == INF ==> old(tcaps)[src].budget == INF))
      ensures !ok ==> tcaps == old(tcaps) && unchanged(links)
      ensures ok ==> Installed(old(tcaps), tcaps, dst, src, cycles, l, off, prio)
      ensures ok && tcaps[src].budget != 0 ==>
        LinkedBefore(old(links.next), links.next, cpus + dst, cpus + src, old(tcaps)[dst].budget != 0)
    {
      ok := BudgetXfer(cpu, dst, src, cycles);
      if ok {
        Rename(dst, l, off, prio);
      }
    }

    /** tcap_delegate between two tcaps of this core, of which the source has budget. */
    method DelegateTo(cpu: nat, dst: nat, src: nat, cycles: Res, prio: nat) returns (r: Error)
      requires Valid() && dst < |tcaps| && src < |tcaps| && dst != src && tcaps[dst].alive && tcaps[src].alive
      requires tcaps[src].cpuid == cpu == tcaps[dst].cpuid && tcaps[src].budget != 0
      modifies this`tcaps, this`granted, this`absorbed, links
      ensures Valid()
      ensures r == Verdict(old(tcaps)[dst], old(tcaps)[src], cycles)
      ensures r != None ==> unchanged(links) && OnlyPrio(old(tcaps), tcaps, src, prio)
      ensures r == None ==> AfterDelegation(old(tcaps), tcaps, dst, src, cycles, prio)
      ensures r == None && tcaps[src].budget != 0 ==>
        LinkedBefore(old(links.next), links.next, cpus + dst, cpus + src, old(tcaps)[dst].budget != 0)
    {
      var x, y := tcaps[dst], tcaps[src];
      OwnsDiffer(tcaps, uids, dst, src);
      var ok, merged, si := MergeInto(dst, src, prio);
      if !ok {
        return NoMem;
      }
      DelegatedMerge(merged, si, x, y, prio);
      assert |merged| >= 2;
      assert si != -1;
      ghost var mid := tcaps;
      var l := merged[si := Info(merged[si].uid, prio)];
      ok := Install(cpu, dst, src, cycles, l, si, prio);
      if !ok {
        return Inval;
      }
      DelegationDone(old(tcaps), mid, tcaps, dst, src, cycles, l, si, prio);
      return None;
    }

    /** tcap_delegate.  On an error no budget, no scheduler and no list has changed. */
    method Delegate(cpu: nat, dst: nat, src: nat, cycles: Res, prio: nat) returns (r: Error)
      requires Valid() && dst < |tcaps| && src < |tcaps| && tcaps[dst].alive && tcaps[src].alive && tcaps[dst].bound
      modifies this`tcaps, this`granted, this`absorbed, links
      ensures Valid()
      ensures var d, s := old(tcaps)[dst], old(tcaps)[src];
        && r == (if s.cpuid != cpu || d.cpuid != s.cpuid then Inval else if s.budget == 0 then Perm
                 else if dst == src then None else Verdict(d, s, cycles))
        && (r != None ==> unchanged(links)
                          && OnlyPrio(old(tcaps), tcaps, src, PrioOr(prio, s)))
        && (r == None ==> if dst == src then tcaps == old(tcaps)[dst := WithOwnPrio(d, prio).(permPrio := prio)]
                          else AfterDelegation(old(tcaps), tcaps, dst, src, cycles, PrioOr(prio, s)))
        && (r == None && dst != src && tcaps[src].budget != 0 ==>
              LinkedBefore(old(links.next), links.next, cpus + dst, cpus + src, d.budget != 0))
    {
      if tcaps[src].cpuid != cpu || tcaps[dst].cpuid != tcaps[src].cpuid {
        return Inval;
      }
      ActiveIffBudget(src);
      if !IsActive(src) {
        return Perm;
      }
      if dst == src {
        Update(dst, WithOwnPrio(tcaps[dst], prio).(permPrio := prio));
        return None;
      }
      r := DelegateTo(cpu, dst, src, cycles, PrioOr(prio, tcaps[src]));
    }

    /** tcap_delete, of a tcap nobody else refers to, leaves the links alone: all stays well just when
        the tcap had no budget. */
    method Delete(t: nat) returns (ok: bool)
      requires Valid() && t < |tcaps|
      modifies this`tcaps
      ensures ok <==> old(tcaps)[t].refcnt == 1
      ensures tcaps == (if ok then old(tcaps)[t := Deleted(old(tcaps)[t])] else old(tcaps)) && cpus + t < |links.next|
      ensures Valid() <==> !ok || old(tcaps)[t].budget == 0
      ensures IsActive(t) <==> old(tcaps)[t].budget != 0
    {
      ActiveIffBudget(t);
      if tcaps[t].refcnt != 1 {
        return false;
      }
      if tcaps[t].budget == 0 {
        assert TcapAt(cpus, tcaps, links.on, t);
        SelfHeads(cpus, tcaps, links.rings, links.on);
        assert links.on[cpus + t := -1] == links.on;
        ActiveUpdate(cpus, tcaps, links.rings, links.on, t, Deleted(tcaps[t]), links.rings, links.on);
        AccountsUpdate(cpus, tcaps, uids, roots, granted, consumed + absorbed, t, Deleted(tcaps[t]));
      }
      tcaps := tcaps[t := Deleted(tcaps[t])];
      if Listed() {
        ActiveIffBudget(t);
      }
      return true;
    }

    /** tcap_merge.  A tcap with a finite budget is emptied before it goes.  One with an infinite budget
        is deleted while it is linked, so the list then holds a tcap without budget. */
    method Merge(cpu: nat, dst: nat, rm: nat) returns (ok: bool)
      requires Valid() && dst < |tcaps| && rm < |tcaps| && tcaps[dst].alive && tcaps[rm].alive && tcaps[dst].bound
      modifies this`tcaps, this`granted, this`absorbed, links
      ensures ok ==> AfterMerge(old(tcaps), tcaps, dst, rm) && cpus + rm < |links.next|
      ensures ok ==> (Valid() <==> old(tcaps)[rm].budget != INF)
      ensures ok ==> (IsActive(rm) <==> old(tcaps)[rm].budget == INF)
      ensures ok && old(tcaps)[rm].budget == INF ==>
        LinkedBefore(old(links.next), links.next, cpus + dst, cpus + rm, old(tcaps)[dst].budget != 0)
      ensures var d, s := old(tcaps)[dst], old(tcaps)[rm];
        && (ok <==> && dst != rm && s.refcnt <= 1 && s.cpuid == cpu == d.cpuid && s.budget != 0
                    && |Uids(d.delegs) + Uids(s.delegs)| <= MAX_DELEGATIONS)
        && (!ok ==> Valid() && unchanged(links) && OnlyPrio(old(tcaps), tcaps, rm, PrioOr(Own(d).prio, s)))
    {
      if dst == rm {
        return false;
      }
      if tcaps[rm].refcnt > 1 {
        return false;
      }
      var r := Delegate(cpu, dst, rm, 0, Own(tcaps[dst]).prio);
      if r != None {
        return false;
      }
      ghost var mid := tcaps;
      ok := Delete(rm);
      MergeMoves(old(tcaps), mid, tcaps, dst, rm);
    }

    method HigherPrio(a: nat, c: nat) returns (r: bool)
      requires Valid() && a < |tcaps| && c < |tcaps| && tcaps[a].alive && tcaps[c].alive
      ensures r <==> tcaps[a].budget != 0 && (a == c || NoWorse(tcaps[a].delegs, tcaps[c].delegs))
    {
      if tcaps[a].budget == 0 {
        return false;
      }
      if a == c {
        return true;
      }
      r := Walk(tcaps[a].delegs, tcaps[c].delegs);
    }

    /** The first tcap on a core's list, or -1. */
    method ActiveNext(cpu: nat) returns (t: int)
      requires Valid() && cpu < cpus
      ensures t == -1 || (0 <= t < |tcaps| && tcaps[t].alive && tcaps[t].budget != 0 && tcaps[t].cpuid == cpu)
      ensures roots[cpu] >= 0 ==> t != -1
    {
      ghost var r := links.rings[cpu];
      assert HeadAt(links.rings, links.on, cpu) && RingOf(links.next, links.prev, r, links.on, cpu);
      assert Linked(links.next, links.prev, r, 0);
      var n := links.next[cpu];
      assert n in r;
      if n < cpus {
        assert HeadAt(links.rings, links.on, n);
      }
      if roots[cpu] >= 0 {
        RootIsListed(cpu);
      }
      if n == cpu {
        t := -1;
      } else {
        t := n - cpus;
        assert TcapAt(cpus, tcaps, links.on, t);
      }
    }

    lemma RootIsListed(cpu: nat)
      requires Valid() && cpu < cpus && roots[cpu] >= 0
      ensures |links.rings[cpu]| > 1
    {
      var t := roots[cpu];
      assert IsRoot(tcaps[t], cpu) && TcapAt(cpus, tcaps, links.on, t) && HeadAt(links.rings, links.on, cpu);
      assert NodeOf(links.next, links.prev, links.rings, links.on[cpus + t], cpus + t);
    }

    /** tcap_budgets_update: whether the cycles since the last update use up the current tcap. */
    method BudgetsUpdate(curr: nat, elapsed: nat) returns (expended: bool)
      requires Valid() && curr < |tcaps| && tcaps[curr].alive
      modifies this`tcaps, this`consumed, links
      ensures Valid() && |tcaps| == |old(tcaps)| && tcaps == old(tcaps)[curr := tcaps[curr]]
      ensures tcaps[curr] == Consumed(old(tcaps)[curr], Low32(elapsed), thresh)
      ensures expended <==> tcaps[curr].budget == 0
    {
      var _ := Consume(curr, Low32(elapsed));
      expended := tcaps[curr].budget == 0;
    }

    /** Where cap_update looks for a tcap once the current one is expended.  A core that has booted
        always finds one with budget. */
    method ChooseNext(cpu: nat, curr: nat, next: nat) returns (chosen: nat)
      requires Valid() && cpu < cpus && roots[cpu] >= 0 && curr < |tcaps| && next < |tcaps|
      requires tcaps[curr].budget == 0
      ensures Valid() && chosen < |tcaps| && tcaps[chosen].budget != 0
      ensures if tcaps[next].budget != 0 then chosen == next else tcaps[chosen].alive && tcaps[chosen].cpuid == cpu
    {
      ActiveIffBudget(curr);
      assert !IsActive(curr);
      chosen := next;
      if tcaps[next].budget == 0 {
        var t := ActiveNext(cpu);
        assert t != -1 && tcaps[t].budget != 0;
        chosen := t;
      }
    }

    /** The part of cap_update that charges the current tcap and chooses the next one. */
    method CapUpdate(cpu: nat, curr: nat, next: nat, elapsed: nat) returns (chosen: nat)
      requires Valid() && cpu < cpus && roots[cpu] >= 0 && curr < |tcaps| && tcaps[curr].alive && next < |tcaps|
      modifies this`tcaps, this`consumed, links
      ensures Valid() && |tcaps| == |old(tcaps)| && chosen < |tcaps|
      ensures tcaps[curr].budget == Consumed(old(tcaps)[curr], Low32(elapsed), thresh).budget
      ensures if tcaps[curr].budget == 0 then tcaps[chosen].budget != 0 else chosen == next
    {
      var expended := BudgetsUpdate(curr, elapsed);
      chosen := next;
      if expended {
        chosen := ChooseNext(cpu, curr, next);
      }
      CurrentSet(curr);
    }

    /** tcap_current_set: a transient priority ends with the switch. */
    method CurrentSet(curr: nat)
      requires Valid() && curr < |tcaps| && tcaps[curr].alive
      modifies this`tcaps
      ensures Valid() && tcaps == old(tcaps)[curr := WithOwnPrio(old(tcaps)[curr], old(tcaps)[curr].permPrio)]
    {
      var x := tcaps[curr];
      if x.permPrio != Own(x).prio {
        Update(curr, WithOwnPrio(x, x.permPrio));
      } else {
        assert WithOwnPrio(x, x.permPrio) == x;
      }
    }
  }

  /** The 32 bits of a cycle count that tcap_consume is passed. */
  function Low32(x: nat): Res {
    x % WORD
  }

  /** The priority asked for, or the source's own. */
  function PrioOr(prio: nat, s: Tcap): nat
    requires HasOwn(s)
  {
    if prio == 0 then Own(s).prio else prio
  }

  function Deleted(t: Tcap): Tcap {
    t.(alive := false, budget := 0, cpuid := 0, delegs := [], off := 0, permPrio := 0)
  }

  lemma ActivateAccounts(cpus: nat, tcaps: seq<Tcap>, uids: seq<nat>, roots: seq<int>, granted: int, spent: int,
                         x: Tcap)
    requires Accounts(cpus, tcaps, uids, roots, granted, spent) && x.alive && x.cpuid < cpus && x.budget == 0
    requires ScheduledOk(x) && Own(x).uid == uids[x.cpuid]
    ensures Accounts(cpus, tcaps + [x], uids[x.cpuid := uids[x.cpuid] + 1], roots, granted, spent)
  {
    var tcaps' := tcaps + [x];
    forall u, v | 0 <= u < v < |tcaps'| ensures DifferentOwn(tcaps'[u], tcaps'[v]) {
      assert v < |tcaps| ==> DifferentOwn(tcaps[u], tcaps[v]);
    }
    SumSnoc(FiniteBudgets(tcaps), 0);
    assert FiniteBudgets(tcaps + [x]) == FiniteBudgets(tcaps) + [0];
  }

  // A tcap that is deleted while it is linked.

  /** Three nodes on one list: the head comes before the one that does not come before the head. */
  lemma FirstOfTwo(s: TcapSystem)
    requires s.cpus == 1 && |s.tcaps| == 2 && s.Listed() && s.tcaps[0].budget != 0 && s.tcaps[1].budget != 0
    requires |s.links.next| == 3 && s.links.next[2] == 1
    ensures s.links.next[0] == 2
  {
    var r := s.links.rings[0];
    assert HeadAt(s.links.rings, s.links.on, 0);
    assert TcapAt(1, s.tcaps, s.links.on, 0) && TcapAt(1, s.tcaps, s.links.on, 1);
    assert RingOf(s.links.next, s.links.prev, r, s.links.on, 0) && Linked(s.links.next, s.links.prev, r, 0);
    assert NodeOf(s.links.next, s.links.prev, s.links.rings, 0, 2);
    var k :| 0 <= k < |r| && r[k] == 2;
    assert Linked(s.links.next, s.links.prev, r, k);
    assert k + 1 < |r| && r[k + 1] == 1;
    assert r[1] in r && r[0] != r[1];
  }

  /** The root and a tcap without budget, each bound to an end-point; the latter is used by one more. */
  method RootAndTcap() returns (s: TcapSystem)
    ensures fresh(s) && fresh(s.links) && s.Valid() && s.cpus == 1
    ensures s.tcaps == [Tcap(true, true, 2, INF, 0, [Info(0, 0)], 0, 0), Tcap(true, true, 3, 0, 0, [Info(1, 0)], 0, 0)]
  {
    s := new TcapSystem(1, 0);
    var root := s.Boot(0);
    s.Refer(root, true);
    s.Promote(root);
    var t := s.Activate(0);
    s.Refer(t, true);
    s.Promote(t);
    s.Refer(t, true);
  }

  /** A tcap that gets the infinite budget of the root is linked before it. */
  method InfiniteTcap() returns (s: TcapSystem)
    ensures fresh(s) && fresh(s.links) && s.Valid() && s.cpus == 1 && |s.tcaps| == 2 && |s.links.next| == 3
    ensures s.tcaps[0] == Tcap(true, true, 2, INF, 0, [Info(0, 0)], 0, 0)
    ensures var t := s.tcaps[1];
      && t.alive && t.refcnt == 3 && t.budget == INF && t.cpuid == 0 && Uids(t.delegs) == {0, 1}
    ensures s.links.next[2] == 1
  {
    s := RootAndTcap();
    ghost var d, src := s.tcaps[1], s.tcaps[0];
    assert Uids(d.delegs) == {1} && Uids(src.delegs) == {0} && {1} + {0} == {0, 1};
    var r := s.Delegate(0, 1, 0, INF, 0);
    assert s.links.Valid() && |s.links.on| == 3;
  }

  /** No end-point uses it any more: of two that did, the second one to be bound is the first one to go. */
  method UnboundTcap() returns (s: TcapSystem)
    ensures fresh(s) && fresh(s.links) && s.Valid() && s.cpus == 1 && |s.tcaps| == 2 && |s.links.next| == 3
    ensures s.tcaps[0] == Tcap(true, true, 2, INF, 0, [Info(0, 0)], 0, 0)
    ensures var t := s.tcaps[1];
      && t.alive && t.refcnt == 1 && t.budget == INF && t.cpuid == 0 && Uids(t.delegs) == {0, 1}
    ensures s.links.next[2] == 1
  {
    s := InfiniteTcap();
    s.Refer(1, false);
    s.Demote(1);
    s.Refer(1, false);
  }

  /** Merging it into the root deletes it where it is linked, first on the list, so that the next tcap to be
      taken from there has no budget. */
  method DeletedButLinked() returns (s: TcapSystem)
    ensures s.cpus == 1 && |s.tcaps| == 2 && !s.tcaps[1].alive && s.tcaps[1].budget == 0
    ensures |s.links.next| == 3 && s.links.next[0] == s.cpus + 1
  {
    s := UnboundTcap();
    FirstOfTwo(s);
    ghost var d := s.tcaps[0];
    assert Uids(d.delegs) == {0} && {0} + {0, 1} == {0, 1};
    var ok := s.Merge(0, 0, 1);
  }
}
