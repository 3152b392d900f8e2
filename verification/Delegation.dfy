/**
  The delegation lists of temporal capabilities: which schedulers let a tcap run, and at what
  priority (a smaller number is more important).
 */
module Delegations {

  /** TCAP_MAX_DELEGATIONS. */
  const MAX_DELEGATIONS: nat := 16

  datatype Info = Info(uid: nat, prio: nat)

  ghost predicate Sorted(l: seq<Info>) {
    forall i, j :: 0 <= i < j < |l| ==> l[i].uid < l[j].uid
  }

  ghost function Uids(l: seq<Info>): set<nat> {
    set e | e in l :: e.uid
  }

  /** e's priority is the largest number that either list gives to its scheduler. */
  ghost predicate IsMax(e: Info, a: seq<Info>, b: seq<Info>) {
    && (e in a || e in b)
    && (forall x :: x in a && x.uid == e.uid ==> x.prio <= e.prio)
    && (forall x :: x in b && x.uid == e.uid ==> x.prio <= e.prio)
  }

  ghost predicate MergedInfo(e: Info, dst: seq<Info>, src: seq<Info>, s: nat, prio: nat) {
    if e.uid == s then e.prio == prio else IsMax(e, dst, src)
  }

  /** The merge of two lists when the scheduler s delegates with `prio`. */
  ghost predicate MergeOf(m: seq<Info>, dst: seq<Info>, src: seq<Info>, s: nat, prio: nat) {
    Sorted(m) && Uids(m) == Uids(dst) + Uids(src) && forall e :: e in m ==> MergedInfo(e, dst, src, s, prio)
  }

  lemma {:induction false} SortedIsDistinct(l: seq<Info>)
    requires Sorted(l)
    ensures |Uids(l)| == |l|
  {
    if l == [] {
      assert Uids(l) == {};
    } else {
      var n := |l| - 1;
      SortedIsDistinct(l[..n]);
      assert l == l[..n] + [l[n]];
      assert Uids(l) == Uids(l[..n]) + {l[n].uid};
      assert l[n].uid !in Uids(l[..n]);
    }
  }

  lemma UidsAppend(l: seq<Info>, e: Info)
    ensures Uids(l + [e]) == Uids(l) + {e.uid}
  {
    forall u ensures u in Uids(l + [e]) <==> u in Uids(l) + {e.uid} {
      assert e in l + [e];
      if u in Uids(l) {
        var x :| x in l && x.uid == u;
        assert x in l + [e];
      }
    }
  }

  lemma Named(l: seq<Info>, k: nat)
    requires k < |l|
    ensures l[k].uid in Uids(l)
  {
    assert l[k] in l;
  }

  lemma UidsTake(l: seq<Info>, i: nat)
    requires i < |l|
    ensures Uids(l[..i + 1]) == Uids(l[..i]) + {l[i].uid}
  {
    assert l[..i + 1] == l[..i] + [l[i]];
    UidsAppend(l[..i], l[i]);
  }

  /** How far the merge is: i entries of dst and j of src are done. */
  ghost predicate Merging(m: seq<Info>, dst: seq<Info>, src: seq<Info>, i: nat, j: nat, s: nat, prio: nat) {
    && i <= |dst| && j <= |src| && Sorted(m)
    && Uids(m) == Uids(dst[..i]) + Uids(src[..j])
    && (forall e :: e in m ==> Below(e, dst, i) && Below(e, src, j) && MergedInfo(e, dst, src, s, prio))
  }

  ghost predicate Below(e: Info, l: seq<Info>, i: nat)
    requires i <= |l|
  {
    i < |l| ==> e.uid < l[i].uid
  }

  /** A scheduler that only the part still to come can name. */
  lemma OnlyAhead(l: seq<Info>, i: nat, x: Info, m: seq<Info>, u: nat)
    requires Sorted(l) && i <= |l| && x in l && x.uid == u && Uids(l[..i]) <= Uids(m)
    requires forall e :: e in m ==> e.uid < u
    ensures i < |l| && l[i].uid <= u && (l[i].uid == u ==> x == l[i])
  {
    var k :| 0 <= k < |l| && l[k] == x;
    if k < i {
      Named(l[..i], k);
    }
  }

  /** What comes next names a scheduler above those already there. */
  lemma NextIsAbove(m: seq<Info>, dst: seq<Info>, src: seq<Info>, i: nat, j: nat, s: nat, prio: nat, e: Info,
                    i': nat, j': nat)
    requires Merging(m, dst, src, i, j, s, prio)
    requires (i' == i + 1 && i < |dst| && dst[i].uid == e.uid) || (j' == j + 1 && j < |src| && src[j].uid == e.uid)
    ensures forall x :: x in m ==> x.uid < e.uid
  {
    forall x | x in m ensures x.uid < e.uid {
      assert Below(x, dst, i) && Below(x, src, j);
    }
  }

  /** What comes next is at least as strict as the entries of its scheduler in the one list. */
  lemma NextIsStrict(m: seq<Info>, l: seq<Info>, i: nat, e: Info, taken: bool)
    requires Sorted(l) && i <= |l| && Uids(l[..i]) <= Uids(m) && forall x :: x in m ==> x.uid < e.uid
    requires if taken then i < |l| && l[i].uid == e.uid && l[i].prio <= e.prio else Below(e, l, i)
    ensures forall x :: x in l && x.uid == e.uid ==> x.prio <= e.prio
  {
    forall x | x in l && x.uid == e.uid ensures x.prio <= e.prio {
      OnlyAhead(l, i, x, m, e.uid);
    }
  }

  /** One round: the entry with the smaller scheduler, or the joint entry of the same one. */
  lemma MergeStep(m: seq<Info>, dst: seq<Info>, src: seq<Info>, i: nat, j: nat, s: nat, prio: nat, e: Info,
                  i': nat, j': nat)
    requires Sorted(dst) && Sorted(src) && Merging(m, dst, src, i, j, s, prio)
    requires i' == i || (i' == i + 1 && i < |dst| && dst[i].uid == e.uid)
    requires j' == j || (j' == j + 1 && j < |src| && src[j].uid == e.uid)
    requires i' == i ==> j' == j + 1 && Below(e, dst, i)
    requires j' == j ==> i' == i + 1 && Below(e, src, j)
    requires e.uid == s ==> e.prio == prio
    requires e.uid != s ==> (i' == i + 1 ==> dst[i].prio <= e.prio) && (j' == j + 1 ==> src[j].prio <= e.prio)
    requires e.uid != s ==> (i' == i + 1 && e == dst[i]) || (j' == j + 1 && e == src[j])
    ensures Merging(m + [e], dst, src, i', j', s, prio)
  {
    UidsAppend(m, e);
    if i' == i + 1 {
      UidsTake(dst, i);
    }
    if j' == j + 1 {
      UidsTake(src, j);
    }
    NextIsAbove(m, dst, src, i, j, s, prio, e, i', j');
    assert MergedInfo(e, dst, src, s, prio) by {
      if e.uid != s {
        NextIsStrict(m, dst, i, e, i' == i + 1);
        NextIsStrict(m, src, j, e, j' == j + 1);
      }
    }
    forall x | x in m + [e] ensures Below(x, dst, i') && Below(x, src, j') && MergedInfo(x, dst, src, s, prio) {
      assert x in m ==> Below(x, dst, i) && Below(x, src, j) && MergedInfo(x, dst, src, s, prio);
    }
  }

  lemma MergeDone(m: seq<Info>, dst: seq<Info>, src: seq<Info>, s: nat, prio: nat)
    requires Merging(m, dst, src, |dst|, |src|, s, prio)
    ensures MergeOf(m, dst, src, s, prio)
  {
    assert dst[..|dst|] == dst && src[..|src|] == src;
  }

  lemma {:induction false} UidsMonotone(a: seq<Info>, i: nat)
    requires i <= |a|
    ensures Uids(a[..i]) <= Uids(a)
  {
    forall u | u in Uids(a[..i]) ensures u in Uids(a) {
      var x :| x in a[..i] && x.uid == u;
      assert x in a;
    }
  }

  /** Seventeen schedulers do not fit. */
  lemma MergeOverflows(m: seq<Info>, dst: seq<Info>, src: seq<Info>, i: nat, j: nat, s: nat, prio: nat,
                       i': nat, j': nat, e: Info)
    requires Merging(m, dst, src, i, j, s, prio)
    requires (i' == i + 1 && i < |dst| && dst[i].uid == e.uid) || (j' == j + 1 && j < |src| && src[j].uid == e.uid)
    ensures |Uids(dst) + Uids(src)| > |m|
  {
    SortedIsDistinct(m);
    UidsMonotone(dst, i);
    UidsMonotone(src, j);
    assert e.uid !in Uids(m) by {
      assert forall x :: x in m ==> Below(x, dst, i) && Below(x, src, j);
    }
    assert e.uid in Uids(dst) + Uids(src) by {
      assert (i < |dst| ==> dst[i] in dst) && (j < |src| ==> src[j] in src);
    }
    Subset(Uids(m) + {e.uid}, Uids(dst) + Uids(src));
  }

  lemma {:induction false} Subset(a: set<nat>, b: set<nat>)
    requires a <= b
    ensures |a| <= |b|
  {
    if a == {} {
    } else {
      var x :| x in a;
      Subset(a - {x}, b - {x});
    }
  }

  /** The merge is determined by its description. */
  lemma {:induction false} MergeUnique(m: seq<Info>, m': seq<Info>, dst: seq<Info>, src: seq<Info>, s: nat, prio: nat)
    requires MergeOf(m, dst, src, s, prio) && MergeOf(m', dst, src, s, prio) && Sorted(dst) && Sorted(src)
    ensures m == m'
  {
    SortedIsDistinct(m);
    SortedIsDistinct(m');
    forall k | 0 <= k < |m| ensures m[k] == m'[k] {
      SameUids(m, m', k);
      assert m[k] in m && m'[k] in m';
      assert MergedInfo(m[k], dst, src, s, prio) && MergedInfo(m'[k], dst, src, s, prio);
    }
  }

  lemma {:induction false} SameUids(a: seq<Info>, b: seq<Info>, k: nat)
    requires Sorted(a) && Sorted(b) && Uids(a) == Uids(b) && |a| == |b| && k < |a|
    ensures a[k].uid == b[k].uid
    decreases k
  {
    forall i | 0 <= i < k ensures a[i].uid == b[i].uid {
      SameUids(a, b, i);
    }
    assert a[k].uid in Uids(b) && b[k].uid in Uids(a) by {
      assert a[k] in a && b[k] in b;
    }
    var x :| x in b && x.uid == a[k].uid;
    var i :| 0 <= i < |b| && b[i] == x;
    var y :| y in a && y.uid == b[k].uid;
    var j :| 0 <= j < |a| && a[j] == y;
  }

  /** The source's own scheduler is never taken from the destination alone. */
  lemma OwnFromSource(m: seq<Info>, dst: seq<Info>, src: seq<Info>, i: nat, j: nat, so: nat, prio: nat)
    requires Sorted(src) && so < |src| && i < |dst| && Merging(m, dst, src, i, j, src[so].uid, prio)
    requires j < |src| ==> dst[i].uid < src[j].uid
    ensures dst[i].uid != src[so].uid
  {
    assert so < j ==> src[so] in src[..j] && src[so].uid in Uids(m);
    assert forall e :: e in m ==> Below(e, dst, i);
  }

  /** Which entry the merge takes next; both cursors move when the two lists share a scheduler. */
  method Next(dst: seq<Info>, src: seq<Info>, i: nat, j: nat) returns (e: Info, i': nat, j': nat)
    requires i <= |dst| && j <= |src| && (i < |dst| || j < |src|)
    ensures i' == i || (i' == i + 1 && i < |dst| && dst[i].uid == e.uid && dst[i].prio <= e.prio)
    ensures j' == j || (j' == j + 1 && j < |src| && src[j].uid == e.uid && src[j].prio <= e.prio)
    ensures i' == i ==> j' == j + 1 && Below(e, dst, i)
    ensures j' == j ==> i' == i + 1 && Below(e, src, j)
    ensures (i' == i + 1 && e == dst[i]) || (j' == j + 1 && e == src[j])
  {
    if i == |dst| {
      return src[j], i, j + 1;
    } else if j == |src| || dst[i].uid < src[j].uid {
      return dst[i], i + 1, j;
    } else if dst[i].uid > src[j].uid {
      return src[j], i, j + 1;
    } else {
      var t := src[j];
      if dst[i].prio > t.prio {
        t := t.(prio := dst[i].prio);
      }
      return t, i + 1, j + 1;
    }
  }

  /** A new priority goes to the list the entry was taken from, unless it is the joint one. */
  method WriteBack(dst: seq<Info>, src: seq<Info>, i: nat, j: nat, i': nat, j': nat, e: Info)
    returns (dst': seq<Info>, src': seq<Info>)
    requires i' == i || (i' == i + 1 && i < |dst|)
    requires j' == j || (j' == j + 1 && j < |src|)
    ensures dst' == if i' != i && j' == j then dst[i := e] else dst
    ensures src' == if i' == i && j' != j then src[j := e] else src
  {
    dst', src' := dst, src;
    if i' != i && j' == j {
      dst' := dst[i := e];
    } else if i' == i && j' != j {
      src' := src[j := e];
    }
  }

  /** What the loop has done to the source's list. */
  ghost predicate Written(src': seq<Info>, dst: seq<Info>, src: seq<Info>, so: nat, j: nat, prio: nat)
    requires so < |src|
  {
    src' == if so < j && src[so].uid !in Uids(dst) then src[so := Info(src[so].uid, prio)] else src
  }

  lemma WrittenNext(m: seq<Info>, dst: seq<Info>, src: seq<Info>, i: nat, j: nat, so: nat, prio: nat, e: Info,
                    i': nat, j': nat, dst': seq<Info>, before: seq<Info>, after: seq<Info>)
    requires Sorted(dst) && Sorted(src) && so < |src| && Merging(m, dst, src, i, j, src[so].uid, prio)
    requires i' == i || (i' == i + 1 && i < |dst| && dst[i].uid == e.uid)
    requires j' == j || (j' == j + 1 && j < |src| && src[j].uid == e.uid)
    requires i' == i ==> j' == j + 1 && Below(e, dst, i)
    requires j' == j ==> i' == i + 1 && Below(e, src, j)
    requires Written(before, dst, src, so, j, prio)
    requires dst' == if e.uid == src[so].uid && i' != i && j' == j then dst[i := Info(e.uid, prio)] else dst
    requires after == if e.uid == src[so].uid && i' == i && j' != j then before[j := Info(e.uid, prio)] else before
    ensures dst' == dst && Written(after, dst, src, so, j', prio)
  {
    var s := src[so].uid;
    if i < |dst| {
      Named(dst, i);
    }
    if j' == j {
      OwnFromSource(m, dst, src, i, j, so, prio);
    } else if so == j {
      if s in Uids(dst) {
        var x :| x in dst && x.uid == s;
        assert forall y :: y in m ==> Below(y, src, j);
        UidsMonotone(dst, i);
        OnlyAhead(dst, i, x, m, s);
      }
    }
  }

  /** Where the destination's own scheduler is, or -1. */
  ghost predicate OwnAt(m: seq<Info>, d: nat, si: int) {
    if d in Uids(m) then 0 <= si < |m| && m[si].uid == d else si == -1
  }

  lemma OwnAtNext(m: seq<Info>, d: nat, si: int, e: Info)
    requires OwnAt(m, d, si)
    ensures OwnAt(m + [e], d, if d == e.uid then |m| else si)
  {
    UidsAppend(m, e);
  }

  method Put(tmp: array<Info>, n: nat, e: Info)
    requires n < tmp.Length
    modifies tmp
    ensures tmp[..n + 1] == old(tmp[..n]) + [e]
  {
    tmp[n] := e;
  }

  /** One round of the loop up to the check for room. */
  method Round(dst: seq<Info>, ghost src: seq<Info>, i: nat, j: nat, s: nat, ghost so: nat, prio: nat, src0: seq<Info>,
               ghost m: seq<Info>)
    returns (e: Info, i': nat, j': nat, src': seq<Info>, dst': seq<Info>)
    requires Sorted(dst) && Sorted(src) && so < |src| && src[so].uid == s
    requires i <= |dst| && j <= |src| && (i < |dst| || j < |src|)
    requires Merging(m, dst, src, i, j, src[so].uid, prio) && Written(src0, dst, src, so, j, prio)
    ensures i <= i' <= |dst| && j <= j' <= |src| && i + j < i' + j' && dst' == dst
    ensures Written(src', dst, src, so, j', prio)
    ensures Merging(m + [e], dst, src, i', j', src[so].uid, prio)
    ensures |Uids(dst) + Uids(src)| > |m|
  {
    e, i', j' := Next(dst, src0, i, j);
    dst', src' := dst, src0;
    if e.uid == s {
      e := e.(prio := prio);
      dst', src' := WriteBack(dst, src0, i, j, i', j', e);
    }
    WrittenNext(m, dst, src, i, j, so, prio, e, i', j', dst', src0, src');
    MergeOverflows(m, dst, src, i, j, s, prio, i', j', e);
    MergeStep(m, dst, src, i, j, s, prio, e, i', j');
  }

  /** The merge loop; it stops when a seventeenth entry would be written. */
  method MergeLoop(dst: seq<Info>, src: seq<Info>, d: nat, so: nat, prio: nat)
    returns (ok: bool, merged: seq<Info>, si: int, dst': seq<Info>, src': seq<Info>)
    requires Sorted(dst) && Sorted(src) && so < |src|
    ensures dst' == dst && (src' == src || src' == src[so := Info(src[so].uid, prio)])
    ensures if ok then && |merged| <= MAX_DELEGATIONS && Merging(merged, dst, src, |dst|, |src|, src[so].uid, prio)
                       && OwnAt(merged, d, si) && Written(src', dst, src, so, |src|, prio)
            else |Uids(dst) + Uids(src)| > MAX_DELEGATIONS
  {
    var tmp := new Info[MAX_DELEGATIONS];
    var s := src[so].uid;
    var i: nat, j: nat, n: nat := 0, 0, 0;
    si := -1;
    dst', src' := dst, src;
    ghost var m: seq<Info> := [];
    while i < |dst'| || j < |src'|
      invariant n <= MAX_DELEGATIONS && i <= |dst| && j <= |src| && Merging(m, dst, src, i, j, s, prio)
      invariant m == tmp[..n] && dst' == dst && Written(src', dst, src, so, j, prio)
      invariant OwnAt(m, d, si)
      decreases |dst| - i + |src| - j
    {
      var e, i', j';
      e, i', j', src', dst' := Round(dst', src, i, j, s, so, prio, src', m);
      if n == MAX_DELEGATIONS {
        return false, [], -1, dst', src';
      }
      OwnAtNext(m, d, si, e);
      Put(tmp, n, e);
      if d == e.uid {
        si := n;
      }
      i, j, n, m := i', j', n + 1, m + [e];
    }
    return true, tmp[..n], si, dst', src';
  }

  /** The merge of tcap_delegate.  The priority of the source's own scheduler is written in place, so the
      source's list can change, even when the merge then fails. */
  method MergeDelegations(dst: seq<Info>, src: seq<Info>, d: nat, so: nat, prio: nat)
    returns (ok: bool, merged: seq<Info>, si: int, dst': seq<Info>, src': seq<Info>)
    requires Sorted(dst) && Sorted(src) && so < |src|
    ensures ok <==> |Uids(dst) + Uids(src)| <= MAX_DELEGATIONS
    ensures dst' == dst && (src' == src || src' == src[so := Info(src[so].uid, prio)])
    ensures ok ==> |merged| <= MAX_DELEGATIONS && MergeOf(merged, dst, src, src[so].uid, prio)
    ensures ok && d in Uids(dst) ==> 0 <= si < |merged| && merged[si].uid == d
    ensures ok ==> src' == if src[so].uid in Uids(dst) then src else src[so := Info(src[so].uid, prio)]
  {
    ok, merged, si, dst', src' := MergeLoop(dst, src, d, so, prio);
    if ok {
      MergeDone(merged, dst, src, src[so].uid, prio);
      SortedIsDistinct(merged);
    }
  }

  /** a's priority is no worse than c's at every scheduler they share. */
  ghost predicate NoWorse(a: seq<Info>, c: seq<Info>) {
    forall p, q :: 0 <= p < |a| && 0 <= q < |c| && a[p].uid == c[q].uid ==> a[p].prio <= c[q].prio
  }

  /** The loop of tcap_higher_prio: two cursors see every shared scheduler of sorted lists. */
  method Walk(a: seq<Info>, c: seq<Info>) returns (r: bool)
    requires Sorted(a) && Sorted(c)
    ensures r <==> NoWorse(a, c)
  {
    var i, j := 0, 0;
    while i < |a| && j < |c|
      invariant 0 <= i <= |a| && 0 <= j <= |c|
      invariant forall p, q :: 0 <= p < |a| && 0 <= q < |c| && (p < i || q < j) && a[p].uid == c[q].uid ==>
                  a[p].prio <= c[q].prio
      decreases |a| - i + |c| - j
    {
      if a[i].uid > c[j].uid {
        j := j + 1;
      } else if a[i].uid < c[j].uid {
        i := i + 1;
      } else {
        if a[i].prio > c[j].prio {
          return false;
        }
        i, j := i + 1, j + 1;
      }
    }
    return true;
  }
}
