/**
  The bump allocator of virtual address ranges.  Addresses are 32-bit words; a second-level page
  table covers PGD_RANGE of them and is installed by its first address.
 */
module Ranges {
  import opened Modulo

  const WORD: nat := 0x1_0000_0000
  /** Written out where it divides or multiplies. */
  const PGD_RANGE: nat := 0x40_0000
  const PAGE_SIZE: nat := 0x1000
  /** The first address of the last second-level table. */
  const LAST: nat := 0xFFC0_0000

  type Word = w: nat | w < WORD

  /** round_up_to_pgd_page, on words. */
  function RoundUp(x: Word): Word {
    var y := Plus(x, PGD_RANGE - 1);
    y - y % 0x40_0000
  }

  function Plus(x: Word, y: Word): Word {
    if x + y < WORD then x + y else x + y - WORD
  }

  function Minus(x: Word, y: Word): Word {
    if x >= y then x - y else x - y + WORD
  }

  /** What rounding up means: the least multiple that is not below, and 0 past the last one. */
  lemma RoundUpMeans(x: Word)
    ensures RoundUp(x) % 0x40_0000 == 0 && RoundUp(x) <= LAST && RoundUp(RoundUp(x)) == RoundUp(x)
    ensures x <= LAST ==> x <= RoundUp(x) < x + PGD_RANGE
    ensures x <= LAST ==> forall a: nat :: x <= a && a % 0x40_0000 == 0 ==> RoundUp(x) <= a
    ensures x > LAST ==> RoundUp(x) == 0
  {
  }

  lemma RoundUpIs(x: Word, a: Word)
    requires x <= LAST && a % 0x40_0000 == 0 && x <= a < x + PGD_RANGE
    ensures RoundUp(x) == a && RoundUp(a) == a
  {
    RoundUpMeans(x);
  }

  /** The end of the tables to install is the end of the range, whatever wraps around. */
  lemma Wraps(h: Word, sz: Word)
    ensures Plus(RoundUp(h), Minus(sz, Minus(RoundUp(h), h))) == Plus(h, sz)
  {
  }

  // The loop that installs tables.

  /** `addr` after n rounds. */
  ghost function Stepped(addr: Word, n: nat): Word {
    if n == 0 then addr else Plus(Stepped(addr, n - 1), PGD_RANGE)
  }

  /** Some round leaves the loop. */
  ghost predicate InstallEnds(addr: Word, end: Word) {
    exists n: nat :: Stepped(addr, n) >= end
  }

  lemma {:induction false} NeverReached(addr: Word, end: Word, n: nat)
    requires addr % 0x40_0000 == 0 && end > LAST
    ensures Stepped(addr, n) % 0x40_0000 == 0 && Stepped(addr, n) < end
  {
    if n > 0 {
      NeverReached(addr, end, n - 1);
    }
  }

  lemma {:induction false} StepsAdd(addr: Word, n: nat)
    requires addr + 0x40_0000 * n < WORD
    ensures Stepped(addr, n) == addr + 0x40_0000 * n
  {
    if n > 0 {
      StepsAdd(addr, n - 1);
    }
  }

  /** The loop that installs tables ends exactly when the range ends before the last table; otherwise
      the address wraps around and never gets there. */
  lemma InstallEndsExactly(addr: Word, end: Word)
    requires addr % 0x40_0000 == 0
    ensures InstallEnds(addr, end) <==> end <= LAST
  {
    if end > LAST {
      forall n: nat ensures Stepped(addr, n) < end {
        NeverReached(addr, end, n);
      }
    } else if addr >= end {
      assert Stepped(addr, 0) >= end;
    } else {
      var n := |Tables(addr, end)|;
      TablesEnd(addr, end);
      StepsAdd(addr, n);
      assert Stepped(addr, n) >= end;
    }
  }

  /** A table at `addr` and at each multiple after it, below `end`. */
  function Tables(addr: nat, end: nat): seq<nat>
    decreases end - addr
  {
    if addr < end then [addr] + Tables(addr + PGD_RANGE, end) else []
  }

  lemma {:induction false} TablesEnd(addr: nat, end: nat)
    requires addr % 0x40_0000 == 0 && addr <= end <= LAST
    ensures end <= addr + 0x40_0000 * |Tables(addr, end)| < end + PGD_RANGE
    ensures addr + 0x40_0000 * |Tables(addr, end)| == RoundUp(end)
    decreases end - addr
  {
    RoundUpMeans(end);
    if addr < end && addr + PGD_RANGE <= end {
      TablesEnd(addr + PGD_RANGE, end);
    } else if addr < end {
      assert Tables(addr + PGD_RANGE, end) == [];
      RoundUpIs(end, addr + PGD_RANGE);
    } else {
      RoundUpIs(end, addr);
    }
  }

  lemma {:induction false} TablesAt(addr: nat, end: nat, i: nat)
    requires i < |Tables(addr, end)|
    ensures Tables(addr, end)[i] == addr + 0x40_0000 * i
    decreases i
  {
    if i > 0 {
      TablesAt(addr + PGD_RANGE, end, i - 1);
    }
  }

  lemma {:induction false} TablesSnoc(from: nat, addr: nat, end: nat)
    requires from <= addr < end && (addr - from) % 0x40_0000 == 0
    ensures Tables(from, addr) + [addr] == Tables(from, addr + PGD_RANGE)
    decreases addr - from
  {
    if from == addr {
      assert Tables(from + PGD_RANGE, addr + PGD_RANGE) == [];
    } else {
      TablesSnoc(from + PGD_RANGE, addr, end);
    }
  }

  /** The tables up to the first multiple past the end are those below the end. */
  lemma {:induction false} SameTables(from: nat, addr: nat, end: nat)
    requires from < end <= addr < end + PGD_RANGE && (addr - from) % 0x40_0000 == 0
    ensures Tables(from, addr) == Tables(from, end)
    decreases end - from
  {
    if from + PGD_RANGE < end {
      SameTables(from + PGD_RANGE, addr, end);
    } else {
      assert Tables(from + PGD_RANGE, addr) == [] == Tables(from + PGD_RANGE, end);
    }
  }

  // The loop that records how far tables are installed.

  /** The record after n rounds. */
  ghost function Recorded(record: Word, end: Word, n: nat): Word {
    if n == 0 then record else RoundUp(end)
  }

  ghost predicate RecordEnds(record: Word, h: Word, end: Word) {
    exists n: nat :: Recorded(record, end, n) > h
  }

  /** The loop that keeps the record ends at once, or when the new record is past the range's start. */
  lemma RecordEndsExactly(record: Word, h: Word, end: Word)
    ensures RecordEnds(record, h, end) <==> record > h || RoundUp(end) > h
    ensures h < end ==> (RecordEnds(record, h, end) <==> record > h || end <= LAST)
  {
    RoundUpMeans(end);
    assert Recorded(record, end, 0) == record;
    assert Recorded(record, end, 1) == RoundUp(end);
  }

  /** A range of addresses, up to but not including `end`. */
  datatype Range = Range(start: nat, end: nat)

  /** The ranges handed out do not overlap and lie between two addresses. */
  ghost predicate Apart(given: seq<Range>, from: nat, to: nat) {
    && (forall i :: 0 <= i < |given| ==> from <= given[i].start <= given[i].end <= to)
    && (forall i, j :: 0 <= i < j < |given| ==> given[i].end <= given[j].start)
  }

  /** The tables installed from address `from` on: one after the other, up to `next`. */
  ghost predicate Consecutive(installed: seq<nat>, from: nat, next: nat) {
    && next == from + 0x40_0000 * |installed|
    && forall i :: 0 <= i < |installed| ==> installed[i] == from + 0x40_0000 * i
  }

  lemma {:induction false} MoreTables(installed: seq<nat>, from: nat, addr: nat, end: nat)
    requires Consecutive(installed, from, addr) && addr % 0x40_0000 == 0 && end <= LAST && addr <= end
    ensures Consecutive(installed + Tables(addr, end), from, RoundUp(end))
  {
    TablesEnd(addr, end);
    forall i | 0 <= i < |Tables(addr, end)| ensures Tables(addr, end)[i] == addr + 0x40_0000 * i {
      TablesAt(addr, end, i);
    }
  }

  lemma TableAt(installed: seq<nat>, from: nat, next: nat, i: nat)
    requires Consecutive(installed, from, next) && from % 0x40_0000 == 0 && i < |installed|
    ensures from <= installed[i] < next && installed[i] % 0x40_0000 == 0
  {
  }

  /** So each is installed once, and every table from `from` to below `next` is. */
  lemma ConsecutiveMeans(installed: seq<nat>, from: nat, next: nat)
    requires Consecutive(installed, from, next) && from % 0x40_0000 == 0
    ensures forall i, j :: 0 <= i < j < |installed| ==> installed[i] != installed[j]
    ensures forall a: nat :: a in installed <==> from <= a < next && a % 0x40_0000 == 0
  {
    forall a: nat ensures a in installed <==> from <= a < next && a % 0x40_0000 == 0 {
      if a in installed {
        var i :| 0 <= i < |installed| && installed[i] == a;
        TableAt(installed, from, next, i);
      }
      if from <= a < next && a % 0x40_0000 == 0 {
        var k := Turns(from, a, 0x40_0000);
        assert installed[k] == a;
      }
    }
  }

  /** The table of an address between two others is among those from the first to the second, or it is the
      one that holds the first. */
  lemma TableOf(from: Word, to: Word, x: nat)
    requires from <= x < to <= LAST
    ensures var t := x - x % 0x40_0000;
      && t % 0x40_0000 == 0 && t < RoundUp(to)
      && (RoundUp(from) <= t || (from % 0x40_0000 != 0 && t == from - from % 0x40_0000))
  {
    RoundUpMeans(from);
    RoundUpMeans(to);
  }

  /** How an allocation ends: it returns, a loop never ends, the assertion on the installed range fires,
      or the one on its address does. */
  datatype Outcome = Returns | Spins | RangeAssert | AddressAssert

  /** The outcome, by what a caller can see: the frontier, the record and the size. */
  function Verdict(h: Word, record: Word, sz: Word): Outcome {
    var end := Plus(h, sz);
    if end <= record then Returns
    else if end > LAST then Spins
    else if end <= RoundUp(h) && RoundUp(end) != RoundUp(h) then RangeAssert
    else if RoundUp(h) == 0 then AddressAssert
    else if record <= h && RoundUp(end) <= h then Spins
    else Returns
  }

  /** When a range is returned with a table for each of its addresses. */
  predicate CanServe(h: Word, record: Word, sz: Word) {
    if sz == 0 then h <= record || h % 0x40_0000 != 0 else h != 0 && h + sz <= LAST
  }

  /** The record is left alone if it reaches past the range or its start. */
  function NextRecord(record: Word, h: Word, sz: Word): Word {
    if Plus(h, sz) <= record || h < record then record else RoundUp(Plus(h, sz))
  }

  lemma ServedReturns(h: Word, record: Word, sz: Word)
    requires h <= LAST && record <= RoundUp(h) && CanServe(h, record, sz)
    ensures Verdict(h, record, sz) == Returns && Plus(h, sz) == h + sz <= LAST
  {
    RoundUpMeans(h);
    RoundUpMeans(h + sz);
  }

  /** The tables and the record after a range that can be served. */
  lemma {:induction false} Serves(h: Word, record: Word, sz: Word, before: seq<nat>, from: nat, after: seq<nat>,
                                  record': Word)
    requires h <= LAST && record <= RoundUp(h) && Consecutive(before, from, RoundUp(h)) && CanServe(h, record, sz)
    requires h + sz <= LAST && record' == NextRecord(record, h, sz)
    requires after == if h + sz <= record then before else before + Tables(RoundUp(h), h + sz)
    ensures Consecutive(after, from, RoundUp(h + sz)) && record' <= RoundUp(h + sz)
  {
    RoundUpMeans(h);
    RoundUpMeans(h + sz);
    if RoundUp(h) < h + sz {
      MoreTables(before, from, RoundUp(h), h + sz);
    } else {
      assert Tables(RoundUp(h), h + sz) == [];
      RoundUpIs(h + sz, RoundUp(h));
    }
  }

  lemma FromLast(h: Word, sz: Word)
    requires h > LAST
    ensures Verdict(h, 0, sz) == Returns <==> h + sz == WORD
    ensures h % 0x40_0000 != 0 && forall x :: h <= x < WORD ==> x - x % 0x40_0000 == h - h % 0x40_0000
  {
    RoundUpMeans(h);
  }

  /** Otherwise nothing is returned, or the range goes on past the tables and installs none. */
  lemma Fails(h: Word, record: Word, sz: Word)
    requires h <= LAST && record <= RoundUp(h) && !CanServe(h, record, sz)
    ensures Verdict(h, record, sz) == Returns ==>
      h + sz >= WORD && (Plus(h, sz) <= record || Plus(h, sz) <= RoundUp(h))
  {
    RoundUpMeans(h);
    RoundUpMeans(Plus(h, sz));
  }

  class AddressSpace {
    /** heap_ptr: where the ranges start.  The table of an address in the middle of one is there already. */
    const heap: Word
    var vasFrontier: Word
    var vasRangeFrontier: Word
    var installed: seq<nat>
    ghost var given: seq<Range>

    ghost predicate Valid()
      reads this
    {
      && heap <= vasFrontier <= LAST && vasRangeFrontier <= RoundUp(vasFrontier)
      && Consecutive(installed, RoundUp(heap), RoundUp(vasFrontier))
      && Apart(given, heap, vasFrontier)
    }

    /** Nothing is allocated yet from a heap in the last table. */
    ghost predicate InLast()
      reads this
    {
      heap > LAST && vasFrontier == heap && vasRangeFrontier == 0 && installed == []
    }

    /** cos_vasfrontier_init.  Its assertion, that the record is rounded, always holds. */
    constructor (heap: Word)
      ensures this.heap == heap == vasFrontier && given == [] && installed == []
      ensures vasRangeFrontier == RoundUp(heap) == RoundUp(RoundUp(heap))
      ensures if heap <= LAST then Valid() else InLast()
    {
      this.heap := heap;
      vasFrontier, vasRangeFrontier := heap, RoundUp(heap);
      installed, given := [], [];
      new;
      RoundUpMeans(heap);
    }

    /** The table that maps an address is installed, or was there before the first range. */
    ghost predicate Covered(x: nat)
      reads this
    {
      || x - x % 0x40_0000 in installed
      || (heap <= x && heap % 0x40_0000 != 0 && x - x % 0x40_0000 == heap - heap % 0x40_0000)
    }

    /** __bump_mem_expand_range: a table at memPtr and at each multiple after it, below memPtr + memSz. */
    method ExpandRange(memPtr: Word, memSz: Word) returns (r: Outcome)
      requires memPtr % 0x40_0000 == 0
      modifies this`installed
      ensures var end := Plus(memPtr, memSz);
        && (r == Spins <==> !InstallEnds(memPtr, end))
        && (r == RangeAssert <==> end <= LAST && end <= memPtr && RoundUp(end) != memPtr)
        && (r == AddressAssert <==> r != Spins && r != RangeAssert && memPtr == 0)
        && (r != Spins ==> installed == old(installed) + Tables(memPtr, end))
    {
      var end := Plus(memPtr, memSz);
      InstallEndsExactly(memPtr, end);
      if end > LAST {
        return Spins;
      }
      var addr := InstallTables(memPtr, end);
      RoundUpMeans(end);
      RoundUpIs(memPtr, memPtr);
      if RoundUp(addr) != RoundUp(end) {
        return RangeAssert;
      }
      return if memPtr == 0 then AddressAssert else Returns;
    }

    /** The loop that installs the tables, for an end it stops at. */
    method InstallTables(memPtr: Word, end: Word) returns (addr: Word)
      requires memPtr % 0x40_0000 == 0 && end <= LAST
      modifies this`installed
      ensures installed == old(installed) + Tables(memPtr, end)
      ensures addr == if end <= memPtr then memPtr else RoundUp(end)
    {
      addr := memPtr;
      while addr < end
        invariant memPtr <= addr && addr % 0x40_0000 == 0 && (addr < end + PGD_RANGE || addr == memPtr)
        invariant installed == old(installed) + Tables(memPtr, addr)
        decreases WORD - addr
      {
        TablesSnoc(memPtr, addr, end);
        installed := installed + [addr];
        addr := Plus(addr, PGD_RANGE);
      }
      if end <= memPtr {
        assert Tables(memPtr, end) == Tables(memPtr, memPtr) == [];
      } else {
        RoundUpIs(end, addr);
        SameTables(memPtr, addr, end);
      }
    }

    /** Records how far tables are installed, unless the record is past h already. */
    method Advance(h: Word, end: Word) returns (ended: bool)
      modifies this`vasRangeFrontier
      ensures ended <==> RecordEnds(old(vasRangeFrontier), h, end)
      ensures ended ==>
        vasRangeFrontier == if old(vasRangeFrontier) <= h then RoundUp(end) else old(vasRangeFrontier)
    {
      RecordEndsExactly(vasRangeFrontier, h, end);
      if vasRangeFrontier <= h && RoundUp(end) <= h {
        return false;
      }
      while vasRangeFrontier <= h
        invariant vasRangeFrontier == old(vasRangeFrontier)
                  || (old(vasRangeFrontier) <= h && vasRangeFrontier == RoundUp(end))
        decreases if vasRangeFrontier <= h then 1 else 0
      {
        vasRangeFrontier := RoundUp(end);
      }
      return true;
    }

    /** __page_bump_mem_alloc up to its result. */
    method Bump(sz: Word) returns (h: Word, r: Outcome)
      modifies this`vasFrontier, this`vasRangeFrontier, this`installed
      ensures h == old(vasFrontier) && vasFrontier == Plus(h, sz) && r == Verdict(h, old(vasRangeFrontier), sz)
      ensures r == Returns ==>
        && vasRangeFrontier == NextRecord(old(vasRangeFrontier), h, sz)
        && installed == if vasFrontier <= old(vasRangeFrontier) then old(installed)
                        else old(installed) + Tables(RoundUp(h), vasFrontier)
    {
      h := vasFrontier;
      vasFrontier := Plus(vasFrontier, sz);
      var rounded := Minus(sz, Minus(RoundUp(h), h));
      if Plus(h, sz) <= vasRangeFrontier {
        return h, Returns;
      }
      RoundUpMeans(h);
      Wraps(h, sz);
      InstallEndsExactly(RoundUp(h), Plus(h, sz));
      r := ExpandRange(RoundUp(h), rounded);
      if r != Returns {
        return;
      }
      RecordEndsExactly(vasRangeFrontier, h, Plus(h, sz));
      var ended := Advance(h, Plus(h, sz));
      if !ended {
        r := Spins;
      }
    }

    /** Each address of a range has its table. */
    ghost predicate Served(h: nat, sz: nat)
      reads this
    {
      forall x :: h <= x < h + sz ==> Covered(x)
    }

    /** __page_bump_mem_alloc.  The recorded frontier can stay behind the tables that are installed, and
        `rounded` can wrap around.  A range comes back with its tables exactly when CanServe says so,
        and then it is apart from all before. */
    method Alloc(sz: Word) returns (h: Word, r: Outcome)
      requires (Valid() || InLast()) && sz % PAGE_SIZE == 0
      modifies this
      ensures h == old(vasFrontier) && vasFrontier == Plus(h, sz) && r == Verdict(h, old(vasRangeFrontier), sz)
      ensures old(Valid()) ==> (r == Returns && Served(h, sz) <==> CanServe(h, old(vasRangeFrontier), sz))
      ensures old(InLast()) ==> (r == Returns && Served(h, sz) <==> h + sz == WORD)
      ensures old(Valid()) && CanServe(h, old(vasRangeFrontier), sz) ==>
        && Valid() && vasFrontier == h + sz && given == old(given) + [Range(h, h + sz)]
        && vasRangeFrontier == NextRecord(old(vasRangeFrontier), h, sz)
    {
      ghost var record, before := vasRangeFrontier, installed;
      ghost var valid := Valid();
      h, r := Bump(sz);
      given := given + [Range(h, h + sz)];
      if valid && CanServe(h, record, sz) {
        ServedReturns(h, record, sz);
        Serves(h, record, sz, before, RoundUp(heap), installed, vasRangeFrontier);
        Covers(h, h + sz);
      } else if valid {
        FailsHere(h, record, sz, before);
      } else {
        FromLast(h, sz);
        assert h + sz == WORD ==> Served(h, sz);
      }
    }

    lemma FailsHere(h: Word, record: Word, sz: Word, before: seq<nat>)
      requires heap <= h <= LAST && Consecutive(before, RoundUp(heap), RoundUp(h)) && record <= RoundUp(h)
      requires !CanServe(h, record, sz)
      requires Verdict(h, record, sz) == Returns ==>
        installed == if Plus(h, sz) <= record then before else before + Tables(RoundUp(h), Plus(h, sz))
      ensures !(Verdict(h, record, sz) == Returns && Served(h, sz))
    {
      Fails(h, record, sz);
      if Verdict(h, record, sz) == Returns {
        assert Plus(h, sz) > record ==> Tables(RoundUp(h), Plus(h, sz)) == [];
        assert installed == before;
        NotCovered(h, sz);
      }
    }

    /** No table is installed at the end of the address space. */
    lemma NotCovered(h: Word, sz: Word)
      requires heap <= h <= LAST && Consecutive(installed, RoundUp(heap), RoundUp(h)) && h + sz >= WORD
      ensures !Served(h, sz)
    {
      RoundUpMeans(heap);
      RoundUpMeans(h);
      ConsecutiveMeans(installed, RoundUp(heap), RoundUp(h));
      assert !Covered(0xFFFF_FFFF);
    }

    lemma Covers(from: nat, to: nat)
      requires Consecutive(installed, RoundUp(heap), RoundUp(vasFrontier)) && heap <= from <= to <= vasFrontier <= LAST
      ensures forall x :: from <= x < to ==> Covered(x)
    {
      RoundUpMeans(heap);
      ConsecutiveMeans(installed, RoundUp(heap), RoundUp(vasFrontier));
      forall x | from <= x < to ensures Covered(x) {
        TableOf(heap, vasFrontier, x);
      }
    }
  }

  // One run for each way to fail.

  /** A range that reaches into the last table: the loop that installs tables never ends. */
  method IntoLastTable() returns (r: Outcome)
    ensures r == Spins
  {
    var s := new AddressSpace(0xFF90_0000);
    var h;
    h, r := s.Alloc(0x40_0000);
  }

  /** The first range of a heap at address 0: the assertion on the address fires. */
  method FromZero() returns (r: Outcome)
    ensures r == AddressAssert
  {
    var s := new AddressSpace(0);
    var h;
    h, r := s.Alloc(0x1000);
  }

  /** A range up to the very end of the address space comes back without its tables. */
  method UpToTheEnd() returns (s: AddressSpace, h: Word, r: Outcome)
    ensures r == Returns && h == 0xFF80_0000 && !s.Served(h, 0x80_0000)
  {
    s := new AddressSpace(0xFF80_0000);
    h, r := s.Alloc(0x80_0000);
  }

  /** A range past the end, back to before the record: the assertion on the range fires. */
  method PastTheEnd() returns (r: Outcome)
    ensures r == RangeAssert
  {
    var s := new AddressSpace(0x10_0000);
    var h;
    h, r := s.Alloc(0x170_0000);
    h, r := s.Alloc(0xFF00_0000);
  }

  /** An empty range at the start of a table that the record has not reached: the loop that records never
      ends. */
  method EmptyRange() returns (r: Outcome)
    ensures r == Spins
  {
    var s := new AddressSpace(0x10_0000);
    var h;
    h, r := s.Alloc(0x70_0000);
    h, r := s.Alloc(0);
  }
}
