/**
  The bump allocator of capability identifiers.  Identifiers come in cache lines of four; each line
  serves one size of capability on one core.  Tables grow by 256 identifiers at a time.  The numbers
  4 and 128 below are CAPMAX_ENTRY_SZ and CAPTBL_EXPAND_SZ.
 */
module CapIds {

  /** Who a line serves: 16-byte and 32-byte capabilities of a core, or 64-byte ones. */
  datatype Class = Cap16(cpu: nat) | Cap32(cpu: nat) | Cap64

  function Size(c: Class): nat {
    match c
    case Cap16(_) => 1
    case Cap32(_) => 2
    case Cap64 => 4
  }

  predicate AlignedFor(id: nat, c: Class) {
    match c
    case Cap16(_) => true
    case Cap32(_) => id % 4 == 0 || id % 4 == 2
    case Cap64 => id % 4 == 0
  }

  /** The next identifier of each class. */
  datatype Frontiers = Frontiers(cap16: seq<nat>, cap32: seq<nat>, cap64: nat)

  predicate Has(fs: Frontiers, c: Class) {
    match c
    case Cap16(cpu) => cpu < |fs.cap16|
    case Cap32(cpu) => cpu < |fs.cap32|
    case Cap64 => true
  }

  function Get(fs: Frontiers, c: Class): nat
    requires Has(fs, c)
  {
    match c
    case Cap16(cpu) => fs.cap16[cpu]
    case Cap32(cpu) => fs.cap32[cpu]
    case Cap64 => fs.cap64
  }

  function Set(fs: Frontiers, c: Class, v: nat): (fs': Frontiers)
    requires Has(fs, c)
    ensures |fs'.cap16| == |fs.cap16| && |fs'.cap32| == |fs.cap32|
    ensures forall d :: Has(fs, d) ==> Has(fs', d) && Get(fs', d) == if d == c then v else Get(fs, d)
  {
    match c
    case Cap16(cpu) => fs.(cap16 := fs.cap16[cpu := v])
    case Cap32(cpu) => fs.(cap32 := fs.cap32[cpu := v])
    case Cap64 => fs.(cap64 := v)
  }

  /** cos_capfrontier_init: how far a table reaches that has a first frontier. */
  function RangeInit(frontier: nat): nat {
    if frontier < 128 then RoundUpTo(frontier, 128)
    else RoundUpTo(frontier + 128, 256) - 128
  }

  function RoundUpTo(x: nat, to: nat): nat
    requires to > 0
  {
    x + to - 1 - (x + to - 1) % to
  }

  lemma RangeInitIs(frontier: nat)
    requires frontier > 0
    ensures var q, r := frontier / 256, frontier % 256; RangeInit(frontier) == 256 * q + if r <= 128 then 128 else 384
  {
    var q, r := frontier / 256, frontier % 256;
    assert frontier == 256 * q + r;
    if frontier >= 128 {
      var x := frontier + 128 + 255;
      assert x % 256 == if r <= 128 then r + 127 else r - 129;
    }
  }

  /** A first frontier leaves room for the reserved line except at two kinds of places. */
  lemma InitLeavesRoom(frontier: nat)
    requires frontier % 4 == 0
    ensures frontier + 4 <= RangeInit(frontier) <==> frontier != 0 && frontier % 256 != 128
    ensures frontier > 0 ==> frontier <= RangeInit(frontier) <= frontier + 256
    ensures frontier > 0 ==> RangeInit(frontier) % 256 == 128
  {
    if frontier > 0 {
      RangeInitIs(frontier);
    }
  }

  datatype Span = Span(id: nat, size: nat)

  ghost predicate Disjoint(a: Span, b: Span) {
    a.id + a.size <= b.id || b.id + b.size <= a.id
  }

  /** What has been handed out: spans that do not overlap, each inside a line of its class. */
  ghost predicate Given(spans: seq<Span>, lines: map<nat, Class>) {
    && (forall i :: 0 <= i < |spans| ==> InLine(spans[i], lines))
    && (forall i, j :: 0 <= i < j < |spans| ==> Disjoint(spans[i], spans[j]))
  }

  ghost predicate InLine(s: Span, lines: map<nat, Class>) {
    s.id / 4 in lines && s.size == Size(lines[s.id / 4]) && s.id % 4 + s.size <= 4
  }

  /** A class's frontier is at the start of a line, or inside its current line behind all spans of it. */
  ghost predicate FrontOk(f: nat, c: Class, spans: seq<Span>, lines: map<nat, Class>) {
    f % 4 != 0 ==>
      && f / 4 in lines && lines[f / 4] == c && AlignedFor(f, c)
      && forall i :: 0 <= i < |spans| && spans[i].id / 4 == f / 4 ==> spans[i].id + spans[i].size <= f
  }

  /** The last line of each stretch of a table that manages itself. */
  predicate Reserved(line: nat) {
    (line + 1) * 4 % 256 == 128
  }

  lemma NotReserved(frontier: nat, range: nat)
    requires frontier % 4 == 0 && range % 256 == 128 && frontier + 4 < range <= frontier + 256
    ensures !Reserved(frontier / 4)
  {
  }

  /** A frontier and the end of the expanded identifiers; `own` leaves room for the reserved line. */
  ghost predicate InRange(frontier: nat, range: nat, own: bool) {
    && frontier % 4 == 0 && range % 256 == 128 && range <= frontier + 256
    && (if own then frontier + 4 <= range else frontier <= range)
  }

  lemma RangeGrows(frontier: nat, range: nat, own: bool)
    requires InRange(frontier, range, own)
    ensures InRange(range, range + 256, own) && range % 128 == 0
    ensures frontier + 4 < range || (!own && frontier != range) ==> InRange(frontier + 4, range, own)
  {
  }

  lemma LinesKept(lines: map<nat, Class>, frontier: nat, own: bool, frontier': nat)
    requires LinesOk(lines, frontier, own) && frontier <= frontier'
    ensures LinesOk(lines, frontier', own)
  {
  }

  ghost predicate LinesOk(lines: map<nat, Class>, frontier: nat, own: bool) {
    forall l :: l in lines ==> (l + 1) * 4 <= frontier && (own ==> !Reserved(l))
  }

  ghost predicate Fronts(fs: Frontiers, spans: seq<Span>, lines: map<nat, Class>) {
    forall c :: Has(fs, c) ==> FrontOk(Get(fs, c), c, spans, lines)
  }

  /** A class takes the line at the frontier, which no one has. */
  lemma TakeLine(fs: Frontiers, spans: seq<Span>, lines: map<nat, Class>, frontier: nat, own: bool, c: Class)
    requires Given(spans, lines) && Fronts(fs, spans, lines) && LinesOk(lines, frontier, own) && Has(fs, c)
    requires frontier % 4 == 0 && (own ==> !Reserved(frontier / 4))
    ensures var fs', lines' := Set(fs, c, frontier), lines[frontier / 4 := c];
      && Given(spans, lines') && Fronts(fs', spans, lines') && LinesOk(lines', frontier + 4, own)
      && forall i :: 0 <= i < |spans| ==> spans[i].id / 4 != frontier / 4
  {
    var l, fs' := frontier / 4, Set(fs, c, frontier);
    assert l !in lines;
    forall i | 0 <= i < |spans| ensures spans[i].id / 4 != l && InLine(spans[i], lines[l := c]) {
      assert InLine(spans[i], lines);
    }
    forall d | Has(fs', d) ensures FrontOk(Get(fs', d), d, spans, lines[l := c]) {
      assert d != c ==> FrontOk(Get(fs, d), d, spans, lines);
    }
  }

  /** The class advances in its line; the new span overlaps none. */
  lemma TakeSpan(fs: Frontiers, spans: seq<Span>, lines: map<nat, Class>, c: Class)
    requires Given(spans, lines) && Fronts(fs, spans, lines) && Has(fs, c)
    requires var f := Get(fs, c);
      && f / 4 in lines && lines[f / 4] == c && AlignedFor(f, c)
      && forall i :: 0 <= i < |spans| && spans[i].id / 4 == f / 4 ==> spans[i].id + spans[i].size <= f
    ensures var f := Get(fs, c); Given(spans + [Span(f, Size(c))], lines)
    ensures var f := Get(fs, c); Fronts(Set(fs, c, f + Size(c)), spans + [Span(f, Size(c))], lines)
  {
    var f := Get(fs, c);
    var s := Span(f, Size(c));
    var spans', fs' := spans + [s], Set(fs, c, f + Size(c));
    NextFront(f, c);
    assert InLine(s, lines);
    forall i | 0 <= i < |spans| ensures Disjoint(spans[i], s) && InLine(spans[i], lines) {
      assert InLine(spans[i], lines);
      if spans[i].id / 4 != f / 4 {
        LinesApart(spans[i], s);
      }
    }
    forall d | Has(fs', d) ensures FrontOk(Get(fs', d), d, spans', lines) {
      if d != c {
        OtherFront(Get(fs, d), d, spans, lines, s, c);
      }
    }
  }

  /** A span fits into the line it starts in, and the next one starts behind it. */
  lemma NextFront(f: nat, c: Class)
    requires AlignedFor(f, c)
    ensures f % 4 + Size(c) <= 4 && AlignedFor(f + Size(c), c)
    ensures (f + Size(c)) % 4 != 0 ==> (f + Size(c)) / 4 == f / 4
  {
    InSameLine(f, Size(c));
  }

  lemma InSameLine(f: nat, n: nat)
    ensures f % 4 + n < 4 ==> (f + n) / 4 == f / 4 && (f + n) % 4 == f % 4 + n
    ensures f % 4 + n == 4 ==> (f + n) % 4 == 0
  {
    var q, r := f / 4, f % 4;
    assert f + n == 4 * q + (r + n);
  }

  lemma LinesApart(a: Span, b: Span)
    requires a.id % 4 + a.size <= 4 && b.id % 4 + b.size <= 4 && a.id / 4 != b.id / 4
    ensures Disjoint(a, b)
  {
  }

  lemma OtherFront(f: nat, d: Class, spans: seq<Span>, lines: map<nat, Class>, s: Span, c: Class)
    requires FrontOk(f, d, spans, lines) && s.id / 4 in lines && lines[s.id / 4] == c != d
    ensures FrontOk(f, d, spans + [s], lines)
  {
  }

  class CompInfo {
    /** Where memory and capability tables come from; it may be the component itself. */
    const memsrc: CompInfo
    var capFrontier: nat
    var capRange: nat
    var fronts: Frontiers
    ghost var lines: map<nat, Class>
    ghost var spans: seq<Span>

    predicate Own() {
      memsrc == this
    }

    function Limit(): int
      reads this`capRange
    {
      if Own() then capRange - 4 else capRange
    }

    ghost predicate Valid()
      reads this
    {
      && InRange(capFrontier, capRange, Own()) && LinesOk(lines, capFrontier, Own())
      && Given(spans, lines) && Fronts(fronts, spans, lines)
    }

    /** cos_compinfo_init; `src` is null for a component that manages its own resources.  All is well just when
        the frontier leaves room: for something, and for the reserved line of a component of its own. */
    constructor (cpus: nat, frontier: nat, src: CompInfo?)
      requires frontier % 4 == 0 && (src != null ==> src.Own())
      ensures Valid() <==> frontier != 0 && (src == null ==> frontier % 256 != 128)
      ensures capFrontier == frontier && spans == [] && (if src == null then Own() else memsrc == src)
      ensures |fronts.cap16| == |fronts.cap32| == cpus
    {
      InitLeavesRoom(frontier);
      if src == null {
        memsrc := this;
      } else {
        memsrc := src;
      }
      capFrontier, capRange := frontier, RangeInit(frontier);
      fronts := Frontiers(seq(cpus, _ => frontier), seq(cpus, _ => frontier), frontier);
      lines, spans := map[], [];
    }

    /** The source of resources is the component itself or one that manages its own; so an allocation
        asks at most one other component. */
    ghost predicate Sourced(cpu: nat)
      reads this, memsrc
    {
      Valid() && memsrc.Valid() && memsrc.Own() && cpu < |memsrc.fronts.cap32|
    }

    /** The frontiers after a table has grown by two nodes. */
    method Advance()
      requires Valid()
      modifies this`capFrontier, this`capRange
      ensures Valid() && capFrontier == old(capRange) && capRange == old(capRange) + 256
    {
      RangeGrows(capFrontier, capRange, Own());
      LinesKept(lines, capFrontier, Own(), capRange);
      var captblidAdd := capRange;
      assert captblidAdd % 128 == 0;
      capRange := capRange + 256;
      capFrontier := captblidAdd;
    }

    /** __capid_captbl_check_expand: a full table grows.  The capability to the new node goes to the reserved
        line, or is allocated from the source. */
    method CheckExpand(cpu: nat)
      requires Sourced(cpu)
      modifies this, memsrc
      ensures Sourced(cpu) && capFrontier < Limit()
      ensures spans == old(spans) && lines == old(lines) && fronts == old(fronts)
      decreases if Own() then 0 else 1, 0
    {
      var frontier := if Own() then capRange - 4 else capRange;
      assert capFrontier <= frontier;
      if capFrontier != frontier {
        return;
      }
      var captblcap;
      if Own() {
        captblcap := frontier;
      } else {
        captblcap := memsrc.Alloc(Cap32(cpu), cpu);
      }
      Advance();
    }

    /** A new line for a class. */
    method NewLine(c: Class, cpu: nat)
      requires Sourced(cpu) && Has(fronts, c)
      modifies this, memsrc
      ensures Sourced(cpu) && spans == old(spans) && Current(c) && Has(fronts, c)
      decreases if Own() then 0 else 1, 1
    {
      CheckExpand(cpu);
      if Own() {
        NotReserved(capFrontier, capRange);
      }
      TakeLine(fronts, spans, lines, capFrontier, Own(), c);
      RangeGrows(capFrontier, capRange, Own());
      fronts := Set(fronts, c, capFrontier);
      lines := lines[capFrontier / 4 := c];
      capFrontier := capFrontier + 4;
    }

    /** The frontier of a class is in a line of its own, behind all spans of that line. */
    ghost predicate Current(c: Class)
      reads this
    {
      Has(fronts, c) && var f := Get(fronts, c);
      && f / 4 in lines && lines[f / 4] == c && AlignedFor(f, c)
      && forall i :: 0 <= i < |spans| && spans[i].id / 4 == f / 4 ==> spans[i].id + spans[i].size <= f
    }

    method Take(c: Class) returns (id: nat)
      requires Valid() && Current(c)
      modifies this`spans, this`fronts
      ensures Valid() && spans == old(spans) + [Span(id, Size(c))]
      ensures |fronts.cap16| == |old(fronts).cap16| && |fronts.cap32| == |old(fronts).cap32|
      ensures id + Size(c) <= capFrontier && (Own() ==> !Reserved(id / 4)) && id / 4 in lines && lines[id / 4] == c
    {
      id := Get(fronts, c);
      NextFront(id, c);
      TakeSpan(fronts, spans, lines, c);
      spans := spans + [Span(id, Size(c))];
      fronts := Set(fronts, c, id + Size(c));
    }

    /** __capid_bump_alloc. */
    method Alloc(c: Class, cpu: nat) returns (id: nat)
      requires Sourced(cpu) && Has(fronts, c)
      modifies this, memsrc
      ensures Sourced(cpu) && spans == old(spans) + [Span(id, Size(c))]
      ensures id + Size(c) <= capFrontier <= capRange && (Own() ==> !Reserved(id / 4))
      ensures id / 4 in lines && lines[id / 4] == c
      decreases if Own() then 0 else 1, 2
    {
      if Get(fronts, c) % 4 == 0 {
        NewLine(c, cpu);
      }
      id := Take(c);
    }
  }
}
