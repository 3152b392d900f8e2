/**
  The memory retyping protocol, one step per load, store or compare-and-swap.

  The model follows one memory set through any interleaving of operations on any number of
  cores: page-table entries that map or release its pages, activation and deactivation of
  its pages as kernel objects, retyping, and TLB flushes.  Every core runs one operation at
  a time, as the kernel is not preempted.
 */
module Retype {
  import opened Sums

  datatype MemType = Untyped | User | Kern | Retyping

  /** The compare-and-swapped word of a per-core entry. */
  datatype Word = Word(typ: MemType, cnt: int)

  datatype Entry = Entry(w: Word, lastUnmap: nat)

  /** A page-table entry: maps a page of the set, holds a page of the set activated as a
      kernel object, or holds anything else. */
  datatype Pte = Other(v: nat) | Maps(v: nat) | Kmem(v: nat)

  datatype Kind = Mapping | Activation

  /** What is left to undo when a kernel page could not be released. */
  datatype Back = NoBack | Back(slot: nat, orig: nat, now: nat)

  /** A reference that is counted but shown by no page-table entry: not yet, or not any more.
      `at` is when the mapping to be dereferenced was removed, or -1. */
  datatype Flight =
    | Install(kind: Kind, slot: nat, orig: nat)
    | DerefLoad(at: int, back: Back)
    | DerefStamp(at: int, back: Back, seen: Word)
    | DerefCas(at: int, back: Back, seen: Word)
    | Reinstall(back: Back)

  /** The points of a retype while it holds the global entry locked. */
  datatype Hold =
    | TypeSet(to: MemType, i: nat)
    | TypeCommit(to: MemType)
    | LockLoad(was: MemType, i: nat, sum: int, lu: nat)
    | LockCas(was: MemType, i: nat, sum: int, lu: nat, seen: Word)
    | LockStamp(was: MemType, i: nat, sum: int, lu: nat)
    | CheckSum(was: MemType, sum: int, lu: nat)
    | CheckPeriodic(was: MemType, lu: nat)
    | CheckMandatory(was: MemType, lu: nat, i: nat)
    | RestoreLoad(was: MemType, i: nat)
    | RestoreCas(was: MemType, i: nat, seen: Word)

  /** ... and past all checks of a retype to untyped frames. */
  datatype Clear = ClearCnt(i: nat) | ClearTyp(i: nat) | FrameCommit

  /** Where a core stands in its current operation. */
  datatype Op =
    | Idle
    | RefLoad(kind: Kind, slot: nat, orig: nat)
    | RefCas(kind: Kind, slot: nat, orig: nat, seen: Word)
    | Flying(f: Flight)
    | Uninstall(kind: Kind, slot: nat, orig: nat)
    | TypeCas(to: MemType)
    | FrameCas(was: MemType)
    | Locked(h: Hold)
    | Clearing(k: Clear)
    | FlushTlb(t: nat)
    | FlushStore(t: nat)

  /** `clearedAt`, `stampDone` and `lost` only record history: when a mapping was last
      removed from a slot, the stamp of the last successful dereference on each core, and the
      number of references whose dereference failed for good. */
  datatype State = State(
    glb: MemType,
    ents: seq<Entry>,
    ops: seq<Op>,
    ptes: seq<Pte>,
    clock: nat,
    periodic: seq<nat>,
    mandatory: seq<nat>,
    tlb: seq<set<nat>>,
    clearedAt: map<nat, nat>,
    stampDone: seq<nat>,
    lost: nat)

  /** RETYPE_REFCNT_MAX. */
  const REFCNT_MAX: int := 0xFFF_FFFF

  /** NUM_CPU_COS: the cores whose mandatory flush is looked at. */
  function NumCos(n: nat): nat {
    if n > 1 then n - 1 else 1
  }

  predicate Typed(t: MemType) {
    t == User || t == Kern
  }

  /** One step of a core; the arguments are what the caller or the hardware decides. */
  datatype Label =
    | StartRef(k: Kind, slot: nat)
    | LoadRef
    | CasRef
    | DoInstall(v: nat)
    | StartUninstall(slot: nat)
    | DoUninstall(v: nat)
    | LoadDeref
    | StampDeref
    | CasDeref
    | DoReinstall
    | StartType(to: MemType)
    | CasType
    | SetType
    | CommitType
    | StartFrame
    | CasFrame
    | LoadLock
    | CasLock
    | ReadStamp
    | TestSum
    | TestPeriodic
    | TestMandatory
    | DoClearCnt
    | DoClearTyp
    | CommitFrame
    | LoadRestore
    | CasRestore
    | RestoreGlb
    | StartFlush
    | DoFlush
    | StoreFlush
    | FillTlb(slot: nat)
    | PeriodicFlush
    | OtherPte(slot: nat, v: nat)

  ghost predicate Shape(s: State) {
    && |s.ents| == |s.ops| == |s.periodic| == |s.mandatory| == |s.tlb| == |s.stampDone|
    && |s.ents| >= 1 && |s.ptes| >= 1
  }

  ghost predicate Init(s: State) {
    && Shape(s) && s.glb == Untyped && s.clearedAt == map[] && s.lost == 0
    && (forall c :: 0 <= c < |s.ents| ==>
          s.ents[c] == Entry(Word(Untyped, 0), 0) && s.ops[c] == Idle && s.tlb[c] == {}
          && s.periodic[c] == 0 && s.mandatory[c] == 0 && s.stampDone[c] == 0)
    && (forall i :: 0 <= i < |s.ptes| ==> s.ptes[i].Other?)
  }

  /** Core c is at the point where it can take the step l. */
  ghost predicate Enabled(s: State, c: nat, l: Label)
    requires Shape(s) && c < |s.ops|
  {
    var op := s.ops[c];
    match l
    case StartRef(k, slot) => op.Idle? && slot < |s.ptes| && s.ptes[slot].Other?
    case LoadRef => op.RefLoad?
    case CasRef => op.RefCas?
    case DoInstall(v) => op.Flying? && op.f.Install? && op.f.slot < |s.ptes|
    case StartUninstall(slot) => op.Idle? && slot < |s.ptes| && !s.ptes[slot].Other?
    case DoUninstall(v) => op.Uninstall? && op.slot < |s.ptes|
    case LoadDeref => op.Flying? && op.f.DerefLoad?
    case StampDeref => op.Flying? && op.f.DerefStamp?
    case CasDeref => op.Flying? && op.f.DerefCas?
    case DoReinstall => op.Flying? && op.f.Reinstall? && op.f.back.Back? && op.f.back.slot < |s.ptes|
    case StartType(to) => op.Idle? && Typed(to)
    case CasType => op.TypeCas?
    case SetType => op.Locked? && op.h.TypeSet? && op.h.i < |s.ents|
    case CommitType => op.Locked? && op.h.TypeCommit?
    case StartFrame => op.Idle?
    case CasFrame => op.FrameCas?
    case LoadLock => op.Locked? && op.h.LockLoad? && op.h.i < |s.ents|
    case CasLock => op.Locked? && op.h.LockCas? && op.h.i < |s.ents|
    case ReadStamp => op.Locked? && op.h.LockStamp? && op.h.i < |s.ents|
    case TestSum => op.Locked? && op.h.CheckSum?
    case TestPeriodic => op.Locked? && op.h.CheckPeriodic?
    case TestMandatory => op.Locked? && op.h.CheckMandatory? && (op.h.i < |s.mandatory| || op.h.i == NumCos(|s.ents|))
    case DoClearCnt => op.Clearing? && op.k.ClearCnt? && op.k.i < |s.ents|
    case DoClearTyp => op.Clearing? && op.k.ClearTyp? && op.k.i < |s.ents|
    case CommitFrame => op.Clearing? && op.k.FrameCommit?
    case LoadRestore => op.Locked? && op.h.RestoreLoad? && 0 < op.h.i <= |s.ents|
    case CasRestore => op.Locked? && op.h.RestoreCas? && 0 < op.h.i <= |s.ents|
    case RestoreGlb => op.Locked? && op.h.RestoreLoad? && op.h.i == 0
    case StartFlush => op.Idle?
    case DoFlush => op.FlushTlb?
    case StoreFlush => op.FlushStore?
    case FillTlb(slot) => slot < |s.ptes| && s.ptes[slot].Maps?
    case PeriodicFlush => true
    case OtherPte(slot, v) => slot < |s.ptes| && s.ptes[slot].Other?
  }

  function WithOp(s: State, c: nat, op: Op): State
    requires c < |s.ops|
  {
    s.(ops := s.ops[c := op])
  }

  function WithWord(s: State, i: nat, w: Word): State
    requires i < |s.ents|
  {
    s.(ents := s.ents[i := s.ents[i].(w := w)])
  }

  function WithPte(s: State, slot: nat, p: Pte): State
    requires slot < |s.ptes|
  {
    s.(ptes := s.ptes[slot := p])
  }

  function Installed(k: Kind, v: nat): Pte {
    if k == Mapping then Maps(v) else Kmem(v)
  }

  /** The reference cannot be given back: either the release is undone or it is lost. */
  function DerefFails(s: State, c: nat, back: Back): State
    requires c < |s.ops|
  {
    if back == NoBack then WithOp(s, c, Idle).(lost := s.lost + 1) else WithOp(s, c, Flying(Reinstall(back)))
  }

  /** References: mod_ref_cnt and the page-table operations around it. */
  ghost function DoRef(s: State, c: nat, l: Label): State
    requires Shape(s) && c < |s.ops| && Enabled(s, c, l)
  {
    var op, e := s.ops[c], s.ents[c];
    match l
    case StartRef(k, slot) => WithOp(s, c, RefLoad(k, slot, s.ptes[slot].v))
    case LoadRef =>
      if Typed(e.w.typ) && (op.kind == Activation ==> e.w.typ == Kern) && e.w.cnt != REFCNT_MAX
      then WithOp(s, c, RefCas(op.kind, op.slot, op.orig, e.w)) else WithOp(s, c, Idle)
    case CasRef =>
      if e.w == op.seen
      then WithOp(WithWord(s, c, e.w.(cnt := e.w.cnt + 1)), c, Flying(Install(op.kind, op.slot, op.orig)))
      else WithOp(s, c, Idle)
    case DoInstall(v) =>
      if s.ptes[op.f.slot] == Other(op.f.orig) then WithOp(WithPte(s, op.f.slot, Installed(op.f.kind, v)), c, Idle)
      else WithOp(s, c, Flying(DerefLoad(-1, NoBack)))
    case StartUninstall(slot) =>
      WithOp(s, c, Uninstall(if s.ptes[slot].Maps? then Mapping else Activation, slot, s.ptes[slot].v))
    case DoUninstall(v) =>
      if s.ptes[op.slot] != Installed(op.kind, op.orig) then WithOp(s, c, Idle)
      else if op.kind == Mapping then
        WithOp(WithPte(s, op.slot, Other(v)), c, Flying(DerefLoad(s.clock, NoBack)))
        .(clearedAt := s.clearedAt[op.slot := s.clock])
      else WithOp(WithPte(s, op.slot, Other(v)), c, Flying(DerefLoad(-1, Back(op.slot, op.orig, v))))
    case LoadDeref =>
      if Typed(e.w.typ) && e.w.cnt != REFCNT_MAX then WithOp(s, c, Flying(DerefStamp(op.f.at, op.f.back, e.w)))
      else DerefFails(s, c, op.f.back)
    case StampDeref =>
      WithOp(s, c, Flying(DerefCas(op.f.at, op.f.back, op.f.seen)))
      .(clock := s.clock + 1, ents := s.ents[c := e.(lastUnmap := s.clock + 1)])
    case CasDeref =>
      if e.w == op.f.seen
      then WithOp(WithWord(s, c, e.w.(cnt := e.w.cnt - 1)), c, Idle).(stampDone := s.stampDone[c := e.lastUnmap])
      else DerefFails(s, c, op.f.back)
    case DoReinstall =>
      if s.ptes[op.f.back.slot] == Other(op.f.back.now)
      then WithOp(WithPte(s, op.f.back.slot, Kmem(op.f.back.orig)), c, Idle)
      else WithOp(s, c, Idle).(lost := s.lost + 1)
    case _ => s
  }

  /** The newest stamp so far, and on to the next entry or to the checks. */
  function AfterStamp(h: Hold, n: nat, stamp: nat): Hold
    requires h.LockStamp?
  {
    var lu := if h.lu < stamp then stamp else h.lu;
    if h.i + 1 < n then LockLoad(h.was, h.i + 1, h.sum, lu) else CheckSum(h.was, h.sum, lu)
  }

  /** Back out if a core was not flushed since the newest stamp, else on to the next core. */
  function AfterMandatory(h: Hold, n: nat, flushed: nat): Hold
    requires h.CheckMandatory?
  {
    if h.lu > flushed then RestoreLoad(h.was, n) else CheckMandatory(h.was, h.lu, h.i + 1)
  }

  /** On to the next entry or to the commit. */
  function AfterSet(to: MemType, i: nat, n: nat): Hold {
    if i + 1 < n then TypeSet(to, i + 1) else TypeCommit(to)
  }

  /** ... and of a retype to untyped frames. */
  function AfterClear(i: nat, n: nat): Clear {
    if i + 1 < n then ClearCnt(i + 1) else FrameCommit
  }

  /** The entry to restore next, as it is seen. */
  function RestoreSeen(s: State, h: Hold): Hold
    requires h.RestoreLoad? && 0 < h.i <= |s.ents|
  {
    RestoreCas(h.was, h.i, s.ents[h.i - 1].w)
  }

  /** An entry that is as it was seen is locked, and its count counted. */
  function EntryLocked(s: State, c: nat, h: Hold): State
    requires c < |s.ops| && h.LockCas? && h.i < |s.ents|
  {
    WithOp(WithWord(s, h.i, h.seen.(typ := Retyping)), c, Locked(LockStamp(h.was, h.i, h.sum + h.seen.cnt, h.lu)))
  }

  /** ... or gets its type back. */
  function EntryRestored(s: State, c: nat, h: Hold): State
    requires c < |s.ops| && h.RestoreCas? && 0 < h.i <= |s.ents|
  {
    WithOp(WithWord(s, h.i - 1, h.seen.(typ := h.was)), c, Locked(RestoreLoad(h.was, h.i - 1)))
  }

  /** Retyping: mod_mem_type and retypetbl_retype2frame. */
  ghost function DoRetype(s: State, c: nat, l: Label): State
    requires Shape(s) && c < |s.ops| && Enabled(s, c, l)
  {
    var op, n := s.ops[c], |s.ents|;
    match l
    case StartType(to) => if s.glb == Untyped then WithOp(s, c, TypeCas(to)) else s
    case CasType =>
      if s.glb == Untyped then WithOp(s, c, Locked(TypeSet(op.to, 0))).(glb := Retyping) else WithOp(s, c, Idle)
    case SetType =>
      WithOp(WithWord(s, op.h.i, s.ents[op.h.i].w.(typ := op.h.to)), c,
             Locked(AfterSet(op.h.to, op.h.i, n)))
    case CommitType => WithOp(s, c, Idle).(glb := if s.glb == Retyping then op.h.to else s.glb)
    case StartFrame => if Typed(s.glb) then WithOp(s, c, FrameCas(s.glb)) else s
    case CasFrame =>
      if s.glb == op.was then WithOp(s, c, Locked(LockLoad(op.was, 0, 0, 0))).(glb := Retyping) else WithOp(s, c, Idle)
    case LoadLock => WithOp(s, c, Locked(LockCas(op.h.was, op.h.i, op.h.sum, op.h.lu, s.ents[op.h.i].w)))
    case CasLock =>
      if s.ents[op.h.i].w == op.h.seen
      then EntryLocked(s, c, op.h)
      else WithOp(s, c, Locked(RestoreLoad(op.h.was, op.h.i)))
    case ReadStamp => WithOp(s, c, Locked(AfterStamp(op.h, n, s.ents[op.h.i].lastUnmap)))
    case TestSum =>
      WithOp(s, c, Locked(if op.h.sum != 0 then RestoreLoad(op.h.was, n) else CheckPeriodic(op.h.was, op.h.lu)))
    case TestPeriodic =>
      WithOp(s, c, if op.h.lu > s.periodic[c] then Locked(CheckMandatory(op.h.was, op.h.lu, 0))
                   else Clearing(ClearCnt(0)))
    case TestMandatory =>
      if op.h.i == NumCos(n) then WithOp(s, c, Clearing(ClearCnt(0)))
      else WithOp(s, c, Locked(AfterMandatory(op.h, n, s.mandatory[op.h.i])))
    case DoClearCnt => WithOp(WithWord(s, op.k.i, s.ents[op.k.i].w.(cnt := 0)), c, Clearing(ClearTyp(op.k.i)))
    case DoClearTyp =>
      WithOp(WithWord(s, op.k.i, s.ents[op.k.i].w.(typ := Untyped)), c,
             Clearing(AfterClear(op.k.i, n)))
    case CommitFrame => WithOp(s, c, Idle).(glb := if s.glb == Retyping then Untyped else s.glb)
    case LoadRestore => WithOp(s, c, Locked(RestoreSeen(s, op.h)))
    case CasRestore =>
      if s.ents[op.h.i - 1].w == op.h.seen then EntryRestored(s, c, op.h)
      else WithOp(s, c, Locked(RestoreLoad(op.h.was, op.h.i - 1)))
    case RestoreGlb => WithOp(s, c, Idle).(glb := if s.glb == Retyping then op.h.was else s.glb)
    case _ => s
  }

  /** TLBs, their flushes, and page-table entries that concern other memory. */
  ghost function DoHardware(s: State, c: nat, l: Label): State
    requires Shape(s) && c < |s.ops| && Enabled(s, c, l)
  {
    var op, n := s.ops[c], |s.ents|;
    match l
    case StartFlush => WithOp(s, c, FlushTlb(s.clock + 1)).(clock := s.clock + 1)
    case DoFlush => WithOp(s, c, FlushStore(op.t)).(tlb := s.tlb[c := {}])
    case StoreFlush => WithOp(s, c, Idle).(mandatory := s.mandatory[c := op.t])
    case FillTlb(slot) => s.(tlb := s.tlb[c := s.tlb[c] + {slot}])
    case PeriodicFlush =>
      s.(clock := s.clock + 1, periodic := seq(n, i => s.clock + 1), tlb := seq(n, i => {}))
    case OtherPte(slot, v) => WithPte(s, slot, Other(v))
    case _ => s
  }

  predicate IsRef(l: Label) {
    || l.StartRef? || l.LoadRef? || l.CasRef? || l.DoInstall? || l.StartUninstall? || l.DoUninstall?
    || l.LoadDeref? || l.StampDeref? || l.CasDeref? || l.DoReinstall?
  }

  predicate IsHardware(l: Label) {
    l.StartFlush? || l.DoFlush? || l.StoreFlush? || l.FillTlb? || l.PeriodicFlush? || l.OtherPte?
  }

  /** The state after core c takes the step l. */
  ghost function Do(s: State, c: nat, l: Label): State
    requires Shape(s) && c < |s.ops| && Enabled(s, c, l)
  {
    if IsRef(l) then DoRef(s, c, l) else if IsHardware(l) then DoHardware(s, c, l) else DoRetype(s, c, l)
  }

  /** The core holds the global entry locked. */
  predicate Holds(op: Op) {
    op.Locked? || op.Clearing?
  }

  /** When the mapping was removed that the core is dereferencing, -1 for none. */
  function At(op: Op): int {
    if op.Flying? then
      match op.f
      case DerefLoad(at, _) => at
      case DerefStamp(at, _, _) => at
      case DerefCas(at, _, _) => at
      case _ => -1
    else -1
  }

  /** What the lock holder has made of the entry of core i so far. */
  predicate EntryHeld(w: Word, i: nat, h: Hold) {
    match h
    case TypeSet(to, k) => if i < k then w.typ == to else w == Word(Untyped, 0)
    case TypeCommit(to) => w.typ == to
    case LockLoad(was, k, _, _) => if i < k then w.typ == Retyping else w.typ == was
    case LockCas(was, k, _, _, _) => if i < k then w.typ == Retyping else w.typ == was
    case LockStamp(was, k, _, _) => if i <= k then w.typ == Retyping else w.typ == was
    case RestoreLoad(was, k) => if i < k then w.typ == Retyping else w.typ == was
    case RestoreCas(was, k, _) => if i < k then w.typ == Retyping else w.typ == was
    case _ => w.typ == Retyping
  }

  predicate EntryCleared(w: Word, i: nat, k: Clear) {
    match k
    case ClearCnt(k) => if i < k then w == Word(Untyped, 0) else w.typ == Retyping
    case ClearTyp(k) => if i < k then w == Word(Untyped, 0) else w.typ == Retyping && (i == k ==> w.cnt == 0)
    case FrameCommit => w == Word(Untyped, 0)
  }

  predicate EntryFor(w: Word, i: nat, op: Op)
    requires Holds(op)
  {
    if op.Locked? then EntryHeld(w, i, op.h) else EntryCleared(w, i, op.k)
  }

  ghost predicate EntriesFor(ents: seq<Entry>, op: Op)
    requires Holds(op)
  {
    forall i :: 0 <= i < |ents| ==> EntryFor(ents[i].w, i, op)
  }

  /** The global type and the per-core entries agree, but for a retype in progress. */
  ghost predicate Locking(s: State)
    requires Shape(s)
  {
    && (forall c, d :: 0 <= c < |s.ops| && 0 <= d < |s.ops| && Holds(s.ops[c]) && Holds(s.ops[d]) ==> c == d)
    && (forall c :: 0 <= c < |s.ops| && Holds(s.ops[c]) ==> s.glb == Retyping && EntriesFor(s.ents, s.ops[c]))
    && (s.glb == Retyping ==> exists c :: 0 <= c < |s.ops| && Holds(s.ops[c]))
    && (Typed(s.glb) ==> forall i :: 0 <= i < |s.ents| ==> s.ents[i].w.typ == s.glb)
    && (s.glb == Untyped ==> forall i :: 0 <= i < |s.ents| ==> s.ents[i].w == Word(Untyped, 0))
  }

  ghost function Counts(ents: seq<Entry>): seq<int> {
    seq(|ents|, i requires 0 <= i < |ents| => ents[i].w.cnt)
  }

  ghost function PteRefs(ptes: seq<Pte>): seq<int> {
    seq(|ptes|, i requires 0 <= i < |ptes| => Ref(!ptes[i].Other?))
  }

  ghost function OpRefs(ops: seq<Op>): seq<int> {
    seq(|ops|, i requires 0 <= i < |ops| => Ref(ops[i].Flying?))
  }

  function Ref(b: bool): int {
    if b then 1 else 0
  }

  /** By how much the counts exceed the references there are. */
  ghost function Surplus(s: State): int {
    Sum(Counts(s.ents)) - Sum(PteRefs(s.ptes)) - Sum(OpRefs(s.ops)) - s.lost
  }

  /** No page of the set is mapped or activated, and no reference is under way or lost. */
  ghost predicate Drained(s: State) {
    && (forall i :: 0 <= i < |s.ptes| ==> s.ptes[i].Other?)
    && (forall c :: 0 <= c < |s.ops| ==> !s.ops[c].Flying?)
    && s.lost == 0
  }

  /** No core whose flushes are looked at holds a translation to the set. */
  ghost predicate Quiet(s: State)
    requires Shape(s)
  {
    forall c :: 0 <= c < NumCos(|s.tlb|) ==> s.tlb[c] == {}
  }

  /** The counts add up to the references there are, until a retype has seen that there are
      none. */
  ghost predicate Accounting(s: State)
    requires Shape(s)
  {
    if exists c :: 0 <= c < |s.ops| && s.ops[c].Clearing? then Drained(s) && Quiet(s) else Surplus(s) == 0
  }

  /** Every stamp of a dereference that counted, on the cores before k, is known to lu. */
  ghost predicate StampsSeen(s: State, k: nat, lu: nat)
    requires k <= |s.stampDone|
  {
    forall j :: 0 <= j < k ==> s.stampDone[j] <= lu
  }

  ghost predicate HoldOk(s: State, h: Hold)
    requires Shape(s)
  {
    var n := |s.ents|;
    match h
    case TypeSet(to, i) => Typed(to) && i < n
    case TypeCommit(to) => Typed(to)
    case LockLoad(was, i, sum, lu) =>
      Typed(was) && i < n && sum == Sum(Counts(s.ents)[..i]) && StampsSeen(s, i, lu)
    case LockCas(was, i, sum, lu, seen) =>
      Typed(was) && i < n && sum == Sum(Counts(s.ents)[..i]) && StampsSeen(s, i, lu) && seen.typ == was
    case LockStamp(was, i, sum, lu) =>
      Typed(was) && i < n && sum == Sum(Counts(s.ents)[..i + 1]) && StampsSeen(s, i, lu)
    case CheckSum(was, sum, lu) => Typed(was) && sum == Sum(Counts(s.ents)) && StampsSeen(s, n, lu)
    case CheckPeriodic(was, lu) => Typed(was) && Sum(Counts(s.ents)) == 0 && StampsSeen(s, n, lu)
    case CheckMandatory(was, lu, i) =>
      && Typed(was) && Sum(Counts(s.ents)) == 0 && StampsSeen(s, n, lu) && i <= NumCos(n)
      && (forall j :: 0 <= j < i ==> lu <= s.mandatory[j])
    case RestoreLoad(was, i) => Typed(was) && i <= n
    case RestoreCas(was, i, seen) => Typed(was) && 0 < i <= n && seen == s.ents[i - 1].w
  }

  ghost predicate FlightOk(s: State, c: nat, f: Flight)
    requires Shape(s) && c < |s.ops|
  {
    match f
    case Install(_, _, _) => true
    case DerefLoad(at, back) => at <= s.clock && (back.Back? ==> at == -1)
    case DerefStamp(at, back, seen) => at <= s.clock && (back.Back? ==> at == -1) && Typed(seen.typ)
    case DerefCas(at, back, seen) => at < s.ents[c].lastUnmap && (back.Back? ==> at == -1) && Typed(seen.typ)
    case Reinstall(back) => back.Back?
  }

  /** What core c knows at its point in the operation. */
  ghost predicate OpOk(s: State, c: nat, op: Op)
    requires Shape(s) && c < |s.ops|
  {
    match op
    case RefCas(_, _, _, seen) => Typed(seen.typ)
    case Flying(f) => FlightOk(s, c, f)
    case TypeCas(to) => Typed(to)
    case FrameCas(was) => Typed(was)
    case Locked(h) => HoldOk(s, h)
    case Clearing(k) => k.FrameCommit? || k.i < |s.ents|
    case FlushTlb(t) => s.mandatory[c] <= t <= s.clock
    case FlushStore(t) => s.mandatory[c] <= t <= s.clock
    case _ => true
  }

  ghost predicate OpsOk(s: State)
    requires Shape(s)
  {
    forall c {:trigger OpOk(s, c, s.ops[c])} :: 0 <= c < |s.ops| ==> OpOk(s, c, s.ops[c])
  }

  /** A cached translation is to a mapped page, or all recorded flushes of the core are older
      than the removal of the mapping. */
  ghost predicate CacheOk(s: State, c: nat, slot: nat)
    requires Shape(s) && c < |s.ops|
  {
    && slot < |s.ptes|
    && (!s.ptes[slot].Maps? ==>
          && slot in s.clearedAt && s.periodic[c] <= s.clearedAt[slot] && s.mandatory[c] <= s.clearedAt[slot]
          && (s.ops[c].FlushStore? ==> s.ops[c].t <= s.clearedAt[slot]))
  }

  /** A removal is still being dereferenced, or a reference is lost, or a dereference that
      counted was stamped after it. */
  ghost predicate Stamped(s: State, at: nat)
    requires Shape(s)
  {
    || s.lost > 0
    || (exists c :: 0 <= c < |s.ops| && At(s.ops[c]) >= at)
    || (exists c :: 0 <= c < |s.ops| && s.stampDone[c] > at)
  }

  ghost predicate Clocks(s: State)
    requires Shape(s)
  {
    && (forall c :: 0 <= c < |s.ops| ==>
          && s.stampDone[c] <= s.ents[c].lastUnmap <= s.clock
          && s.periodic[c] == s.periodic[0] <= s.clock && s.mandatory[c] <= s.clock)
    && (forall slot {:trigger s.clearedAt[slot]} :: slot in s.clearedAt ==>
          s.clearedAt[slot] <= s.clock && Stamped(s, s.clearedAt[slot]))
    && (forall c, slot {:trigger CacheOk(s, c, slot)} :: 0 <= c < |s.ops| && slot in s.tlb[c] ==> CacheOk(s, c, slot))
  }

  ghost predicate Inv(s: State) {
    Shape(s) && Locking(s) && Accounting(s) && Clocks(s) && OpsOk(s)
  }

  lemma InitInv(s: State)
    requires Init(s)
    ensures Inv(s)
  {
    SumZero(Counts(s.ents));
    SumZero(PteRefs(s.ptes));
    SumZero(OpRefs(s.ops));
  }

  lemma OpRefsUpdate(ops: seq<Op>, c: nat, op: Op)
    requires c < |ops|
    ensures Sum(OpRefs(ops[c := op])) == Sum(OpRefs(ops)) + Ref(op.Flying?) - Ref(ops[c].Flying?)
  {
    assert OpRefs(ops[c := op]) == OpRefs(ops)[c := Ref(op.Flying?)];
    SumUpdate(OpRefs(ops), c, Ref(op.Flying?));
  }

  lemma PteRefsUpdate(ptes: seq<Pte>, i: nat, p: Pte)
    requires i < |ptes|
    ensures Sum(PteRefs(ptes[i := p])) == Sum(PteRefs(ptes)) + Ref(!p.Other?) - Ref(!ptes[i].Other?)
  {
    assert PteRefs(ptes[i := p]) == PteRefs(ptes)[i := Ref(!p.Other?)];
    SumUpdate(PteRefs(ptes), i, Ref(!p.Other?));
  }

  lemma CountsUpdate(ents: seq<Entry>, i: nat, e: Entry)
    requires i < |ents|
    ensures Sum(Counts(ents[i := e])) == Sum(Counts(ents)) + e.w.cnt - ents[i].w.cnt
    ensures forall k :: 0 <= k <= i ==> Counts(ents[i := e])[..k] == Counts(ents)[..k]
    ensures e.w.cnt == ents[i].w.cnt ==> Counts(ents[i := e]) == Counts(ents)
  {
    assert Counts(ents[i := e]) == Counts(ents)[i := e.w.cnt];
    SumUpdate(Counts(ents), i, e.w.cnt);
  }

  /** Same cores and slots, and time does not run backwards. */
  ghost predicate Later(s: State, s': State) {
    && Shape(s) && Shape(s') && |s'.ents| == |s.ents| && |s'.ptes| == |s.ptes| && s.clock <= s'.clock
    && (forall c :: 0 <= c < |s.ents| ==>
          s.ents[c].lastUnmap <= s'.ents[c].lastUnmap && s.mandatory[c] <= s'.mandatory[c])
  }

  /** Entries locked by a retype are left alone. */
  ghost predicate LockedKept(s: State, s': State)
    requires Later(s, s')
  {
    forall j :: 0 <= j < |s.ents| && s.ents[j].w.typ == Retyping ==>
      s'.ents[j].w == s.ents[j].w && s'.stampDone[j] == s.stampDone[j]
  }

  /** Only core c moves on. */
  ghost predicate CoreStep(s: State, s': State, c: nat) {
    && Later(s, s')
    && (forall d :: 0 <= d < |s.ops| && d != c ==> s'.ops[d] == s.ops[d] && s'.mandatory[d] == s.mandatory[d])
  }

  lemma HoldStillOk(s: State, s': State, h: Hold)
    requires Later(s, s') && HoldOk(s, h) && EntriesFor(s.ents, Locked(h)) && LockedKept(s, s')
    ensures HoldOk(s', h)
  {
    assert forall i :: 0 <= i < |s.ents| ==> EntryHeld(s.ents[i].w, i, h);
    if h.LockLoad? || h.LockCas? {
      assert Counts(s'.ents)[..h.i] == Counts(s.ents)[..h.i];
    } else if h.LockStamp? {
      assert Counts(s'.ents)[..h.i + 1] == Counts(s.ents)[..h.i + 1];
    } else if h.CheckSum? || h.CheckPeriodic? || h.CheckMandatory? {
      assert Counts(s'.ents) == Counts(s.ents);
    }
  }

  /** What the cores know stays true while core c moves on. */
  lemma AllOk(s: State, s': State, c: nat)
    requires Shape(s) && Locking(s) && OpsOk(s)
    requires CoreStep(s, s', c) && c < |s.ops| && OpOk(s', c, s'.ops[c])
    requires Holds(s.ops[c]) || LockedKept(s, s')
    ensures OpsOk(s')
  {
    forall d {:trigger OpOk(s', d, s'.ops[d])} | 0 <= d < |s.ops| ensures OpOk(s', d, s'.ops[d]) {
      assert OpOk(s, d, s.ops[d]);
      if d != c && s.ops[d].Locked? {
        HoldStillOk(s, s', s.ops[d].h);
      }
    }
  }

  /** The lock holder, if any, sees its entries unchanged when core c changes a count of its own. */
  lemma LockingKept(s: State, s': State, c: nat)
    requires CoreStep(s, s', c) && Locking(s) && c < |s.ops| && s'.glb == s.glb
    requires Holds(s'.ops[c]) == Holds(s.ops[c]) && (Holds(s.ops[c]) ==> EntriesFor(s'.ents, s'.ops[c]))
    requires forall j :: 0 <= j < |s.ents| ==>
      s'.ents[j].w == s.ents[j].w || (s'.ents[j].w.typ == s.ents[j].w.typ && Typed(s.ents[j].w.typ))
    ensures Locking(s')
  {
    forall d | 0 <= d < |s.ops| && Holds(s'.ops[d]) ensures EntriesFor(s'.ents, s'.ops[d]) {
      assert Holds(s.ops[d]);
      if d != c {
        forall j | 0 <= j < |s.ents| ensures EntryFor(s'.ents[j].w, j, s.ops[d]) {
          assert EntryFor(s.ents[j].w, j, s.ops[d]);
        }
      }
    }
    if s.glb == Retyping {
      var d :| 0 <= d < |s.ops| && Holds(s.ops[d]);
      assert Holds(s'.ops[d]);
    }
  }

  /** Removals stay accounted for while no dereference ends and no stamp is taken back. */
  lemma StampedStill(s: State, s': State)
    requires Shape(s) && Shape(s') && |s.ops| == |s'.ops| && s'.lost >= s.lost
    requires forall c :: 0 <= c < |s.ops| ==> s'.stampDone[c] >= s.stampDone[c]
    requires forall c :: 0 <= c < |s.ops| ==>
      At(s'.ops[c]) == At(s.ops[c]) || s'.lost > 0 || At(s.ops[c]) < s'.stampDone[c] || At(s.ops[c]) < 0
    ensures forall at: nat :: Stamped(s, at) ==> Stamped(s', at)
  {
    forall at: nat | Stamped(s, at) ensures Stamped(s', at) {
      if s.lost == 0 {
        if c :| 0 <= c < |s.ops| && At(s.ops[c]) >= at {
          assert Stamped(s', at);
        } else {
          var c :| 0 <= c < |s.ops| && s.stampDone[c] > at;
          assert s'.stampDone[c] > at;
        }
      }
    }
  }

  /** A step within an operation that writes no shared memory. */
  lemma OpStep(s: State, c: nat, op: Op)
    requires Inv(s) && c < |s.ops| && OpOk(s, c, op) && !op.FlushStore?
    requires op.Flying? == s.ops[c].Flying? && (At(op) == At(s.ops[c]) || At(s.ops[c]) < 0)
    requires Holds(op) == Holds(s.ops[c]) && (Holds(op) ==> EntriesFor(s.ents, op))
    requires if op.Clearing? then Drained(s) && Quiet(s) else !s.ops[c].Clearing?
    ensures Inv(WithOp(s, c, op))
  {
    var s' := WithOp(s, c, op);
    LockingKept(s, s', c);
    OpStepAccounting(s, c, op);
    ClocksKept(s, s', c);
    AllOk(s, s', c);
  }

  /** Nothing about time changes where only counts and types are written. */
  lemma ClocksKept(s: State, s': State, c: nat)
    requires Shape(s) && Shape(s') && Clocks(s) && c < |s.ops| && |s'.ents| == |s.ents|
    requires s' == s.(ops := s.ops[c := s'.ops[c]], ents := s'.ents, glb := s'.glb)
    requires forall d :: 0 <= d < |s.ents| ==> s'.ents[d].lastUnmap == s.ents[d].lastUnmap
    requires !s'.ops[c].FlushStore? && (At(s'.ops[c]) == At(s.ops[c]) || At(s.ops[c]) < 0)
    ensures Clocks(s')
  {
    StampedStill(s, s');
    forall d, slot {:trigger CacheOk(s', d, slot)} | 0 <= d < |s'.ops| && slot in s'.tlb[d]
      ensures CacheOk(s', d, slot)
    {
      assert CacheOk(s, d, slot);
    }
  }

  lemma OpStepAccounting(s: State, c: nat, op: Op)
    requires Shape(s) && Accounting(s) && c < |s.ops| && op.Flying? == s.ops[c].Flying?
    requires if op.Clearing? then Drained(s) && Quiet(s) else !s.ops[c].Clearing?
    ensures Accounting(WithOp(s, c, op))
  {
    var s' := WithOp(s, c, op);
    OpRefsUpdate(s.ops, c, op);
    if d :| 0 <= d < |s.ops| && s'.ops[d].Clearing? {
      assert d != c ==> s.ops[d].Clearing?;
    } else {
      assert s'.ops[c] == op;
      assert forall d :: 0 <= d < |s.ops| && s.ops[d].Clearing? ==> s'.ops[d].Clearing?;
    }
  }

  /** While a reference is in flight, a page-table entry shows one, or an entry is typed, no
      retype to untyped frames is past its checks. */
  lemma NotClearing(s: State, c: nat, slot: nat)
    requires Shape(s) && Locking(s) && Accounting(s) && c < |s.ops| && slot < |s.ptes|
    requires s.ops[c].Flying? || Typed(s.ents[c].w.typ) || !s.ptes[slot].Other?
    ensures forall d :: 0 <= d < |s.ops| ==> !s.ops[d].Clearing?
  {
    forall d | 0 <= d < |s.ops| ensures !s.ops[d].Clearing? {
      assert Holds(s.ops[d]) ==> EntryFor(s.ents[c].w, c, s.ops[d]);
    }
  }

  /** Core c, without the lock, moves on, writing its own entry and one page-table entry. */
  ghost predicate OwnStep(s: State, s': State, c: nat, slot: nat)
    requires Shape(s) && c < |s.ops| && slot < |s.ptes|
  {
    && |s'.ops| == |s.ops| && |s'.ents| == |s.ents| && |s'.ptes| == |s.ptes| && |s'.stampDone| == |s.stampDone|
    && s'.glb == s.glb && s'.periodic == s.periodic && s'.mandatory == s.mandatory && s'.tlb == s.tlb
    && s'.ops == s.ops[c := s'.ops[c]]
    && (s'.ents == s.ents || s'.ents == s.ents[c := s'.ents[c]])
    && (s'.ptes == s.ptes || s'.ptes == s.ptes[slot := s'.ptes[slot]])
    && (s'.stampDone == s.stampDone || s'.stampDone == s.stampDone[c := s'.stampDone[c]])
    && !Holds(s.ops[c]) && !Holds(s'.ops[c])
    && (s'.ents[c].w == s.ents[c].w || (s'.ents[c].w.typ == s.ents[c].w.typ && Typed(s.ents[c].w.typ)))
    && (s'.stampDone[c] == s.stampDone[c] || Typed(s.ents[c].w.typ))
  }

  /** ... and its clocks: a stamp is taken now, or recorded with the count it belongs to; a
      mapping goes away only into a dereference that starts now. */
  ghost predicate OwnClocks(s: State, s': State, c: nat, slot: nat)
    requires Shape(s) && Shape(s') && c < |s.ops| && slot < |s.ptes| && OwnStep(s, s', c, slot)
  {
    && s.clock <= s'.clock && s.lost <= s'.lost
    && s.ents[c].lastUnmap <= s'.ents[c].lastUnmap <= s'.clock
    && s.stampDone[c] <= s'.stampDone[c] <= s'.ents[c].lastUnmap
    && !s'.ops[c].FlushStore? && !s.ops[c].FlushStore?
    && (At(s'.ops[c]) == At(s.ops[c]) || s'.lost > 0 || At(s.ops[c]) < s'.stampDone[c] || At(s.ops[c]) < 0)
    && (if s.ptes[slot].Maps? && !s'.ptes[slot].Maps?
        then s'.clearedAt == s.clearedAt[slot := s.clock] && At(s'.ops[c]) >= s.clock
        else s'.clearedAt == s.clearedAt)
  }

  lemma OwnStepControl(s: State, s': State, c: nat, slot: nat)
    requires Inv(s) && Shape(s') && c < |s.ops| && slot < |s.ptes|
    requires OwnStep(s, s', c, slot) && OwnClocks(s, s', c, slot) && OpOk(s', c, s'.ops[c])
    ensures Locking(s') && OpsOk(s')
  {
    LockingKept(s, s', c);
    AllOk(s, s', c);
  }

  lemma OwnStepCaches(s: State, s': State, c: nat, slot: nat)
    requires Shape(s) && Clocks(s) && OpsOk(s) && Shape(s') && c < |s.ops| && slot < |s.ptes|
    requires OwnStep(s, s', c, slot) && OwnClocks(s, s', c, slot)
    ensures forall d, at {:trigger CacheOk(s', d, at)} ::
      0 <= d < |s'.ops| && at in s'.tlb[d] ==> CacheOk(s', d, at)
  {
    forall d, at {:trigger CacheOk(s', d, at)} | 0 <= d < |s'.ops| && at in s'.tlb[d] ensures CacheOk(s', d, at) {
      assert CacheOk(s, d, at) && OpOk(s, d, s.ops[d]);
    }
  }

  lemma OwnStepClocks(s: State, s': State, c: nat, slot: nat)
    requires Shape(s) && Clocks(s) && OpsOk(s) && Shape(s') && c < |s.ops| && slot < |s.ptes|
    requires OwnStep(s, s', c, slot) && OwnClocks(s, s', c, slot)
    ensures Clocks(s')
  {
    StampedStill(s, s');
    OwnStepCaches(s, s', c, slot);
    if s'.clearedAt != s.clearedAt {
      assert Stamped(s', s.clock);
    }
  }

  lemma OwnStepSurplus(s: State, s': State, c: nat, slot: nat)
    requires Shape(s) && c < |s.ops| && slot < |s.ptes| && OwnStep(s, s', c, slot)
    ensures Surplus(s') == Surplus(s) + s'.ents[c].w.cnt - s.ents[c].w.cnt
            - Ref(!s'.ptes[slot].Other?) + Ref(!s.ptes[slot].Other?)
            - Ref(s'.ops[c].Flying?) + Ref(s.ops[c].Flying?) - s'.lost + s.lost
  {
    CountsUpdate(s.ents, c, s'.ents[c]);
    PteRefsUpdate(s.ptes, slot, s'.ptes[slot]);
    OpRefsUpdate(s.ops, c, s'.ops[c]);
  }

  /** A step of a core without the lock that changes as many counts as references. */
  lemma OwnStepInv(s: State, s': State, c: nat, slot: nat)
    requires Inv(s) && Shape(s') && c < |s.ops| && slot < |s.ptes|
    requires OwnStep(s, s', c, slot) && OwnClocks(s, s', c, slot) && OpOk(s', c, s'.ops[c])
    requires s.ops[c].Flying? || Typed(s.ents[c].w.typ) || !s.ptes[slot].Other?
    requires s'.ents[c].w.cnt - s.ents[c].w.cnt ==
             Ref(!s'.ptes[slot].Other?) - Ref(!s.ptes[slot].Other?)
             + Ref(s'.ops[c].Flying?) - Ref(s.ops[c].Flying?) + s'.lost - s.lost
    ensures Inv(s')
  {
    OwnStepControl(s, s', c, slot);
    OwnStepClocks(s, s', c, slot);
    OwnStepSurplus(s, s', c, slot);
    NotClearing(s, c, slot);
    assert forall d :: 0 <= d < |s'.ops| ==> !s'.ops[d].Clearing?;
  }

  lemma DerefFailsInv(s: State, c: nat, back: Back)
    requires Inv(s) && c < |s.ops| && s.ops[c].Flying? && (back.Back? ==> At(s.ops[c]) < 0)
    ensures Inv(DerefFails(s, c, back))
  {
    if back == NoBack {
      OwnStepInv(s, DerefFails(s, c, NoBack), c, 0);
    } else {
      OpStep(s, c, Flying(Reinstall(back)));
    }
  }

  /** Taking a reference and putting it into a page-table entry. */
  lemma RefStepInv(s: State, c: nat, l: Label)
    requires Inv(s) && c < |s.ops| && Enabled(s, c, l)
    requires l.StartRef? || l.LoadRef? || l.CasRef? || l.DoInstall?
    ensures Inv(DoRef(s, c, l))
  {
    var op := s.ops[c];
    if l.CasRef? && s.ents[c].w == op.seen {
      assert OpOk(s, c, op);
      OwnStepInv(s, DoRef(s, c, l), c, 0);
    } else if l.DoInstall? && s.ptes[op.f.slot] == Other(op.f.orig) {
      OwnStepInv(s, DoRef(s, c, l), c, op.f.slot);
    } else {
      RefMoves(s, c, l);
    }
  }

  /** ... as far as nothing is written. */
  lemma RefMoves(s: State, c: nat, l: Label)
    requires Inv(s) && c < |s.ops| && Enabled(s, c, l)
    requires l.StartRef? || l.LoadRef? || (l.CasRef? && s.ents[c].w != s.ops[c].seen)
             || (l.DoInstall? && s.ptes[s.ops[c].f.slot] != Other(s.ops[c].f.orig))
    ensures Inv(DoRef(s, c, l))
  {
    assert OpOk(s, c, s.ops[c]);
    OpStep(s, c, DoRef(s, c, l).ops[c]);
  }

  /** Taking a page-table entry back and giving up its reference. */
  lemma UninstallStepInv(s: State, c: nat, l: Label)
    requires Inv(s) && c < |s.ops| && Enabled(s, c, l)
    requires l.StartUninstall? || l.DoUninstall?
    ensures Inv(DoRef(s, c, l))
  {
    var op, s' := s.ops[c], DoRef(s, c, l);
    assert OpOk(s, c, op);
    if l.DoUninstall? && s.ptes[op.slot] == Installed(op.kind, op.orig) {
      OwnStepInv(s, s', c, op.slot);
    } else {
      OpStep(s, c, s'.ops[c]);
    }
  }

  lemma ReinstallStepInv(s: State, c: nat)
    requires Inv(s) && c < |s.ops| && Enabled(s, c, DoReinstall)
    ensures Inv(DoRef(s, c, DoReinstall))
  {
    OwnStepInv(s, DoRef(s, c, DoReinstall), c, s.ops[c].f.back.slot);
  }

  lemma DerefStepInv(s: State, c: nat, l: Label)
    requires Inv(s) && c < |s.ops| && Enabled(s, c, l)
    requires l.LoadDeref? || l.StampDeref? || l.CasDeref?
    ensures Inv(DoRef(s, c, l))
  {
    var op, s' := s.ops[c], DoRef(s, c, l);
    assert OpOk(s, c, op);
    if l.StampDeref? || (l.CasDeref? && s.ents[c].w == op.f.seen) {
      OwnStepInv(s, s', c, 0);
    } else if l.LoadDeref? && Typed(s.ents[c].w.typ) && s.ents[c].w.cnt != REFCNT_MAX {
      OpStep(s, c, s'.ops[c]);
    } else {
      DerefFailsInv(s, c, op.f.back);
    }
  }

  /** The lock holder writes the entry of core i. */
  lemma HolderStep(s: State, c: nat, i: nat, w: Word, op: Op)
    requires Inv(s) && c < |s.ops| && i < |s.ents| && Holds(s.ops[c]) && Holds(op)
    requires s.ops[c].Clearing? == op.Clearing? && (w.cnt == s.ents[i].w.cnt || op.Clearing?)
    requires EntriesFor(WithWord(s, i, w).ents, op) && OpOk(WithWord(s, i, w), c, op)
    ensures Inv(WithOp(WithWord(s, i, w), c, op))
  {
    var s' := WithOp(WithWord(s, i, w), c, op);
    HolderLocking(s, s', c);
    HolderAccounting(s, c, i, w, op);
    ClocksKept(s, s', c);
    AllOk(s, s', c);
  }

  lemma HolderLocking(s: State, s': State, c: nat)
    requires CoreStep(s, s', c) && Locking(s) && c < |s.ops| && s'.glb == s.glb
    requires Holds(s.ops[c]) && Holds(s'.ops[c]) && EntriesFor(s'.ents, s'.ops[c])
    ensures Locking(s')
  {
    forall d | 0 <= d < |s.ops| && d != c ensures !Holds(s'.ops[d]) {
      assert s'.ops[d] == s.ops[d];
    }
  }

  lemma HolderAccounting(s: State, c: nat, i: nat, w: Word, op: Op)
    requires Shape(s) && Locking(s) && Accounting(s) && c < |s.ops| && i < |s.ents| && Holds(s.ops[c]) && Holds(op)
    requires s.ops[c].Clearing? == op.Clearing? && (w.cnt == s.ents[i].w.cnt || op.Clearing?)
    ensures Accounting(WithOp(WithWord(s, i, w), c, op))
  {
    var s' := WithOp(WithWord(s, i, w), c, op);
    CountsUpdate(s.ents, i, s'.ents[i]);
    OpRefsUpdate(s.ops, c, op);
    assert forall d :: 0 <= d < |s.ops| ==> (s'.ops[d].Clearing? <==> s.ops[d].Clearing?);
  }

  /** A retype takes the global lock. */
  lemma AcquireStep(s: State, c: nat, h: Hold)
    requires Inv(s) && c < |s.ops| && s.glb != Retyping && !s.ops[c].Flying?
    requires EntriesFor(s.ents, Locked(h)) && HoldOk(s, h)
    ensures Inv(WithOp(s, c, Locked(h)).(glb := Retyping))
  {
    var s' := WithOp(s, c, Locked(h)).(glb := Retyping);
    AcquireLocking(s, s', c);
    OpStepAccounting(s, c, Locked(h));
    ClocksKept(s, s', c);
    AllOk(s, s', c);
  }

  lemma AcquireLocking(s: State, s': State, c: nat)
    requires CoreStep(s, s', c) && Locking(s) && c < |s.ops| && s.glb != Retyping && s'.glb == Retyping
    requires Holds(s'.ops[c]) && EntriesFor(s'.ents, s'.ops[c])
    ensures Locking(s') && !Holds(s.ops[c])
  {
    forall d | 0 <= d < |s.ops| && d != c ensures !Holds(s'.ops[d]) {
      assert s'.ops[d] == s.ops[d];
    }
  }

  /** A retype releases the global lock, leaving the set with type g. */
  lemma ReleaseStep(s: State, c: nat, g: MemType)
    requires Inv(s) && c < |s.ops| && Holds(s.ops[c]) && g != Retyping
    requires Typed(g) ==> forall i :: 0 <= i < |s.ents| ==> s.ents[i].w.typ == g
    requires g == Untyped ==> forall i :: 0 <= i < |s.ents| ==> s.ents[i].w == Word(Untyped, 0)
    requires s.ops[c].Clearing? ==> g == Untyped
    ensures Inv(WithOp(s, c, Idle).(glb := g))
  {
    var s' := WithOp(s, c, Idle).(glb := g);
    assert forall d :: 0 <= d < |s.ops| ==> !Holds(s'.ops[d]);
    ReleaseAccounting(s, c, s');
    ClocksKept(s, s', c);
    AllOk(s, s', c);
  }

  lemma ReleaseAccounting(s: State, c: nat, s': State)
    requires Shape(s) && Accounting(s) && Locking(s) && c < |s.ops| && Holds(s.ops[c]) && Shape(s')
    requires s'.ops == s.ops[c := Idle] && s'.ents == s.ents && s'.ptes == s.ptes
    requires s'.lost == s.lost && s'.tlb == s.tlb
    requires s.ops[c].Clearing? ==> forall i :: 0 <= i < |s.ents| ==> s.ents[i].w.cnt == 0
    ensures Accounting(s')
  {
    assert forall d :: 0 <= d < |s.ops| ==> !Holds(s'.ops[d]);
    OpRefsUpdate(s.ops, c, Idle);
    if s.ops[c].Clearing? {
      SumZero(Counts(s'.ents));
      SumZero(PteRefs(s'.ptes));
      SumZero(OpRefs(s'.ops));
    } else {
      assert forall d :: 0 <= d < |s.ops| ==> !s.ops[d].Clearing?;
    }
  }

  /** Once the counts of a locked set add up to nothing and the flushes are recent enough,
      nothing refers to it and no TLB that was looked at caches it. */
  lemma Quiesced(s: State, c: nat, lu: nat)
    requires Inv(s) && c < |s.ops| && s.ops[c].Locked? && Sum(Counts(s.ents)) == 0 && StampsSeen(s, |s.ents|, lu)
    requires lu <= s.periodic[c] || forall j :: 0 <= j < NumCos(|s.ents|) ==> lu <= s.mandatory[j]
    ensures Drained(s) && Quiet(s)
  {
    assert forall d :: 0 <= d < |s.ops| ==> !s.ops[d].Clearing?;
    ZeroSums(s);
    forall d | 0 <= d < NumCos(|s.tlb|) ensures s.tlb[d] == {} {
      forall slot ensures slot !in s.tlb[d] {
        assert slot in s.tlb[d] ==> CacheOk(s, d, slot);
        assert slot in s.clearedAt ==> Stamped(s, s.clearedAt[slot]);
      }
    }
  }

  /** Numbers of references are not negative, so with a zero total there are none. */
  lemma ZeroSums(s: State)
    requires Shape(s) && Surplus(s) == 0 && Sum(Counts(s.ents)) == 0
    ensures Drained(s)
  {
    SumNonNegative(PteRefs(s.ptes), 0);
    SumNonNegative(OpRefs(s.ops), 0);
    forall i | 0 <= i < |s.ptes| ensures s.ptes[i].Other? {
      SumNonNegative(PteRefs(s.ptes), i);
    }
    forall d | 0 <= d < |s.ops| ensures !s.ops[d].Flying? {
      SumNonNegative(OpRefs(s.ops), d);
    }
  }

  lemma TypeStepInv(s: State, c: nat, l: Label)
    requires Inv(s) && c < |s.ops| && Enabled(s, c, l)
    requires l.StartType? || l.CasType? || l.SetType? || l.CommitType?
    ensures Inv(DoRetype(s, c, l))
  {
    var op, s' := s.ops[c], DoRetype(s, c, l);
    assert OpOk(s, c, op);
    if l.CasType? && s.glb == Untyped {
      AcquireStep(s, c, TypeSet(op.to, 0));
    } else if l.SetType? {
      SetTypeInv(s, c);
    } else if l.CommitType? {
      CommitTypeInv(s, c);
    } else if s' != s {
      OpStep(s, c, s'.ops[c]);
    }
  }

  lemma CommitTypeInv(s: State, c: nat)
    requires Inv(s) && c < |s.ops| && Enabled(s, c, CommitType)
    ensures Inv(DoRetype(s, c, CommitType))
  {
    assert OpOk(s, c, s.ops[c]) && EntriesFor(s.ents, s.ops[c]);
    assert forall i :: 0 <= i < |s.ents| ==> EntryFor(s.ents[i].w, i, s.ops[c]);
    ReleaseStep(s, c, s.ops[c].h.to);
  }

  lemma SetTypeInv(s: State, c: nat)
    requires Inv(s) && c < |s.ops| && Enabled(s, c, SetType)
    ensures Inv(DoRetype(s, c, SetType))
  {
    var op, s' := s.ops[c], DoRetype(s, c, SetType);
    assert OpOk(s, c, op) && EntriesFor(s.ents, op);
    HolderStep(s, c, op.h.i, s.ents[op.h.i].w.(typ := op.h.to), s'.ops[c]);
  }

  lemma PrefixSum(s: seq<int>, i: nat)
    requires i < |s|
    ensures Sum(s[..i + 1]) == Sum(s[..i]) + s[i]
  {
    assert s[..i + 1][..i] == s[..i];
  }

  lemma StartFrameInv(s: State, c: nat, l: Label)
    requires Inv(s) && c < |s.ops| && Enabled(s, c, l) && (l.StartFrame? || l.CasFrame?)
    ensures Inv(DoRetype(s, c, l))
  {
    var op, s' := s.ops[c], DoRetype(s, c, l);
    assert OpOk(s, c, op);
    if l.CasFrame? && s.glb == op.was {
      AcquireStep(s, c, LockLoad(op.was, 0, 0, 0));
    } else if s' != s {
      OpStep(s, c, s'.ops[c]);
    }
  }

  lemma LoadLockInv(s: State, c: nat)
    requires Inv(s) && c < |s.ops| && Enabled(s, c, LoadLock)
    ensures Inv(DoRetype(s, c, LoadLock))
  {
    var op := s.ops[c];
    assert OpOk(s, c, op) && EntriesFor(s.ents, op);
    assert EntryFor(s.ents[op.h.i].w, op.h.i, op);
    HolderMoves(s, c, LockCas(op.h.was, op.h.i, op.h.sum, op.h.lu, s.ents[op.h.i].w));
  }

  /** The stamp of the entry just locked is taken into account. */
  lemma StampRead(s: State, h: Hold)
    requires Shape(s) && h.LockStamp? && HoldOk(s, h) && s.stampDone[h.i] <= s.ents[h.i].lastUnmap
    ensures HoldOk(s, AfterStamp(h, |s.ents|, s.ents[h.i].lastUnmap))
  {
    assert Counts(s.ents)[..|s.ents|] == Counts(s.ents);
  }

  lemma ReadStampInv(s: State, c: nat)
    requires Inv(s) && c < |s.ops| && Enabled(s, c, ReadStamp)
    ensures Inv(DoRetype(s, c, ReadStamp))
  {
    var h := s.ops[c].h;
    assert OpOk(s, c, s.ops[c]) && s.stampDone[h.i] <= s.ents[h.i].lastUnmap;
    StampRead(s, h);
    HolderMoves(s, c, AfterStamp(h, |s.ents|, s.ents[h.i].lastUnmap));
  }

  /** The lock holder moves on without writing. */
  lemma HolderMoves(s: State, c: nat, h: Hold)
    requires Inv(s) && c < |s.ops| && s.ops[c].Locked? && HoldOk(s, h)
    requires forall i :: 0 <= i < |s.ents| && EntryHeld(s.ents[i].w, i, s.ops[c].h) ==> EntryHeld(s.ents[i].w, i, h)
    ensures Inv(WithOp(s, c, Locked(h)))
  {
    assert EntriesFor(s.ents, s.ops[c]);
    assert forall i :: 0 <= i < |s.ents| ==> EntryFor(s.ents[i].w, i, s.ops[c]);
    OpStep(s, c, Locked(h));
  }

  lemma CasLockInv(s: State, c: nat)
    requires Inv(s) && c < |s.ops| && Enabled(s, c, CasLock)
    ensures Inv(DoRetype(s, c, CasLock))
  {
    var op := s.ops[c];
    assert OpOk(s, c, op);
    if s.ents[op.h.i].w == op.h.seen {
      LockEntry(s, c, op.h);
    } else {
      HolderMoves(s, c, RestoreLoad(op.h.was, op.h.i));
    }
  }

  /** Locking one entry adds its count to the sum. */
  lemma LockEntry(s: State, c: nat, h: Hold)
    requires Inv(s) && c < |s.ops| && s.ops[c] == Locked(h) && h.LockCas? && HoldOk(s, h) && s.ents[h.i].w == h.seen
    requires EntriesFor(s.ents, Locked(h))
    ensures Inv(EntryLocked(s, c, h))
  {
    LockedSum(s, h);
    LockedEntries(s.ents, h, WithWord(s, h.i, h.seen.(typ := Retyping)).ents);
    HolderStep(s, c, h.i, h.seen.(typ := Retyping), Locked(LockStamp(h.was, h.i, h.sum + h.seen.cnt, h.lu)));
  }

  /** The sum takes in the count of the entry that was just locked. */
  lemma LockedSum(s: State, h: Hold)
    requires Shape(s) && h.LockCas? && HoldOk(s, h) && s.ents[h.i].w == h.seen
    ensures HoldOk(WithWord(s, h.i, h.seen.(typ := Retyping)), LockStamp(h.was, h.i, h.sum + h.seen.cnt, h.lu))
  {
    var ents' := WithWord(s, h.i, h.seen.(typ := Retyping)).ents;
    CountsUpdate(s.ents, h.i, ents'[h.i]);
    PrefixSum(Counts(s.ents), h.i);
  }

  lemma LockedEntries(ents: seq<Entry>, h: Hold, ents': seq<Entry>)
    requires h.LockCas? && h.i < |ents| && EntriesFor(ents, Locked(h))
    requires ents' == ents[h.i := ents[h.i].(w := h.seen.(typ := Retyping))]
    ensures EntriesFor(ents', Locked(LockStamp(h.was, h.i, h.sum + h.seen.cnt, h.lu)))
  {
    forall i | 0 <= i < |ents|
      ensures EntryFor(ents'[i].w, i, Locked(LockStamp(h.was, h.i, h.sum + h.seen.cnt, h.lu)))
    {
      assert EntryFor(ents[i].w, i, Locked(h));
    }
  }

  lemma TestSumInv(s: State, c: nat)
    requires Inv(s) && c < |s.ops| && Enabled(s, c, TestSum)
    ensures Inv(DoRetype(s, c, TestSum))
  {
    assert OpOk(s, c, s.ops[c]);
    HolderMoves(s, c, DoRetype(s, c, TestSum).ops[c].h);
  }

  lemma StartClearing(s: State, c: nat, lu: nat)
    requires Inv(s) && c < |s.ops| && s.ops[c].Locked? && (s.ops[c].h.CheckPeriodic? || s.ops[c].h.CheckMandatory?)
    requires lu == s.ops[c].h.lu
    requires lu <= s.periodic[c] || forall j :: 0 <= j < NumCos(|s.ents|) ==> lu <= s.mandatory[j]
    ensures Inv(WithOp(s, c, Clearing(ClearCnt(0))))
  {
    assert OpOk(s, c, s.ops[c]) && EntriesFor(s.ents, s.ops[c]);
    Quiesced(s, c, lu);
    assert forall i :: 0 <= i < |s.ents| ==> EntryFor(s.ents[i].w, i, s.ops[c]);
    OpStep(s, c, Clearing(ClearCnt(0)));
  }

  lemma TestPeriodicInv(s: State, c: nat)
    requires Inv(s) && c < |s.ops| && Enabled(s, c, TestPeriodic)
    ensures Inv(DoRetype(s, c, TestPeriodic))
  {
    var h := s.ops[c].h;
    assert OpOk(s, c, s.ops[c]);
    if h.lu > s.periodic[c] {
      HolderMoves(s, c, CheckMandatory(h.was, h.lu, 0));
    } else {
      StartClearing(s, c, h.lu);
    }
  }

  lemma MandatoryTested(s: State, c: nat)
    requires Inv(s) && c < |s.ops| && Enabled(s, c, TestMandatory) && s.ops[c].h.i != NumCos(|s.ents|)
    ensures HoldOk(s, AfterMandatory(s.ops[c].h, |s.ents|, s.mandatory[s.ops[c].h.i]))
  {
    assert OpOk(s, c, s.ops[c]);
  }

  lemma TestMandatoryInv(s: State, c: nat)
    requires Inv(s) && c < |s.ops| && Enabled(s, c, TestMandatory)
    ensures Inv(DoRetype(s, c, TestMandatory))
  {
    var h := s.ops[c].h;
    if h.i == NumCos(|s.ents|) {
      assert OpOk(s, c, s.ops[c]);
      StartClearing(s, c, h.lu);
    } else {
      MandatoryTested(s, c);
      HolderMoves(s, c, AfterMandatory(h, |s.ents|, s.mandatory[h.i]));
    }
  }

  lemma ClearStepInv(s: State, c: nat, l: Label)
    requires Inv(s) && c < |s.ops| && Enabled(s, c, l)
    requires l.DoClearCnt? || l.DoClearTyp? || l.CommitFrame?
    ensures Inv(DoRetype(s, c, l))
  {
    if l.CommitFrame? {
      assert EntriesFor(s.ents, s.ops[c]);
      assert forall i :: 0 <= i < |s.ents| ==> EntryFor(s.ents[i].w, i, s.ops[c]);
      ReleaseStep(s, c, Untyped);
    } else {
      ClearEntry(s, c, l);
    }
  }

  lemma ClearEntry(s: State, c: nat, l: Label)
    requires Inv(s) && c < |s.ops| && Enabled(s, c, l) && (l.DoClearCnt? || l.DoClearTyp?)
    ensures Inv(DoRetype(s, c, l))
  {
    var op, s' := s.ops[c], DoRetype(s, c, l);
    assert OpOk(s, c, op) && EntriesFor(s.ents, op);
    HolderStep(s, c, op.k.i, s'.ents[op.k.i].w, s'.ops[c]);
  }

  lemma SeenToRestore(s: State, h: Hold)
    requires Shape(s) && h.RestoreLoad? && 0 < h.i <= |s.ents| && HoldOk(s, h)
    ensures HoldOk(s, RestoreSeen(s, h))
    ensures forall w: Word, i: nat :: EntryHeld(w, i, h) ==> EntryHeld(w, i, RestoreSeen(s, h))
  {
  }

  lemma LoadRestoreInv(s: State, c: nat)
    requires Inv(s) && c < |s.ops| && Enabled(s, c, LoadRestore)
    ensures Inv(DoRetype(s, c, LoadRestore))
  {
    var h := s.ops[c].h;
    assert OpOk(s, c, s.ops[c]);
    SeenToRestore(s, h);
    HolderMoves(s, c, RestoreSeen(s, h));
  }

  lemma CasRestoreInv(s: State, c: nat)
    requires Inv(s) && c < |s.ops| && Enabled(s, c, CasRestore)
    ensures Inv(DoRetype(s, c, CasRestore))
  {
    assert OpOk(s, c, s.ops[c]) && EntriesFor(s.ents, s.ops[c]);
    RestoreEntry(s, c, s.ops[c].h);
  }

  lemma RestoreEntry(s: State, c: nat, h: Hold)
    requires Inv(s) && c < |s.ops| && s.ops[c] == Locked(h) && h.RestoreCas? && HoldOk(s, h)
    requires EntriesFor(s.ents, Locked(h))
    ensures Inv(EntryRestored(s, c, h))
  {
    HolderStep(s, c, h.i - 1, h.seen.(typ := h.was), Locked(RestoreLoad(h.was, h.i - 1)));
  }

  lemma RestoreGlbInv(s: State, c: nat)
    requires Inv(s) && c < |s.ops| && Enabled(s, c, RestoreGlb)
    ensures Inv(DoRetype(s, c, RestoreGlb))
  {
    assert OpOk(s, c, s.ops[c]) && EntriesFor(s.ents, s.ops[c]);
    assert forall i :: 0 <= i < |s.ents| ==> EntryFor(s.ents[i].w, i, s.ops[c]);
    ReleaseStep(s, c, s.ops[c].h.was);
  }

  /** Steps that touch neither entries nor what page-table entries count for. */
  lemma OutsideStep(s: State, s': State, c: nat)
    requires Inv(s) && CoreStep(s, s', c) && c < |s.ops| && s'.glb == s.glb && s'.lost == s.lost
    requires s'.ents == s.ents && s'.ops == s.ops[c := s'.ops[c]] && s'.stampDone == s.stampDone
    requires Sum(PteRefs(s'.ptes)) == Sum(PteRefs(s.ptes)) && (Drained(s) ==> Drained(s'))
    requires Holds(s.ops[c]) ==> s'.ops[c] == s.ops[c]
    requires !Holds(s'.ops[c]) || s'.ops[c] == s.ops[c]
    requires s'.ops[c].Flying? == s.ops[c].Flying? && OpOk(s', c, s'.ops[c])
    requires (Drained(s) && Quiet(s)) ==> Quiet(s')
    ensures Locking(s') && Accounting(s') && OpsOk(s')
  {
    LockingKept(s, s', c);
    AllOk(s, s', c);
    OutsideAccounting(s, s', c);
  }

  lemma OutsideAccounting(s: State, s': State, c: nat)
    requires Shape(s) && Accounting(s) && Shape(s') && c < |s.ops| && |s'.ops| == |s.ops|
    requires s'.ents == s.ents && s'.ops == s.ops[c := s'.ops[c]] && s'.lost == s.lost
    requires Sum(PteRefs(s'.ptes)) == Sum(PteRefs(s.ptes)) && (Drained(s) ==> Drained(s'))
    requires s'.ops[c].Clearing? == s.ops[c].Clearing? && s'.ops[c].Flying? == s.ops[c].Flying?
    requires (Drained(s) && Quiet(s)) ==> Quiet(s')
    ensures Accounting(s')
  {
    OpRefsUpdate(s.ops, c, s'.ops[c]);
    assert forall d :: 0 <= d < |s.ops| ==> (s'.ops[d].Clearing? <==> s.ops[d].Clearing?);
  }

  /** What is cached, of mapped pages or from before, is as old as it was. */
  lemma CachesStill(s: State, s': State)
    requires Shape(s) && Clocks(s) && Shape(s') && |s'.ops| == |s.ops| && |s'.ptes| == |s.ptes|
    requires s'.periodic == s.periodic && s'.mandatory == s.mandatory && s'.clearedAt == s.clearedAt
    requires forall i :: 0 <= i < |s.ptes| ==> (s'.ptes[i].Maps? <==> s.ptes[i].Maps?)
    requires forall d :: 0 <= d < |s.ops| && s'.ops[d].FlushStore? ==> s'.ops[d] == s.ops[d]
    requires forall d, at :: 0 <= d < |s.ops| && at in s'.tlb[d] ==>
      at in s.tlb[d] || (at < |s.ptes| && s.ptes[at].Maps?)
    ensures forall d, at {:trigger CacheOk(s', d, at)} ::
      0 <= d < |s.ops| && at in s'.tlb[d] ==> CacheOk(s', d, at)
  {
    forall d, at {:trigger CacheOk(s', d, at)} | 0 <= d < |s.ops| && at in s'.tlb[d] ensures CacheOk(s', d, at) {
      assert at in s.tlb[d] ==> CacheOk(s, d, at);
    }
  }

  lemma CachesKept(s: State, s': State, c: nat)
    requires Shape(s) && Shape(s') && Clocks(s) && c < |s.ops| && |s'.ops| == |s.ops|
    requires s'.ents == s.ents && s'.ops == s.ops[c := s'.ops[c]] && s'.stampDone == s.stampDone && s'.lost == s.lost
    requires s'.clearedAt == s.clearedAt && At(s'.ops[c]) == At(s.ops[c]) && s.clock <= s'.clock
    requires forall d :: 0 <= d < |s.ops| ==>
      s'.periodic[d] == s'.periodic[0] <= s'.clock && s'.mandatory[d] <= s'.clock
    requires forall d, slot {:trigger CacheOk(s', d, slot)} ::
      0 <= d < |s.ops| && slot in s'.tlb[d] ==> CacheOk(s', d, slot)
    ensures Clocks(s')
  {
    StampedStill(s, s');
  }

  lemma StartFlushInv(s: State, c: nat)
    requires Inv(s) && c < |s.ops| && Enabled(s, c, StartFlush)
    ensures Inv(DoHardware(s, c, StartFlush))
  {
    OutsideStep(s, DoHardware(s, c, StartFlush), c);
    OutsideClocks(s, c, StartFlush);
  }

  /** Starting a flush, caching a mapping, and writing page-table entries that do not concern the set. */
  lemma OutsideClocks(s: State, c: nat, l: Label)
    requires Shape(s) && Clocks(s) && c < |s.ops| && Enabled(s, c, l) && (l.StartFlush? || l.FillTlb? || l.OtherPte?)
    ensures var s' := DoHardware(s, c, l); Shape(s') && Clocks(s')
  {
    var s' := DoHardware(s, c, l);
    CachesStill(s, s');
    CachesKept(s, s', c);
  }

  lemma DoFlushInv(s: State, c: nat)
    requires Inv(s) && c < |s.ops| && Enabled(s, c, DoFlush)
    ensures Inv(DoHardware(s, c, DoFlush))
  {
    FlushClocks(s, c, DoFlush);
    assert OpOk(s, c, s.ops[c]);
    OutsideStep(s, DoHardware(s, c, DoFlush), c);
  }

  lemma FlushClocks(s: State, c: nat, l: Label)
    requires Inv(s) && c < |s.ops| && Enabled(s, c, l) && (l.DoFlush? || l.StoreFlush?)
    ensures var s' := DoHardware(s, c, l); Shape(s') && Clocks(s')
  {
    assert OpOk(s, c, s.ops[c]);
    FlushCaches(s, c, l);
    CachesKept(s, DoHardware(s, c, l), c);
  }

  /** What a core still caches after its flush, or when it records one, is as old as before. */
  lemma FlushCaches(s: State, c: nat, l: Label)
    requires Shape(s) && Clocks(s) && c < |s.ops| && Enabled(s, c, l) && (l.DoFlush? || l.StoreFlush?)
    ensures var s' := DoHardware(s, c, l);
      && Shape(s')
      && forall d, slot {:trigger CacheOk(s', d, slot)} ::
           0 <= d < |s.ops| && slot in s'.tlb[d] ==> CacheOk(s', d, slot)
  {
    var s' := DoHardware(s, c, l);
    forall d, slot {:trigger CacheOk(s', d, slot)} | 0 <= d < |s.ops| && slot in s'.tlb[d]
      ensures CacheOk(s', d, slot)
    {
      assert CacheOk(s, d, slot);
    }
  }

  lemma StoreFlushInv(s: State, c: nat)
    requires Inv(s) && c < |s.ops| && Enabled(s, c, StoreFlush)
    ensures Inv(DoHardware(s, c, StoreFlush))
  {
    FlushClocks(s, c, StoreFlush);
    assert OpOk(s, c, s.ops[c]);
    OutsideStep(s, DoHardware(s, c, StoreFlush), c);
  }

  lemma FillTlbInv(s: State, c: nat, slot: nat)
    requires Inv(s) && c < |s.ops| && Enabled(s, c, FillTlb(slot))
    ensures Inv(DoHardware(s, c, FillTlb(slot)))
  {
    var s' := DoHardware(s, c, FillTlb(slot));
    assert OpOk(s, c, s.ops[c]);
    OutsideOp(s, s', c);
    OutsideStep(s, s', c);
    OutsideClocks(s, c, FillTlb(slot));
  }

  /** A core knows nothing about TLBs, periodic flushes or page-table entries. */
  lemma OutsideOp(s: State, s': State, c: nat)
    requires Shape(s) && Shape(s') && c < |s.ops| && OpOk(s, c, s.ops[c]) && |s'.ents| == |s.ents|
    requires s'.ents == s.ents && s'.stampDone == s.stampDone && s'.mandatory == s.mandatory && s.clock <= s'.clock
    ensures OpOk(s', c, s.ops[c])
  {
  }

  lemma PeriodicFlushInv(s: State, c: nat)
    requires Inv(s) && c < |s.ops|
    ensures Inv(DoHardware(s, c, PeriodicFlush))
  {
    var s' := DoHardware(s, c, PeriodicFlush);
    assert OpOk(s, c, s.ops[c]);
    OutsideOp(s, s', c);
    OutsideStep(s, s', c);
    PeriodicClocks(s, c);
  }

  lemma PeriodicClocks(s: State, c: nat)
    requires Shape(s) && Clocks(s) && c < |s.ops|
    ensures var s' := DoHardware(s, c, PeriodicFlush); Shape(s') && Clocks(s')
  {
    CachesKept(s, DoHardware(s, c, PeriodicFlush), c);
  }

  lemma OtherPteInv(s: State, c: nat, slot: nat, v: nat)
    requires Inv(s) && c < |s.ops| && Enabled(s, c, OtherPte(slot, v))
    ensures Inv(DoHardware(s, c, OtherPte(slot, v)))
  {
    var s' := DoHardware(s, c, OtherPte(slot, v));
    assert OpOk(s, c, s.ops[c]);
    PteRefsUpdate(s.ptes, slot, Other(v));
    OutsideOp(s, s', c);
    OutsideStep(s, s', c);
    OutsideClocks(s, c, OtherPte(slot, v));
  }

  lemma RefInv(s: State, c: nat, l: Label)
    requires Inv(s) && c < |s.ops| && Enabled(s, c, l) && IsRef(l)
    ensures Inv(DoRef(s, c, l))
  {
    if l.StartRef? || l.LoadRef? || l.CasRef? || l.DoInstall? {
      RefStepInv(s, c, l);
    } else if l.StartUninstall? || l.DoUninstall? {
      UninstallStepInv(s, c, l);
    } else if l.DoReinstall? {
      ReinstallStepInv(s, c);
    } else {
      DerefStepInv(s, c, l);
    }
  }

  lemma HardwareInv(s: State, c: nat, l: Label)
    requires Inv(s) && c < |s.ops| && Enabled(s, c, l) && IsHardware(l)
    ensures Inv(DoHardware(s, c, l))
  {
    match l
    case StartFlush => StartFlushInv(s, c);
    case DoFlush => DoFlushInv(s, c);
    case StoreFlush => StoreFlushInv(s, c);
    case FillTlb(slot) => FillTlbInv(s, c, slot);
    case PeriodicFlush => PeriodicFlushInv(s, c);
    case OtherPte(slot, v) => OtherPteInv(s, c, slot, v);
  }

  lemma RetypeInv(s: State, c: nat, l: Label)
    requires Inv(s) && c < |s.ops| && Enabled(s, c, l) && !IsRef(l) && !IsHardware(l)
    ensures Inv(DoRetype(s, c, l))
  {
    if l.StartType? || l.CasType? || l.SetType? || l.CommitType? {
      TypeStepInv(s, c, l);
    } else if l.StartFrame? || l.CasFrame? {
      StartFrameInv(s, c, l);
    } else if l.DoClearCnt? || l.DoClearTyp? || l.CommitFrame? {
      ClearStepInv(s, c, l);
    } else {
      match l
      case LoadLock => LoadLockInv(s, c);
      case CasLock => CasLockInv(s, c);
      case ReadStamp => ReadStampInv(s, c);
      case TestSum => TestSumInv(s, c);
      case TestPeriodic => TestPeriodicInv(s, c);
      case TestMandatory => TestMandatoryInv(s, c);
      case LoadRestore => LoadRestoreInv(s, c);
      case CasRestore => CasRestoreInv(s, c);
      case RestoreGlb => RestoreGlbInv(s, c);
    }
  }

  /** Every step of every core keeps the invariant. */
  lemma StepInv(s: State, c: nat, l: Label)
    requires Inv(s) && c < |s.ops| && Enabled(s, c, l)
    ensures Inv(Do(s, c, l))
  {
    if IsRef(l) {
      RefInv(s, c, l);
    } else if IsHardware(l) {
      HardwareInv(s, c, l);
    } else {
      RetypeInv(s, c, l);
    }
  }

  datatype Step = Step(c: nat, l: Label)

  /** The steps can be taken one after the other, from s on. */
  ghost predicate CanRun(s: State, steps: seq<Step>)
    decreases |steps|
  {
    steps != [] ==>
      && Shape(s) && steps[0].c < |s.ops| && Enabled(s, steps[0].c, steps[0].l)
      && CanRun(Do(s, steps[0].c, steps[0].l), steps[1..])
  }

  ghost function Final(s: State, steps: seq<Step>): State
    requires CanRun(s, steps)
    decreases |steps|
  {
    if steps == [] then s else Final(Do(s, steps[0].c, steps[0].l), steps[1..])
  }

  /** The invariant holds at the end of every run, whatever the interleaving. */
  lemma {:induction false} RunInv(s: State, steps: seq<Step>)
    requires Inv(s) && CanRun(s, steps)
    ensures Inv(Final(s, steps))
    decreases |steps|
  {
    if steps != [] {
      StepInv(s, steps[0].c, steps[0].l);
      RunInv(Do(s, steps[0].c, steps[0].l), steps[1..]);
    }
  }

  /** When a retype to untyped frames commits, nothing refers to the memory set any more:
      no page of it is mapped or activated, no reference is in flight or lost, and no core
      whose flushes are checked caches a translation to it. */
  lemma {:induction false} CommitIsSafe(s0: State, steps: seq<Step>, c: nat)
    requires Init(s0) && CanRun(s0, steps)
    requires var s := Final(s0, steps); Shape(s) && c < |s.ops| && Enabled(s, c, CommitFrame)
    ensures var s := Final(s0, steps);
      && Drained(s) && Quiet(s) && s.glb == Retyping
      && (forall i :: 0 <= i < |s.ents| ==> s.ents[i].w == Word(Untyped, 0))
  {
    InitInv(s0);
    RunInv(s0, steps);
    var s := Final(s0, steps);
    assert EntriesFor(s.ents, s.ops[c]);
    assert forall i :: 0 <= i < |s.ents| ==> EntryFor(s.ents[i].w, i, s.ops[c]);
  }

  /** Outside of a retype, every per-core entry has the global type, and an untyped set has
      no counts; the counts always add up to the references there are. */
  lemma {:induction false} TypesAgree(s0: State, steps: seq<Step>)
    requires Init(s0) && CanRun(s0, steps)
    ensures var s := Final(s0, steps);
      && (Typed(s.glb) ==> forall i :: 0 <= i < |s.ents| ==> s.ents[i].w.typ == s.glb)
      && (s.glb == Untyped ==> forall i :: 0 <= i < |s.ents| ==> s.ents[i].w == Word(Untyped, 0))
      && (s.glb != Retyping ==> Sum(Counts(s.ents)) == Sum(PteRefs(s.ptes)) + Sum(OpRefs(s.ops)) + s.lost)
  {
    InitInv(s0);
    RunInv(s0, steps);
    var s := Final(s0, steps);
    assert s.glb != Retyping ==> forall d :: 0 <= d < |s.ops| ==> !Holds(s.ops[d]);
  }

  /** The assertions of the source hold: every commit to the global entry finds it locked,
      and every entry about to be locked has the type the retype started from. */
  lemma {:induction false} AssertionsHold(s0: State, steps: seq<Step>, c: nat)
    requires Init(s0) && CanRun(s0, steps)
    requires c < |Final(s0, steps).ops|
    ensures var s := Final(s0, steps); var op := s.ops[c];
      && (op.Locked? && op.h.TypeCommit? ==> s.glb == Retyping)
      && (op.Clearing? && op.k.FrameCommit? ==> s.glb == Retyping)
      && (op.Locked? && op.h.RestoreLoad? ==> s.glb == Retyping)
      && (op.Locked? && op.h.LockCas? ==> op.h.seen.typ == op.h.was)
  {
    InitInv(s0);
    RunInv(s0, steps);
    var s := Final(s0, steps);
    assert OpOk(s, c, s.ops[c]);
    assert Holds(s.ops[c]) ==> EntriesFor(s.ents, s.ops[c]);
  }

  /** A retype to untyped frames that fails leaves every entry, and the global one, with the
      type it found. */
  lemma {:induction false} FailureRestores(s0: State, steps: seq<Step>, c: nat)
    requires Init(s0) && CanRun(s0, steps)
    requires var s := Final(s0, steps); Shape(s) && c < |s.ops| && Enabled(s, c, RestoreGlb)
    ensures var s := Final(s0, steps); var s' := DoRetype(s, c, RestoreGlb);
      && s'.glb == s.ops[c].h.was && Typed(s'.glb) && s'.ents == s.ents
      && (forall i :: 0 <= i < |s'.ents| ==> s'.ents[i].w.typ == s'.glb)
  {
    InitInv(s0);
    RunInv(s0, steps);
    RestoredTypes(Final(s0, steps), c);
  }

  lemma RestoredTypes(s: State, c: nat)
    requires Inv(s) && c < |s.ops| && Enabled(s, c, RestoreGlb)
    ensures s.glb == Retyping && Typed(s.ops[c].h.was)
    ensures forall i :: 0 <= i < |s.ents| ==> s.ents[i].w.typ == s.ops[c].h.was
  {
    assert OpOk(s, c, s.ops[c]) && EntriesFor(s.ents, s.ops[c]);
    assert forall i :: 0 <= i < |s.ents| ==> EntryFor(s.ents[i].w, i, s.ops[c]);
  }

  /** No TLB caches a translation to the set. */
  ghost predicate Clean(s: State) {
    forall d :: 0 <= d < |s.tlb| ==> s.tlb[d] == {}
  }

  /** The retype of core c is at a flush check that a periodic flush satisfies, or that all cores satisfy,
      also the one that it leaves out. */
  ghost predicate AllFlushed(s: State, c: nat) {
    && Shape(s) && c < |s.ops| && s.ops[c].Locked? && (s.ops[c].h.CheckPeriodic? || s.ops[c].h.CheckMandatory?)
    && (s.ops[c].h.lu <= s.periodic[c] || forall j :: 0 <= j < |s.ents| ==> s.ops[c].h.lu <= s.mandatory[j])
  }

  lemma FlushedIsClean(s: State, c: nat)
    requires Inv(s) && AllFlushed(s, c)
    ensures Drained(s) && Clean(s)
  {
    assert OpOk(s, c, s.ops[c]);
    assert forall d :: 0 <= d < |s.ops| ==> !s.ops[d].Clearing?;
    ZeroSums(s);
    forall d, slot | 0 <= d < |s.tlb| ensures slot !in s.tlb[d] {
      NotCached(s, d, slot, s.ops[c].h.lu);
    }
  }

  lemma NotCached(s: State, d: nat, slot: nat, lu: nat)
    requires Shape(s) && Clocks(s) && Drained(s) && d < |s.tlb| && StampsSeen(s, |s.ents|, lu)
    requires lu <= s.periodic[d] || lu <= s.mandatory[d]
    ensures slot !in s.tlb[d]
  {
    assert slot in s.tlb[d] ==> CacheOk(s, d, slot);
    assert slot in s.clearedAt ==> Stamped(s, s.clearedAt[slot]);
  }

  lemma {:induction false} RunSize(s: State, steps: seq<Step>)
    requires Shape(s) && CanRun(s, steps)
    ensures Shape(Final(s, steps)) && |Final(s, steps).ents| == |s.ents|
    decreases |steps|
  {
    if steps != [] {
      StepSize(s, steps[0].c, steps[0].l);
      RunSize(Do(s, steps[0].c, steps[0].l), steps[1..]);
    }
  }

  lemma StepSize(s: State, c: nat, l: Label)
    requires Shape(s) && c < |s.ops| && Enabled(s, c, l)
    ensures Shape(Do(s, c, l)) && |Do(s, c, l).ents| == |s.ents|
  {
    if IsRef(l) {
      RefSize(s, c, l);
    } else if IsHardware(l) {
      HardwareSize(s, c, l);
    } else {
      RetypeSize(s, c, l);
    }
  }

  lemma RefSize(s: State, c: nat, l: Label)
    requires Shape(s) && c < |s.ops| && Enabled(s, c, l) && IsRef(l)
    ensures Shape(DoRef(s, c, l)) && |DoRef(s, c, l).ents| == |s.ents|
  {
  }

  lemma HardwareSize(s: State, c: nat, l: Label)
    requires Shape(s) && c < |s.ops| && Enabled(s, c, l) && IsHardware(l)
    ensures Shape(DoHardware(s, c, l)) && |DoHardware(s, c, l).ents| == |s.ents|
  {
  }

  lemma RetypeSize(s: State, c: nat, l: Label)
    requires Shape(s) && c < |s.ops| && Enabled(s, c, l) && !IsRef(l) && !IsHardware(l)
    ensures Shape(DoRetype(s, c, l)) && |DoRetype(s, c, l).ents| == |s.ents|
  {
  }

  /** While the set is cleared no translation to it can be cached again. */
  lemma ClearingStep(s: State, c: nat, st: Step)
    requires Inv(s) && c < |s.ops| && s.ops[c].Clearing? && Clean(s)
    requires st.c < |s.ops| && Enabled(s, st.c, st.l) && st != Step(c, CommitFrame)
    ensures var s' := Do(s, st.c, st.l); |s'.ops| == |s.ops| && s'.ops[c].Clearing? && Clean(s')
  {
    assert Drained(s);
    StepSize(s, st.c, st.l);
    if IsHardware(st.l) {
      HardwareClean(s, st.c, st.l);
    } else if IsRef(st.l) {
      RefClean(s, st.c, st.l);
    } else {
      RetypeClean(s, st.c, st.l);
    }
  }

  lemma HardwareClean(s: State, c: nat, l: Label)
    requires Shape(s) && c < |s.ops| && Enabled(s, c, l) && IsHardware(l) && Clean(s) && Drained(s)
    ensures var s' := DoHardware(s, c, l); Clean(s') && (s.ops[c].Clearing? ==> s'.ops == s.ops)
    ensures var s' := DoHardware(s, c, l);
      |s'.ops| == |s.ops| && forall d :: 0 <= d < |s.ops| && d != c ==> s'.ops[d] == s.ops[d]
  {
  }

  lemma RefClean(s: State, c: nat, l: Label)
    requires Shape(s) && c < |s.ops| && Enabled(s, c, l) && IsRef(l) && Clean(s)
    ensures var s' := DoRef(s, c, l); Clean(s') && !s.ops[c].Clearing?
    ensures var s' := DoRef(s, c, l);
      |s'.ops| == |s.ops| && forall d :: 0 <= d < |s.ops| && d != c ==> s'.ops[d] == s.ops[d]
  {
  }

  lemma RetypeClean(s: State, c: nat, l: Label)
    requires Shape(s) && c < |s.ops| && Enabled(s, c, l) && !IsRef(l) && !IsHardware(l) && Clean(s)
    ensures var s' := DoRetype(s, c, l);
      |s'.ops| == |s.ops| && Clean(s') && (s.ops[c].Clearing? && l != CommitFrame ==> s'.ops[c].Clearing?)
    ensures var s' := DoRetype(s, c, l); forall d :: 0 <= d < |s.ops| && d != c ==> s'.ops[d] == s.ops[d]
  {
  }

  lemma {:induction false} ClearingRun(s: State, c: nat, steps: seq<Step>)
    requires Inv(s) && c < |s.ops| && s.ops[c].Clearing? && Clean(s)
    requires CanRun(s, steps) && forall k :: 0 <= k < |steps| ==> steps[k] != Step(c, CommitFrame)
    ensures Clean(Final(s, steps))
    decreases |steps|
  {
    if steps != [] {
      ClearingStep(s, c, steps[0]);
      StepInv(s, steps[0].c, steps[0].l);
      ClearingRun(Do(s, steps[0].c, steps[0].l), c, steps[1..]);
    }
  }

  /** If the retype passed its flush check on a periodic flush, or the flush of the core that the check leaves
      out was recent enough as well, then no TLB at all caches the set, from the check up to the commit,
      whatever the other cores do in between. */
  lemma {:induction false} NoTlbAtAll(s0: State, steps: seq<Step>, c: nat, l: Label, more: seq<Step>)
    requires Init(s0) && CanRun(s0, steps) && AllFlushed(Final(s0, steps), c)
    requires var s := Final(s0, steps); (l.TestPeriodic? || l.TestMandatory?) && Enabled(s, c, l)
    requires var s' := DoRetype(Final(s0, steps), c, l);
      && c < |s'.ops| && s'.ops[c].Clearing? && CanRun(s', more)
      && forall k :: 0 <= k < |more| ==> more[k] != Step(c, CommitFrame)
    ensures Drained(Final(s0, steps)) && Clean(Final(s0, steps))
    ensures Clean(Final(DoRetype(Final(s0, steps), c, l), more))
  {
    InitInv(s0);
    RunInv(s0, steps);
    var s := Final(s0, steps);
    FlushedIsClean(s, c);
    StepInv(s, c, l);
    RetypeClean(s, c, l);
    ClearingRun(DoRetype(s, c, l), c, more);
  }
}
