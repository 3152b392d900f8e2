/**
  Runs of the retyping protocol in which the flush check leaves out a core: exactly on one core a commit
  always finds every TLB clean.
 */
module RetypeRuns {
  import opened Retype

  lemma {:induction false} Extend(s0: State, steps: seq<Step>, st: Step) returns (steps': seq<Step>)
    requires CanRun(s0, steps)
    requires var s := Final(s0, steps); Shape(s) && st.c < |s.ops| && Enabled(s, st.c, st.l)
    ensures CanRun(s0, steps') && Final(s0, steps') == Do(Final(s0, steps), st.c, st.l)
    decreases |steps|
  {
    steps' := steps + [st];
    if steps == [] {
      assert steps'[1..] == [];
      assert CanRun(Do(s0, st.c, st.l), []);
    } else {
      var rest := Extend(Do(s0, steps[0].c, steps[0].l), steps[1..], st);
      steps' := [steps[0]] + rest;
      assert steps'[1..] == rest;
    }
  }

  ghost predicate Reaches(s0: State, s: State) {
    exists steps: seq<Step> :: CanRun(s0, steps) && Final(s0, steps) == s
  }

  lemma TakeRef(s0: State, s: State, l: Label) returns (s': State)
    requires Reaches(s0, s) && Shape(s) && Enabled(s, 0, l) && IsRef(l)
    ensures Reaches(s0, s') && s' == DoRef(s, 0, l)
  {
    var steps :| CanRun(s0, steps) && Final(s0, steps) == s;
    var _ := Extend(s0, steps, Step(0, l));
    s' := DoRef(s, 0, l);
  }

  lemma TakeRetype(s0: State, s: State, l: Label) returns (s': State)
    requires Reaches(s0, s) && Shape(s) && Enabled(s, 0, l) && !IsRef(l) && !IsHardware(l)
    ensures Reaches(s0, s') && s' == DoRetype(s, 0, l)
  {
    var steps :| CanRun(s0, steps) && Final(s0, steps) == s;
    var _ := Extend(s0, steps, Step(0, l));
    s' := DoRetype(s, 0, l);
  }

  lemma TakeHardware(s0: State, s: State, c: nat, l: Label) returns (s': State)
    requires Reaches(s0, s) && Shape(s) && c < |s.ops| && Enabled(s, c, l) && IsHardware(l)
    ensures Reaches(s0, s') && s' == DoHardware(s, c, l)
  {
    var steps :| CanRun(s0, steps) && Final(s0, steps) == s;
    var _ := Extend(s0, steps, Step(c, l));
    s' := DoHardware(s, c, l);
  }

  /** n cores, of which only the first one retypes, and one page-table entry. */
  ghost predicate Looks(s: State, n: nat, glb: MemType, op: Op, pte: Pte) {
    && |s.ents| == |s.ops| == |s.periodic| == |s.mandatory| == |s.tlb| == |s.stampDone| == n >= 2 && |s.ptes| == 1
    && s.glb == glb && s.ops[0] == op && s.ptes[0] == pte && s.periodic[0] == 0
    && forall c :: 1 <= c < n ==> s.ops[c] == Idle
  }

  /** The entries before i hold the word a, the others b, and no stamp is above top. */
  ghost predicate Words(s: State, i: nat, a: Word, b: Word, top: nat) {
    forall j :: 0 <= j < |s.ents| ==> s.ents[j].w == (if j < i then a else b) && s.ents[j].lastUnmap <= top
  }

  /** The cores before i were flushed since the stamp 1; the last core caches the slot. */
  ghost predicate Stale(s: State, i: nat)
    requires |s.mandatory| == |s.tlb| >= 2
  {
    && 0 in s.tlb[|s.tlb| - 1] && s.clock >= 1
    && forall j :: 0 <= j < i && j < |s.mandatory| ==> s.mandatory[j] >= 1
  }

  lemma SetOne(s0: State, s1: State, n: nat, i: nat) returns (s: State)
    requires Reaches(s0, s1) && i < n && Looks(s1, n, Retyping, Locked(TypeSet(User, i)), Other(0))
    ensures Reaches(s0, s) && s.ents == s1.ents[i := s1.ents[i].(w := s1.ents[i].w.(typ := User))]
    ensures Looks(s, n, Retyping, Locked(AfterSet(User, i, n)), Other(0)) && s.clock == s1.clock
  {
    s := TakeRetype(s0, s1, SetType);
  }

  lemma {:induction false} RunSetType(s0: State, s1: State, n: nat, i: nat) returns (s: State)
    requires Reaches(s0, s1) && i < n && Looks(s1, n, Retyping, Locked(TypeSet(User, i)), Other(0))
    requires Words(s1, i, Word(User, 0), Word(Untyped, 0), 0) && s1.clock == 0
    ensures Reaches(s0, s) && Looks(s, n, Retyping, Locked(TypeCommit(User)), Other(0))
    ensures Words(s, n, Word(User, 0), Word(Untyped, 0), 0) && s.clock == 0
    decreases n - i
  {
    s := SetOne(s0, s1, n, i);
    if i + 1 < n {
      s := RunSetType(s0, s, n, i + 1);
    }
  }

  lemma RunTyping(s0: State, n: nat) returns (s: State)
    requires Reaches(s0, s0) && Looks(s0, n, Untyped, Idle, Other(0))
    requires Words(s0, 0, Word(User, 0), Word(Untyped, 0), 0) && s0.clock == 0
    ensures Reaches(s0, s) && Looks(s, n, User, Idle, Other(0))
    ensures Words(s, n, Word(User, 0), Word(Untyped, 0), 0) && s.clock == 0
  {
    s := TakeRetype(s0, s0, StartType(User));
    s := TakeRetype(s0, s, CasType);
    s := RunSetType(s0, s, n, 0);
    s := TakeRetype(s0, s, CommitType);
  }

  lemma RunMapping(s0: State, s1: State, n: nat) returns (s: State)
    requires Reaches(s0, s1) && Looks(s1, n, User, Idle, Other(0))
    requires Words(s1, n, Word(User, 0), Word(Untyped, 0), 0) && s1.clock == 0
    ensures Reaches(s0, s) && Looks(s, n, User, Idle, Maps(7))
    ensures Words(s, 1, Word(User, 1), Word(User, 0), 0) && s.clock == 0 && 0 in s.tlb[n - 1]
  {
    s := TakeRef(s0, s1, StartRef(Mapping, 0));
    s := TakeRef(s0, s, LoadRef);
    s := TakeRef(s0, s, CasRef);
    s := TakeRef(s0, s, DoInstall(7));
    s := TakeHardware(s0, s, n - 1, FillTlb(0));
  }

  lemma RunUnmapping(s0: State, s1: State, n: nat) returns (s: State)
    requires Reaches(s0, s1) && Looks(s1, n, User, Idle, Maps(7))
    requires Words(s1, 1, Word(User, 1), Word(User, 0), 0) && s1.clock == 0 && 0 in s1.tlb[n - 1]
    ensures Reaches(s0, s) && Looks(s, n, User, Flying(DerefLoad(0, NoBack)), Other(8))
    ensures Words(s, 1, Word(User, 1), Word(User, 0), 0) && s.clock == 0 && 0 in s.tlb[n - 1]
  {
    s := TakeRef(s0, s1, StartUninstall(0));
    s := TakeRef(s0, s, DoUninstall(8));
  }

  lemma RunDeref(s0: State, s1: State, n: nat) returns (s: State)
    requires Reaches(s0, s1) && Looks(s1, n, User, Flying(DerefLoad(0, NoBack)), Other(8))
    requires Words(s1, 1, Word(User, 1), Word(User, 0), 0) && s1.clock == 0 && 0 in s1.tlb[n - 1]
    ensures Reaches(s0, s) && Looks(s, n, User, Flying(DerefCas(0, NoBack, Word(User, 1))), Other(8))
    ensures Words(s, 1, Word(User, 1), Word(User, 0), 1) && Stale(s, 0) && s.ents[0].lastUnmap == 1
  {
    s := TakeStamp(s0, s1, n);
  }

  lemma TakeStamp(s0: State, s1: State, n: nat) returns (s: State)
    requires Reaches(s0, s1) && Looks(s1, n, User, Flying(DerefLoad(0, NoBack)), Other(8))
    requires s1.ents[0].w == Word(User, 1)
    ensures Reaches(s0, s) && Looks(s, n, User, Flying(DerefCas(0, NoBack, Word(User, 1))), Other(8))
    ensures s.ents == s1.ents[0 := s1.ents[0].(lastUnmap := s1.clock + 1)]
    ensures s.tlb == s1.tlb && s.clock == s1.clock + 1
  {
    s := TakeRef(s0, s1, LoadDeref);
    s := TakeRef(s0, s, StampDeref);
  }

  lemma RunRelease(s0: State, s1: State, n: nat) returns (s: State)
    requires Reaches(s0, s1) && Looks(s1, n, User, Flying(DerefCas(0, NoBack, Word(User, 1))), Other(8))
    requires Words(s1, 1, Word(User, 1), Word(User, 0), 1) && Stale(s1, 0) && s1.ents[0].lastUnmap == 1
    ensures Reaches(s0, s) && Looks(s, n, User, Idle, Other(8))
    ensures Words(s, n, Word(User, 0), Word(User, 0), 1) && Stale(s, 0) && s.ents[0].lastUnmap == 1
  {
    s := TakeRef(s0, s1, CasDeref);
  }

  lemma FlushOne(s0: State, s1: State, n: nat, i: nat) returns (s: State)
    requires Reaches(s0, s1) && i < n - 1 && Looks(s1, n, User, Idle, Other(8)) && Stale(s1, i)
    ensures Reaches(s0, s) && Looks(s, n, User, Idle, Other(8)) && Stale(s, i + 1) && s.ents == s1.ents
  {
    s := TakeHardware(s0, s1, i, StartFlush);
    s := TakeHardware(s0, s, i, DoFlush);
    s := TakeHardware(s0, s, i, StoreFlush);
  }

  /** Core i and those after it, but not the last, are flushed. */
  lemma {:induction false} RunFlush(s0: State, s1: State, n: nat, i: nat) returns (s: State)
    requires Reaches(s0, s1) && i < n && Looks(s1, n, User, Idle, Other(8))
    requires Words(s1, n, Word(User, 0), Word(User, 0), 1) && Stale(s1, i) && s1.ents[0].lastUnmap == 1
    ensures Reaches(s0, s) && Looks(s, n, User, Idle, Other(8))
    ensures Words(s, n, Word(User, 0), Word(User, 0), 1) && Stale(s, n - 1) && s.ents[0].lastUnmap == 1
    decreases n - i
  {
    s := s1;
    if i < n - 1 {
      s := FlushOne(s0, s, n, i);
      s := RunFlush(s0, s, n, i + 1);
    }
  }

  lemma LockOne(s0: State, s1: State, n: nat, i: nat, lu: nat) returns (s: State)
    requires Reaches(s0, s1) && i < n && Looks(s1, n, Retyping, Locked(LockLoad(User, i, 0, lu)), Other(8))
    requires s1.ents[i].w == Word(User, 0)
    ensures Reaches(s0, s) && s.ents == s1.ents[i := Entry(Word(Retyping, 0), s1.ents[i].lastUnmap)]
    ensures Looks(s, n, Retyping, Locked(AfterStamp(LockStamp(User, i, 0, lu), n, s1.ents[i].lastUnmap)), Other(8))
    ensures s.tlb == s1.tlb && s.mandatory == s1.mandatory && s.clock == s1.clock
  {
    s := TakeRetype(s0, s1, LoadLock);
    s := TakeRetype(s0, s, CasLock);
    s := TakeRetype(s0, s, ReadStamp);
  }

  lemma {:induction false} RunLock(s0: State, s1: State, n: nat, i: nat, lu: nat) returns (s: State)
    requires Reaches(s0, s1) && i < n && Looks(s1, n, Retyping, Locked(LockLoad(User, i, 0, lu)), Other(8))
    requires Words(s1, i, Word(Retyping, 0), Word(User, 0), 1) && Stale(s1, n - 1)
    requires s1.ents[0].lastUnmap == 1 && lu == (if i == 0 then 0 else 1)
    ensures Reaches(s0, s) && Looks(s, n, Retyping, Locked(CheckSum(User, 0, 1)), Other(8))
    ensures Words(s, n, Word(Retyping, 0), Word(User, 0), 1) && Stale(s, n - 1)
    decreases n - i
  {
    s := LockOne(s0, s1, n, i, lu);
    if i + 1 < n {
      s := RunLock(s0, s, n, i + 1, 1);
    }
  }

  lemma {:induction false} RunCheck(s0: State, s1: State, n: nat, i: nat) returns (s: State)
    requires Reaches(s0, s1) && i < n && Looks(s1, n, Retyping, Locked(CheckMandatory(User, 1, i)), Other(8))
    requires Words(s1, n, Word(Retyping, 0), Word(User, 0), 1) && Stale(s1, n - 1)
    ensures Reaches(s0, s) && Looks(s, n, Retyping, Clearing(ClearCnt(0)), Other(8))
    ensures Words(s, n, Word(Retyping, 0), Word(User, 0), 1) && Stale(s, n - 1)
    decreases n - i
  {
    s := TakeRetype(s0, s1, TestMandatory);
    if i < n - 1 {
      s := RunCheck(s0, s, n, i + 1);
    }
  }

  lemma ClearOne(s0: State, s1: State, n: nat, i: nat) returns (s: State)
    requires Reaches(s0, s1) && i < n && Looks(s1, n, Retyping, Clearing(ClearCnt(i)), Other(8))
    ensures Reaches(s0, s) && s.ents == s1.ents[i := Entry(Word(Untyped, 0), s1.ents[i].lastUnmap)]
    ensures Looks(s, n, Retyping, Clearing(AfterClear(i, n)), Other(8))
    ensures s.tlb == s1.tlb && s.mandatory == s1.mandatory && s.clock == s1.clock
  {
    s := TakeRetype(s0, s1, DoClearCnt);
    s := TakeRetype(s0, s, DoClearTyp);
  }

  lemma {:induction false} RunClear(s0: State, s1: State, n: nat, i: nat) returns (s: State)
    requires Reaches(s0, s1) && i < n && Looks(s1, n, Retyping, Clearing(ClearCnt(i)), Other(8))
    requires Words(s1, i, Word(Untyped, 0), Word(Retyping, 0), 1) && Stale(s1, n - 1)
    ensures Reaches(s0, s) && Looks(s, n, Retyping, Clearing(FrameCommit), Other(8)) && Stale(s, n - 1)
    decreases n - i
  {
    s := ClearOne(s0, s1, n, i);
    if i + 1 < n {
      s := RunClear(s0, s, n, i + 1);
    }
  }

  lemma Start(n: nat) returns (s0: State)
    requires n >= 2
    ensures Init(s0) && Reaches(s0, s0) && Looks(s0, n, Untyped, Idle, Other(0))
    ensures Words(s0, 0, Word(User, 0), Word(Untyped, 0), 0) && s0.clock == 0
  {
    var zeros := seq(n, i => 0);
    s0 := State(Untyped, seq(n, i => Entry(Word(Untyped, 0), 0)), seq(n, i => Idle), [Other(0)], 0, zeros, zeros,
                seq(n, i => {}), map[], zeros, 0);
    assert CanRun(s0, []) && Final(s0, []) == s0;
  }

  /** The first core maps the page, the last one caches the translation, and the first one
      unmaps it again. */
  lemma RunUser(n: nat) returns (s0: State, s: State)
    requires n >= 2
    ensures Init(s0) && |s0.ents| == n && Reaches(s0, s) && Looks(s, n, User, Idle, Other(8))
    ensures Words(s, n, Word(User, 0), Word(User, 0), 1) && Stale(s, 0) && s.ents[0].lastUnmap == 1
  {
    s0 := Start(n);
    s := RunTyping(s0, n);
    s := RunMapping(s0, s, n);
    s := RunUnmapping(s0, s, n);
    s := RunDeref(s0, s, n);
    s := RunRelease(s0, s, n);
  }

  /** Only the first core's place and the global type change. */
  ghost predicate SameMemory(s: State, s': State) {
    s'.ents == s.ents && s'.tlb == s.tlb && s'.mandatory == s.mandatory && s'.clock == s.clock
  }

  lemma TakeLock(s0: State, s1: State, n: nat) returns (s: State)
    requires Reaches(s0, s1) && Looks(s1, n, User, Idle, Other(8))
    ensures Reaches(s0, s) && Looks(s, n, Retyping, Locked(LockLoad(User, 0, 0, 0)), Other(8)) && SameMemory(s1, s)
  {
    s := TakeRetype(s0, s1, StartFrame);
    s := TakeRetype(s0, s, CasFrame);
  }

  /** The first core then retypes the set. */
  lemma RunFrame(s0: State, s1: State, n: nat) returns (s: State)
    requires Reaches(s0, s1) && Looks(s1, n, User, Idle, Other(8))
    requires Words(s1, n, Word(User, 0), Word(User, 0), 1) && Stale(s1, n - 1) && s1.ents[0].lastUnmap == 1
    ensures Reaches(s0, s) && Looks(s, n, Retyping, Locked(CheckSum(User, 0, 1)), Other(8))
    ensures Words(s, n, Word(Retyping, 0), Word(User, 0), 1) && Stale(s, n - 1)
  {
    s := TakeLock(s0, s1, n);
    s := RunLock(s0, s, n, 0, 0);
  }

  lemma RunTests(s0: State, s1: State, n: nat) returns (s: State)
    requires Reaches(s0, s1) && Looks(s1, n, Retyping, Locked(CheckSum(User, 0, 1)), Other(8))
    requires Words(s1, n, Word(Retyping, 0), Word(User, 0), 1) && Stale(s1, n - 1)
    ensures Reaches(s0, s) && Looks(s, n, Retyping, Locked(CheckMandatory(User, 1, 0)), Other(8))
    ensures Words(s, n, Word(Retyping, 0), Word(User, 0), 1) && Stale(s, n - 1)
  {
    s := TakeTests(s0, s1, n);
  }

  lemma TakeTests(s0: State, s1: State, n: nat) returns (s: State)
    requires Reaches(s0, s1) && Looks(s1, n, Retyping, Locked(CheckSum(User, 0, 1)), Other(8))
    ensures Reaches(s0, s) && Looks(s, n, Retyping, Locked(CheckMandatory(User, 1, 0)), Other(8)) && SameMemory(s1, s)
  {
    s := TakeRetype(s0, s1, TestSum);
    s := TakeRetype(s0, s, TestPeriodic);
  }

  lemma RunEnd(s0: State, s1: State, n: nat) returns (s: State)
    requires Reaches(s0, s1) && Looks(s1, n, Retyping, Locked(CheckMandatory(User, 1, 0)), Other(8))
    requires Words(s1, n, Word(Retyping, 0), Word(User, 0), 1) && Stale(s1, n - 1)
    ensures Reaches(s0, s) && Looks(s, n, Retyping, Clearing(FrameCommit), Other(8)) && Stale(s, n - 1)
  {
    s := RunCheck(s0, s1, n, 0);
    assert Words(s, 0, Word(Untyped, 0), Word(Retyping, 0), 1);
    s := RunClear(s0, s, n, 0);
  }

  /** A retype to untyped frames is about to commit in a run of n cores. */
  ghost predicate Commits(n: nat, s0: State, s: State) {
    && Init(s0) && |s0.ents| == n && Reaches(s0, s)
    && Shape(s) && exists c :: 0 <= c < |s.ops| && Enabled(s, c, CommitFrame)
  }

  lemma CanCommit(n: nat, s0: State, s: State)
    requires Init(s0) && |s0.ents| == n && Reaches(s0, s)
    requires Looks(s, n, Retyping, Clearing(FrameCommit), Other(8)) && Stale(s, n - 1)
    ensures Commits(n, s0, s) && |s.tlb| == n && s.tlb[n - 1] != {}
  {
    assert Enabled(s, 0, CommitFrame);
  }

  /** On any number of cores but one, the core left out of the check (NUM_CPU_COS is one less
      than NUM_CPU) can still cache a translation to the set when the retype commits. */
  lemma LastCoreCanStayStale(n: nat) returns (s0: State, s: State)
    requires n >= 2
    ensures Commits(n, s0, s) && |s.tlb| == n && s.tlb[n - 1] != {}
  {
    s0, s := RunUser(n);
    s := RunFlush(s0, s, n, 0);
    s := RunFrame(s0, s, n);
    s := RunTests(s0, s, n);
    s := RunEnd(s0, s, n);
    CanCommit(n, s0, s);
  }

  /** No run of n cores commits while a TLB caches the set. */
  ghost predicate AlwaysFlushed(n: nat) {
    forall s0, s :: Commits(n, s0, s) ==> forall d :: 0 <= d < |s.tlb| ==> s.tlb[d] == {}
  }

  lemma OneCoreIsFlushed(s0: State, s: State)
    requires Commits(1, s0, s)
    ensures forall d :: 0 <= d < |s.tlb| ==> s.tlb[d] == {}
  {
    var steps :| CanRun(s0, steps) && Final(s0, steps) == s;
    var c :| 0 <= c < |s.ops| && Enabled(s, c, CommitFrame);
    RunSize(s0, steps);
    CommitIsSafe(s0, steps, c);
  }

  /** A commit finds every TLB flushed, in every run, exactly on a machine with one core. */
  lemma FlushedExactly(n: nat)
    requires n >= 1
    ensures AlwaysFlushed(n) <==> n == 1
  {
    if n == 1 {
      forall s0, s | Commits(n, s0, s) ensures forall d :: 0 <= d < |s.tlb| ==> s.tlb[d] == {} {
        OneCoreIsFlushed(s0, s);
      }
    } else {
      var s0, s := LastCoreCanStayStale(n);
    }
  }
}
